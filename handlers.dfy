/** The request handlers of the diary with the HTTP layer removed: each takes
    already-parsed arguments, updates the shared App in place and returns the
    kind of response it would send. */
module Handlers {
  import opened Models
  import opened Storage
  import opened Entries
  import opened Reports

  /** Why a request was answered with 400 Bad Request. */
  datatype Reason =
    | MalformedRequest   // the JSON body failed its binding rules
    | InvalidDay         // the day does not exist in the given month
    | InvalidMood        // the mood is not one of the five labels
    | InvalidDate        // ViewEntry: the month is out of range
    | InvalidMonth       // the reports: the month is out of range
    | MissingParameters  // MoodReport: the mood parameter is empty

  datatype Response =
    | Registered(username: string)                        // 201, Register
    | LoggedIn(username: string)                          // 200, Login
    | Switched(username: string)                          // 200, SwitchUser
    | EntryCreated                                        // 201, AddEntry appended
    | EntryUpdated                                        // 200, AddEntry replaced a mood
    | Found(entry: MoodEntry)                             // 200, ViewEntry
    | Report(month: int, counts: map<string, nat>)        // 200, GeneralReport
    | NoEntries(month: int)                               // 200, GeneralReport on an empty month
    | MoodCount(month: int, mood: string, count: nat)     // 200, MoodReport
    | AllEntries(username: string, entries: seq<MoodEntry>) // 200, GetAllEntries
    | UserInfo(username: string, entriesCount: nat)       // 200, GetCurrentUser
    | BadRequest(reason: Reason)                          // 400
    | Unauthorized                                        // 401, no active user
    | NotFound                                            // 404
    | Conflict                                            // 409, name already taken
    | SaveFailed                                          // 500, the snapshot could not be written

  /** The binding rules of AddEntry's body: day 1..31, month 1..12, a non-empty mood.
      A body that binds always names a valid month, and every real date with a
      known mood binds, so the later day and mood checks only narrow it. */
  function EntryBinds(day: int, month: int, mood: string): (binds: bool)
    ensures binds ==> IsValidMonth(month)
    ensures IsValidMonth(month) && IsValidDay(day, month) && mood in ValidMoods ==> binds
  {
    1 <= day <= 31 && 1 <= month <= 12 && mood != ""
  }

  /** The directory invariant: every key is a non-empty name that matches
      its record, every record's entries are well-formed with one entry per
      date, and the active user, when there is one, equals its directory record. */
  ghost function Directory(users: map<string, User>, current: Option<User>): (ok: bool)
    ensures ok ==> "" !in users
    ensures ok && current.Some? ==>
      current.value.username != "" && WellFormedEntries(current.value.entries)
  {
    && (forall name :: name in users ==>
          name != "" && users[name].username == name && WellFormedEntries(users[name].entries))
    && (current.Some? ==> current.value.username in users && users[current.value.username] == current.value)
  }

  /** The state after loading finds no snapshot file: no users, no active user. */
  lemma EmptyDirectoryValid()
    ensures Directory(map[], None)
  {
  }

  /** The general report of the active user counts each of its month entries
      exactly once: the counts of the five labels add up to the month total. */
  lemma ActiveReportTotal(users: map<string, User>, cur: User, month: int)
    requires Directory(users, Some(cur))
    ensures SumOver(ValidMoods, MonthCounts(cur.entries, month)) == CountMonth(cur.entries, month)
  {
    ValidMoodsAreTheFiveLabels();
    ReportTotal(cur.entries, month, ValidMoods);
  }

  /** Replacing the active user's entries with well-formed ones, in the active
      copy and in the directory alike, keeps the invariant. */
  lemma DirectoryWriteBack(users: map<string, User>, cur: User, entries: seq<MoodEntry>)
    requires Directory(users, Some(cur))
    requires WellFormedEntries(entries)
    ensures Directory(users[cur.username := User(cur.username, entries)], Some(User(cur.username, entries)))
  {
  }

  class Handler {
    const app: App

    constructor (app: App)
      ensures this.app == app
      ensures app.users == map[] && app.currentUser == None ==> Valid()
    {
      this.app := app;
      EmptyDirectoryValid();
    }

    /** The directory invariant of the current state. Under it, the active
        user is exactly what GetUser returns for its own name. */
    ghost function Valid(): (ok: bool)
      reads this, app
      ensures ok ==> "" !in app.users
      ensures ok && app.currentUser.Some? ==>
        GetUser(app, app.currentUser.value.username) == (app.currentUser.value, true)
    {
      Directory(app.users, app.currentUser)
    }

    /** Creates an account with no entries and makes it the active user. The
        snapshot is written after the change; `saveOk` is that write's outcome,
        and a failed write is reported without undoing the change. */
    method Register(username: string, saveOk: bool) returns (r: Response)
      modifies app
      ensures username == "" ==> r == BadRequest(MalformedRequest) && unchanged(app)
      ensures username != "" && username in old(app.users) ==> r == Conflict && unchanged(app)
      ensures username != "" && username !in old(app.users) ==>
        && app.users == old(app.users)[username := User(username, [])]
        && app.currentUser == Some(User(username, []))
        && r == (if saveOk then Registered(username) else SaveFailed)
      ensures forall name :: name in old(app.users) ==> name in app.users && app.users[name] == old(app.users[name])
      ensures old(Valid()) ==> Valid()
    {
      if username == "" {
        return BadRequest(MalformedRequest);
      }
      if username in app.users {
        return Conflict;
      }
      var user := User(username, []);
      app.users := app.users[username := user];
      app.currentUser := Some(user);
      if !saveOk {
        return SaveFailed;
      }
      return Registered(username);
    }

    /** Makes a stored user the active one; the directory is never written. */
    method Login(username: string) returns (r: Response)
      modifies app`currentUser
      ensures app.users == old(app.users)
      ensures username == "" ==> r == BadRequest(MalformedRequest) && app.currentUser == old(app.currentUser)
      ensures username != "" && username in app.users ==>
        r == LoggedIn(username) && app.currentUser == Some(app.users[username])
      ensures username != "" && username !in app.users ==>
        r == NotFound && app.currentUser == old(app.currentUser)
      ensures old(Valid()) ==> Valid()
    {
      if username == "" {
        return BadRequest(MalformedRequest);
      }
      if username in app.users {
        app.currentUser := Some(app.users[username]);
        return LoggedIn(username);
      }
      return NotFound;
    }

    /** The same transition as Login under another route and message. */
    method SwitchUser(username: string) returns (r: Response)
      modifies app`currentUser
      ensures app.users == old(app.users)
      ensures username == "" ==> r == BadRequest(MalformedRequest) && app.currentUser == old(app.currentUser)
      ensures username != "" && username in app.users ==>
        r == Switched(username) && app.currentUser == Some(app.users[username])
      ensures username != "" && username !in app.users ==>
        r == NotFound && app.currentUser == old(app.currentUser)
      ensures old(Valid()) ==> Valid()
    {
      if username == "" {
        return BadRequest(MalformedRequest);
      }
      if username in app.users {
        app.currentUser := Some(app.users[username]);
        return Switched(username);
      }
      return NotFound;
    }

    /** Records the active user's mood for a date: the first entry on that
        date gets the new mood in place, otherwise a new entry is appended.
        The updated user is written back into the directory, then the
        snapshot is written (`saveOk`), with no rollback when that fails. */
    method AddEntry(day: int, month: int, mood: string, saveOk: bool) returns (r: Response)
      modifies app
      ensures old(app.currentUser).None? ==> r == Unauthorized && unchanged(app)
      ensures old(app.currentUser).Some? && !EntryBinds(day, month, mood) ==>
        r == BadRequest(MalformedRequest) && unchanged(app)
      ensures old(app.currentUser).Some? && EntryBinds(day, month, mood) && !IsValidDay(day, month) ==>
        r == BadRequest(InvalidDay) && unchanged(app)
      ensures old(app.currentUser).Some? && EntryBinds(day, month, mood) && IsValidDay(day, month) &&
              mood !in ValidMoods ==>
        r == BadRequest(InvalidMood) && unchanged(app)
      ensures old(app.currentUser).Some? && EntryBinds(day, month, mood) && IsValidDay(day, month) &&
              mood in ValidMoods ==>
        var cur := old(app.currentUser).value;
        var up := Upsert(cur.entries, day, month, mood);
        && app.currentUser == Some(User(cur.username, up.entries))
        && app.users == old(app.users)[cur.username := User(cur.username, up.entries)]
        && r == (if !saveOk then SaveFailed else if up.updated then EntryUpdated else EntryCreated)
      ensures old(Valid()) ==> Valid()
    {
      ghost var wasValid := Valid();
      if app.currentUser.None? {
        return Unauthorized;
      }
      if !EntryBinds(day, month, mood) {
        return BadRequest(MalformedRequest);
      }
      if !IsValidDay(day, month) {
        return BadRequest(InvalidDay);
      }
      var moodOk := IsValidMood(mood);
      if !moodOk {
        return BadRequest(InvalidMood);
      }

      var cur := app.currentUser.value;
      var entries := cur.entries;
      var found := false;
      var i := 0;
      while i < |entries|
        invariant 0 <= i <= |entries|
        invariant !found && entries == cur.entries
        invariant forall j :: 0 <= j < i ==> !SameDate(entries[j], day, month)
      {
        if entries[i].month == month && entries[i].day == day {
          IndexOfAt(cur.entries, day, month, i);
          entries := entries[i := entries[i].(mood := mood)];
          found := true;
          break;
        }
        i := i + 1;
      }
      if !found {
        entries := entries + [MoodEntry(day, month, mood)];
      }
      UpsertSpec(cur.entries, day, month, mood);
      if wasValid {
        UpsertKeepsWellFormed(cur.entries, day, month, mood);
        DirectoryWriteBack(app.users, cur, entries);
      }

      var user := User(cur.username, entries);
      app.currentUser := Some(user);
      UpdateUser(app, user);

      if !saveOk {
        return SaveFailed;
      }
      if found {
        return EntryUpdated;
      }
      return EntryCreated;
    }

    /** Looks up the active user's entry for a date, first match in insertion order. */
    method ViewEntry(day: int, month: int) returns (r: Response)
      ensures app.currentUser.None? ==> r == Unauthorized
      ensures app.currentUser.Some? && !IsValidMonth(month) ==> r == BadRequest(InvalidDate)
      ensures app.currentUser.Some? && IsValidMonth(month) && !IsValidDay(day, month) ==>
        r == BadRequest(InvalidDay)
      ensures app.currentUser.Some? && IsValidMonth(month) && IsValidDay(day, month) ==>
        r == match Find(app.currentUser.value.entries, day, month)
             case Some(e) => Found(e)
             case None => NotFound
      ensures r.Found? ==> r.entry in app.currentUser.value.entries && SameDate(r.entry, day, month)
      ensures Valid() && r.Found? ==> r.entry in app.users[app.currentUser.value.username].entries
    {
      if app.currentUser.None? {
        return Unauthorized;
      }
      if !IsValidMonth(month) {
        return BadRequest(InvalidDate);
      }
      if !IsValidDay(day, month) {
        return BadRequest(InvalidDay);
      }
      var entries := app.currentUser.value.entries;
      for i := 0 to |entries|
        invariant forall j :: 0 <= j < i ==> !SameDate(entries[j], day, month)
      {
        if entries[i].month == month && entries[i].day == day {
          IndexOfAt(entries, day, month, i);
          return Found(entries[i]);
        }
      }
      return NotFound;
    }

    /** Per-mood counts of the active user's entries in a month; a month with
        no entries is answered with NoEntries rather than an empty table. */
    method GeneralReport(month: int) returns (r: Response)
      ensures app.currentUser.None? ==> r == Unauthorized
      ensures app.currentUser.Some? && !IsValidMonth(month) ==> r == BadRequest(InvalidMonth)
      ensures app.currentUser.Some? && IsValidMonth(month) ==>
        var entries := app.currentUser.value.entries;
        && (r == NoEntries(month) <==> forall e :: e in entries ==> e.month != month)
        && (r != NoEntries(month) ==> r == Report(month, MonthCounts(entries, month)))
      ensures r.Report? ==>
        forall mood :: Lookup(r.counts, mood) == CountMonthMood(app.currentUser.value.entries, month, mood)
      ensures Valid() && r.Report? ==>
        SumOver(ValidMoods, r.counts) == CountMonth(app.currentUser.value.entries, month)
    {
      if app.currentUser.None? {
        return Unauthorized;
      }
      if !IsValidMonth(month) {
        return BadRequest(InvalidMonth);
      }
      var entries := app.currentUser.value.entries;
      var counts: map<string, nat> := map[];
      for i := 0 to |entries|
        invariant counts == MonthCounts(entries[..i], month)
      {
        MonthCountsPrefix(entries, i, month);
        var entry := entries[i];
        if entry.month == month {
          counts := counts[entry.mood := Lookup(counts, entry.mood) + 1];
        }
      }
      assert entries[..|entries|] == entries;
      MonthCountsMeaning(entries, month);
      if Valid() {
        ActiveReportTotal(app.users, app.currentUser.value, month);
      }
      if |counts| == 0 {
        return NoEntries(month);
      }
      return Report(month, counts);
    }

    /** Number of the active user's entries in a month with one given mood;
        the mood is checked before the month. */
    method MoodReport(month: int, mood: string) returns (r: Response)
      ensures app.currentUser.None? ==> r == Unauthorized
      ensures app.currentUser.Some? && mood == "" ==> r == BadRequest(MissingParameters)
      ensures app.currentUser.Some? && mood != "" && mood !in ValidMoods ==> r == BadRequest(InvalidMood)
      ensures app.currentUser.Some? && mood in ValidMoods && !IsValidMonth(month) ==>
        r == BadRequest(InvalidMonth)
      ensures app.currentUser.Some? && mood in ValidMoods && IsValidMonth(month) ==>
        r == MoodCount(month, mood, CountMonthMood(app.currentUser.value.entries, month, mood))
      ensures r.MoodCount? ==> r.count == Lookup(MonthCounts(app.currentUser.value.entries, month), mood)
    {
      if app.currentUser.None? {
        return Unauthorized;
      }
      if mood == "" {
        return BadRequest(MissingParameters);
      }
      var moodOk := IsValidMood(mood);
      if !moodOk {
        return BadRequest(InvalidMood);
      }
      if !IsValidMonth(month) {
        return BadRequest(InvalidMonth);
      }
      var entries := app.currentUser.value.entries;
      var count := 0;
      for i := 0 to |entries|
        invariant count == CountMonthMood(entries[..i], month, mood)
      {
        assert entries[..i + 1][..i] == entries[..i];
        if entries[i].month == month && entries[i].mood == mood {
          count := count + 1;
        }
      }
      assert entries[..|entries|] == entries;
      MonthCountsSpec(entries, month, mood);
      return MoodCount(month, mood, count);
    }

    /** The active user's name and full entry sequence. */
    method GetAllEntries() returns (r: Response)
      ensures app.currentUser.None? ==> r == Unauthorized
      ensures app.currentUser.Some? ==>
        r == AllEntries(app.currentUser.value.username, app.currentUser.value.entries)
      ensures Valid() && r.AllEntries? ==> r.username in app.users && r.entries == app.users[r.username].entries
    {
      if app.currentUser.None? {
        return Unauthorized;
      }
      return AllEntries(app.currentUser.value.username, app.currentUser.value.entries);
    }

    /** The active user's name and number of entries. */
    method GetCurrentUser() returns (r: Response)
      ensures app.currentUser.None? ==> r == Unauthorized
      ensures app.currentUser.Some? ==>
        r == UserInfo(app.currentUser.value.username, |app.currentUser.value.entries|)
      ensures Valid() && r.UserInfo? ==>
        r.username in app.users && r.entriesCount == |app.users[r.username].entries|
    {
      if app.currentUser.None? {
        return Unauthorized;
      }
      return UserInfo(app.currentUser.value.username, |app.currentUser.value.entries|);
    }
  }

  /** A session driven through the handlers' contracts alone: a new account,
      the same date recorded twice, a lookup and a second registration. */
  method Session()
  {
    var app := new App(map[]);
    var h := new Handler(app);
    assert h.Valid();
    ValidMoodsAreTheFiveLabels();
    assert EntryBinds(10, 6, MoodHappy) && IsValidDay(10, 6);
    var r := h.AddEntry(10, 6, MoodHappy, true);
    assert r == Unauthorized;
    r := h.Register("alice", true);
    assert r == Registered("alice");
    r := h.AddEntry(10, 6, MoodHappy, true);
    assert r == EntryCreated;
    assert app.currentUser == Some(User("alice", [MoodEntry(10, 6, MoodHappy)]));
    assert Upsert([MoodEntry(10, 6, MoodHappy)], 10, 6, MoodCalm) == UpsertResult([MoodEntry(10, 6, MoodCalm)], true);
    r := h.AddEntry(10, 6, MoodCalm, true);
    assert r == EntryUpdated;
    assert app.users["alice"].entries == [MoodEntry(10, 6, MoodCalm)];
    assert IndexOf([MoodEntry(10, 6, MoodCalm)], 10, 6) == Some(0);
    r := h.ViewEntry(10, 6);
    assert r == Found(MoodEntry(10, 6, MoodCalm));
    assert !IsValidDay(31, 4);
    r := h.AddEntry(31, 4, MoodSad, true);
    assert r == BadRequest(InvalidDay);
    r := h.Register("alice", true);
    assert r == Conflict;
    assert CountMonthMood([MoodEntry(10, 6, MoodCalm)], 6, MoodHappy) == 0;
    r := h.MoodReport(6, MoodHappy);
    assert r == MoodCount(6, MoodHappy, 0);
    assert h.Valid();
  }
}
