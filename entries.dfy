/** The per-user entry sequence: lookup by date and the upsert that AddEntry
    performs, with the invariant that no two entries share a date. */
module Entries {
  import opened Models
  import opened Storage

  predicate SameDate(e: MoodEntry, day: int, month: int) {
    e.day == day && e.month == month
  }

  /** No two entries of the sequence fall on the same (month, day). */
  ghost predicate UniqueDates(s: seq<MoodEntry>) {
    forall i, j :: 0 <= i < j < |s| ==> !SameDate(s[j], s[i].day, s[i].month)
  }

  /** An entry AddEntry could have stored: a real calendar date and a known mood. */
  ghost predicate WellFormedEntry(e: MoodEntry) {
    IsValidMonth(e.month) && IsValidDay(e.day, e.month) && e.mood in ValidMoods
  }

  ghost predicate WellFormedEntries(s: seq<MoodEntry>) {
    UniqueDates(s) && forall e :: e in s ==> WellFormedEntry(e)
  }

  /** Position of the first entry on (month, day), scanning in insertion order. */
  function IndexOf(s: seq<MoodEntry>, day: int, month: int): (r: Option<nat>)
    ensures r.Some? ==> r.value < |s| && SameDate(s[r.value], day, month)
    ensures r.Some? ==> forall j :: 0 <= j < r.value ==> !SameDate(s[j], day, month)
    ensures r.None? <==> forall j :: 0 <= j < |s| ==> !SameDate(s[j], day, month)
  {
    if s == [] then None
    else if SameDate(s[0], day, month) then Some(0)
    else match IndexOf(s[1..], day, month)
      case None => None
      case Some(k) => Some(k + 1)
  }

  /** The first entry on (month, day), if any. */
  function Find(s: seq<MoodEntry>, day: int, month: int): (r: Option<MoodEntry>)
    ensures r.Some? ==> r.value in s && SameDate(r.value, day, month)
    ensures r.Some? ==> IndexOf(s, day, month).Some? && r.value == s[IndexOf(s, day, month).value]
    ensures r.None? <==> forall e :: e in s ==> !SameDate(e, day, month)
  {
    match IndexOf(s, day, month)
    case Some(i) => Some(s[i])
    case None => None
  }

  /** With unique dates the first match is the only one: Find returns an entry
      exactly when that entry is in the sequence on the requested date. */
  lemma FindUnique(s: seq<MoodEntry>, day: int, month: int, e: MoodEntry)
    requires UniqueDates(s)
    ensures Find(s, day, month) == Some(e) <==> e in s && SameDate(e, day, month)
  {
    if e in s && SameDate(e, day, month) {
      var k :| 0 <= k < |s| && s[k] == e;
      var i := IndexOf(s, day, month).value;
      assert i <= k;
    }
  }

  /** A matching entry with no match before it is the first match. */
  lemma IndexOfAt(s: seq<MoodEntry>, day: int, month: int, i: nat)
    requires i < |s| && SameDate(s[i], day, month)
    requires forall j :: 0 <= j < i ==> !SameDate(s[j], day, month)
    ensures IndexOf(s, day, month) == Some(i)
  {
  }

  datatype UpsertResult = UpsertResult(entries: seq<MoodEntry>, updated: bool)

  /** Reference definition of the date-keyed upsert: walk the sequence; at the
      first entry on (month, day) replace its mood and stop; past the end
      append a new entry. `updated` tells which of the two happened. */
  function Upsert(s: seq<MoodEntry>, day: int, month: int, mood: string): (r: UpsertResult)
    ensures r.updated <==> exists e :: e in s && SameDate(e, day, month)
    ensures |r.entries| == if r.updated then |s| else |s| + 1
  {
    if s == [] then UpsertResult([MoodEntry(day, month, mood)], false)
    else if SameDate(s[0], day, month) then UpsertResult([s[0].(mood := mood)] + s[1..], true)
    else
      var rest := Upsert(s[1..], day, month, mood);
      assert forall e :: e in s[1..] ==> e in s;
      UpsertResult([s[0]] + rest.entries, rest.updated)
  }

  /** The upsert by position: when an entry on the date exists, only the first
      such entry changes, and only its mood; otherwise one entry is appended
      at the end. */
  lemma {:induction false} UpsertSpec(s: seq<MoodEntry>, day: int, month: int, mood: string)
    ensures IndexOf(s, day, month).Some? ==>
      var i := IndexOf(s, day, month).value;
      Upsert(s, day, month, mood) == UpsertResult(s[i := s[i].(mood := mood)], true)
    ensures IndexOf(s, day, month).None? ==>
      Upsert(s, day, month, mood) == UpsertResult(s + [MoodEntry(day, month, mood)], false)
  {
    if s != [] && !SameDate(s[0], day, month) {
      UpsertSpec(s[1..], day, month, mood);
      assert [s[0]] + s[1..] == s;
      match IndexOf(s[1..], day, month)
      case None =>
        assert [s[0]] + (s[1..] + [MoodEntry(day, month, mood)]) == s + [MoodEntry(day, month, mood)];
      case Some(k) =>
        var k' := IndexOf(s[1..], day, month).value;
        assert [s[0]] + s[1..][k' := s[1..][k'].(mood := mood)] == s[k' + 1 := s[k' + 1].(mood := mood)];
    }
  }

  /** After the upsert the date is found and carries the new mood. */
  lemma UpsertThenFind(s: seq<MoodEntry>, day: int, month: int, mood: string)
    ensures Find(Upsert(s, day, month, mood).entries, day, month) == Some(MoodEntry(day, month, mood))
  {
    UpsertSpec(s, day, month, mood);
    var t := Upsert(s, day, month, mood).entries;
    match IndexOf(s, day, month)
    case Some(i) =>
      IndexOfAt(t, day, month, i);
    case None =>
      IndexOfAt(t, day, month, |s|);
  }

  /** Lookups of every other date see the same entry before and after. */
  lemma UpsertKeepsOtherDates(s: seq<MoodEntry>, day: int, month: int, mood: string, d: int, m: int)
    requires d != day || m != month
    ensures Find(Upsert(s, day, month, mood).entries, d, m) == Find(s, d, m)
  {
    UpsertSpec(s, day, month, mood);
    var t := Upsert(s, day, month, mood).entries;
    assert forall j :: 0 <= j < |s| ==> (SameDate(t[j], d, m) <==> SameDate(s[j], d, m)) by {
      assert forall j :: 0 <= j < |s| ==> t[j].day == s[j].day && t[j].month == s[j].month;
    }
    match IndexOf(s, d, m)
    case Some(i) =>
      assert t[i] == s[i];
      IndexOfAt(t, d, m, i);
    case None =>
      assert !SameDate(MoodEntry(day, month, mood), d, m);
      assert IndexOf(t, d, m).None?;
  }

  /** Every entry after the upsert was already there or is the requested one. */
  lemma UpsertAddsOnly(s: seq<MoodEntry>, day: int, month: int, mood: string)
    ensures forall e :: e in Upsert(s, day, month, mood).entries ==> e in s || e == MoodEntry(day, month, mood)
  {
    UpsertSpec(s, day, month, mood);
    var t := Upsert(s, day, month, mood).entries;
    forall e | e in t ensures e in s || e == MoodEntry(day, month, mood) {
      var k :| 0 <= k < |t| && t[k] == e;
      if k < |s| && t[k] != s[k] {
        assert e == MoodEntry(day, month, mood);
      }
    }
  }

  /** The upsert keeps "at most one entry per date". */
  lemma UpsertKeepsUniqueDates(s: seq<MoodEntry>, day: int, month: int, mood: string)
    requires UniqueDates(s)
    ensures UniqueDates(Upsert(s, day, month, mood).entries)
  {
    UpsertSpec(s, day, month, mood);
    var t := Upsert(s, day, month, mood).entries;
    assert forall j :: 0 <= j < |s| ==> t[j].day == s[j].day && t[j].month == s[j].month;
  }

  /** Well-formed entries stay well-formed when a well-formed date and mood are upserted. */
  lemma UpsertKeepsWellFormed(s: seq<MoodEntry>, day: int, month: int, mood: string)
    requires WellFormedEntries(s)
    requires WellFormedEntry(MoodEntry(day, month, mood))
    ensures WellFormedEntries(Upsert(s, day, month, mood).entries)
  {
    UpsertKeepsUniqueDates(s, day, month, mood);
    UpsertAddsOnly(s, day, month, mood);
  }

  /** Upserting the same entry twice leaves the first result in place and the
      second call reports an update. */
  lemma UpsertTwice(s: seq<MoodEntry>, day: int, month: int, mood: string)
    ensures var once := Upsert(s, day, month, mood);
      Upsert(once.entries, day, month, mood) == UpsertResult(once.entries, true)
  {
    var once := Upsert(s, day, month, mood);
    UpsertThenFind(s, day, month, mood);
    UpsertSpec(once.entries, day, month, mood);
    var i := IndexOf(once.entries, day, month).value;
    assert once.entries[i] == MoodEntry(day, month, mood);
    assert once.entries[i := once.entries[i].(mood := mood)] == once.entries;
  }
}
