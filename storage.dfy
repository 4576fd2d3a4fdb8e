/** Date and mood validation on a fixed non-leap calendar, and the two
    in-memory directory accessors. Loading and saving the snapshot file are
    not part of this module. */
module Storage {
  import opened Models

  /** Length of a month in a non-leap year; any number that is not 2, 4, 6,
      9 or 11 (out-of-range ones included) falls through to 31. */
  function DaysInMonth(month: int): (days: int)
    ensures days == 28 || days == 30 || days == 31
    ensures days == 28 <==> month == 2
    ensures days == 30 <==> month == 4 || month == 6 || month == 9 || month == 11
  {
    match month
    case 2 => 28
    case 4 | 6 | 9 | 11 => 30
    case _ => 31
  }

  /** A sanity example for the table: with no leap-year case, the twelve
      months add up to a 365-day year. */
  lemma YearHas365Days()
    ensures DaysInMonth(1) + DaysInMonth(2) + DaysInMonth(3) + DaysInMonth(4)
          + DaysInMonth(5) + DaysInMonth(6) + DaysInMonth(7) + DaysInMonth(8)
          + DaysInMonth(9) + DaysInMonth(10) + DaysInMonth(11) + DaysInMonth(12) == 365
  {
  }

  /** A month number is valid exactly when it names one of the twelve months. */
  function IsValidMonth(month: int): (valid: bool)
    ensures valid <==> 0 <= month - 1 < |Months|
  {
    month >= 1 && month <= 12
  }

  /** A day is valid for a month when it lies between 1 and that month's length. */
  function IsValidDay(day: int, month: int): (valid: bool)
    ensures valid ==> 1 <= day <= 31
    ensures valid <==> 1 <= day <= DaysInMonth(month)
  {
    var maxDay := DaysInMonth(month);
    day >= 1 && day <= maxDay
  }

  /** The table rejects 29 February and 31 April and accepts 30 April. */
  lemma IsValidDayExamples()
    ensures !IsValidDay(29, 2) && !IsValidDay(31, 4) && IsValidDay(30, 4)
    ensures IsValidDay(31, 13) && !IsValidDay(0, 1)
  {
  }

  /** Linear search of ValidMoods with an early return on the first equal label. */
  method IsValidMood(mood: string) returns (valid: bool)
    ensures valid <==> mood in ValidMoods
    ensures valid <==> (mood == MoodSad || mood == MoodCalm || mood == MoodNeutral ||
                        mood == MoodHappy || mood == MoodAngry)
  {
    for i := 0 to |ValidMoods|
      invariant forall j :: 0 <= j < i ==> ValidMoods[j] != mood
    {
      if mood == ValidMoods[i] {
        return true;
      }
    }
    return false;
  }

  /** A copy of the stored record and whether the name is a key; an absent
      name yields the zero User (empty name, no entries). */
  function GetUser(app: App, username: string): (r: (User, bool))
    reads app
    ensures r.1 <==> username in app.users
    ensures r.1 ==> r.0 == app.users[username]
    ensures !r.1 ==> r.0 == User("", [])
  {
    if username in app.users then (app.users[username], true) else (User("", []), false)
  }

  /** Stores `user` under its own name, replacing any earlier record. */
  method UpdateUser(app: App, user: User)
    modifies app`users
    ensures app.users == old(app.users)[user.username := user]
    ensures GetUser(app, user.username) == (user, true)
    ensures forall k :: k != user.username ==> GetUser(app, k) == old(GetUser(app, k))
  {
    app.users := app.users[user.username := user];
  }
}
