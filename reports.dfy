/** Month-scoped counts over a user's entries: the per-mood tally of the
    general report and the single count of the mood report. */
module Reports {
  import opened Models

  /** Number of entries dated in `month`. */
  function CountMonth(s: seq<MoodEntry>, month: int): (n: nat)
    ensures n <= |s|
  {
    if s == [] then 0
    else CountMonth(s[..|s| - 1], month) + (if s[|s| - 1].month == month then 1 else 0)
  }

  /** Number of entries dated in `month` whose mood is exactly `mood`. */
  function CountMonthMood(s: seq<MoodEntry>, month: int, mood: string): (n: nat)
    ensures n <= CountMonth(s, month)
  {
    if s == [] then 0
    else
      var last := s[|s| - 1];
      CountMonthMood(s[..|s| - 1], month, mood) + (if last.month == month && last.mood == mood then 1 else 0)
  }

  /** The moods that occur at least once in `month`. */
  function MoodsInMonth(s: seq<MoodEntry>, month: int): (moods: set<string>)
    ensures forall e :: e in s && e.month == month ==> e.mood in moods
  {
    set e | e in s && e.month == month :: e.mood
  }

  /** Reference value of the general report: each mood seen in `month`,
      mapped to its number of entries there. No listed count is zero, and
      none exceeds the month's entry count. */
  function MonthCounts(s: seq<MoodEntry>, month: int): (counts: map<string, nat>)
    ensures counts.Keys == MoodsInMonth(s, month)
    ensures forall mood :: mood in counts ==> 0 < counts[mood] <= CountMonth(s, month)
  {
    CountsPositive(s, month);
    map mood | mood in MoodsInMonth(s, month) :: CountMonthMood(s, month, mood)
  }

  /** Reading a count map the way a map of ints is read when the key is
      missing: as zero. */
  function Lookup(counts: map<string, nat>, mood: string): nat {
    if mood in counts then counts[mood] else 0
  }

  /** Sum of the counts of the listed moods. */
  function SumOver(moods: seq<string>, counts: map<string, nat>): nat {
    if moods == [] then 0 else Lookup(counts, moods[0]) + SumOver(moods[1..], counts)
  }

  lemma MoodsInMonthAppend(s: seq<MoodEntry>, e: MoodEntry, month: int)
    ensures MoodsInMonth(s + [e], month) ==
      MoodsInMonth(s, month) + (if e.month == month then {e.mood} else {})
  {
    var t := s + [e];
    assert forall x :: x in t <==> x in s || x == e;
  }

  /** A mood is counted at least once exactly when it occurs in the month. */
  lemma {:induction false} CountPositive(s: seq<MoodEntry>, month: int, mood: string)
    ensures CountMonthMood(s, month, mood) > 0 <==> mood in MoodsInMonth(s, month)
  {
    if s != [] {
      var p := s[..|s| - 1];
      assert s == p + [s[|s| - 1]];
      CountPositive(p, month, mood);
      MoodsInMonthAppend(p, s[|s| - 1], month);
    }
  }

  /** CountPositive for every mood that occurs in the month at once. */
  lemma CountsPositive(s: seq<MoodEntry>, month: int)
    ensures forall mood :: mood in MoodsInMonth(s, month) ==> CountMonthMood(s, month, mood) > 0
  {
    forall mood | mood in MoodsInMonth(s, month) ensures CountMonthMood(s, month, mood) > 0 {
      CountPositive(s, month, mood);
    }
  }

  /** The general report lists exactly the moods with a non-zero count, and
      each listed count is the mood report's count for that mood. */
  lemma MonthCountsSpec(s: seq<MoodEntry>, month: int, mood: string)
    ensures mood in MonthCounts(s, month) <==> CountMonthMood(s, month, mood) > 0
    ensures Lookup(MonthCounts(s, month), mood) == CountMonthMood(s, month, mood)
  {
    CountPositive(s, month, mood);
  }

  /** The report is empty exactly when no entry is dated in the month. */
  lemma {:induction false} MonthCountsEmpty(s: seq<MoodEntry>, month: int)
    ensures MonthCounts(s, month) == map[] <==> CountMonth(s, month) == 0
    ensures CountMonth(s, month) == 0 <==> forall e :: e in s ==> e.month != month
  {
    if s != [] {
      var p, last := s[..|s| - 1], s[|s| - 1];
      assert s == p + [last];
      MonthCountsEmpty(p, month);
      MoodsInMonthAppend(p, last, month);
      if last.month == month {
        assert last.mood in MonthCounts(s, month);
      }
    }
  }

  /** What the general report says: it is empty iff no entry is in the
      month, and every mood reads as its count in the month. */
  lemma MonthCountsMeaning(s: seq<MoodEntry>, month: int)
    ensures MonthCounts(s, month) == map[] <==> forall e :: e in s ==> e.month != month
    ensures forall mood :: Lookup(MonthCounts(s, month), mood) == CountMonthMood(s, month, mood)
  {
    MonthCountsEmpty(s, month);
    forall mood ensures Lookup(MonthCounts(s, month), mood) == CountMonthMood(s, month, mood) {
      MonthCountsSpec(s, month, mood);
    }
  }

  lemma CountsAppend(s: seq<MoodEntry>, e: MoodEntry, month: int, mood: string)
    ensures CountMonth(s + [e], month) == CountMonth(s, month) + (if e.month == month then 1 else 0)
    ensures CountMonthMood(s + [e], month, mood) ==
      CountMonthMood(s, month, mood) + (if e.month == month && e.mood == mood then 1 else 0)
  {
    var t := s + [e];
    assert t[..|t| - 1] == s && t[|t| - 1] == e;
  }

  /** Counting one more entry: an entry in the month adds one to its mood's
      count (creating the key at one); any other entry changes nothing. */
  lemma MonthCountsAppend(s: seq<MoodEntry>, e: MoodEntry, month: int)
    ensures MonthCounts(s + [e], month) ==
      if e.month == month
      then MonthCounts(s, month)[e.mood := Lookup(MonthCounts(s, month), e.mood) + 1]
      else MonthCounts(s, month)
  {
    var before, after := MonthCounts(s, month), MonthCounts(s + [e], month);
    var expected := if e.month == month then before[e.mood := Lookup(before, e.mood) + 1] else before;
    MoodsInMonthAppend(s, e, month);
    assert after.Keys == expected.Keys;
    forall x | x in after ensures after[x] == expected[x] {
      CountsAppend(s, e, month, x);
      MonthCountsSpec(s, month, x);
    }
  }

  /** MonthCountsAppend for the prefixes of one sequence, as a counting loop visits them. */
  lemma MonthCountsPrefix(s: seq<MoodEntry>, i: nat, month: int)
    requires i < |s|
    ensures MonthCounts(s[..i + 1], month) ==
      if s[i].month == month
      then MonthCounts(s[..i], month)[s[i].mood := Lookup(MonthCounts(s[..i], month), s[i].mood) + 1]
      else MonthCounts(s[..i], month)
  {
    assert s[..i + 1] == s[..i] + [s[i]];
    MonthCountsAppend(s[..i], s[i], month);
  }

  lemma {:induction false} SumOverEmpty(moods: seq<string>)
    ensures SumOver(moods, map[]) == 0
  {
    if moods != [] {
      SumOverEmpty(moods[1..]);
    }
  }

  /** Adding one to a mood's count adds one to the sum when that mood is listed once. */
  lemma {:induction false} SumOverBump(moods: seq<string>, counts: map<string, nat>, mood: string)
    requires Distinct(moods)
    ensures SumOver(moods, counts[mood := Lookup(counts, mood) + 1]) ==
      SumOver(moods, counts) + (if mood in moods then 1 else 0)
  {
    if moods != [] {
      assert Distinct(moods[1..]) by {
        forall i, j | 0 <= i < j < |moods[1..]| ensures moods[1..][i] != moods[1..][j] {
          assert moods[1..][i] == moods[i + 1] && moods[1..][j] == moods[j + 1];
        }
      }
      SumOverBump(moods[1..], counts, mood);
      assert mood in moods <==> mood == moods[0] || mood in moods[1..];
      if mood == moods[0] {
        assert mood !in moods[1..] by {
          forall k | 0 <= k < |moods[1..]| ensures moods[1..][k] != mood {
            assert moods[1..][k] == moods[k + 1];
          }
        }
      }
    }
  }

  /** One more entry whose mood is listed keeps the report's total equal to the month's count. */
  lemma ReportTotalAppend(s: seq<MoodEntry>, e: MoodEntry, month: int, moods: seq<string>)
    requires Distinct(moods) && e.mood in moods
    requires SumOver(moods, MonthCounts(s, month)) == CountMonth(s, month)
    ensures SumOver(moods, MonthCounts(s + [e], month)) == CountMonth(s + [e], month)
  {
    CountsAppend(s, e, month, e.mood);
    MonthCountsAppend(s, e, month);
    if e.month == month {
      SumOverBump(moods, MonthCounts(s, month), e.mood);
    }
  }

  /** When every entry's mood is one of the listed distinct moods, the
      general report's counts for them add up to the month's entry count. */
  lemma {:induction false} ReportTotal(s: seq<MoodEntry>, month: int, moods: seq<string>)
    requires Distinct(moods)
    requires forall e :: e in s ==> e.mood in moods
    ensures SumOver(moods, MonthCounts(s, month)) == CountMonth(s, month)
  {
    if s == [] {
      MonthCountsEmpty(s, month);
      SumOverEmpty(moods);
    } else {
      var p, last := s[..|s| - 1], s[|s| - 1];
      assert s == p + [last];
      assert forall e :: e in p ==> e in s;
      ReportTotal(p, month, moods);
      ReportTotalAppend(p, last, month, moods);
    }
  }

  /** Two sad days and one happy day in June give {sad: 2, happy: 1}; the
      other three moods are absent rather than zero. */
  lemma JuneReportExample()
    ensures MonthCounts([MoodEntry(1, 6, MoodSad), MoodEntry(2, 6, MoodSad), MoodEntry(3, 6, MoodHappy)], 6)
         == map[MoodSad := 2, MoodHappy := 1]
  {
    var a, b, c := MoodEntry(1, 6, MoodSad), MoodEntry(2, 6, MoodSad), MoodEntry(3, 6, MoodHappy);
    var s := [a, b, c];
    assert s[..0] == [];
    MonthCountsPrefix(s, 0, 6);
    assert MonthCounts(s[..1], 6) == map[MoodSad := 1];
    MonthCountsPrefix(s, 1, 6);
    assert MonthCounts(s[..2], 6) == map[MoodSad := 2];
    MonthCountsPrefix(s, 2, 6);
    assert MoodHappy !in map[MoodSad := 2];
    assert s[..3] == s;
  }
}
