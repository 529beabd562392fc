/** The mood-trend chart data of `stats` in app.py: for every day with entries, how many entries
    of each mood it has. */
module Trend {
  import opened Strings
  import opened Reflections

  // ---------------------------------------------------------------------------------------------
  // What the chart counts
  // ---------------------------------------------------------------------------------------------

  /** How many of the first `n` entries fall on day `d` with mood `m`. */
  function Tally(rs: seq<Reflection>, n: nat, d: string, m: string): (c: nat)
    requires n <= |rs|
    ensures c <= n
    decreases n
  {
    if n == 0 then 0
    else Tally(rs, n - 1, d, m) + (if Day(rs[n - 1]) == d && rs[n - 1].mood == m then 1 else 0)
  }

  /** How many of the first `n` entries fall on day `d`. */
  function DayTotal(rs: seq<Reflection>, n: nat, d: string): (c: nat)
    requires n <= |rs|
    ensures c <= n
    decreases n
  {
    if n == 0 then 0
    else DayTotal(rs, n - 1, d) + (if Day(rs[n - 1]) == d then 1 else 0)
  }

  /** The days of the first `n` entries. */
  function DaysOf(rs: seq<Reflection>, n: nat): (days: set<string>)
    requires n <= |rs|
    ensures forall j :: 0 <= j < n ==> Day(rs[j]) in days
    decreases n
  {
    if n == 0 then {} else DaysOf(rs, n - 1) + {Day(rs[n - 1])}
  }

  /** The moods of the first `n` entries. */
  function MoodsOf(rs: seq<Reflection>, n: nat): (moods: set<string>)
    requires n <= |rs|
    ensures forall j :: 0 <= j < n ==> rs[j].mood in moods
    decreases n
  {
    if n == 0 then {} else MoodsOf(rs, n - 1) + {rs[n - 1].mood}
  }

  /** A day and mood that some entry has are a listed day and a listed mood. */
  lemma {:induction false} TallyListed(rs: seq<Reflection>, n: nat, d: string, m: string)
    requires n <= |rs| && Tally(rs, n, d, m) > 0
    ensures d in DaysOf(rs, n) && m in MoodsOf(rs, n)
    decreases n
  {
    if Tally(rs, n - 1, d, m) > 0 {
      TallyListed(rs, n - 1, d, m);
    }
  }

  /** Every listed mood is the mood of an entry on some day. */
  lemma {:induction false} MoodHasDay(rs: seq<Reflection>, n: nat, m: string) returns (d: string)
    requires n <= |rs| && m in MoodsOf(rs, n)
    ensures Tally(rs, n, d, m) > 0
    decreases n
  {
    if rs[n - 1].mood == m {
      d := Day(rs[n - 1]);
    } else {
      d := MoodHasDay(rs, n - 1, m);
    }
  }

  // ---------------------------------------------------------------------------------------------
  // The chart data
  // ---------------------------------------------------------------------------------------------

  /** `mood_trend`: the sorted days, the sorted moods (the key order of `data`), and for each mood
      its count on each of the days. */
  datatype MoodTrend = MoodTrend(days: seq<string>, moods: seq<string>, data: map<string, seq<nat>>)

  /** `t` is the chart of the journal `rs`: every day and every mood of the journal once, in
      ascending order, and for each mood one count per day, the number of entries of that day
      with that mood. */
  ghost predicate IsTrendOf(rs: seq<Reflection>, t: MoodTrend) {
    && StrictlySorted(t.days)
    && (forall d :: d in t.days <==> d in DaysOf(rs, |rs|))
    && StrictlySorted(t.moods)
    && (forall m :: m in t.moods <==> m in MoodsOf(rs, |rs|))
    && (forall m :: m in t.data <==> m in t.moods)
    && (forall m :: m in t.data ==>
          && |t.data[m]| == |t.days|
          && forall k :: 0 <= k < |t.days| ==> t.data[m][k] == Tally(rs, |rs|, t.days[k], m))
  }

  /** `day_mood[day].get(mood, 0)` on the nested `defaultdict`. */
  function Get(dayMood: map<string, map<string, nat>>, d: string, m: string): nat {
    if d in dayMood && m in dayMood[d] then dayMood[d][m] else 0
  }

  /** `day_mood[day][mood] += 1` on the nested `defaultdict`. */
  function Bump(dayMood: map<string, map<string, nat>>, d: string, m: string): map<string, map<string, nat>> {
    var inner := if d in dayMood then dayMood[d] else map[];
    dayMood[d := inner[m := Get(dayMood, d, m) + 1]]
  }

  /** `dayMood` holds the counts of the first `i` entries: their days as keys, and under each day
      the moods of that day with their numbers of entries. */
  ghost predicate CountsOf(dayMood: map<string, map<string, nat>>, rs: seq<Reflection>, i: nat)
    requires i <= |rs|
  {
    && (forall d :: d in dayMood <==> d in DaysOf(rs, i))
    && (forall d, m :: d in dayMood ==> (m in dayMood[d] <==> Tally(rs, i, d, m) > 0))
    && (forall d, m :: Get(dayMood, d, m) == Tally(rs, i, d, m))
  }

  /** A bump adds one to one count, and its day and mood to the keys. */
  lemma BumpAt(dayMood: map<string, map<string, nat>>, day: string, mood: string, d: string, m: string)
    ensures d in Bump(dayMood, day, mood) <==> d in dayMood || d == day
    ensures d in Bump(dayMood, day, mood) ==>
              (m in Bump(dayMood, day, mood)[d] <==> (d in dayMood && m in dayMood[d]) || (d == day && m == mood))
    ensures Get(Bump(dayMood, day, mood), d, m) == Get(dayMood, d, m) + (if d == day && m == mood then 1 else 0)
  {
  }

  /** Counting one more entry keeps the counts right. */
  lemma BumpCounts(dayMood: map<string, map<string, nat>>, rs: seq<Reflection>, i: nat)
    requires i < |rs| && CountsOf(dayMood, rs, i)
    ensures CountsOf(Bump(dayMood, Day(rs[i]), rs[i].mood), rs, i + 1)
  {
    var day, mood := Day(rs[i]), rs[i].mood;
    var next := Bump(dayMood, day, mood);
    assert DaysOf(rs, i + 1) == DaysOf(rs, i) + {day};
    forall d, m ensures Get(next, d, m) == Tally(rs, i + 1, d, m) {
      BumpAt(dayMood, day, mood, d, m);
    }
    forall d, m | d in next ensures m in next[d] <==> Tally(rs, i + 1, d, m) > 0 {
      BumpAt(dayMood, day, mood, d, m);
    }
    forall d ensures d in next <==> d in DaysOf(rs, i + 1) {
      BumpAt(dayMood, day, mood, d, mood);
    }
  }

  /** `{m for v in day_mood.values() for m in v}`. */
  function MoodSet(dayMood: map<string, map<string, nat>>): set<string> {
    set d, m | d in dayMood && m in dayMood[d] :: m
  }

  /** Once all entries are counted, the moods under the days are the moods of the journal. */
  lemma MoodSetOfCounts(dayMood: map<string, map<string, nat>>, rs: seq<Reflection>)
    requires CountsOf(dayMood, rs, |rs|)
    ensures forall m :: m in MoodSet(dayMood) <==> m in MoodsOf(rs, |rs|)
  {
    forall m ensures m in MoodSet(dayMood) <==> m in MoodsOf(rs, |rs|) {
      if m in MoodsOf(rs, |rs|) {
        var d := MoodHasDay(rs, |rs|, m);
        assert Get(dayMood, d, m) > 0;
      }
      if m in MoodSet(dayMood) {
        var d :| d in dayMood && m in dayMood[d];
        TallyListed(rs, |rs|, d, m);
      }
    }
  }

  /** `[day_mood[day].get(mood, 0) for day in sorted_days]`. The ensures only unfolds the
      comprehension for the prover; what a series holds is stated by SeriesOfCounts. */
  function Series(dayMood: map<string, map<string, nat>>, days: seq<string>, m: string): (s: seq<nat>)
    ensures |s| == |days| && forall k :: 0 <= k < |days| ==> s[k] == Get(dayMood, days[k], m)
  {
    seq(|days|, k requires 0 <= k < |days| => Get(dayMood, days[k], m))
  }

  /** Over the complete counts, a mood's series gives, for each listed day, the number of
      entries of that day with that mood. */
  lemma SeriesOfCounts(rs: seq<Reflection>, dayMood: map<string, map<string, nat>>, days: seq<string>, m: string)
    requires CountsOf(dayMood, rs, |rs|)
    ensures |Series(dayMood, days, m)| == |days|
    ensures forall k :: 0 <= k < |days| ==> Series(dayMood, days, m)[k] == Tally(rs, |rs|, days[k], m)
  {
  }

  /** `{mood: [...] for mood in all_moods}`. */
  function Data(dayMood: map<string, map<string, nat>>, days: seq<string>): map<string, seq<nat>> {
    map m | m in MoodSet(dayMood) :: Series(dayMood, days, m)
  }

  /** The counting loop of `stats`: `day_mood[day][entry['mood']] += 1` for every entry. */
  method CountByDay(rs: seq<Reflection>) returns (dayMood: map<string, map<string, nat>>)
    ensures CountsOf(dayMood, rs, |rs|)
  {
    dayMood := map[];
    for i := 0 to |rs|
      invariant CountsOf(dayMood, rs, i)
    {
      BumpCounts(dayMood, rs, i);
      dayMood := Bump(dayMood, Day(rs[i]), rs[i].mood);
    }
  }

  /** The mood-trend part of `stats`: count entries by day and mood, then lay the counts out by
      sorted day for each sorted mood. */
  method BuildTrend(rs: seq<Reflection>) returns (t: MoodTrend)
    ensures IsTrendOf(rs, t)
  {
    if |rs| == 0 {
      return MoodTrend([], [], map[]);
    }
    var dayMood := CountByDay(rs);
    var days := SortedList(dayMood.Keys);
    var moodSet := MoodSet(dayMood);
    MoodSetOfCounts(dayMood, rs);
    var moods := SortedList(moodSet);
    t := MoodTrend(days, moods, Data(dayMood, days));
    TrendOfCounts(rs, dayMood, days, moods);
  }

  /** The chart laid out from the complete counts is the chart of the journal. */
  lemma TrendOfCounts(rs: seq<Reflection>, dayMood: map<string, map<string, nat>>, days: seq<string>, moods: seq<string>)
    requires CountsOf(dayMood, rs, |rs|)
    requires StrictlySorted(days) && forall d :: d in days <==> d in dayMood
    requires StrictlySorted(moods) && forall m :: m in moods <==> m in MoodSet(dayMood)
    requires forall m :: m in MoodSet(dayMood) <==> m in MoodsOf(rs, |rs|)
    ensures IsTrendOf(rs, MoodTrend(days, moods, Data(dayMood, days)))
  {
  }

  // ---------------------------------------------------------------------------------------------
  // Every entry is counted once
  // ---------------------------------------------------------------------------------------------

  /** The counts of day `d` for the moods `ms`, added up. */
  function SumTally(rs: seq<Reflection>, n: nat, ms: seq<string>, d: string): nat
    requires n <= |rs|
  {
    if ms == [] then 0 else Tally(rs, n, d, ms[0]) + SumTally(rs, n, ms[1..], d)
  }

  /** No entry, no counts. */
  lemma {:induction false} SumTallyEmpty(rs: seq<Reflection>, ms: seq<string>, d: string)
    ensures SumTally(rs, 0, ms, d) == 0
  {
    if ms != [] {
      SumTallyEmpty(rs, ms[1..], d);
    }
  }

  /** One more entry adds, on its day, one for every time its mood is listed. */
  lemma {:induction false} SumTallyStep(rs: seq<Reflection>, n: nat, ms: seq<string>, d: string)
    requires n < |rs|
    ensures SumTally(rs, n + 1, ms, d) == SumTally(rs, n, ms, d) + (if Day(rs[n]) == d then multiset(ms)[rs[n].mood] else 0)
  {
    if ms != [] {
      SumTallyStep(rs, n, ms[1..], d);
      assert ms == [ms[0]] + ms[1..];
    }
  }

  /** A strictly ascending sequence holds each of its elements once. */
  lemma {:induction false} SortedOnce(ms: seq<string>, x: string)
    requires StrictlySorted(ms) && x in ms
    ensures multiset(ms)[x] == 1
  {
    assert ms == [ms[0]] + ms[1..];
    if ms[0] == x {
      if x in ms[1..] {
        var j :| 0 <= j < |ms[1..]| && ms[1..][j] == x;
        StrictlySortedDistinct(ms, 0, j + 1);
      }
    } else {
      SortedOnce(ms[1..], x);
    }
  }

  /** Adding up a day's counts over the moods, each listed once, gives the day's number of
      entries. */
  lemma {:induction false} SumTallyIsDayTotal(rs: seq<Reflection>, n: nat, ms: seq<string>, d: string)
    requires n <= |rs| && StrictlySorted(ms)
    requires forall j :: 0 <= j < n ==> rs[j].mood in ms
    ensures SumTally(rs, n, ms, d) == DayTotal(rs, n, d)
    decreases n
  {
    if n == 0 {
      SumTallyEmpty(rs, ms, d);
    } else {
      SumTallyIsDayTotal(rs, n - 1, ms, d);
      SumTallyStep(rs, n - 1, ms, d);
      SortedOnce(ms, rs[n - 1].mood);
    }
  }

  /** The counts of the chart in column `k` for the moods `ms`, added up. */
  function ColumnSum(data: map<string, seq<nat>>, ms: seq<string>, k: nat): nat {
    if ms == [] then 0
    else (if ms[0] in data && k < |data[ms[0]]| then data[ms[0]][k] else 0) + ColumnSum(data, ms[1..], k)
  }

  lemma {:induction false} ColumnIsSumTally(rs: seq<Reflection>, t: MoodTrend, ms: seq<string>, k: nat)
    requires IsTrendOf(rs, t) && k < |t.days|
    requires forall i :: 0 <= i < |ms| ==> ms[i] in t.moods
    ensures ColumnSum(t.data, ms, k) == SumTally(rs, |rs|, ms, t.days[k])
  {
    if ms != [] {
      ColumnIsSumTally(rs, t, ms[1..], k);
    }
  }

  /** An entry falls on every listed day. */
  lemma {:induction false} ListedDayHasEntry(rs: seq<Reflection>, n: nat, d: string)
    requires n <= |rs| && d in DaysOf(rs, n)
    ensures DayTotal(rs, n, d) > 0
    decreases n
  {
    if Day(rs[n - 1]) != d {
      ListedDayHasEntry(rs, n - 1, d);
    }
  }

  /** Every column of the chart adds up to the number of entries of its day, which is not 0. */
  lemma TrendColumnSums(rs: seq<Reflection>, t: MoodTrend, k: nat)
    requires IsTrendOf(rs, t) && k < |t.days|
    ensures ColumnSum(t.data, t.moods, k) == DayTotal(rs, |rs|, t.days[k]) > 0
  {
    ColumnIsSumTally(rs, t, t.moods, k);
    SumTallyIsDayTotal(rs, |rs|, t.moods, t.days[k]);
    ListedDayHasEntry(rs, |rs|, t.days[k]);
  }
}
