/** The reflection journal of app.py: the day streak of `reflect` and the filters of `stats`. */
module Reflections {
  import opened Wrappers
  import opened Strings

  /** One journal entry. `tag` is `None` when the stored record has no `tag` key. */
  datatype Reflection = Reflection(timestamp: string, mood: string, tag: Option<string>, notes: string)

  /** `entry['timestamp'][:10]`: the `YYYY-MM-DD` part of a `%Y-%m-%d %H:%M` timestamp. */
  function Day(r: Reflection): string {
    Prefix(r.timestamp, 10)
  }

  // ---------------------------------------------------------------------------------------------
  // Streak
  // ---------------------------------------------------------------------------------------------

  /** How many of the adjacent pairs `(rs[-i], rs[-i-1])`, `(rs[-i-1], rs[-i-2])`, ... share their
      day before the first pair that does not. */
  function SameDayPairs(rs: seq<Reflection>, i: nat): (n: nat)
    requires 1 <= i
    ensures i + n <= if i < |rs| then |rs| else i
    decreases |rs| - i
  {
    if i >= |rs| then 0
    else if Day(rs[|rs| - i]) == Day(rs[|rs| - i - 1]) then 1 + SameDayPairs(rs, i + 1)
    else 0
  }

  /** The streak `reflect` shows: 1, plus the number of trailing adjacent pairs on the same day. */
  function StreakOf(rs: seq<Reflection>): (n: nat)
    ensures 1 <= n && (|rs| >= 1 ==> n <= |rs|)
    ensures |rs| <= 1 ==> n == 1
  {
    if |rs| > 1 then 1 + SameDayPairs(rs, 1) else 1
  }

  /** The streak loop of `reflect`. */
  method Streak(rs: seq<Reflection>) returns (streak: nat)
    ensures streak == StreakOf(rs)
  {
    streak := 1;
    if |rs| > 1 {
      streak := 1;
      for i := 1 to |rs|
        invariant streak == i
        invariant streak + SameDayPairs(rs, i) == 1 + SameDayPairs(rs, 1)
      {
        if Day(rs[|rs| - i]) == Day(rs[|rs| - i - 1]) {
          streak := streak + 1;
        } else {
          break;
        }
      }
    }
  }

  /** Counting on from a trailing block of `i` entries on the last entry's day extends the block
      by the pairs counted, up to the first entry on another day. */
  lemma {:induction false} SameDayBlock(rs: seq<Reflection>, i: nat)
    requires 1 <= i <= |rs|
    requires forall j :: |rs| - i <= j < |rs| ==> Day(rs[j]) == Day(rs[|rs| - 1])
    ensures forall j :: |rs| - i - SameDayPairs(rs, i) <= j < |rs| ==> Day(rs[j]) == Day(rs[|rs| - 1])
    ensures i + SameDayPairs(rs, i) < |rs| ==>
              Day(rs[|rs| - i - SameDayPairs(rs, i) - 1]) != Day(rs[|rs| - 1])
    decreases |rs| - i
  {
    if i < |rs| && Day(rs[|rs| - i]) == Day(rs[|rs| - i - 1]) {
      SameDayBlock(rs, i + 1);
    }
  }

  /** The streak is the length of the run of entries at the end of the journal that fall on the
      day of the last entry: all of those entries share that day, and the entry before them (if
      any) does not. */
  lemma StreakIsTrailingRun(rs: seq<Reflection>)
    requires |rs| >= 1
    ensures forall j :: |rs| - StreakOf(rs) <= j < |rs| ==> Day(rs[j]) == Day(rs[|rs| - 1])
    ensures StreakOf(rs) < |rs| ==> Day(rs[|rs| - StreakOf(rs) - 1]) != Day(rs[|rs| - 1])
  {
    if |rs| > 1 {
      SameDayBlock(rs, 1);
    }
  }

  // ---------------------------------------------------------------------------------------------
  // Filters of `stats`
  // ---------------------------------------------------------------------------------------------

  /** `r.get('tag', 'general')`. */
  function Tag(r: Reflection): string {
    r.tag.GetOr("general")
  }

  /** What a filter step of `stats` asks of an entry. Mood and tag are compared case-insensitively;
      a keyword, already lower-cased, must occur in the lower-cased notes. `Anything` is a step
      that is skipped, `Both` two steps in a row. */
  datatype Criterion =
    | Anything
    | MoodIs(mood: string)
    | TagIs(tag: string)
    | Mentions(keyword: string)
    | Both(first: Criterion, second: Criterion)

  predicate Meets(r: Reflection, c: Criterion) {
    match c
    case Anything => true
    case MoodIs(mood) => Lower(r.mood) == Lower(mood)
    case TagIs(tag) => Lower(Tag(r)) == Lower(tag)
    case Mentions(keyword) => Contains(Lower(r.notes), keyword)
    case Both(c1, c2) => Meets(r, c1) && Meets(r, c2)
  }

  /** The list comprehension `[x for x in xs if p(x)]`. */
  function Filter<T>(xs: seq<T>, p: T -> bool): (kept: seq<T>)
    ensures |kept| <= |xs|
  {
    if xs == [] then []
    else (if p(xs[0]) then [xs[0]] else []) + Filter(xs[1..], p)
  }

  /** A comprehension keeps exactly the elements that pass its condition. */
  lemma {:induction false} FilterMembers<T>(xs: seq<T>, p: T -> bool)
    ensures forall x :: x in Filter(xs, p) <==> x in xs && p(x)
  {
    if xs != [] {
      FilterMembers(xs[1..], p);
      assert xs == [xs[0]] + xs[1..];
    }
  }

  /** `a` is `b` with some elements left out, in `b`'s order. */
  predicate IsSubsequence<T(==)>(a: seq<T>, b: seq<T>) {
    if a == [] then true
    else if b == [] then false
    else (a[0] == b[0] && IsSubsequence(a[1..], b[1..])) || IsSubsequence(a, b[1..])
  }

  /** A comprehension keeps elements in their order. */
  lemma {:induction false} FilterIsSubsequence<T>(xs: seq<T>, p: T -> bool)
    ensures IsSubsequence(Filter(xs, p), xs)
  {
    if xs != [] {
      var rest := Filter(xs[1..], p);
      FilterIsSubsequence(xs[1..], p);
      if p(xs[0]) {
        var kept := Filter(xs, p);
        assert kept == [xs[0]] + rest;
        assert kept[0] == xs[0] && kept[1..] == rest;
      } else {
        assert Filter(xs, p) == rest;
      }
    }
  }

  /** A comprehension applies to the two halves of a list apart. */
  lemma {:induction false} FilterAppend<T>(a: seq<T>, b: seq<T>, p: T -> bool)
    ensures Filter(a + b, p) == Filter(a, p) + Filter(b, p)
  {
    if a == [] {
      assert a + b == b;
    } else {
      var head := if p(a[0]) then [a[0]] else [];
      assert (a + b)[0] == a[0] && (a + b)[1..] == a[1..] + b;
      assert Filter(a + b, p) == head + Filter(a[1..] + b, p);
      assert Filter(a, p) == head + Filter(a[1..], p);
      FilterAppend(a[1..], b, p);
    }
  }

  /** Filtering by `p` and then by `q` is filtering once by a condition that means both. */
  lemma {:induction false} FilterFilter<T>(xs: seq<T>, p: T -> bool, q: T -> bool, both: T -> bool)
    requires forall x :: both(x) == (p(x) && q(x))
    ensures Filter(Filter(xs, p), q) == Filter(xs, both)
  {
    if xs != [] {
      FilterFilter(xs[1..], p, q, both);
      var rest := Filter(xs[1..], p);
      if p(xs[0]) {
        assert Filter(xs, p) == [xs[0]] + rest;
        FilterAppend([xs[0]], rest, q);
      } else {
        assert Filter(xs, p) == rest;
      }
    }
  }

  /** A comprehension whose condition always holds keeps the list as it is. */
  lemma {:induction false} FilterAll<T>(xs: seq<T>, p: T -> bool)
    requires forall x :: p(x)
    ensures Filter(xs, p) == xs
  {
    if xs != [] {
      FilterAll(xs[1..], p);
      assert xs == [xs[0]] + xs[1..];
    }
  }

  /** One filter step of `stats`. */
  function Where(rs: seq<Reflection>, c: Criterion): (kept: seq<Reflection>)
    ensures |kept| <= |rs|
  {
    Filter(rs, r => Meets(r, c))
  }

  /** A step keeps exactly the entries that meet its criterion, in their order. */
  lemma WhereMembers(rs: seq<Reflection>, c: Criterion)
    ensures forall r :: r in Where(rs, c) <==> r in rs && Meets(r, c)
    ensures IsSubsequence(Where(rs, c), rs)
  {
    FilterMembers(rs, r => Meets(r, c));
    FilterIsSubsequence(rs, r => Meets(r, c));
  }

  /** Two steps in a row are one step by both criteria. */
  lemma WhereWhere(rs: seq<Reflection>, c1: Criterion, c2: Criterion)
    ensures Where(Where(rs, c1), c2) == Where(rs, Both(c1, c2))
  {
    FilterFilter(rs, r => Meets(r, c1), r => Meets(r, c2), r => Meets(r, Both(c1, c2)));
  }

  /** A skipped step keeps the list as it is. */
  lemma WhereAnything(rs: seq<Reflection>)
    ensures Where(rs, Anything) == rs
  {
    FilterAll(rs, r => Meets(r, Anything));
  }

  /** The query string of `/stats`: `mood`, `tag` and `search`, each `None` when absent. */
  datatype Query = Query(mood: Option<string>, tag: Option<string>, search: Option<string>)

  /** Python's truth test on `request.args.get(name)`: present and not empty. */
  predicate Given(arg: Option<string>) {
    arg.Some? && arg.value != []
  }

  /** `request.args.get('search', '').lower()`. */
  function Keyword(q: Query): string {
    Lower(q.search.GetOr(""))
  }

  /** `filtered` of `stats`: reflections narrowed by mood, then by tag, then by keyword, each
      step only when its argument is given. */
  function Filtered(rs: seq<Reflection>, q: Query): seq<Reflection> {
    var byMood := if Given(q.mood) then Where(rs, MoodIs(q.mood.value)) else rs;
    var byTag := if Given(q.tag) then Where(byMood, TagIs(q.tag.value)) else byMood;
    if Keyword(q) != [] then Where(byTag, Mentions(Keyword(q))) else byTag
  }

  /** The condition of each step of `stats`, `Anything` for a skipped one. */
  function MoodStep(q: Query): Criterion {
    if Given(q.mood) then MoodIs(q.mood.value) else Anything
  }

  function TagStep(q: Query): Criterion {
    if Given(q.tag) then TagIs(q.tag.value) else Anything
  }

  function KeywordStep(q: Query): Criterion {
    if Keyword(q) != [] then Mentions(Keyword(q)) else Anything
  }

  /** What an entry must meet to be shown: each given criterion, compared case-insensitively. */
  predicate Selected(r: Reflection, q: Query) {
    && (Given(q.mood) ==> Lower(r.mood) == Lower(q.mood.value))
    && (Given(q.tag) ==> Lower(Tag(r)) == Lower(q.tag.value))
    && (Keyword(q) != [] ==> Contains(Lower(r.notes), Keyword(q)))
  }

  /** The three filter steps together keep exactly the selected entries, in their order. */
  lemma FilteredIsSelection(rs: seq<Reflection>, q: Query)
    ensures forall r :: r in Filtered(rs, q) <==> r in rs && Selected(r, q)
    ensures Filtered(rs, q) == Where(rs, Both(Both(MoodStep(q), TagStep(q)), KeywordStep(q)))
    ensures IsSubsequence(Filtered(rs, q), rs)
  {
    var byMood := Where(rs, MoodStep(q));
    var byTag := Where(byMood, TagStep(q));
    WhereAnything(rs);
    WhereAnything(byMood);
    WhereAnything(byTag);
    assert Filtered(rs, q) == Where(byTag, KeywordStep(q));
    WhereWhere(rs, MoodStep(q), TagStep(q));
    WhereWhere(rs, Both(MoodStep(q), TagStep(q)), KeywordStep(q));
    var all := Both(Both(MoodStep(q), TagStep(q)), KeywordStep(q));
    WhereMembers(rs, all);
    forall r ensures Meets(r, all) == Selected(r, q) {
      SelectedMeets(r, q);
    }
  }

  /** Meeting the three steps of a query is being selected by it. */
  lemma SelectedMeets(r: Reflection, q: Query)
    ensures Meets(r, Both(Both(MoodStep(q), TagStep(q)), KeywordStep(q))) == Selected(r, q)
  {
    assert Meets(r, MoodStep(q)) == (Given(q.mood) ==> Lower(r.mood) == Lower(q.mood.value));
    assert Meets(r, TagStep(q)) == (Given(q.tag) ==> Lower(Tag(r)) == Lower(q.tag.value));
    assert Meets(r, KeywordStep(q)) == (Keyword(q) != [] ==> Contains(Lower(r.notes), Keyword(q)));
    assert Meets(r, Both(MoodStep(q), TagStep(q))) == (Meets(r, MoodStep(q)) && Meets(r, TagStep(q)));
  }

  /** A query with no criterion shows every reflection. */
  lemma EmptyQueryKeepsAll(rs: seq<Reflection>, q: Query)
    requires !Given(q.mood) && !Given(q.tag) && Keyword(q) == []
    ensures Filtered(rs, q) == rs
  {
  }
}
