/** The scoreboard sorting of static/js/script.js: clicking the header of a numeric column sorts
    the rows of the table body by that column, largest first. */
module Scoreboard {
  import opened Wrappers

  /** One table row: its DOM node (`id`), the name cell, and one score cell per numeric column.
      A score is `None` when `parseFloat` of the cell text is `NaN`. */
  datatype Row = Row(id: nat, name: string, scores: seq<Option<int>>)

  /** Row `r` has a cell in column `idx` (column 0 is the name). */
  predicate HasCell(r: Row, idx: nat) {
    1 <= idx <= |r.scores|
  }

  /** `parseFloat(cells[idx].textContent) || 0`: an unparsable cell counts as 0. */
  function Key(r: Row, idx: nat): int {
    if HasCell(r, idx) then r.scores[idx - 1].GetOr(0) else 0
  }

  /** Largest value of column `idx` first: what the comparator `v2 - v1` asks of `sort`. */
  predicate SortedDesc(s: seq<Row>, idx: nat) {
    forall k, l :: 0 <= k < l < |s| ==> Key(s[k], idx) >= Key(s[l], idx)
  }

  /** Distinct DOM nodes. */
  predicate DistinctIds(s: seq<Row>) {
    forall k, l :: 0 <= k < l < |s| ==> s[k].id != s[l].id
  }

  /** The first `n` rows of `s` are in descending order of column `idx`. */
  predicate SortedPrefix(s: seq<Row>, n: nat, idx: nat) {
    forall k, l :: 0 <= k < l < n && l < |s| ==> Key(s[k], idx) >= Key(s[l], idx)
  }

  /** Midway through inserting the row of key `v` into the sorted `s[..i]`: it stands at `j`,
      the rows up to `i` apart from it are in order, and those it has passed have smaller keys. */
  predicate Inserting(s: seq<Row>, i: nat, j: nat, v: int, idx: nat) {
    && j <= i < |s| && Key(s[j], idx) == v
    && (forall k, l :: 0 <= k < l <= i && k != j && l != j ==> Key(s[k], idx) >= Key(s[l], idx))
    && (forall l :: j < l <= i ==> v > Key(s[l], idx))
  }

  /** Passing one more row with a smaller key keeps the insertion going. */
  lemma SwapLeft(s: seq<Row>, i: nat, j: nat, v: int, idx: nat)
    requires Inserting(s, i, j, v, idx) && 0 < j && Key(s[j - 1], idx) < v
    ensures Inserting(s[j - 1 := s[j]][j := s[j - 1]], i, j - 1, v, idx)
  {
  }

  /** The insertion ends when the row before is not smaller: then `s[..i + 1]` is in order. */
  lemma DoneInserting(s: seq<Row>, i: nat, j: nat, v: int, idx: nat)
    requires Inserting(s, i, j, v, idx) && (j == 0 || Key(s[j - 1], idx) >= v)
    ensures SortedPrefix(s, i + 1, idx)
  {
    forall k, l | 0 <= k < l <= i ensures Key(s[k], idx) >= Key(s[l], idx) {
      if l == j && k < j - 1 {
        assert Key(s[k], idx) >= Key(s[j - 1], idx);
      }
    }
  }

  /** Exchanging two elements keeps the multiset of the array. */
  method Swap(a: array<Row>, i: nat, j: nat)
    requires i < a.Length && j < a.Length
    modifies a
    ensures a[..] == old(a[..])[i := old(a[j])][j := old(a[i])]
    ensures multiset(a[..]) == multiset(old(a[..]))
  {
    a[i], a[j] := a[j], a[i];
  }

  /** One pass of insertion sort: `a[i]` moves left past every row with a smaller key. */
  method InsertStep(a: array<Row>, i: nat, idx: nat)
    requires i < a.Length && SortedPrefix(a[..], i, idx)
    modifies a
    ensures SortedPrefix(a[..], i + 1, idx)
    ensures multiset(a[..]) == multiset(old(a[..]))
  {
    var j: nat := i;
    ghost var v := Key(a[i], idx);
    while j > 0 && Key(a[j - 1], idx) < Key(a[j], idx)
      invariant Inserting(a[..], i, j, v, idx)
      invariant multiset(a[..]) == multiset(old(a[..]))
    {
      SwapLeft(a[..], i, j, v, idx);
      Swap(a, j - 1, j);
      j := j - 1;
    }
    DoneInserting(a[..], i, j, v, idx);
  }

  /** `rows.sort((a, b) => v2 - v1)` on the array of rows: an insertion sort, largest key first,
      that keeps rows with equal keys in their order. */
  method SortRows(rows: array<Row>, idx: nat)
    modifies rows
    ensures SortedDesc(rows[..], idx)
    ensures multiset(rows[..]) == multiset(old(rows[..]))
  {
    for i := 0 to rows.Length
      invariant SortedPrefix(rows[..], i, idx)
      invariant multiset(rows[..]) == multiset(old(rows[..]))
    {
      InsertStep(rows, i, idx);
    }
  }

  /** Rows with distinct nodes hold each row once. */
  lemma {:induction false} DistinctOnce(s: seq<Row>, x: Row)
    requires DistinctIds(s)
    ensures multiset(s)[x] <= 1
  {
    if s != [] {
      assert s == [s[0]] + s[1..];
      DistinctOnce(s[1..], x);
      if x == s[0] {
        forall j | 0 <= j < |s[1..]| ensures s[1..][j] != x {
          assert s[0].id != s[j + 1].id;
        }
      }
    }
  }

  /** A row at two positions is twice in the multiset. */
  lemma TwiceInMultiset(t: seq<Row>, k: nat, l: nat)
    requires k < l < |t| && t[k] == t[l]
    ensures multiset(t)[t[k]] >= 2
  {
    assert t == t[..k] + [t[k]] + t[k + 1..];
    assert t[k + 1..][l - k - 1] == t[l];
  }

  /** Reordering rows with distinct nodes keeps them distinct. */
  lemma PermutationKeepsDistinct(s: seq<Row>, t: seq<Row>)
    requires multiset(s) == multiset(t) && DistinctIds(s)
    ensures DistinctIds(t)
  {
    forall k, l | 0 <= k < l < |t| ensures t[k].id != t[l].id {
      if t[k].id == t[l].id {
        assert t[k] in multiset(s) && t[l] in multiset(s);
        var p :| 0 <= p < |s| && s[p] == t[k];
        var q :| 0 <= q < |s| && s[q] == t[l];
        if p == q {
          TwiceInMultiset(t, k, l);
          DistinctOnce(s, t[k]);
        }
      }
    }
  }

  /** The position of row `r` in `s`. */
  function IndexOf(s: seq<Row>, r: Row): (p: nat)
    requires r in s
    ensures p < |s| && s[p] == r
  {
    if s[0] == r then 0 else 1 + IndexOf(s[1..], r)
  }

  /** The first place of `r` in `front + tail` is its first place in `front`, when it is there. */
  lemma {:induction false} IndexOfAppend(front: seq<Row>, tail: seq<Row>, r: Row)
    requires r in front
    ensures r in front + tail && IndexOf(front + tail, r) == IndexOf(front, r)
  {
    if front[0] != r {
      assert (front + tail)[1..] == front[1..] + tail;
      IndexOfAppend(front[1..], tail, r);
    }
  }

  /** Taking out the row at `p` of the front part of `front + tail`. */
  lemma RemoveFromFront(front: seq<Row>, tail: seq<Row>, p: nat)
    requires p < |front|
    ensures (front + tail)[..p] + (front + tail)[p + 1..] == front[..p] + front[p + 1..] + tail
    ensures multiset(front[..p] + front[p + 1..]) == multiset(front) - multiset{front[p]}
  {
    assert (front + tail)[..p] == front[..p];
    assert (front + tail)[p + 1..] == front[p + 1..] + tail;
    assert front == front[..p] + [front[p]] + front[p + 1..];
  }

  /** Moving row `x`, the next of the reordering, from the unappended `front` to the end of
      `front + done`: the body is then `front` without `x`, followed by `done + [x]`. */
  lemma MoveStep(front: seq<Row>, done: seq<Row>, x: Row, rest: seq<Row>) returns (p: nat)
    requires multiset(front) == multiset([x] + rest)
    ensures x in front && x in front + done && p == IndexOf(front, x) == IndexOf(front + done, x)
    ensures (front + done)[..p] + (front + done)[p + 1..] + [x] == front[..p] + front[p + 1..] + (done + [x])
    ensures multiset(front[..p] + front[p + 1..]) == multiset(rest)
  {
    assert x in multiset(front);
    IndexOfAppend(front, done, x);
    p := IndexOf(front, x);
    RemoveFromFront(front, done, p);
  }

  /** The table of the scoreboard: the rows of its body, in display order. */
  class Table {
    var body: seq<Row>

    predicate Valid()
      reads this
    {
      DistinctIds(body)
    }

    constructor (rows: seq<Row>)
      requires DistinctIds(rows)
      ensures Valid() && body == rows
    {
      body := rows;
    }

    /** `tBodies[0].appendChild(r)` for a row of the body: the node moves to the end. */
    method AppendChild(r: Row)
      requires r in body
      modifies this
      ensures body == old(body[..IndexOf(body, r)] + body[IndexOf(body, r) + 1..]) + [r]
    {
      var p := IndexOf(body, r);
      body := body[..p] + body[p + 1..] + [r];
    }

    /** The click handler of header `idx` (a numeric column): the body afterwards holds the same
        rows, no cell changed, largest value of the column first. */
    method ClickHeader(idx: nat)
      requires Valid()
      requires 1 <= idx && forall k :: 0 <= k < |body| ==> HasCell(body[k], idx)
      modifies this
      ensures Valid()
      ensures multiset(body) == multiset(old(body))
      ensures SortedDesc(body, idx)
    {
      var b := body;
      var rows := new Row[|b|](k requires 0 <= k < |b| => b[k]);
      assert rows[..] == b;
      SortRows(rows, idx);
      AppendAll(rows);
      PermutationKeepsDistinct(b, body);
    }

    /** `rows.forEach(r => tBodies[0].appendChild(r))` for a reordering `rows` of the body: the
        body ends up in the order of `rows`. */
    method AppendAll(rows: array<Row>)
      requires multiset(body) == multiset(rows[..])
      modifies this
      ensures body == rows[..]
    {
      // The body is the rows not yet appended, then the appended ones in order.
      ghost var front := body;
      assert body == front + rows[..0] && rows[0..] == rows[..];
      for i := 0 to rows.Length
        invariant body == front + rows[..i]
        invariant multiset(front) == multiset(rows[i..])
      {
        var x := rows[i];
        assert rows[i..] == [x] + rows[i + 1..];
        ghost var p := MoveStep(front, rows[..i], x, rows[i + 1..]);
        AppendChild(x);
        front := front[..p] + front[p + 1..];
        assert rows[..i] + [x] == rows[..i + 1];
      }
      assert rows[rows.Length..] == [];
      assert rows[..rows.Length] == rows[..];
    }
  }
}
