/** The Sudoku game of app.py: reading the nine submitted rows into a board (`sudoku`) and
    checking that the board is a solution (`is_valid_sudoku` with its `is_valid_group`). */
module Sudoku {
  import opened Wrappers
  import opened Strings

  // ---------------------------------------------------------------------------------------------
  // is_valid_group
  // ---------------------------------------------------------------------------------------------

  /** Python's `list(range(lo, hi))`. */
  function Range(lo: int, hi: int): seq<int>
    decreases hi - lo
  {
    if lo >= hi then [] else [lo] + Range(lo + 1, hi)
  }

  /** Python's `list(range(1, 10))`: the digits of a Sudoku group in order. */
  function OneToNine(): seq<int> {
    Range(1, 10)
  }

  /** `range` counts up by one from `lo`. */
  lemma {:induction false} RangeAt(lo: int, hi: int)
    ensures |Range(lo, hi)| == if lo < hi then hi - lo else 0
    ensures forall i :: 0 <= i < |Range(lo, hi)| ==> Range(lo, hi)[i] == lo + i
    decreases hi - lo
  {
    if lo < hi {
      RangeAt(lo + 1, hi);
    }
  }

  /** `range` holds each number of `lo..hi-1` once and nothing else. */
  lemma {:induction false} RangeCount(lo: int, hi: int, x: int)
    ensures multiset(Range(lo, hi))[x] == if lo <= x < hi then 1 else 0
    decreases hi - lo
  {
    if lo < hi {
      RangeCount(lo + 1, hi, x);
      assert multiset(Range(lo, hi)) == multiset{lo} + multiset(Range(lo + 1, hi));
    }
  }

  predicate SortedInts(s: seq<int>) {
    forall i, j :: 0 <= i < j < |s| ==> s[i] <= s[j]
  }

  /** `x` inserted before the first element of the sorted `s` that is not smaller. */
  function InsertInt(x: int, s: seq<int>): (r: seq<int>)
    requires SortedInts(s)
    ensures forall y :: y in r ==> y == x || y in s
    ensures SortedInts(r)
    ensures multiset(r) == multiset(s) + multiset{x}
  {
    if s == [] || x <= s[0] then [x] + s
    else
      var t := InsertInt(x, s[1..]);
      assert s == [s[0]] + s[1..];
      BoundedBelow(s[0], x, s[1..], t);
      [s[0]] + t
  }

  /** What is built from `x` and elements of `s` stays above a lower bound of both. */
  lemma BoundedBelow(b: int, x: int, s: seq<int>, t: seq<int>)
    requires b <= x && forall y :: y in s ==> b <= y
    requires forall y :: y in t ==> y == x || y in s
    ensures forall k :: 0 <= k < |t| ==> b <= t[k]
  {
    forall k | 0 <= k < |t| ensures b <= t[k] {
      assert t[k] in t;
    }
  }

  /** Python's `sorted(group)` on integers: sorted and a permutation of its input. */
  function SortInts(s: seq<int>): (r: seq<int>)
    ensures SortedInts(r)
    ensures multiset(r) == multiset(s)
  {
    if s == [] then []
    else
      assert s == [s[0]] + s[1..];
      InsertInt(s[0], SortInts(s[1..]))
  }

  /** `is_valid_group(group)`: `sorted(group) == list(range(1, 10))`. */
  predicate IsValidGroup(g: seq<int>) {
    SortInts(g) == OneToNine()
  }

  /** The first element of a sorted sequence is its smallest. */
  lemma SortedHeadIsMin(a: seq<int>, x: int)
    requires SortedInts(a) && x in multiset(a)
    ensures a[0] <= x
  {
    var j :| 0 <= j < |a| && a[j] == x;
  }

  /** The tail of a sequence holds its elements but one copy of the head. */
  lemma MultisetOfTail(a: seq<int>)
    requires a != []
    ensures multiset(a[1..]) == multiset(a) - multiset{a[0]}
  {
    assert a == [a[0]] + a[1..];
  }

  /** Two sorted sequences with the same elements are equal. */
  lemma {:induction false} SortedUnique(a: seq<int>, b: seq<int>)
    requires SortedInts(a) && SortedInts(b)
    requires multiset(a) == multiset(b)
    ensures a == b
    decreases |a|
  {
    assert |a| == |multiset(a)| == |multiset(b)| == |b|;
    if a != [] {
      assert a[0] in multiset(a) && b[0] in multiset(b);
      SortedHeadIsMin(a, b[0]);
      SortedHeadIsMin(b, a[0]);
      assert a[0] == b[0];
      MultisetOfTail(a);
      MultisetOfTail(b);
      SortedUnique(a[1..], b[1..]);
    }
  }

  /** A multiset that contains another is that one plus the difference. */
  lemma SubMultiset(m: multiset<int>, sub: multiset<int>)
    requires sub <= m
    ensures m == sub + (m - sub)
  {
    assert forall x :: m[x] == (sub + (m - sub))[x];
  }

  /** Numbers with the multiset of `range(lo, hi)` are `hi - lo` many and hold every number of
      `lo..hi-1` once and nothing else. */
  lemma RangeMultisetCounts(g: seq<int>, lo: int, hi: int)
    requires lo <= hi
    requires multiset(g) == multiset(Range(lo, hi))
    ensures |g| == hi - lo
    ensures forall v :: lo <= v < hi ==> multiset(g)[v] == 1
    ensures forall k :: 0 <= k < |g| ==> lo <= g[k] < hi
  {
    RangeAt(lo, hi);
    assert |g| == |multiset(g)| == |multiset(Range(lo, hi))| == |Range(lo, hi)|;
    forall v | lo <= v < hi ensures multiset(g)[v] == 1 {
      RangeCount(lo, hi, v);
    }
    forall k | 0 <= k < |g| ensures lo <= g[k] < hi {
      assert g[k] in multiset(g);
      RangeCount(lo, hi, g[k]);
    }
  }

  /** `hi - lo` numbers holding every number of `lo..hi-1` have the multiset of `range(lo, hi)`. */
  lemma HasAllMultiset(g: seq<int>, lo: int, hi: int)
    requires lo <= hi
    requires |g| == hi - lo && forall v :: lo <= v < hi ==> v in g
    ensures multiset(g) == multiset(Range(lo, hi))
  {
    var m, mr := multiset(g), multiset(Range(lo, hi));
    RangeAt(lo, hi);
    forall x ensures mr[x] <= m[x] {
      RangeCount(lo, hi, x);
      if lo <= x < hi {
        assert x in g;
        assert x in m;
      }
    }
    assert mr <= m;
    SubMultiset(m, mr);
    assert |m| == |g| == |Range(lo, hi)| == |mr|;
    assert |m - mr| == 0;
  }

  /** Numbers have the multiset of `range(lo, hi)` exactly when they are `hi - lo` many and hold
      every number of `lo..hi-1`. */
  lemma RangeMultisetIff(g: seq<int>, lo: int, hi: int)
    requires lo <= hi
    ensures multiset(g) == multiset(Range(lo, hi)) <==> |g| == hi - lo && forall v :: lo <= v < hi ==> v in g
  {
    if multiset(g) == multiset(Range(lo, hi)) {
      RangeMultisetCounts(g, lo, hi);
      forall v | lo <= v < hi ensures v in g {
        assert v in multiset(g);
      }
    }
    if |g| == hi - lo && forall v :: lo <= v < hi ==> v in g {
      HasAllMultiset(g, lo, hi);
    }
  }

  /** Sorting gives `range(lo, hi)` exactly when the input is a permutation of it. */
  lemma SortsToRange(g: seq<int>, lo: int, hi: int)
    ensures SortInts(g) == Range(lo, hi) <==> multiset(g) == multiset(Range(lo, hi))
  {
    var r := SortInts(g);
    if multiset(g) == multiset(Range(lo, hi)) {
      RangeAt(lo, hi);
      assert SortedInts(Range(lo, hi));
      SortedUnique(r, Range(lo, hi));
    }
  }

  /** Nine cells holding every digit 1..9. */
  predicate HasEachDigit(g: seq<int>) {
    |g| == 9 && forall v :: 1 <= v <= 9 ==> v in g
  }

  /** `is_valid_group` holds exactly when the nine cells hold every digit 1..9. */
  lemma IsValidGroupIff(g: seq<int>)
    ensures IsValidGroup(g) <==> HasEachDigit(g)
  {
    SortsToRange(g, 1, 10);
    RangeMultisetIff(g, 1, 10);
  }

  /** A group that passes holds each digit exactly once and nothing outside 1..9. */
  lemma ValidGroupCounts(g: seq<int>)
    requires IsValidGroup(g)
    ensures forall v :: 1 <= v <= 9 ==> multiset(g)[v] == 1
    ensures forall k :: 0 <= k < |g| ==> 1 <= g[k] <= 9
  {
    SortsToRange(g, 1, 10);
    RangeMultisetCounts(g, 1, 10);
  }

  // ---------------------------------------------------------------------------------------------
  // is_valid_sudoku
  // ---------------------------------------------------------------------------------------------

  /** Nine rows of nine integers: what `sudoku` hands to `is_valid_sudoku`. */
  predicate IsGrid(g: seq<seq<int>>) {
    |g| == 9 && forall r :: 0 <= r < 9 ==> |g[r]| == 9
  }

  /** `[grid[row][col] for row in range(9)]`. */
  function Column(g: seq<seq<int>>, c: nat): seq<int>
    requires IsGrid(g) && c < 9
  {
    seq(9, r requires 0 <= r < 9 => g[r][c])
  }

  /** A start of a 3x3 box along either axis: an element of `range(0, 9, 3)`. */
  predicate IsBoxStart(n: int) {
    n == 0 || n == 3 || n == 6
  }

  /** The 3x3 box whose top-left cell is `grid[top][left]`, row by row, as the `block.append` loop builds it. */
  function Box(g: seq<seq<int>>, top: nat, left: nat): seq<int>
    requires IsGrid(g) && top <= 6 && left <= 6
  {
    seq(9, k requires 0 <= k < 9 => g[top + k / 3][left + k % 3])
  }

  /** The rule `is_valid_sudoku` applies: every row, every column and each of the nine 3x3 boxes
      passes `is_valid_group`. */
  predicate IsSolution(g: seq<seq<int>>)
    requires IsGrid(g)
  {
    && (forall r :: 0 <= r < 9 ==> IsValidGroup(g[r]))
    && (forall c :: 0 <= c < 9 ==> IsValidGroup(Column(g, c)))
    && (forall top: nat, left: nat :: top < 9 && left < 9 && IsBoxStart(top) && IsBoxStart(left) ==> IsValidGroup(Box(g, top, left)))
  }

  /** A Sudoku solution in the usual sense: each row, column and box holds every digit 1..9. */
  predicate IsSudokuSolution(g: seq<seq<int>>)
    requires IsGrid(g)
  {
    && (forall r :: 0 <= r < 9 ==> HasEachDigit(g[r]))
    && (forall c :: 0 <= c < 9 ==> HasEachDigit(Column(g, c)))
    && (forall top: nat, left: nat :: top < 9 && left < 9 && IsBoxStart(top) && IsBoxStart(left) ==> HasEachDigit(Box(g, top, left)))
  }

  /** The source's rule is exactly the usual definition of a solved Sudoku. */
  lemma SolutionIff(g: seq<seq<int>>)
    requires IsGrid(g)
    ensures IsSolution(g) <==> IsSudokuSolution(g)
  {
    forall r | 0 <= r < 9 { IsValidGroupIff(g[r]); }
    forall c | 0 <= c < 9 { IsValidGroupIff(Column(g, c)); }
    forall top: nat, left: nat | top < 9 && left < 9 && IsBoxStart(top) && IsBoxStart(left) { IsValidGroupIff(Box(g, top, left)); }
  }

  /** One call of `is_valid_group(group)`, as the loops of `is_valid_sudoku` make it. */
  method CheckGroup(group: seq<int>) returns (ok: bool)
    ensures ok <==> HasEachDigit(group)
  {
    ok := IsValidGroup(group);
    IsValidGroupIff(group);
  }

  /** The `block.append(grid[box_row + i][box_col + j])` loops of `is_valid_sudoku`. */
  method CollectBlock(grid: seq<seq<int>>, top: nat, left: nat) returns (block: seq<int>)
    requires IsGrid(grid) && top <= 6 && left <= 6
    ensures block == Box(grid, top, left)
  {
    block := [];
    for i := 0 to 3
      invariant |block| == 3 * i
      invariant forall k :: 0 <= k < |block| ==> block[k] == grid[top + k / 3][left + k % 3]
    {
      for j := 0 to 3
        invariant |block| == 3 * i + j
        invariant forall k :: 0 <= k < |block| ==> block[k] == grid[top + k / 3][left + k % 3]
      {
        assert (3 * i + j) / 3 == i && (3 * i + j) % 3 == j;
        block := block + [grid[top + i][left + j]];
      }
    }
  }

  /** `is_valid_sudoku(grid)`: rows first, then columns, then the boxes, returning `False` at the
      first group that fails. */
  method IsValidSudoku(grid: seq<seq<int>>) returns (valid: bool)
    requires IsGrid(grid)
    ensures valid <==> IsSudokuSolution(grid)
  {
    for i := 0 to |grid|
      invariant forall r :: 0 <= r < i ==> HasEachDigit(grid[r])
    {
      var ok := CheckGroup(grid[i]);
      if !ok {
        return false;
      }
    }
    for col := 0 to 9
      invariant forall c :: 0 <= c < col ==> HasEachDigit(Column(grid, c))
    {
      var ok := CheckGroup(Column(grid, col));
      if !ok {
        return false;
      }
    }
    var boxRow := 0;
    while boxRow < 9
      invariant boxRow == 0 || boxRow == 3 || boxRow == 6 || boxRow == 9
      invariant forall top: nat, left: nat :: top < boxRow && left < 9 && IsBoxStart(top) && IsBoxStart(left) ==> HasEachDigit(Box(grid, top, left))
    {
      var boxCol := 0;
      while boxCol < 9
        invariant boxCol == 0 || boxCol == 3 || boxCol == 6 || boxCol == 9
        invariant forall left: nat :: left < boxCol && IsBoxStart(left) ==> HasEachDigit(Box(grid, boxRow, left))
      {
        var block := CollectBlock(grid, boxRow, boxCol);
        var ok := CheckGroup(block);
        if !ok {
          return false;
        }
        boxCol := boxCol + 3;
      }
      boxRow := boxRow + 3;
    }
    return true;
  }

  // ---------------------------------------------------------------------------------------------
  // Reading the submitted board (the loop at the top of `sudoku`)
  // ---------------------------------------------------------------------------------------------

  const RowLengthMessage := "Each row must have exactly 9 integers."
  const RowRangeMessage := "Sudoku numbers must be between 1 and 9."

  /** `list(map(int, tokens))`: the integer of every token, or the error for the first token
      `int()` rejects. */
  function ParseTokens(tokens: seq<string>): (r: Result<seq<int>, Failure>)
    ensures r.Ok? <==> forall k :: 0 <= k < |tokens| ==> ParseInt(tokens[k]).Some?
    ensures r.Ok? ==> |r.value| == |tokens| && forall k :: 0 <= k < |tokens| ==> ParseInt(tokens[k]) == Some(r.value[k])
    ensures r.Err? ==> exists k :: 0 <= k < |tokens| && r.error == InvalidLiteral(tokens[k]) && ParseInt(tokens[k]).None?
                                   && forall j :: 0 <= j < k ==> ParseInt(tokens[j]).Some?
  {
    if tokens == [] then Ok([])
    else
      match ParseInt(tokens[0])
      case None => Err(InvalidLiteral(tokens[0]))
      case Some(v) =>
        match ParseTokens(tokens[1..])
        case Err(e) =>
          var k :| 0 <= k < |tokens[1..]| && e == InvalidLiteral(tokens[1..][k]) && ParseInt(tokens[1..][k]).None?
                   && forall j :: 0 <= j < k ==> ParseInt(tokens[1..][j]).Some?;
          assert tokens[k + 1] == tokens[1..][k];
          Err(e)
        case Ok(vs) => Ok([v] + vs)
  }

  /** The whitespace-separated words of a submitted row, as `row.strip()` then `row.split()` give
      them (`split()` already ignores the whitespace `strip()` removes: see `Strings.SplitIgnoresStrip`). */
  function RowTokens(text: string): seq<string> {
    Split(text)
  }

  /** A row `sudoku` accepts: exactly nine words, each an integer between 1 and 9. */
  predicate RowAccepted(tokens: seq<string>) {
    && |tokens| == 9
    && forall k :: 0 <= k < 9 ==> ParseInt(tokens[k]).Some? && 1 <= ParseInt(tokens[k]).value <= 9
  }

  /** One pass of the row loop of `sudoku`: the nine values of the row, or the exception it raises:
      `int()`'s error for a word that is not an integer, then the length check, then the range check.
      An accepted row is nine digits 1..9; `ParseRowCases` says exactly when each outcome occurs. */
  function ParseRow(text: string): (r: Result<seq<int>, Failure>)
    ensures r.Ok? ==> |r.value| == 9 && forall k :: 0 <= k < 9 ==> 1 <= r.value[k] <= 9
  {
    var tokens := RowTokens(text);
    match ParseTokens(tokens)
    case Err(e) => Err(e)
    case Ok(vals) =>
      if |vals| != 9 then Err(Raised(RowLengthMessage))
      else if exists k :: 0 <= k < |vals| && (vals[k] < 1 || vals[k] > 9) then Err(Raised(RowRangeMessage))
      else Ok(vals)
  }

  /** The outcomes of `ParseRow`: the row is accepted exactly when it is nine integers 1..9, and
      then they are its values; `int()`'s error for the first word that is not an integer; the
      length error when every word is an integer but there are not nine; the range error when
      there are nine integers but one is outside 1..9. */
  lemma ParseRowCases(text: string)
    ensures ParseRow(text).Ok? <==> RowAccepted(RowTokens(text))
    ensures ParseRow(text).Ok? ==> forall k :: 0 <= k < 9 ==> ParseInt(RowTokens(text)[k]) == Some(ParseRow(text).value[k])
    ensures ParseTokens(RowTokens(text)).Err? ==> ParseRow(text) == ParseTokens(RowTokens(text))
    ensures ParseRow(text) == Err(Raised(RowLengthMessage)) <==>
              (forall k :: 0 <= k < |RowTokens(text)| ==> ParseInt(RowTokens(text)[k]).Some?) && |RowTokens(text)| != 9
    ensures ParseRow(text) == Err(Raised(RowRangeMessage)) <==>
              (forall k :: 0 <= k < |RowTokens(text)| ==> ParseInt(RowTokens(text)[k]).Some?) && |RowTokens(text)| == 9
              && !RowAccepted(RowTokens(text))
  {
  }

  /** The name of the `i`-th row field of the form: `f'row{i}'`. */
  function RowName(i: nat): string {
    "row" + Decimal(i)
  }

  /** `request.form.get(f'row{i}', '')`. */
  function RowText(form: Form, i: nat): string {
    Field(form, RowName(i)).GetOr("")
  }

  /** An accepted row holds nine digits 1..9. */
  predicate DigitRow(row: Result<seq<int>, Failure>) {
    row.Ok? ==> |row.value| == 9 && forall k :: 0 <= k < 9 ==> 1 <= row.value[k] <= 9
  }

  /** What reading rows `i` to 8 of the form gives, in order. */
  function RowsFrom(form: Form, i: nat): (rows: seq<Result<seq<int>, Failure>>)
    requires i <= 9
    ensures |rows| == 9 - i && forall j :: 0 <= j < |rows| ==> DigitRow(rows[j])
    decreases 9 - i
  {
    if i == 9 then [] else [ParseRow(RowText(form, i))] + RowsFrom(form, i + 1)
  }

  lemma {:induction false} RowsFromAt(form: Form, i: nat, j: nat)
    requires i <= j < 9
    ensures RowsFrom(form, i)[j - i] == ParseRow(RowText(form, j))
    decreases j - i
  {
    if i < j {
      RowsFromAt(form, i + 1, j);
    }
  }

  /** What reading each of the nine rows of the form gives, in order. */
  function RowResults(form: Form): (rows: seq<Result<seq<int>, Failure>>)
    ensures |rows| == 9 && forall i :: 0 <= i < 9 ==> DigitRow(rows[i])
  {
    RowsFrom(form, 0)
  }

  /** Row `i` of `RowResults` is what `ParseRow` makes of the text of field `row{i}`. */
  lemma RowResultsAt(form: Form, i: nat)
    requires i < 9
    ensures RowResults(form)[i] == ParseRow(RowText(form, i))
  {
    RowsFromAt(form, 0, i);
  }

  /** The body of the row loop of `sudoku` for row `i`. */
  method ReadRow(form: Form, i: nat) returns (row: Result<seq<int>, Failure>)
    requires i < 9
    ensures row == RowResults(form)[i]
  {
    row := ParseRow(RowText(form, i));
    RowResultsAt(form, i);
  }

  /** The board read from the form: the error of its first rejected row, or its nine rows. */
  function Board(form: Form): (r: Result<seq<seq<int>>, Failure>)
    ensures r.Ok? ==> IsGrid(r.value)
  {
    Collect(RowResults(form), 9)
  }

  /** The row loop of `sudoku`: each row in turn is read, checked and appended to `board`; the
      first rejected row raises. */
  method ParseBoard(form: Form) returns (res: Result<seq<seq<int>>, Failure>)
    ensures res == Board(form)
  {
    ghost var rows := RowResults(form);
    var board: seq<seq<int>> := [];
    for i := 0 to 9
      invariant Collect(rows, i) == Ok(board)
    {
      var row := ReadRow(form, i);
      if row.Err? {
        CollectErrorStays(rows, i + 1, 9);
        return Err(row.error);
      }
      board := board + [row.value];
    }
    return Ok(board);
  }

  /** What the Sudoku page reports for a submission. */
  datatype SudokuOutcome = ValidSolution | NotASolution | SudokuError(failure: Failure)

  /** The `try` block of `sudoku`: read the board, then check it. */
  method CheckSubmission(form: Form) returns (outcome: SudokuOutcome)
    ensures outcome.SudokuError? <==> Board(form).Err?
    ensures outcome.SudokuError? ==> outcome.failure == Board(form).error
    ensures outcome == ValidSolution <==> Board(form).Ok? && IsSudokuSolution(Board(form).value)
  {
    var board := ParseBoard(form);
    if board.Err? {
      return SudokuError(board.error);
    }
    var valid := IsValidSudoku(board.value);
    outcome := if valid then ValidSolution else NotASolution;
  }
}
