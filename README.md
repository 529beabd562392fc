# MindForge games, journal statistics and page script, in Dafny

This project models the rules at the heart of the MindForge web application. The application is a
Flask site with small games, a reflection journal and a statistics page, plus one page script.

- **Games.** The model covers four games:
  - the number-guessing game, whose secret is fixed at 7;
  - the lottery, which checks six entered numbers and counts how many match the draw;
  - the palindrome check;
  - the Sudoku checker, which reads nine rows of a form and then tests rows, columns and 3x3
    boxes.
- **Game counters.** The in-memory `game_stats` counters are modelled as a class. Each game route
  updates them in place. The home page total adds up only `guess_attempts`, `lottery_plays` and
  `palindrome_checks`; Sudoku plays are not part of it.
- **Journal.** The model covers:
  - the streak on the reflection page: consecutive latest entries that share their day;
  - the stats page filters by mood, tag and keyword;
  - the mood-trend chart data: per day and mood, the number of entries.
- **Page script.** The model covers:
  - the scoreboard's click-to-sort: an in-place sort of the rows array, then re-appending each
    row to the table body;
  - the suggest-a-game form validation;
  - the fun-facts toggle;
  - the Alt-key shortcuts.

Python and JavaScript built-ins that the rules depend on are written out in `strings.dfy`:

- `str.strip()` and `String.prototype.trim()`, each with its own whitespace set;
- `str.split()`;
- `int()` on a string;
- `str()` on an int;
- `lower()` / `toLowerCase()`;
- slicing;
- `in` on strings;
- `sorted()` on a set of strings, which is by code points.

The journal, the submitted forms and the drawn numbers are parameters of the model.

Layout:

| file | module | models |
|---|---|---|
| wrappers.dfy | Wrappers | `Option`, `Result`, and `Collect`, a run of steps that stops at the first raised error |
| strings.dfy | Strings | the string built-ins listed above, `request.form.get`, `int(request.form.get(...))` |
| sudoku.dfy | Sudoku | `is_valid_group`, `is_valid_sudoku`, the row-reading loop of `sudoku` |
| games.dfy | Games | guess, lottery and palindrome decisions |
| game_stats.dfy | Counters | the `game_stats` dictionary and its updates by each game route |
| reflections.dfy | Reflections | the streak loop of `reflect`, the filters of `stats` |
| mood_trend.dfy | Trend | the `mood_trend` aggregation of `stats` |
| scoreboard.dfy | Scoreboard | the header-click sort of the scoreboard table |
| page.dfy | Page | suggestion form, fun-facts toggle, keyboard shortcuts |

Two facts about the page script shape its model:

- **The scoreboard sort.** The sort keeps no direction state and sets no header indicators. Every
  click on a numeric header sorts descending by `parseFloat(cell) || 0`.
- **Event handlers registered twice.** Each of the script's two `DOMContentLoaded` listeners
  attaches a submit handler to the suggest form and a click handler to the fun-facts toggle, so
  every submit and every click runs two handlers. The model has each handler alone, and both
  together as the page runs them (see Findings).

## Model

| member | source | states |
|---|---|---|
| Wrappers.Collect | app.py:202-209 | running steps that each may raise: when none raises, the result holds every step's value in order |
| Wrappers.CollectOk | app.py:202-209 | the run succeeds exactly when every step succeeds |
| Wrappers.CollectFirstError | app.py:202-209 | a failed run reports the error of the first step that raised; every earlier step succeeded |
| Wrappers.CollectErrorStays | app.py:202-209 | once a step has raised, running more steps keeps that error (the loop is left) |
| Strings.IsPySpace | app.py:144 | `str.isspace()` on one character, the set `strip()` and `split()` remove: tab to carriage return, U+001C to space, U+0085, U+00A0, U+1680, U+2000 to U+200A, U+2028, U+2029, U+202F, U+205F and U+3000; Trim's contract and the Split lemmas state what it delimits |
| Strings.IsJsSpace | static/js/script.js:17 | the characters `trim()` removes: the ECMA-262 WhiteSpace and LineTerminator code points, including U+FEFF and excluding U+001C to U+001F and U+0085; JsTrim and Trim's contract state what it delimits |
| Strings.IsIntSpace | app.py:95 | the whitespace `int()` skips around a literal: the `isspace()` characters except U+001C to U+001F; ParseIntStrips and IntRejectsSeparator state its effect |
| Strings.LeadingSpaces | app.py:144 | the whitespace prefix that `strip()` drops: all spaces, followed by a non-space |
| Strings.TrailingSpaces | app.py:144 | the whitespace suffix that `strip()` drops: all spaces, preceded by a non-space |
| Strings.Trim | app.py:144 | `strip()`/`trim()`: the result is a slice of the input surrounded by whitespace only, empty iff the input is all whitespace, and otherwise starting and ending with a non-space |
| Strings.SurroundedUnique | app.py:144 | only one slice can be surrounded by whitespace and have non-space ends |
| Strings.TrimUnique | app.py:144 | any slice surrounded by whitespace with non-space ends is the trimmed string |
| Strings.TrimUnchanged | app.py:144 | a string with non-space ends trims to itself |
| Strings.PyStrip | app.py:144 | `strip()` is Trim with the `isspace()` characters, so Trim's contract, TrimUnique and TrimDropsFirst/TrimDropsLast describe it |
| Strings.JsTrim | static/js/script.js:17 | `trim()` is Trim with the ECMA-262 whitespace and line terminators, so Trim's contract and TrimUnique describe it |
| Strings.IntStrip | app.py:95 | the text `int()` reads its literal from: Trim with the whitespace of IsIntSpace, so Trim's contract and TrimUnique describe it |
| Strings.TrimDropsFirst | app.py:203 | a leading space does not change `strip()`, `trim()` or the text `int()` reads |
| Strings.TrimDropsLast | app.py:203 | a trailing space does not change `strip()`, `trim()` or the text `int()` reads |
| Strings.SurroundedAfterSpace | app.py:203 | a leading space extends the whitespace before a surrounded slice |
| Strings.SurroundedBeforeSpace | app.py:203 | a trailing space extends the whitespace after a surrounded slice |
| Strings.Lower | app.py:147 | `lower()` keeps the length and lower-cases each character |
| Strings.Reverse | app.py:147 | `word[::-1]` holds the characters in mirrored positions |
| Strings.Prefix | app.py:311 | `timestamp[:10]` is the first ten characters, or the whole string when shorter |
| Strings.Contains | app.py:343 | `keyword in notes` holds iff `keyword` occurs in `notes` at some offset; the empty keyword occurs everywhere |
| Strings.WordLength | app.py:204 | the length of the first word: all non-space, followed by a space |
| Strings.Split | app.py:204 | `split()` yields non-empty words with no whitespace in them; SplitSpaced shows that it cuts exactly at the whitespace runs |
| Strings.SplitKeepsNonSpace | app.py:204 | the words of `split()` joined together are the input's non-space characters, in order |
| Strings.NonSpaceAppend | app.py:204 | the non-space characters of a concatenation are those of each part |
| Strings.NonSpaceOfSpaces | app.py:204 | whitespace has no non-space characters |
| Strings.NonSpaceOfWord | app.py:204 | a word is its own non-space characters |
| Strings.WordLengthOfPrefix | app.py:204 | cutting the text after the first word keeps that word |
| Strings.SplitDropsTrailingSpace | app.py:204 | a trailing space does not change `split()` |
| Strings.SplitDropsTrailingSpaceAfterWord | app.py:204 | a trailing space after a word does not change `split()` |
| Strings.SplitDropsLeadingSpaces | app.py:204 | leading spaces do not change `split()` |
| Strings.SplitDropsTrailingSpaces | app.py:204 | trailing spaces do not change `split()` |
| Strings.SplitIgnoresStrip | app.py:203-204 | `row.strip().split()` equals `row.split()`: the `strip()` changes nothing |
| Strings.WordLengthOfWord | app.py:204 | a word followed by whitespace or by the end is read up to its end |
| Strings.SplitAfterWord | app.py:204 | a word followed by whitespace or by the end is the first word of `split()` |
| Strings.SplitOfSpaces | app.py:204 | a string of whitespace only has no words |
| Strings.SplitOfSpaced | app.py:204 | words separated by non-empty whitespace runs, with any whitespace after them, split back into exactly those words |
| Strings.SplitSpaced | app.py:204 | words separated by non-empty whitespace runs, with any whitespace before and after them, split back into exactly those words: `split()` cuts at every whitespace run and nowhere else |
| Strings.DigitsAreDigitRun | app.py:95 | a non-empty string of ASCII digits is an integer literal's digit part |
| Strings.IntLiteral | app.py:95 | the literal part of `int()`: an optional `+` or `-`, then a digit run read as its value with the sign applied; anything else is `ValueError`. DigitsAreDigitRun and IntLiteralDecimal state it |
| Strings.ParseInt | app.py:95 | `int(s)` on a string: the whitespace of IsIntSpace around the literal skipped, then an optional sign and a digit run; ParseIntStrips states what it reads |
| Strings.ParseIntStrips | app.py:95 | `int(s)` gives the value of the integer literal left once the whitespace `int()` skips is trimmed from both ends, and fails where that is not a literal |
| Strings.IntStripIsStrip | app.py:95 | for text without U+001C to U+001F, `int()` skips exactly what `strip()` removes |
| Strings.StripRemovesSeparator | app.py:144 | `strip()` removes a leading U+001C: "\x1c7" strips to "7" |
| Strings.IntRejectsSeparator | app.py:95 | `strip()` removes a leading U+001C from "\x1c7", leaving "7", yet `int()` rejects "\x1c7" |
| Strings.IntField | app.py:95 | `int(request.form.get(name))`: fails on a missing field and on a non-integer text; otherwise it gives the parsed value |
| Strings.Field | app.py:95 | `request.form.get(name)`: the submitted text of `name`, `None` when the field is missing |
| Strings.Digits | app.py:123 | the decimal digits of a natural number are ASCII digits |
| Strings.DigitsNoLeadingZero | app.py:123 | the digits of `n` start with `0` only for 0 itself, which is written "0" |
| Strings.Decimal | app.py:123 | `str(n)`: a minus sign for a negative `n`, then the digits of its magnitude; DecimalForm states its shape |
| Strings.DecimalForm | app.py:123 | `str(n)` starts with `-` exactly for a negative `n`, then holds only digits, with no leading zero unless `n` is 0 |
| Strings.DigitsValue | app.py:123 | the digits of `n` read back as `n` |
| Strings.IntLiteralDecimal | app.py:123 | the literal `str(n)` writes is read back as `n` |
| Strings.ParseIntDecimal | app.py:123 | `int(str(n)) == n` for every integer `n` whose decimal has at most 4300 digits; longer ones are under Strings.ParseInt in "Left out" |
| Strings.LexLess | app.py:353-354 | Python's `<` on strings: the first differing code point decides, and a proper prefix is smaller; LexLessIrreflexive, LexLessTransitive and LexLessTotal make it a strict total order |
| Strings.LexLessIrreflexive | app.py:353 | Python's string `<` is irreflexive |
| Strings.LexLessTransitive | app.py:353 | Python's string `<` is transitive |
| Strings.LexLessTotal | app.py:353 | of two different strings, one is smaller |
| Strings.InsertSorted | app.py:353 | inserting into a strictly ascending list keeps it strictly ascending, with exactly the old elements and the new one |
| Strings.SortedList | app.py:353-354 | `sorted(S)` on a set of strings is strictly ascending and holds exactly the elements of `S` |
| Strings.StrictlySortedDistinct | app.py:353-354 | a strictly ascending list has no repeated element |
| Sudoku.RangeAt | app.py:222 | `range(lo, hi)` has `hi - lo` elements counting up from `lo` |
| Sudoku.RangeCount | app.py:222 | `range(lo, hi)` holds each value of `[lo, hi)` once and nothing else |
| Sudoku.InsertInt | app.py:222 | insertion into a sorted list keeps it sorted and adds exactly the new element |
| Sudoku.BoundedBelow | app.py:222 | a lower bound of the elements survives insertion |
| Sudoku.SortInts | app.py:222 | `sorted(group)` is ascending and a permutation of the group |
| Sudoku.IsValidGroup | app.py:221-222 | `is_valid_group` as written, `sorted(group) == list(range(1, 10))`; IsValidGroupIff states what it means |
| Sudoku.SortedHeadIsMin | app.py:222 | the first element of a sorted list is its smallest |
| Sudoku.MultisetOfTail | app.py:222 | dropping the head removes one occurrence of it |
| Sudoku.SortedUnique | app.py:222 | two sorted permutations of each other are equal, so `sorted` has one answer |
| Sudoku.SubMultiset | app.py:222 | a sub-multiset is split off its multiset |
| Sudoku.RangeMultisetCounts | app.py:222 | a permutation of `range(lo, hi)` has its length, holds each value once and only values in range |
| Sudoku.HasAllMultiset | app.py:222 | `hi - lo` values covering `[lo, hi)` are a permutation of `range(lo, hi)` |
| Sudoku.RangeMultisetIff | app.py:222 | a list is a permutation of `range(lo, hi)` iff it has `hi - lo` elements covering `[lo, hi)` |
| Sudoku.SortsToRange | app.py:222 | a list sorts to `range(lo, hi)` iff it is a permutation of it |
| Sudoku.IsValidGroupIff | app.py:221-222 | `is_valid_group` holds iff the group has nine cells and contains every digit 1..9 |
| Sudoku.ValidGroupCounts | app.py:221-222 | a valid group holds every digit 1..9 exactly once and nothing else |
| Sudoku.IsSudokuSolution | app.py:220-244 | the reference definition of a solved board that the source's rule is proved equal to: each row, column and 3x3 box holds every digit 1..9 |
| Sudoku.SolutionIff | app.py:224-244 | the source's group rule on rows, columns and boxes is exactly "every row, column and box holds each digit 1..9" |
| Sudoku.CheckGroup | app.py:221-222 | one `is_valid_group` call returns true iff the group holds every digit 1..9 in nine cells |
| Sudoku.Column | app.py:230-232 | `[grid[row][col] for row in range(9)]`: the nine cells of column `col`, row by row; IsValidSudoku and SolutionIff state its use |
| Sudoku.CollectBlock | app.py:237-240 | the `block.append` loops build the 3x3 box at (`box_row`, `box_col`), read row by row |
| Sudoku.IsValidSudoku | app.py:220-244 | `is_valid_sudoku` returns true iff every row, every column and every box at offsets 0, 3, 6 holds each digit 1..9; it returns false at the first group that fails |
| Sudoku.ParseTokens | app.py:204 | `list(map(int, words))` succeeds iff every word is an integer, giving their values in order; otherwise it gives the error of the first word that is not |
| Sudoku.ParseRow | app.py:203-208 | an accepted row is exactly nine integers, each in 1..9 |
| Sudoku.ParseRowCases | app.py:203-208 | a row is accepted iff it has nine integer words in 1..9. Otherwise it fails with `int()`'s error for the first non-integer word, else with the length message, else with the range message |
| Sudoku.RowsFrom | app.py:202-203 | reading rows `i` to 8 gives one outcome per row, each accepted one nine digits |
| Sudoku.RowsFromAt | app.py:202-203 | the `j`-th outcome is the parse of the form field `row{j}` |
| Sudoku.RowResults | app.py:202-203 | the nine row outcomes of a form |
| Sudoku.RowResultsAt | app.py:202-203 | outcome `i` is the parse of field `row{i}`, empty when missing |
| Sudoku.RowText | app.py:203 | `request.form.get(f'row{i}', '')`: the submitted text of the row field, `''` when it is missing; RowResultsAt states its use |
| Sudoku.RowTokens | app.py:203-204 | the words of the row, taken as `split()` of the raw field text; SplitIgnoresStrip shows this equal to the source's `row.strip().split()`, and SplitSpaced states where it cuts |
| Sudoku.ReadRow | app.py:203-208 | one iteration of the row loop yields that row's outcome |
| Sudoku.Board | app.py:202-209 | a board read without error is a 9x9 grid |
| Sudoku.ParseBoard | app.py:202-209 | the row loop with its `append` reads exactly the board `Board` describes |
| Sudoku.CheckSubmission | app.py:201-215 | the page reports an error iff some row is rejected (with the first rejected row's error), and a valid solution iff the board is a solved Sudoku |
| Games.Guess | app.py:94-105 | a guess that is not an integer is reported as such; otherwise it is too low below 7, too high above 7 and correct at 7 |
| Games.GuessBehindSeparator | app.py:95-105 | a guess of "\x1c7" is "Please enter a valid number.", not the secret, because `int()` does not skip U+001C |
| Games.GuessOfDecimal | app.py:95-101 | for the guess written as the decimal of `n`, the outcome is the comparison of `n` with 7 |
| Games.GuessMessage | app.py:96-105 | the page message for each guess outcome, as the four branches write it |
| Games.CheckNumber | app.py:123-125 | field `num{i+1}` is accepted iff it is an integer in 1..49. A non-integer gives `int()`'s error and an integer out of range the range message |
| Games.EnteredNumbers | app.py:122-126 | accepted entries are six numbers, each in 1..49 |
| Games.ReadNumbers | app.py:122-126 | the loop that appends to `user_numbers` gives exactly `EnteredNumbers` |
| Games.EnteredNumbersOk | app.py:122-126 | the entries are accepted iff all six fields pass, and hold their values in order |
| Games.EnteredNumbersError | app.py:122-126 | a rejection reports the first rejected field's error |
| Games.SetOf | app.py:127 | `set(xs)` holds exactly the elements of `xs`, and is no larger than `xs` |
| Games.Matches | app.py:127 | `set(user) & set(drawn)` holds exactly the numbers in both, and is no larger than either |
| Games.SubsetSize | app.py:127 | a subset is no larger than its superset |
| Games.Lottery | app.py:121-131 | the lottery reports an error iff the entries are rejected, with that error; otherwise it reports the entered numbers and their `set & set` matches with the draw |
| Games.LotteryMatchesBound | app.py:121-128 | the matches are at most 6, and every match is in 1..49, drawn and entered |
| Games.Word | app.py:144 | `request.form.get('word', '').strip()`: the stripped field, with a missing field read as empty |
| Games.Palindrome | app.py:144-151 | an empty word after `strip()` gives the prompt; otherwise the outcome carries the stripped word |
| Games.PalindromeIff | app.py:144-151 | a word is reported a palindrome iff it is non-empty and each character equals its mirror image, ignoring ASCII case; a checked word has non-space ends |
| Games.MirrorIff | app.py:147 | `w.lower() == w[::-1].lower()` iff each character matches its mirror, ignoring ASCII case |
| Games.PalindromeMessage | app.py:145-151 | the page message for each palindrome outcome, quoting the stripped word |
| Counters.GameStats.constructor | app.py:35-43 | all seven counters start at zero, and the counter invariant holds |
| Counters.GameStats.TotalGamesPlayed | app.py:62-67 | the home page total is at least the guess wins plus palindrome hits, and at least the lottery plays |
| Counters.GameStats.PlayGuess | app.py:92-102 | a guess POST adds 1 to `guess_attempts` and 1 to `guess_wins` exactly on a correct guess. Nothing else changes, and wins never exceed attempts |
| Counters.GameStats.PlayLottery | app.py:119-131 | a lottery POST always adds 1 to `lottery_plays`, errors included. It adds the number of matches to `lottery_matches` only on an accepted entry. Nothing else changes, and matches stay within 6 per play |
| Counters.GameStats.PlayPalindrome | app.py:142-151 | a palindrome POST adds 1 to `palindrome_checks` and 1 to `palindrome_hits` exactly on a palindrome. Nothing else changes, and hits never exceed checks |
| Counters.GameStats.PlaySudoku | app.py:199-216 | a Sudoku POST adds 1 to `sudoku_plays`, whatever the outcome, and reports as `CheckSubmission` does; nothing else changes |
| Reflections.Day | app.py:311 | an entry's day is `timestamp[:10]` |
| Reflections.SameDayPairs | app.py:310-314 | the loop compares at most the pairs that exist |
| Reflections.StreakOf | app.py:307-314 | the streak is 1 for 0 or 1 entries; otherwise it is at least 1 and at most the number of entries |
| Reflections.Streak | app.py:307-314 | the loop with its `break` computes `StreakOf` |
| Reflections.SameDayBlock | app.py:310-314 | the counted pairs extend a block of entries of the last entry's day, and the loop stops at the first entry of another day |
| Reflections.StreakIsTrailingRun | app.py:307-314 | the last `streak` entries share the last entry's day, and the entry before them, if any, has another day |
| Reflections.Filter | app.py:339 | a list comprehension keeps at most the elements it is given |
| Reflections.FilterMembers | app.py:339-343 | a comprehension keeps exactly the elements that pass its condition |
| Reflections.FilterIsSubsequence | app.py:339-343 | a comprehension keeps its elements in their order |
| Reflections.FilterAppend | app.py:339-343 | a comprehension over a concatenation is the concatenation of the comprehensions |
| Reflections.FilterFilter | app.py:339-343 | two comprehensions in a row are one with both conditions |
| Reflections.FilterAll | app.py:339-343 | a condition that always holds keeps the list as it is |
| Reflections.Tag | app.py:330 | `r.get('tag', 'general')`: the entry's tag, `general` when it has none |
| Reflections.Meets | app.py:339-343 | whether an entry passes one filter step: its mood or its tag (default `general`) equal to the argument up to case, or its lower-cased notes containing the keyword; WhereMembers and SelectedMeets state it |
| Reflections.Keyword | app.py:335 | `request.args.get('search', '').lower()`: the lower-cased search text, empty when absent; FilteredIsSelection and EmptyQueryKeepsAll state its effect |
| Reflections.Where | app.py:339-343 | a filter step of `stats` keeps at most the entries it is given |
| Reflections.WhereMembers | app.py:339-343 | a filter step keeps exactly the entries meeting its criterion, in order |
| Reflections.WhereWhere | app.py:338-343 | two filter steps in a row are one step on both criteria |
| Reflections.WhereAnything | app.py:337-343 | a skipped step keeps every entry |
| Reflections.SelectedMeets | app.py:338-343 | the three steps' criteria together are the selection rule |
| Reflections.Filtered | app.py:337-343 | the filter chain of `stats` as written: mood, then tag, then keyword, each only when given; FilteredIsSelection states what it keeps |
| Reflections.FilteredIsSelection | app.py:337-343 | `filtered` holds exactly the entries whose mood, tag and notes match each given argument, case-insensitively (tag defaulting to `general`), in journal order |
| Reflections.EmptyQueryKeepsAll | app.py:337-343 | with no mood, tag or keyword given, every entry is shown |
| Trend.Tally | app.py:349-352 | the count for a day and mood is at most the number of entries counted |
| Trend.DayTotal | app.py:349-352 | the entries of a day are at most the entries counted |
| Trend.DaysOf | app.py:349-353 | every counted entry's day is a key of `day_mood` |
| Trend.MoodsOf | app.py:354 | every counted entry's mood is among `all_moods` |
| Trend.TallyListed | app.py:349-354 | a day and mood with a positive count are a listed day and a listed mood |
| Trend.MoodHasDay | app.py:354 | every listed mood has a day with a positive count |
| Trend.IsTrendOf | app.py:346-358 | the reference definition of the chart a journal should give: its days and moods once each, ascending, and per mood one count per day |
| Trend.BumpAt | app.py:352 | `day_mood[day][mood] += 1` on the nested `defaultdict` creates the keys it touches, adds 1 to that count and no other |
| Trend.BumpCounts | app.py:350-352 | one more iteration of the counting loop keeps `day_mood` the counts of the entries seen so far |
| Trend.MoodSetOfCounts | app.py:354 | `{m for v in day_mood.values() for m in v}` is the set of the journal's moods |
| Trend.SeriesOfCounts | app.py:357 | over the complete counts, a mood's series has one entry per listed day, the number of journal entries of that day with that mood |
| Trend.Data | app.py:357 | `{mood: [...] for mood in all_moods}`: one series per mood of the counts |
| Trend.CountByDay | app.py:349-352 | the counting loop leaves `day_mood` holding, per day and mood, the number of entries |
| Trend.BuildTrend | app.py:346-358 | `mood_trend`: days and moods are the journal's own, strictly ascending. Every mood maps to a series over the days whose `k`-th count is the number of entries of that day and mood. An empty journal gives empty days and data |
| Trend.TrendOfCounts | app.py:353-358 | sorted keys of complete counts make a mood trend of the journal |
| Trend.SumTallyStep | app.py:357 | one more entry adds to a sum of counts once per listing of its mood |
| Trend.SortedOnce | app.py:354 | a mood appears once in the sorted list of moods |
| Trend.SumTallyIsDayTotal | app.py:357 | summed over all moods, the counts of a day are its number of entries |
| Trend.ColumnIsSumTally | app.py:357 | a column of the chart data is the sum of that day's counts |
| Trend.ListedDayHasEntry | app.py:353 | every listed day has at least one entry |
| Trend.TrendColumnSums | app.py:346-358 | a day's column of the chart sums to that day's number of entries, which is positive |
| Scoreboard.Key | static/js/script.js:60-61 | the sort key of a row in column `idx`: the cell's number, 0 where `parseFloat` gives NaN |
| Scoreboard.Swap | static/js/script.js:59-63 | exchanging two rows keeps the multiset of rows |
| Scoreboard.SwapLeft | static/js/script.js:59-63 | moving the row being placed one step left, past a smaller key, keeps the insertion invariant |
| Scoreboard.DoneInserting | static/js/script.js:59-63 | once the row before is not smaller, the first `i + 1` rows are in non-increasing key order |
| Scoreboard.InsertStep | static/js/script.js:59-63 | placing the next row extends the sorted prefix by one and only reorders rows |
| Scoreboard.SortRows | static/js/script.js:59-63 | `rows.sort((a, b) => v2 - v1)` leaves the rows in non-increasing order of the column's value, as a permutation of the rows before |
| Scoreboard.DistinctOnce | static/js/script.js:57 | distinct row nodes each occur once |
| Scoreboard.TwiceInMultiset | static/js/script.js:57 | a row at two positions occurs twice |
| Scoreboard.PermutationKeepsDistinct | static/js/script.js:57-64 | reordering distinct row nodes keeps them distinct |
| Scoreboard.IndexOf | static/js/script.js:64 | the position of a row node in the table body |
| Scoreboard.IndexOfAppend | static/js/script.js:64 | a row's first position is where it stands among the rows not yet re-appended |
| Scoreboard.RemoveFromFront | static/js/script.js:64 | taking a row out of the front part removes one occurrence of it |
| Scoreboard.MoveStep | static/js/script.js:64 | moving the next row of the sorted array to the end leaves the other unmoved rows, then the appended ones in order |
| Scoreboard.Table.constructor | static/js/script.js:57 | the table body holds the given distinct rows |
| Scoreboard.Table.AppendChild | static/js/script.js:64 | `appendChild` of a row already in the body moves that node to the end |
| Scoreboard.Table.AppendAll | static/js/script.js:64 | re-appending a reordering of the body, row by row, leaves the body in exactly that order |
| Scoreboard.Table.ClickHeader | static/js/script.js:56-65 | a click on a numeric header leaves the same rows with no cell changed, largest value of the column first (unparsable cells as 0) |
| Page.Detailed | static/js/script.js:17-19 | the test both submit handlers apply: the trimmed suggestion is at least 3 UTF-16 units long (the negation of `val.length < 3`); DetailedIffThreeChars, FirstSubmitVerdict and SecondSubmitVerdict state it |
| Page.Utf16Length | static/js/script.js:19 | `val.length` counts UTF-16 units: at least the number of characters and at most twice it, equal exactly when no character is beyond U+FFFF |
| Page.DetailedIffThreeChars | static/js/script.js:17-19 | without characters beyond U+FFFF, a suggestion passes iff it has at least 3 characters once trimmed |
| Page.Thanks | static/js/script.js:29 | the thanks message quotes the trimmed suggestion and differs from the rejection |
| Page.FirstSubmit | static/js/script.js:15-31 | the first submit handler as written; FirstSubmitVerdict states its outcomes |
| Page.SecondSubmit | static/js/script.js:111-125 | the second submit handler as written; SecondSubmitVerdict states its outcomes |
| Page.AsWrittenSubmit | static/js/script.js:15-125 | a submission as the page runs it: the first handler, then the second; AsWrittenAlwaysRejects states its outcome |
| Page.FirstSubmitVerdict | static/js/script.js:15-31 | the first submit handler shows the rejection iff the trimmed suggestion is shorter than 3. A rejected suggestion stays in the input, marked invalid, in crimson with focus. An accepted one is thanked in the toast, unmarked and reset |
| Page.SecondSubmitVerdict | static/js/script.js:111-125 | the second submit handler shows the rejection iff the trimmed suggestion is shorter than 3, in crimson. An accepted one is thanked in the feedback, in indigo, and reset |
| Page.SubmitHandlersAgree | static/js/script.js:15-125 | the two submit handlers accept the same suggestions and leave the same input |
| Page.EmptyNotDetailed | static/js/script.js:19 | the emptied input fails the length test |
| Page.AsWrittenAlwaysRejects | static/js/script.js:15-125 | with both handlers attached, every submission ends with the crimson rejection; an accepted one also shows the thanks toast |
| Page.AsWrittenRejectsChess | static/js/script.js:15-125 | "Chess" passes the test yet ends rejected |
| Page.SuggestForm.constructor | static/js/script.js:13-14 | the form's elements start in the given state |
| Page.SuggestForm.ShowToast | static/js/script.js:83-90 | `showToast(msg)` shows `msg` on the default green; nothing else changes |
| Page.SuggestForm.ShowRejection | static/js/script.js:20-22 | the rejection message, shown in crimson |
| Page.SuggestForm.HandleFirst | static/js/script.js:15-31 | the first handler's updates of the input, the feedback and the toast are `FirstSubmit` |
| Page.SuggestForm.HandleSecond | static/js/script.js:111-125 | the second handler's updates of the input and the feedback are `SecondSubmit` |
| Page.SuggestForm.Submit | static/js/script.js:15-125 | a submit event runs both handlers in order |
| Page.FirstToggle | static/js/script.js:39-47 | the first click handler as written; FirstToggleFlips states its effect |
| Page.SecondToggle | static/js/script.js:133-137 | the second click handler as written; SecondToggleFlips states its effect |
| Page.AsWrittenToggle | static/js/script.js:39-137 | a click as the page runs it: the first handler, then the second; AsWrittenToggleKeeps states its effect |
| Page.FirstToggleFlips | static/js/script.js:39-47 | the first toggle turns a hidden list (`'none'` or `''`) into a shown one with `▲`, and a shown one into a hidden one with `▼` |
| Page.SecondToggleFlips | static/js/script.js:133-137 | on the displays the page can hold, the second toggle flips visibility in the same way, with the matching arrow |
| Page.TogglesAgree | static/js/script.js:39-137 | on those displays the two toggles do the same |
| Page.ToggleTwiceReturns | static/js/script.js:39-47 | two more clicks return to the state the first click left |
| Page.Clicks | static/js/script.js:39-47 | after one or more clicks the arrow matches the list |
| Page.ClicksAlternate | static/js/script.js:39-47 | from the initially hidden list, one handler shows it after an odd number of clicks and hides it after an even number |
| Page.AsWrittenToggleKeeps | static/js/script.js:39-137 | with both handlers attached, a click leaves visibility as it was; a hidden list ends as `'none'` with `▼` |
| Page.AsWrittenNeverOpens | static/js/script.js:39-137 | with both handlers attached, the initially hidden list never opens, however often it is clicked |
| Page.FactsPanel.constructor | static/js/script.js:35-38 | the list starts with no inline display |
| Page.FactsPanel.ToggleFirst | static/js/script.js:39-47 | the first click handler's updates are `FirstToggle` |
| Page.FactsPanel.ToggleSecond | static/js/script.js:133-137 | the second click handler's updates are `SecondToggle` |
| Page.FactsPanel.Click | static/js/script.js:39-137 | a click runs both handlers in order |
| Page.Shortcut | static/js/script.js:94-100 | the page an Alt key press leads to, if any; ShortcutKeys states which keys do what |
| Page.LowerIsLetter | static/js/script.js:96-98 | `key.toLowerCase()` is a given lower-case letter iff the key is that letter in either case |
| Page.ShortcutKeys | static/js/script.js:94-100 | only Alt without Shift navigates: g/G to `/games`, r/R to `/reflect`, s/S to `/stats`; any other key goes nowhere |
| Page.Location.constructor | static/js/script.js:94-100 | the location starts at the given address |
| Page.Location.KeyDown | static/js/script.js:94-100 | the keydown listener sets `location.href` to the shortcut's page, or leaves it unchanged |

## Left out

- Flask routing, `render_template`, `session`, `flash`, `redirect` and the page messages'
  HTML rendering are not modelled. They are framework plumbing. The outcome datatypes carry what
  the messages report.
- Loading and saving `reflections.json` and `contacts.json`, and the contact form, are not
  modelled. They are file I/O. The journal is a parameter: a sequence of reflections.
- The random draw, `random.choice` of the quote and `datetime.now()` are nondeterministic. The
  drawn numbers and the timestamps are parameters.
- The creation of a new reflection on the journal POST is not modelled. It appends to a file with
  the current time.
- The BMI calculator is not modelled: it divides and rounds floating-point numbers.
- The `/export` response and the home page's most common mood and latest entry are not modelled.
  They are response building with no rule of their own.
- Smooth scrolling, the scroll-to-top button, `showToast`'s hiding timer and the stats page's
  `console.log` are not modelled. They are event and timer glue.
- Scoreboard.Key: a score cell is an optional integer, with `None` where `parseFloat` gives NaN,
  which counts as 0. Fractional scores and JavaScript's float arithmetic are not modelled.
- Scoreboard.Table.ClickHeader: does not model a click on column 0. That column subtracts the
  raw name strings, which JavaScript converts to numbers. When no name reads as a number, every
  difference is NaN, which `Array.prototype.sort` treats as equal; the stable sort then keeps the
  rows in place and the click changes nothing. When some names read as numbers and others do not,
  the comparator is inconsistent and the resulting order is implementation-defined. It also does
  not state which order rows with equal keys end up in. The model's insertion sort keeps them in
  place, as the stable `Array.prototype.sort` does. It requires every row to have the clicked
  cell. A row without it makes `a.cells[idx].textContent` throw a `TypeError` in the comparator,
  and the click then ends without re-appending any row; that case is not modelled.
- static/js/script.js:141-163 is a block of CSS rules inside the script file. As JavaScript it is
  a syntax error, so a browser loading the file as written runs none of it: no handler is
  attached, and nothing is sorted, validated, toggled or navigated. The model takes the script
  as if that block were absent. Every script member, and both Findings, describe that script.
- Strings.Lower: lower-cases ASCII letters only. Unicode case mapping is not modelled. For the
  shortcut letters g, r and s no other character lower-cases to them, so the shortcuts are exact.
  The members built on it compare case only on ASCII letters: Games.Palindrome, Reflections.Meets,
  Reflections.Keyword and Reflections.Selected. For example, Python's `lower()` makes "Ää" a
  palindrome, and the model does not; a mood filter "ÄRGER" on an entry "ärger" matches in the
  source and not in the model.
- Page.Utf16Length: JavaScript strings are sequences of UTF-16 units, and lone surrogates are not
  representable here. The model's strings are sequences of Unicode scalar values, and the length
  counts two for every character beyond U+FFFF.
- Page.FactsPanel.constructor: starts the list with no inline display (`''`). That is what an
  element without a `style` attribute reads. The page template is not part of this model, and
  Page.AsWrittenNeverOpens holds for a list that starts hidden in this way.
- Page.FirstSubmit: `this.reset()` is modelled as emptying the suggestion input. The page
  template, which would give its default value, is not part of this model. Focus is a flag that
  the rejection sets.
- Integers are unbounded, like Python's, so no wrap-around is modelled.
- Strings.ParseInt: does not model the integer string conversion limit of CPython 3.11 and of the
  security releases that brought it to older versions. There, by default, `int()` on a literal of
  more than 4300 digits raises `ValueError`, and so does `str()` on an integer that long. On such
  a Python a 5000-digit guess is "Please enter a valid number.", where Games.Guess gives TooHigh,
  and a 5000-digit lottery number is an error, where Games.CheckNumber gives the range message.
  Strings.ParseIntDecimal is likewise promised here only for decimals of at most 4300 digits.
- Strings.ParseInt: accepts ASCII digits with single underscores between them, an optional sign
  and surrounding whitespace as IsIntSpace defines it. Non-ASCII decimal digits, which Python's `int()` also accepts, are
  not modelled.
- Reflections.Tag: an entry's tag is optional, `general` when it is missing. An entry whose tag
  is JSON `null` is not distinguished from a missing one. In the source, `r.get('tag', 'general')`
  gives `None` for such an entry: any tag filter then raises AttributeError on `.lower()`
  (app.py:341), and `tag_counts` counts it under a `None` key (app.py:330). The model reads that
  tag as `general`. Only a hand-edited journal file can hold such an entry, since new entries are
  written with `tag or "general"` (app.py:292).

## Findings

| source | as written | input that shows it | evidently intended | confidence | as-written member | corrected member |
|---|---|---|---|---|---|---|
| static/js/script.js:15-31, static/js/script.js:111-125 | two submit handlers are attached to the same form. The first accepts a suggestion and resets the form. The second then reads the emptied input and shows the crimson rejection. This holds for the script without the CSS block at lines 141-163 (see "Left out") | submitting "Chess" | one handler: an accepted suggestion is thanked, not rejected | not executed | Page.AsWrittenRejectsChess | Page.FirstSubmitVerdict |
| static/js/script.js:39-47, static/js/script.js:133-137 | two click handlers are attached to the fun-facts toggle. The first opens a hidden list and the second closes it again, so every click leaves the list hidden. This holds for the script without the CSS block at lines 141-163 (see "Left out") | clicking the toggle any number of times from the initial state | one handler: each click flips the list between hidden and shown | not executed | Page.AsWrittenNeverOpens | Page.ClicksAlternate |
