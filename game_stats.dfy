/** The `game_stats` dictionary of app.py: in-memory play counters that each game route updates
    in place before answering. */
module Counters {
  import opened Wrappers
  import opened Strings
  import Sudoku
  import opened Games

  class GameStats {
    var guessAttempts: nat
    var guessWins: nat
    var lotteryPlays: nat
    var lotteryMatches: nat
    var palindromeChecks: nat
    var palindromeHits: nat
    var sudokuPlays: nat

    /** What the counters keep: a game is won no more often than it is played, and a lottery play
        matches at most six numbers. */
    predicate Valid()
      reads this
    {
      && guessWins <= guessAttempts
      && palindromeHits <= palindromeChecks
      && lotteryMatches <= 6 * lotteryPlays
    }

    /** Every counter starts at 0. */
    constructor ()
      ensures Valid()
      ensures guessAttempts == 0 && guessWins == 0
      ensures lotteryPlays == 0 && lotteryMatches == 0
      ensures palindromeChecks == 0 && palindromeHits == 0
      ensures sudokuPlays == 0
    {
      guessAttempts, guessWins := 0, 0;
      lotteryPlays, lotteryMatches := 0, 0;
      palindromeChecks, palindromeHits := 0, 0;
      sudokuPlays := 0;
    }

    /** `total_games_played` on the home page: guesses, lottery plays and palindrome checks (Sudoku
        plays are not included); at least as many as the games won. */
    function TotalGamesPlayed(): (n: nat)
      reads this
      ensures Valid() ==> guessWins + palindromeHits <= n
      ensures lotteryPlays <= n
    {
      guessAttempts + lotteryPlays + palindromeChecks
    }

    /** A POST to `guess_number`: every attempt is counted, a win only when the guess is the secret. */
    method PlayGuess(form: Form) returns (o: GuessOutcome)
      requires Valid()
      modifies this
      ensures Valid()
      ensures o == Guess(form)
      ensures guessAttempts == old(guessAttempts) + 1
      ensures guessWins == old(guessWins) + (if o == Correct then 1 else 0)
      ensures lotteryPlays == old(lotteryPlays) && lotteryMatches == old(lotteryMatches)
      ensures palindromeChecks == old(palindromeChecks) && palindromeHits == old(palindromeHits)
      ensures sudokuPlays == old(sudokuPlays)
    {
      guessAttempts := guessAttempts + 1;
      o := Guess(form);
      if o == Correct {
        guessWins := guessWins + 1;
      }
    }

    /** A POST to `lottery` against the numbers drawn for it: every play is counted, and an accepted
        entry adds its number of matches. */
    method PlayLottery(form: Form, drawn: seq<int>) returns (o: LotteryOutcome)
      requires Valid()
      modifies this
      ensures Valid()
      ensures o == Lottery(form, drawn)
      ensures lotteryPlays == old(lotteryPlays) + 1
      ensures lotteryMatches == old(lotteryMatches) + (if o.Matched? then |o.matches| else 0)
      ensures guessAttempts == old(guessAttempts) && guessWins == old(guessWins)
      ensures palindromeChecks == old(palindromeChecks) && palindromeHits == old(palindromeHits)
      ensures sudokuPlays == old(sudokuPlays)
    {
      lotteryPlays := lotteryPlays + 1;
      var user := ReadNumbers(form);
      if user.Err? {
        return LotteryError(user.error);
      }
      var matches := Matches(user.value, drawn);
      o := Matched(user.value, matches);
      LotteryMatchesBound(form, drawn);
      lotteryMatches := lotteryMatches + |matches|;
    }

    /** A POST to `palindrome`: every check is counted, a hit only for a palindrome. */
    method PlayPalindrome(form: Form) returns (o: PalindromeOutcome)
      requires Valid()
      modifies this
      ensures Valid()
      ensures o == Palindrome(form)
      ensures palindromeChecks == old(palindromeChecks) + 1
      ensures palindromeHits == old(palindromeHits) + (if o.IsPalindrome? then 1 else 0)
      ensures guessAttempts == old(guessAttempts) && guessWins == old(guessWins)
      ensures lotteryPlays == old(lotteryPlays) && lotteryMatches == old(lotteryMatches)
      ensures sudokuPlays == old(sudokuPlays)
    {
      palindromeChecks := palindromeChecks + 1;
      o := Palindrome(form);
      if o.IsPalindrome? {
        palindromeHits := palindromeHits + 1;
      }
    }

    /** A POST to `sudoku`: every submission is counted, whatever it holds. */
    method PlaySudoku(form: Form) returns (o: Sudoku.SudokuOutcome)
      requires Valid()
      modifies this
      ensures Valid()
      ensures o.SudokuError? <==> Sudoku.Board(form).Err?
      ensures o.SudokuError? ==> o.failure == Sudoku.Board(form).error
      ensures o == Sudoku.ValidSolution <==> Sudoku.Board(form).Ok? && Sudoku.IsSudokuSolution(Sudoku.Board(form).value)
      ensures sudokuPlays == old(sudokuPlays) + 1
      ensures guessAttempts == old(guessAttempts) && guessWins == old(guessWins)
      ensures lotteryPlays == old(lotteryPlays) && lotteryMatches == old(lotteryMatches)
      ensures palindromeChecks == old(palindromeChecks) && palindromeHits == old(palindromeHits)
    {
      sudokuPlays := sudokuPlays + 1;
      o := Sudoku.CheckSubmission(form);
    }
  }
}
