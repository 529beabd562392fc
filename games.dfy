/** The three small games of app.py: guess the number (`guess_number`), the lottery (`lottery`)
    and the palindrome check (`palindrome`), each as what one submitted form gives. */
module Games {
  import opened Wrappers
  import opened Strings

  // ---------------------------------------------------------------------------------------------
  // Guess the number
  // ---------------------------------------------------------------------------------------------

  /** The number to guess: fixed, not drawn. */
  const Secret := 7

  datatype GuessOutcome = TooLow | TooHigh | Correct | NotANumber(failure: Failure)

  /** What `guess_number` decides for `int(request.form.get('guess'))`. */
  function Guess(form: Form): (o: GuessOutcome)
    ensures o.NotANumber? <==> IntField(Field(form, "guess")).Err?
    ensures o.NotANumber? ==> o.failure == IntField(Field(form, "guess")).error
    ensures o == TooLow <==> IntField(Field(form, "guess")).Ok? && IntField(Field(form, "guess")).value < Secret
    ensures o == TooHigh <==> IntField(Field(form, "guess")).Ok? && IntField(Field(form, "guess")).value > Secret
    ensures o == Correct <==> IntField(Field(form, "guess")) == Ok(Secret)
  {
    match IntField(Field(form, "guess"))
    case Err(e) => NotANumber(e)
    case Ok(g) => if g < Secret then TooLow else if g > Secret then TooHigh else Correct
  }

  /** Typing a whole number in decimal gives the comparison of that number with the secret. */
  lemma GuessOfDecimal(form: Form, n: int)
    requires "guess" in form && form["guess"] == Decimal(n)
    ensures Guess(form) == if n < Secret then TooLow else if n > Secret then TooHigh else Correct
  {
    ParseIntDecimal(n);
  }

  /** A guess behind an information separator is not a number, though `strip()` would remove it. */
  lemma GuessBehindSeparator(form: Form)
    requires "guess" in form && form["guess"] == "\U{1c}7"
    ensures Guess(form).NotANumber?
  {
    IntRejectsSeparator();
  }

  /** The message the page shows. */
  function GuessMessage(o: GuessOutcome): string {
    match o
    case TooLow => "Too low!"
    case TooHigh => "Too high!"
    case Correct => "\U{1F389} Correct! You guessed it!"
    case NotANumber(_) => "Please enter a valid number."
  }

  // ---------------------------------------------------------------------------------------------
  // Lottery
  // ---------------------------------------------------------------------------------------------

  const NumberRangeMessage := "Each number must be between 1 and 49."

  /** The form field of the `i`-th entered number, counted from 0: `num1` to `num6`. */
  function NumberName(i: nat): string {
    "num" + Decimal(i + 1)
  }

  /** One step of the entry loop: `int(request.form.get(f'num{i+1}'))`, rejected outside 1..49. */
  function CheckNumber(form: Form, i: nat): (r: Result<int, Failure>)
    ensures r.Ok? <==> IntField(Field(form, NumberName(i))).Ok? && 1 <= IntField(Field(form, NumberName(i))).value <= 49
    ensures r.Ok? ==> r.value == IntField(Field(form, NumberName(i))).value
    ensures r.Err? && IntField(Field(form, NumberName(i))).Err? ==> r.error == IntField(Field(form, NumberName(i))).error
    ensures r.Err? && IntField(Field(form, NumberName(i))).Ok? ==> r.error == Raised(NumberRangeMessage)
  {
    match IntField(Field(form, NumberName(i)))
    case Err(e) => Err(e)
    case Ok(v) => if v < 1 || v > 49 then Err(Raised(NumberRangeMessage)) else Ok(v)
  }

  /** The six steps of the entry loop, in order. The ensures only unfolds the list literal for the
      prover; what the six steps promise is stated by EnteredNumbersOk and EnteredNumbersError. */
  function NumberSteps(form: Form): (rs: seq<Result<int, Failure>>)
    ensures |rs| == 6 && forall i :: 0 <= i < 6 ==> rs[i] == CheckNumber(form, i)
  {
    [CheckNumber(form, 0), CheckNumber(form, 1), CheckNumber(form, 2),
     CheckNumber(form, 3), CheckNumber(form, 4), CheckNumber(form, 5)]
  }

  /** The numbers entered on the form, or the error of the first rejected one. */
  function EnteredNumbers(form: Form): (r: Result<seq<int>, Failure>)
    ensures r.Ok? ==> |r.value| == 6 && forall i :: 0 <= i < 6 ==> 1 <= r.value[i] <= 49
  {
    Collect(NumberSteps(form), 6)
  }

  /** The entry loop of `lottery`: each number is read, checked and appended to `user_numbers`. */
  method ReadNumbers(form: Form) returns (res: Result<seq<int>, Failure>)
    ensures res == EnteredNumbers(form)
  {
    ghost var steps := NumberSteps(form);
    var userNumbers: seq<int> := [];
    for i := 0 to 6
      invariant Collect(steps, i) == Ok(userNumbers)
    {
      var num := CheckNumber(form, i);
      if num.Err? {
        CollectErrorStays(steps, i + 1, 6);
        return Err(num.error);
      }
      userNumbers := userNumbers + [num.value];
    }
    return Ok(userNumbers);
  }

  /** The entry is accepted exactly when every field holds an integer between 1 and 49; then the
      numbers are those integers in field order. */
  lemma EnteredNumbersOk(form: Form)
    ensures EnteredNumbers(form).Ok? <==> forall i :: 0 <= i < 6 ==> CheckNumber(form, i).Ok?
    ensures EnteredNumbers(form).Ok? ==> forall i :: 0 <= i < 6 ==> EnteredNumbers(form).value[i] == CheckNumber(form, i).value
  {
    CollectOk(NumberSteps(form), 6);
  }

  /** A rejected entry reports the error of the first rejected field. */
  lemma EnteredNumbersError(form: Form)
    requires EnteredNumbers(form).Err?
    ensures exists i :: 0 <= i < 6 && CheckNumber(form, i) == Err(EnteredNumbers(form).error)
                        && forall i' :: 0 <= i' < i ==> CheckNumber(form, i').Ok?
  {
    CollectFirstError(NumberSteps(form), 6);
  }

  /** Python's `set(xs)`. */
  function SetOf(xs: seq<int>): (s: set<int>)
    ensures |s| <= |xs|
    ensures forall x :: x in s <==> x in xs
  {
    if xs == [] then {}
    else
      var rest := SetOf(xs[1..]);
      assert forall x :: x in xs <==> x == xs[0] || x in xs[1..];
      rest + {xs[0]}
  }

  /** `set(user_numbers) & set(drawn_numbers)`. */
  function Matches(user: seq<int>, drawn: seq<int>): (m: set<int>)
    ensures forall x :: x in m <==> x in user && x in drawn
    ensures |m| <= |user| && |m| <= |drawn|
  {
    var u, d := SetOf(user), SetOf(drawn);
    assert u * d <= u && u * d <= d;
    SubsetSize(u * d, u);
    SubsetSize(u * d, d);
    u * d
  }

  /** A subset is no larger than the set holding it. */
  lemma SubsetSize(a: set<int>, b: set<int>)
    requires a <= b
    ensures |a| <= |b|
  {
    assert b == a + (b - a);
    assert a !! (b - a);
  }

  datatype LotteryOutcome = LotteryError(failure: Failure) | Matched(user: seq<int>, matches: set<int>)

  /** One submission of the lottery form against the numbers drawn for it. */
  function Lottery(form: Form, drawn: seq<int>): (o: LotteryOutcome)
    ensures o.LotteryError? <==> EnteredNumbers(form).Err?
    ensures o.LotteryError? ==> o.failure == EnteredNumbers(form).error
    ensures o.Matched? ==> o.user == EnteredNumbers(form).value && o.matches == Matches(o.user, drawn)
  {
    match EnteredNumbers(form)
    case Err(e) => LotteryError(e)
    case Ok(user) => Matched(user, Matches(user, drawn))
  }

  /** An accepted entry matches at most six numbers, each an entered number between 1 and 49 that
      was drawn. */
  lemma LotteryMatchesBound(form: Form, drawn: seq<int>)
    requires Lottery(form, drawn).Matched?
    ensures |Lottery(form, drawn).matches| <= 6
    ensures forall x :: x in Lottery(form, drawn).matches ==> 1 <= x <= 49 && x in drawn && x in Lottery(form, drawn).user
  {
    var o := Lottery(form, drawn);
    forall x | x in o.matches ensures 1 <= x <= 49 {
      var i :| 0 <= i < |o.user| && o.user[i] == x;
    }
  }

  // ---------------------------------------------------------------------------------------------
  // Palindrome
  // ---------------------------------------------------------------------------------------------

  datatype PalindromeOutcome = NoWord | IsPalindrome(word: string) | NotPalindrome(word: string)

  /** `request.form.get('word', '').strip()`. */
  function Word(form: Form): string {
    PyStrip(Field(form, "word").GetOr(""))
  }

  /** What `palindrome` decides for the stripped word. */
  function Palindrome(form: Form): (o: PalindromeOutcome)
    ensures o.NoWord? <==> Word(form) == []
    ensures !o.NoWord? ==> o.word == Word(form)
  {
    var word := Word(form);
    if word == [] then NoWord
    else if Lower(word) == Lower(Reverse(word)) then IsPalindrome(word)
    else NotPalindrome(word)
  }

  /** A word is a palindrome exactly when it reads the same from both ends, ignoring the case of
      ASCII letters; the word has no surrounding whitespace. */
  lemma PalindromeIff(form: Form)
    ensures Palindrome(form).IsPalindrome? <==>
              var w := Word(form);
              w != [] && forall i :: 0 <= i < |w| ==> LowerChar(w[i]) == LowerChar(w[|w| - 1 - i])
    ensures !Palindrome(form).NoWord? ==>
              var w := Word(form);
              !IsPySpace(w[0]) && !IsPySpace(w[|w| - 1])
  {
    var w := Word(form);
    MirrorIff(w);
    assert Palindrome(form).IsPalindrome? <==> w != [] && Lower(w) == Lower(Reverse(w));
  }

  /** `w.lower() == w[::-1].lower()` compares each character with its mirror image. */
  lemma MirrorIff(w: string)
    ensures Lower(w) == Lower(Reverse(w)) <==> forall i :: 0 <= i < |w| ==> LowerChar(w[i]) == LowerChar(w[|w| - 1 - i])
  {
    var a, b := Lower(w), Lower(Reverse(w));
    if forall i :: 0 <= i < |w| ==> LowerChar(w[i]) == LowerChar(w[|w| - 1 - i]) {
      assert forall i :: 0 <= i < |w| ==> a[i] == b[i];
    }
  }

  /** The message the page shows. */
  function PalindromeMessage(o: PalindromeOutcome): string {
    match o
    case NoWord => "⚠️ Please enter a word."
    case IsPalindrome(w) => "✅ '" + w + "' is a palindrome!"
    case NotPalindrome(w) => "❌ '" + w + "' is not a palindrome."
  }
}
