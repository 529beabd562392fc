/** The handlers of the site's page script other than the scoreboard sort: the suggest-a-game
    form, the fun-facts panel and the Alt-key shortcuts. The script attaches its form and its
    panel handlers twice, once from each of its two `DOMContentLoaded` listeners; each is
    modelled alone, and the two together as the page runs them. */
module Page {
  import opened Wrappers
  import opened Strings

  // ---------------------------------------------------------------------------------------------
  // The suggest-a-game form
  // ---------------------------------------------------------------------------------------------

  /** JavaScript's `s.length`: UTF-16 code units, two for a character beyond U+FFFF. */
  function Utf16Length(s: string): (n: nat)
    ensures |s| <= n <= 2 * |s|
    ensures n == |s| <==> forall i :: 0 <= i < |s| ==> s[i] as int <= 0xFFFF
  {
    if s == [] then 0
    else
      assert forall i :: 0 < i < |s| ==> s[i] == s[1..][i - 1];
      (if s[0] as int <= 0xFFFF then 1 else 2) + Utf16Length(s[1..])
  }

  /** The test both submit handlers apply: the trimmed suggestion is at least 3 code units long. */
  predicate Detailed(suggestion: string) {
    Utf16Length(JsTrim(suggestion)) >= 3
  }

  /** Without characters beyond U+FFFF, the test counts characters: three or more once trimmed. */
  lemma DetailedIffThreeChars(suggestion: string)
    requires forall i :: 0 <= i < |suggestion| ==> suggestion[i] as int <= 0xFFFF
    ensures Detailed(suggestion) <==> |JsTrim(suggestion)| >= 3
  {
    var t := JsTrim(suggestion);
    var k :| SurroundedAt(suggestion, JavaScript, k, t);
    forall i | 0 <= i < |t| ensures t[i] as int <= 0xFFFF {
      assert t[i] == suggestion[k + i];
    }
  }

  /** The feedback for a suggestion that fails the test. */
  const Rejection := "Please enter a more detailed suggestion."

  /** The thanks for an accepted suggestion `val`, in the toast of the first handler and the
      feedback of the second. */
  function Thanks(val: string): (m: string)
    ensures |m| == |val| + 31 && m[29..|m| - 2] == val && m != Rejection
  {
    var m := "Thanks for your suggestion: \"" + val + "\"!";
    assert m[0] == 'T' != Rejection[0];
    m
  }

  /** The feedback paragraph: its text, `style.display` and `style.color`. */
  datatype Feedback = Feedback(text: string, display: string, color: string)

  /** The toast: its text, `style.background` and `style.display`. */
  datatype Toast = Toast(text: string, background: string, display: string)

  /** What the submit handlers read and change: the suggestion input's value, whether it carries
      the class `invalid` and whether it has the focus, the feedback paragraph and the toast. */
  datatype SuggestView = SuggestView(value: string, invalid: bool, focused: bool,
                                     feedback: Feedback, toast: Toast)

  /** `showToast(msg)` with its default colour; the timer that hides it again is not modelled. */
  function ShownToast(msg: string): Toast {
    Toast(msg, "#4caf50", "block")
  }

  /** The submit handler attached first: reject in crimson, mark the input and focus it; or
      clear the mark and the feedback, thank in a toast and reset the form. */
  function FirstSubmit(p: SuggestView): SuggestView {
    var val := JsTrim(p.value);
    if Utf16Length(val) < 3 then
      p.(invalid := true, focused := true, feedback := Feedback(Rejection, "block", "crimson"))
    else
      p.(value := "", invalid := false, feedback := p.feedback.(text := ""), toast := ShownToast(Thanks(val)))
  }

  /** The submit handler attached second: reject in crimson; or thank in the feedback, in
      indigo, and reset the form. */
  function SecondSubmit(p: SuggestView): SuggestView {
    var val := JsTrim(p.value);
    if Utf16Length(val) < 3 then
      p.(feedback := Feedback(Rejection, "block", "crimson"))
    else
      p.(value := "", feedback := Feedback(Thanks(val), "block", "#4f46e5"))
  }

  /** A submission as the page runs it: the first handler, then the second. */
  function AsWrittenSubmit(p: SuggestView): SuggestView {
    SecondSubmit(FirstSubmit(p))
  }

  /** The first handler shows the rejection exactly for a suggestion that fails the test, and
      then keeps it, marked, in the focused input; an accepted one is thanked in the toast and
      cleared from the form. */
  lemma FirstSubmitVerdict(p: SuggestView)
    ensures FirstSubmit(p).feedback.text == Rejection <==> !Detailed(p.value)
    ensures !Detailed(p.value) ==>
      var q := FirstSubmit(p);
      q.feedback == Feedback(Rejection, "block", "crimson") && q.value == p.value && q.invalid && q.focused
      && q.toast == p.toast
    ensures Detailed(p.value) ==>
      var q := FirstSubmit(p);
      q.value == "" && !q.invalid && q.feedback.text == "" && q.toast == ShownToast(Thanks(JsTrim(p.value)))
  {
  }

  /** The second handler shows the rejection exactly for a suggestion that fails the test, and
      then keeps it in the input; an accepted one is thanked in the feedback and cleared. */
  lemma SecondSubmitVerdict(p: SuggestView)
    ensures SecondSubmit(p).feedback.text == Rejection <==> !Detailed(p.value)
    ensures !Detailed(p.value) ==>
      var q := SecondSubmit(p);
      q.feedback == Feedback(Rejection, "block", "crimson") && q.value == p.value
    ensures Detailed(p.value) ==>
      var q := SecondSubmit(p);
      q.value == "" && q.feedback == Feedback(Thanks(JsTrim(p.value)), "block", "#4f46e5")
  {
  }

  /** The two handlers reach the same verdict on every suggestion. */
  lemma SubmitHandlersAgree(p: SuggestView)
    ensures FirstSubmit(p).feedback.text == Rejection <==> SecondSubmit(p).feedback.text == Rejection
    ensures FirstSubmit(p).value == SecondSubmit(p).value
  {
    FirstSubmitVerdict(p);
    SecondSubmitVerdict(p);
  }

  /** The empty input, which the reset leaves, fails the test. */
  lemma EmptyNotDetailed()
    ensures !Detailed("")
  {
    TrimUnchanged("", JavaScript);
  }

  /** As the page runs them, every submission ends with the crimson rejection in the feedback:
      an accepted suggestion is thanked in the toast, the form is reset, and the second handler
      then rejects the emptied input. */
  lemma AsWrittenAlwaysRejects(p: SuggestView)
    ensures AsWrittenSubmit(p).feedback == Feedback(Rejection, "block", "crimson")
    ensures Detailed(p.value) ==>
      AsWrittenSubmit(p).value == "" && AsWrittenSubmit(p).toast == ShownToast(Thanks(JsTrim(p.value)))
  {
    EmptyNotDetailed();
  }

  /** One submission that shows it: "Chess" passes the test, yet ends rejected. */
  lemma AsWrittenRejectsChess(p: SuggestView)
    requires p.value == "Chess"
    ensures Detailed(p.value) && AsWrittenSubmit(p).feedback.text == Rejection
  {
    TrimUnchanged("Chess", JavaScript);
    AsWrittenAlwaysRejects(p);
  }

  /** The form's elements: the suggestion input, the feedback paragraph and the toast. */
  class SuggestForm {
    var value: string
    var invalid: bool
    var focused: bool
    var feedbackText: string
    var feedbackDisplay: string
    var feedbackColor: string
    var toastText: string
    var toastBackground: string
    var toastDisplay: string

    function View(): SuggestView
      reads this
    {
      SuggestView(value, invalid, focused, Feedback(feedbackText, feedbackDisplay, feedbackColor),
                  Toast(toastText, toastBackground, toastDisplay))
    }

    constructor (v: SuggestView)
      ensures View() == v
    {
      value, invalid, focused := v.value, v.invalid, v.focused;
      feedbackText, feedbackDisplay, feedbackColor := v.feedback.text, v.feedback.display, v.feedback.color;
      toastText, toastBackground, toastDisplay := v.toast.text, v.toast.background, v.toast.display;
    }

    /** `showToast(msg)`: the toast shows `msg` on the default green. */
    method ShowToast(msg: string)
      modifies this
      ensures View() == old(View()).(toast := ShownToast(msg))
    {
      toastText := msg;
      toastBackground := "#4caf50";
      toastDisplay := "block";
    }

    /** The rejection both handlers show. */
    method ShowRejection()
      modifies this
      ensures View() == old(View()).(feedback := Feedback(Rejection, "block", "crimson"))
    {
      feedbackText := Rejection;
      feedbackDisplay := "block";
      feedbackColor := "crimson";
    }

    /** The submit handler attached first. */
    method HandleFirst()
      modifies this
      ensures View() == FirstSubmit(old(View()))
    {
      ghost var p := View();
      var val := JsTrim(value);
      if Utf16Length(val) < 3 {
        ShowRejection();
        invalid := true;
        focused := true;
        return;
      }
      invalid := false;
      feedbackText := "";
      assert View() == p.(invalid := false, feedback := p.feedback.(text := ""));
      ShowToast(Thanks(val));
      value := "";
    }

    /** The submit handler attached second. */
    method HandleSecond()
      modifies this
      ensures View() == SecondSubmit(old(View()))
    {
      var val := JsTrim(value);
      if Utf16Length(val) < 3 {
        ShowRejection();
        return;
      }
      feedbackText := Thanks(val);
      feedbackDisplay := "block";
      feedbackColor := "#4f46e5";
      value := "";
    }

    /** A submit event: both handlers run, in the order they were attached. */
    method Submit()
      modifies this
      ensures View() == AsWrittenSubmit(old(View()))
    {
      HandleFirst();
      HandleSecond();
    }
  }

  // ---------------------------------------------------------------------------------------------
  // The fun-facts panel
  // ---------------------------------------------------------------------------------------------

  /** The list's `style.display` and the arrow's text. */
  datatype Facts = Facts(display: string, arrow: string)

  /** The first handler's reading of the list: hidden when its inline display is `'none'` or unset. */
  predicate Hidden(f: Facts) {
    f.display == "none" || f.display == ""
  }

  /** The arrow that goes with a list: pointing up while it is shown. */
  function ArrowFor(f: Facts): string {
    if Hidden(f) then "▼" else "▲"
  }

  /** The displays the handlers ever write, and the unset one the page starts with. */
  predicate Reachable(f: Facts) {
    f.display == "" || f.display == "none" || f.display == "block"
  }

  /** The click handler attached first. */
  function FirstToggle(f: Facts): Facts {
    if f.display == "none" || f.display == "" then Facts("block", "▲") else Facts("none", "▼")
  }

  /** The click handler attached second. */
  function SecondToggle(f: Facts): Facts {
    var isOpen := f.display == "block";
    Facts(if isOpen then "none" else "block", if isOpen then "▼" else "▲")
  }

  /** A click as the page runs it: the first handler, then the second. */
  function AsWrittenToggle(f: Facts): Facts {
    SecondToggle(FirstToggle(f))
  }

  /** The first handler turns a hidden list into a shown one and back, with the matching arrow,
      and leaves a list the handlers can write. */
  lemma FirstToggleFlips(f: Facts)
    ensures Hidden(FirstToggle(f)) <==> !Hidden(f)
    ensures FirstToggle(f).arrow == ArrowFor(FirstToggle(f))
    ensures Reachable(FirstToggle(f))
  {
  }

  /** The second handler does the same on every display the page can hold. */
  lemma SecondToggleFlips(f: Facts)
    requires Reachable(f)
    ensures Hidden(SecondToggle(f)) <==> !Hidden(f)
    ensures SecondToggle(f).arrow == ArrowFor(SecondToggle(f))
    ensures Reachable(SecondToggle(f))
  {
  }

  /** On those displays the two handlers are interchangeable. */
  lemma TogglesAgree(f: Facts)
    requires Reachable(f)
    ensures FirstToggle(f) == SecondToggle(f)
  {
  }

  /** Two more clicks return to the state the first click left. */
  lemma ToggleTwiceReturns(f: Facts)
    ensures FirstToggle(FirstToggle(FirstToggle(f))) == FirstToggle(f)
    ensures Hidden(FirstToggle(FirstToggle(f))) == Hidden(f)
  {
  }

  /** `n` clicks of the first handler. */
  function Clicks(f: Facts, n: nat): (g: Facts)
    ensures n > 0 ==> Reachable(g) && g.arrow == ArrowFor(g)
  {
    if n == 0 then f else FirstToggle(Clicks(f, n - 1))
  }

  /** With one handler the list is shown after an odd number of clicks and hidden after an even
      one, from the hidden list the page starts with. */
  lemma {:induction false} ClicksAlternate(f: Facts, n: nat)
    requires Hidden(f)
    ensures Hidden(Clicks(f, n)) <==> n % 2 == 0
  {
    if n > 0 {
      ClicksAlternate(f, n - 1);
      FirstToggleFlips(Clicks(f, n - 1));
    }
  }

  /** `n` clicks as the page runs them. */
  function AsWrittenClicks(f: Facts, n: nat): Facts {
    if n == 0 then f else AsWrittenToggle(AsWrittenClicks(f, n - 1))
  }

  /** As written, a click leaves the list as it was: the first handler opens a hidden list and
      the second closes it again. */
  lemma AsWrittenToggleKeeps(f: Facts)
    ensures Hidden(AsWrittenToggle(f)) == Hidden(f)
    ensures Hidden(f) ==> AsWrittenToggle(f) == Facts("none", "▼")
  {
  }

  /** So, as written, the list the page starts with never opens, however often it is clicked. */
  lemma {:induction false} AsWrittenNeverOpens(f: Facts, n: nat)
    requires Hidden(f)
    ensures Hidden(AsWrittenClicks(f, n))
    ensures n > 0 ==> AsWrittenClicks(f, n) == Facts("none", "▼")
  {
    if n > 0 {
      AsWrittenNeverOpens(f, n - 1);
      AsWrittenToggleKeeps(AsWrittenClicks(f, n - 1));
    }
  }

  /** The list and the arrow of the panel. */
  class FactsPanel {
    var display: string
    var arrow: string

    function View(): Facts
      reads this
    {
      Facts(display, arrow)
    }

    constructor (arrow: string)
      ensures View() == Facts("", arrow)
    {
      display := "";
      this.arrow := arrow;
    }

    /** The click handler attached first. */
    method ToggleFirst()
      modifies this
      ensures View() == FirstToggle(old(View()))
    {
      if display == "none" || display == "" {
        display := "block";
        arrow := "▲";
      } else {
        display := "none";
        arrow := "▼";
      }
    }

    /** The click handler attached second. */
    method ToggleSecond()
      modifies this
      ensures View() == SecondToggle(old(View()))
    {
      var isOpen := display == "block";
      display := if isOpen then "none" else "block";
      arrow := if isOpen then "▼" else "▲";
    }

    /** A click: both handlers run, in the order they were attached. */
    method Click()
      modifies this
      ensures View() == AsWrittenToggle(old(View()))
    {
      ToggleFirst();
      ToggleSecond();
    }
  }

  // ---------------------------------------------------------------------------------------------
  // Keyboard shortcuts
  // ---------------------------------------------------------------------------------------------

  /** The page a key press sends the browser to, if any. */
  function Shortcut(alt: bool, shift: bool, key: string): Option<string> {
    if alt && !shift then
      var k := Lower(key);
      if k == "g" then Some("/games")
      else if k == "r" then Some("/reflect")
      else if k == "s" then Some("/stats")
      else None
    else None
  }

  /** `Lower(key)` is one given lower-case letter exactly when `key` is that letter in either case. */
  lemma LowerIsLetter(key: string, c: char)
    requires 'a' <= c <= 'z'
    ensures Lower(key) == [c] <==> key == [c] || key == [(c as int - 32) as char]
  {
    if Lower(key) == [c] {
      assert |key| == 1 && LowerChar(key[0]) == c;
    }
  }

  /** Only Alt without Shift navigates: g or G to the games, r or R to the journal, s or S to
      the stats, and any other key nowhere. */
  lemma ShortcutKeys(alt: bool, shift: bool, key: string)
    ensures Shortcut(alt, shift, key) == Some("/games") <==> alt && !shift && (key == "g" || key == "G")
    ensures Shortcut(alt, shift, key) == Some("/reflect") <==> alt && !shift && (key == "r" || key == "R")
    ensures Shortcut(alt, shift, key) == Some("/stats") <==> alt && !shift && (key == "s" || key == "S")
    ensures Shortcut(alt, shift, key).None? <==>
      !(alt && !shift && key in ["g", "G", "r", "R", "s", "S"])
  {
    LowerIsLetter(key, 'g');
    LowerIsLetter(key, 'r');
    LowerIsLetter(key, 's');
  }

  /** `window.location`: the address the page navigates to. */
  class Location {
    var href: string

    constructor (href: string)
      ensures this.href == href
    {
      this.href := href;
    }

    /** The `keydown` listener: its three tests in turn, of which at most one holds. */
    method KeyDown(alt: bool, shift: bool, key: string)
      modifies this
      ensures href == Shortcut(alt, shift, key).GetOr(old(href))
    {
      if alt && !shift {
        var k := Lower(key);
        if k == "g" { href := "/games"; }
        if k == "r" { href := "/reflect"; }
        if k == "s" { href := "/stats"; }
      }
    }
  }
}
