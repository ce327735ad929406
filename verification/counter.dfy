/**
 * The counter game: an integer with increase, decrease and reset, a display
 * whose text and colour follow the count, a message chosen from five bands
 * of the count, and keyboard shortcuts that press the buttons.
 */
module Counter {
  import opened Wrappers
  import opened Text

  /** The type argument of showMessage, which becomes the message's class. */
  datatype Tone = Success | Warning

  /** The colour updateCounter gives the displayed value. */
  datatype Colour = SuccessColour | DangerColour | PrimaryColour

  /** A message element's text and type. */
  datatype Notice = Notice(text: string, tone: Tone)

  /** The five ranges showCounterMessage distinguishes. */
  datatype Band = AtZero | Rising | OnFire | Falling | Deep

  /** The counter section: the count, the displayed value and colour, and the last message. */
  datatype CounterState = CounterState(count: int, shown: string, colour: Colour, notice: Option<Notice>)

  /** Which of the five ranges the count lies in. */
  function BandOf(c: int): (b: Band)
    ensures b == AtZero <==> c == 0
    ensures b == Rising <==> 1 <= c <= 5
    ensures b == OnFire <==> 5 < c
    ensures b == Falling <==> -5 <= c <= -1
    ensures b == Deep <==> c < -5
  {
    if c == 0 then AtZero
    else if c > 0 && c <= 5 then Rising
    else if c > 5 then OnFire
    else if c < 0 && c >= -5 then Falling
    else Deep
  }

  /** updateCounter's colour: success above zero, danger below, primary at zero. */
  function ColourFor(c: int): (r: Colour)
    ensures r == SuccessColour <==> c > 0
    ensures r == DangerColour <==> c < 0
    ensures r == PrimaryColour <==> c == 0
  {
    if c > 0 then SuccessColour
    else if c < 0 then DangerColour
    else PrimaryColour
  }

  const ZeroText := "Back to zero! \U{1F3AF}"
  const ResetText := "Counter reset! \U{1F504}"
  const ShortcutUpText := "Keyboard shortcut used! (+) \U{1F3B9}"
  const ShortcutDownText := "Keyboard shortcut used! (-) \U{1F3B9}"

  /** Text before the number in each band's message. */
  function Lead(b: Band): string {
    match b
    case AtZero => ZeroText
    case Rising => "Positive vibes! (+"
    case OnFire => "You're on fire! (+"
    case Falling => "Going negative... ("
    case Deep => "Deep in the negatives! ("
  }

  /** Text after the number in each band's message. */
  function Tail(b: Band): string {
    match b
    case AtZero => ""
    case Rising => ") \U{1F60A}"
    case OnFire => ") \U{1F525}"
    case Falling => ") \U{1F605}"
    case Deep => ") \U{1F976}"
  }

  /** The message showCounterMessage displays for count `c`; the number is printed as a template literal prints it. */
  function CounterNotice(c: int): (n: Notice)
    ensures n.tone == Warning <==> c < 0
    ensures Lead(BandOf(c)) <= n.text
  {
    var b := BandOf(c);
    var tone := if c < 0 then Warning else Success;
    if b == AtZero then Notice(ZeroText, tone)
    else Notice(Lead(b) + IntToDecimal(c) + Tail(b), tone)
  }

  lemma MiddleOf(p: string, d: string, t: string)
    ensures (p + d + t)[|p|..|p| + |d|] == d
  {
  }

  /** Different counts produce different messages: the message always identifies the count. */
  lemma NoticeDeterminesCount(a: int, b: int)
    requires CounterNotice(a).text == CounterNotice(b).text
    ensures a == b
  {
    var ba := BandOf(a);
    SameBand(a, b);
    if ba != AtZero {
      var ta := CounterNotice(a).text;
      var da, db := IntToDecimal(a), IntToDecimal(b);
      assert ta == Lead(ba) + da + Tail(ba);
      assert ta == Lead(ba) + db + Tail(ba);
      assert |da| == |db|;
      MiddleOf(Lead(ba), da, Tail(ba));
      MiddleOf(Lead(ba), db, Tail(ba));
      IntToDecimalInjective(a, b);
    }
  }

  /** Each band's message starts with a different character, so equal messages come from the same band. */
  lemma SameBand(a: int, b: int)
    requires CounterNotice(a).text == CounterNotice(b).text
    ensures BandOf(a) == BandOf(b)
  {
    var ta := CounterNotice(a).text;
    assert ta[0] == Lead(BandOf(a))[0];
    assert ta[0] == Lead(BandOf(b))[0];
  }

  /** updateCounter: the display takes the count's decimal text and sign colour. */
  function Refresh(s: CounterState): (r: CounterState)
    ensures InSync(r) && r.count == s.count && r.notice == s.notice
  {
    s.(shown := IntToDecimal(s.count), colour := ColourFor(s.count))
  }

  /** The display reflects the count. */
  predicate InSync(s: CounterState) {
    s.shown == IntToDecimal(s.count) && s.colour == ColourFor(s.count)
  }

  /** The increase button: one more, display refreshed, band message shown. */
  function Increase(s: CounterState): (r: CounterState)
    ensures r.count == s.count + 1 && InSync(r)
    ensures r.notice == Some(CounterNotice(s.count + 1))
  {
    Refresh(s.(count := s.count + 1)).(notice := Some(CounterNotice(s.count + 1)))
  }

  /** The decrease button: one fewer, display refreshed, band message shown. */
  function Decrease(s: CounterState): (r: CounterState)
    ensures r.count == s.count - 1 && InSync(r)
    ensures r.notice == Some(CounterNotice(s.count - 1))
  {
    Refresh(s.(count := s.count - 1)).(notice := Some(CounterNotice(s.count - 1)))
  }

  /** The reset button: back to zero with its own message rather than the band message. */
  function Reset(s: CounterState): (r: CounterState)
    ensures r.count == 0 && InSync(r)
    ensures r.notice == Some(Notice(ResetText, Success))
  {
    Refresh(s.(count := 0)).(notice := Some(Notice(ResetText, Success)))
  }

  /** One increase and one decrease, in either order, restore the count and its display. */
  lemma IncreaseDecreaseInverse(s: CounterState)
    requires InSync(s)
    ensures Decrease(Increase(s)) == s.(notice := Some(CounterNotice(s.count)))
    ensures Increase(Decrease(s)) == s.(notice := Some(CounterNotice(s.count)))
  {
  }

  /** Whether the key event's target is a text input, where the shortcuts stay off. */
  predicate IsTypingTarget(tagName: string) {
    tagName == "INPUT" || tagName == "TEXTAREA"
  }

  /**
   * The document keydown handler: '+' or '=' presses increase, '-' presses
   * decrease, each then replacing the band message by a shortcut message;
   * '0' presses reset; other keys, and keys typed into a field, do nothing.
   */
  function HandleKey(s: CounterState, key: string, tagName: string): (r: CounterState)
    ensures IsTypingTarget(tagName) ==> r == s
    ensures !IsTypingTarget(tagName) && (key == "+" || key == "=") ==>
      r.count == s.count + 1 && InSync(r) && r.notice == Some(Notice(ShortcutUpText, Success))
    ensures !IsTypingTarget(tagName) && key == "-" ==>
      r.count == s.count - 1 && InSync(r) && r.notice == Some(Notice(ShortcutDownText, Success))
    ensures !IsTypingTarget(tagName) && key == "0" ==> r == Reset(s)
    ensures key !in {"+", "=", "-", "0"} ==> r == s
  {
    if IsTypingTarget(tagName) then s
    else if key == "+" || key == "=" then Increase(s).(notice := Some(Notice(ShortcutUpText, Success)))
    else if key == "-" then Decrease(s).(notice := Some(Notice(ShortcutDownText, Success)))
    else if key == "0" then Reset(s)
    else s
  }

  /** The '+' and '-' shortcuts undo each other on the count and display. */
  lemma ShortcutsInverse(s: CounterState, tagName: string)
    requires InSync(s) && !IsTypingTarget(tagName)
    ensures HandleKey(HandleKey(s, "+", tagName), "-", tagName) == s.(notice := Some(Notice(ShortcutDownText, Success)))
  {
  }
}
