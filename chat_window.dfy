/**
 * The chat window's input handling and its hint controls: a submitted
 * draft is sent trimmed, a hint request puts its fixed question in front
 * of the draft (or of a "still working" note), and the buttons and the
 * level dots follow from the sending flag, the history and the level.
 */
module ChatWindow {
  import opened Wrappers
  import opened Text

  /** The three hint requests. */
  datatype HintRequest = Concept | Hint | More

  /** The request's name in the client: "concept", "hint" or "more". */
  function RequestName(t: HintRequest): string {
    match t
    case Concept => "concept"
    case Hint => "hint"
    case More => "more"
  }

  /** The question put in front of a hint request's text. */
  function Prefix(t: HintRequest): (r: string)
    ensures "Can you " <= r && r[|r| - 1] == ' '
  {
    match t
    case Concept => "Can you explain the concept behind this? "
    case Hint => "Can you give me a hint? "
    case More => "Can you give me another hint? "
  }

  /** What a hint request says when there is no draft. */
  const StillWorking: string := "I'm still working on the previous question."

  /** A message handed to the page's send handler, with the flag asking for a higher hint level. */
  datatype Outgoing = Outgoing(content: string, requestHintIncrease: bool)

  /**
   * `handleSubmit`: nothing while a send is in flight or when the draft is
   * blank; otherwise the trimmed draft, without the hint-increase flag.
   */
  function Submitted(input: string, isSending: bool): (r: Option<Outgoing>)
    ensures r.None? <==> Blank(input) || isSending
    ensures r.Some? ==> r.value.content == Strip(input) && !r.value.requestHintIncrease
  {
    if Strip(input) == "" || isSending then None else Some(Outgoing(Strip(input), false))
  }

  /**
   * `handleHintRequest`: with a draft, the prefix and the trimmed draft;
   * without one, the prefix and the "still working" note when there is
   * history, and nothing when there is none. Only "more" sets the flag.
   */
  function HintRequested(t: HintRequest, input: string, messageCount: nat): (r: Option<Outgoing>)
    ensures r.None? <==> Blank(input) && messageCount == 0
    ensures !Blank(input) ==> r == Some(Outgoing(Prefix(t) + Strip(input), t == More))
    ensures Blank(input) && messageCount > 0 ==> r == Some(Outgoing(Prefix(t) + StillWorking, t == More))
  {
    if Strip(input) != "" then Some(Outgoing(Prefix(t) + Strip(input), t == More))
    else if messageCount > 0 then Some(Outgoing(Prefix(t) + StillWorking, t == More))
    else None
  }

  /** The prefixes tell the requests apart: from a sent text the request and what followed its prefix are recovered. */
  lemma PrefixDecodes(t1: HintRequest, t2: HintRequest, a: string, b: string)
    requires Prefix(t1) + a == Prefix(t2) + b
    ensures t1 == t2 && a == b
  {
    var x, y := Prefix(t1) + a, Prefix(t2) + b;
    assert x[8] == Prefix(t1)[8] && y[8] == Prefix(t2)[8];
    assert x[17] == Prefix(t1)[17] && y[17] == Prefix(t2)[17];
    assert t1 == t2;
    assert x[|Prefix(t1)|..] == a;
    assert y[|Prefix(t2)|..] == b;
  }

  /** Every message a hint request sends starts with its prefix, so none is blank, and it carries the flag exactly for "more". */
  lemma HintRequestShape(t: HintRequest, input: string, messageCount: nat)
    requires HintRequested(t, input, messageCount).Some?
    ensures Prefix(t) <= HintRequested(t, input, messageCount).value.content
    ensures !Blank(HintRequested(t, input, messageCount).value.content)
    ensures HintRequested(t, input, messageCount).value.requestHintIncrease <==> t == More
  {
    var c := HintRequested(t, input, messageCount).value.content;
    assert c[0] == 'C';
  }

  // ---------------------------------------------------------------------------
  // Hint controls
  // ---------------------------------------------------------------------------

  /** What the window passes to the hint controls. */
  datatype ControlsProps = ControlsProps(currentHintLevel: int, disabled: bool, hasMessages: bool)

  /** The controls are disabled while sending and know whether there is any history. */
  function PropsFor(isSending: bool, messageCount: nat, currentHintLevel: int): (r: ControlsProps)
    ensures r.disabled <==> isSending
    ensures r.hasMessages <==> messageCount > 0
    ensures r.currentHintLevel == currentHintLevel
  {
    ControlsProps(currentHintLevel, isSending, messageCount > 0)
  }

  /** The three buttons. */
  datatype Button = ExplainConcept | GiveHint | AnotherHint

  /** The request each button emits. */
  function Emits(b: Button): (r: HintRequest)
    ensures RequestName(r) == (match b
      case ExplainConcept => "concept"
      case GiveHint => "hint"
      case AnotherHint => "more")
  {
    match b
    case ExplainConcept => Concept
    case GiveHint => Hint
    case AnotherHint => More
  }

  /** Each button emits a request of its own. */
  lemma EmitsDistinct(b1: Button, b2: Button)
    requires Emits(b1) == Emits(b2)
    ensures b1 == b2
  {
  }

  /** "Explain Concept" and "Give Hint" are off while disabled; "Another Hint" also without history or at level 3 and above. */
  predicate Disabled(p: ControlsProps, b: Button) {
    match b
    case ExplainConcept => p.disabled
    case GiveHint => p.disabled
    case AnotherHint => p.disabled || !p.hasMessages || p.currentHintLevel >= 3
  }

  /** The four level dots, for levels 0 to 3: a dot is lit when its level is at most the current one. */
  function Dots(currentHintLevel: int): (r: seq<bool>)
    ensures |r| == 4
    ensures forall i :: 0 <= i < 4 ==> (r[i] <==> i <= currentHintLevel)
  {
    seq(4, i => i <= currentHintLevel)
  }

  /** The number of lit dots. */
  function Lit(dots: seq<bool>): nat
    decreases |dots|
  {
    if dots == [] then 0 else (if dots[0] then 1 else 0) + Lit(dots[1..])
  }

  /** Level 0 lights one dot and every further level one more, up to all four. */
  lemma DotsCount(currentHintLevel: int)
    requires 0 <= currentHintLevel <= 3
    ensures Lit(Dots(currentHintLevel)) == currentHintLevel + 1
    ensures Dots(currentHintLevel)[0]
  {
    var d := Dots(currentHintLevel);
    assert d[3..][1..] == [];
    assert d[2..][1..] == d[3..] && d[1..][1..] == d[2..];
    assert Lit(d[3..]) == (if 3 <= currentHintLevel then 1 else 0);
    assert Lit(d[2..]) == (if 2 <= currentHintLevel then 1 else 0) + Lit(d[3..]);
    assert Lit(d[1..]) == (if 1 <= currentHintLevel then 1 else 0) + Lit(d[2..]);
  }

  /**
   * An enabled "Another Hint" button always sends: there is history, so
   * even without a draft the request goes out, with the flag set.
   */
  lemma AnotherHintSends(isSending: bool, messageCount: nat, currentHintLevel: int, input: string)
    requires !Disabled(PropsFor(isSending, messageCount, currentHintLevel), AnotherHint)
    ensures !isSending && messageCount > 0 && currentHintLevel < 3
    ensures HintRequested(Emits(AnotherHint), input, messageCount).Some?
    ensures HintRequested(Emits(AnotherHint), input, messageCount).value.requestHintIncrease
  {
  }

  /** The chat window's draft. */
  class Window {
    var inputValue: string

    constructor()
      ensures inputValue == ""
    {
      inputValue := "";
    }

    /** Typing into the input replaces the draft. */
    method SetInput(value: string)
      modifies this
      ensures inputValue == value
    {
      inputValue := value;
    }

    /** `handleSubmit`: the message sent, if any; the draft is cleared when one is. */
    method HandleSubmit(isSending: bool) returns (sent: Option<Outgoing>)
      modifies this
      ensures sent == Submitted(old(inputValue), isSending)
      ensures inputValue == (if sent.Some? then "" else old(inputValue))
    {
      if Strip(inputValue) == "" || isSending {
        return None;
      }
      sent := Some(Outgoing(Strip(inputValue), false));
      inputValue := "";
    }

    /**
     * `handleHintRequest`: the message sent, if any. The draft is cleared
     * only when it was sent; a "still working" request keeps it.
     */
    method HandleHintRequest(t: HintRequest, messageCount: nat) returns (sent: Option<Outgoing>)
      modifies this
      ensures sent == HintRequested(t, old(inputValue), messageCount)
      ensures inputValue == (if Blank(old(inputValue)) then old(inputValue) else "")
    {
      var draft := Strip(inputValue);
      if draft != "" {
        sent := Some(Outgoing(Prefix(t) + draft, t == More));
        inputValue := "";
      } else if messageCount > 0 {
        sent := Some(Outgoing(Prefix(t) + StillWorking, t == More));
      } else {
        sent := None;
      }
    }

    /** A click on a hint button: ignored while the button is disabled, else its request. */
    method Click(b: Button, isSending: bool, messageCount: nat, currentHintLevel: int) returns (sent: Option<Outgoing>)
      modifies this
      ensures Disabled(PropsFor(isSending, messageCount, currentHintLevel), b) ==> sent.None? && inputValue == old(inputValue)
      ensures !Disabled(PropsFor(isSending, messageCount, currentHintLevel), b) ==>
        sent == HintRequested(Emits(b), old(inputValue), messageCount)
        && inputValue == (if Blank(old(inputValue)) then old(inputValue) else "")
    {
      if Disabled(PropsFor(isSending, messageCount, currentHintLevel), b) {
        return None;
      }
      sent := HandleHintRequest(Emits(b), messageCount);
    }
  }
}
