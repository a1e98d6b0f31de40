// The meaning of the parser thread's loop body (uart/src/main.c:60-98) as a pure fold over
// the bytes taken from the ring: what is sent, how the LED pin is driven, and the line kept.
module UartParser {
  import opened CStrings

  const LINE_MAX := 254   // the last index `idx` reaches before the overflow reset
  const FRAME := 255      // bytes consumed per overflow: indices 0 to 254

  datatype Message =
    | AckOn
    | AckOff
    | StatusReply(active: bool)
    | UnknownCommand
    | Prompt
    | Overflow

  /** What the outside world can observe, in order. */
  datatype Event = SetLed(on: bool) | Send(msg: Message)

  function Text(m: Message): string {
    match m
    case AckOn => "[ACK] LED is now ON\r\n"
    case AckOff => "[ACK] LED is now OFF\r\n"
    case StatusReply(active) =>
      if active then "[STATUS] LED State: ACTIVE\r\n" else "[STATUS] LED State: INACTIVE\r\n"
    case UnknownCommand => "[ERR] Unknown Command! Use: " + "LED ON | LED OFF | STATUS\r\n"
    case Prompt => "> "
    case Overflow => "\r\n[ERR] Buffer overflow\r\n" + "> "
  }

  /** `line` is temp[0..idx); `led` is the level last written to the pin. */
  datatype Parser = Parser(line: string, led: bool)

  datatype Outcome = Outcome(parser: Parser, events: seq<Event>)

  const START := Parser([], false)

  function StripCr(line: string): string {
    if |line| > 0 && line[|line| - 1] == '\r' then line[..|line| - 1] else line
  }

  /** The string the comparisons see once the newline has arrived. */
  function Command(line: string): string {
    CString(StripCr(line))
  }

  /** What a received line asks for. */
  datatype Verb = Nothing | TurnOn | TurnOff | Report | Unknown

  function VerbOf(cmd: string): Verb {
    if cmd == [] then Nothing
    else if EqualIgnoringCase(cmd, "LED ON") then TurnOn
    else if EqualIgnoringCase(cmd, "LED OFF") then TurnOff
    else if EqualIgnoringCase(cmd, "STATUS") then Report
    else Unknown
  }

  predicate SaysLed(cmd: string) {
    && |cmd| >= 4
    && cmd[0] in "Ll" && cmd[1] in "Ee" && cmd[2] in "Dd" && cmd[3] == ' '
  }

  predicate SaysLedOn(cmd: string) {
    |cmd| == 6 && SaysLed(cmd) && cmd[4] in "Oo" && cmd[5] in "Nn"
  }

  predicate SaysLedOff(cmd: string) {
    |cmd| == 7 && SaysLed(cmd) && cmd[4] in "Oo" && cmd[5] in "Ff" && cmd[6] in "Ff"
  }

  predicate SaysStatus(cmd: string) {
    && |cmd| == 6
    && cmd[0] in "Ss" && cmd[1] in "Tt" && cmd[2] in "Aa" && cmd[3] in "Tt" && cmd[4] in "Uu" && cmd[5] in "Ss"
  }

  lemma SaysLedOnExactly(cmd: string)
    ensures EqualIgnoringCase(cmd, "LED ON") <==> SaysLedOn(cmd)
  {
    EqualIgnoringCaseExactly(cmd, "LED ON");
    var w := "LED ON";
    assert w[0] == 'L' && w[1] == 'E' && w[2] == 'D' && w[3] == ' ' && w[4] == 'O' && w[5] == 'N';
  }

  lemma SaysLedOffExactly(cmd: string)
    ensures EqualIgnoringCase(cmd, "LED OFF") <==> SaysLedOff(cmd)
  {
    EqualIgnoringCaseExactly(cmd, "LED OFF");
    var w := "LED OFF";
    assert w[0] == 'L' && w[1] == 'E' && w[2] == 'D' && w[3] == ' ' && w[4] == 'O' && w[5] == 'F' && w[6] == 'F';
  }

  lemma SaysStatusExactly(cmd: string)
    ensures EqualIgnoringCase(cmd, "STATUS") <==> SaysStatus(cmd)
  {
    EqualIgnoringCaseExactly(cmd, "STATUS");
    var w := "STATUS";
    assert w[0] == 'S' && w[1] == 'T' && w[2] == 'A' && w[3] == 'T' && w[4] == 'U' && w[5] == 'S';
  }

  /** Which lines are which commands, letter by letter. */
  lemma VerbExactly(cmd: string)
    ensures VerbOf(cmd) == Nothing <==> cmd == []
    ensures VerbOf(cmd) == TurnOn <==> SaysLedOn(cmd)
    ensures VerbOf(cmd) == TurnOff <==> SaysLedOff(cmd)
    ensures VerbOf(cmd) == Report <==> SaysStatus(cmd)
    ensures VerbOf(cmd) == Unknown <==> cmd != [] && !SaysLedOn(cmd) && !SaysLedOff(cmd) && !SaysStatus(cmd)
  {
    hide EqualIgnoringCase;
    SaysLedOnExactly(cmd);
    SaysLedOffExactly(cmd);
    SaysStatusExactly(cmd);
  }

  function LedAfter(verb: Verb, led: bool): bool {
    match verb
    case TurnOn => true
    case TurnOff => false
    case _ => led
  }

  function Response(verb: Verb, led: bool): seq<Event> {
    match verb
    case Nothing => []
    case TurnOn => [SetLed(true), Send(AckOn)]
    case TurnOff => [SetLed(false), Send(AckOff)]
    case Report => [Send(StatusReply(led))]
    case Unknown => [Send(UnknownCommand)]
  }

  /** One turn of the inner loop on byte `c`. */
  function Feed(p: Parser, c: char): Outcome {
    if c == '\n' then
      var verb := VerbOf(Command(p.line));
      Outcome(Parser([], LedAfter(verb, p.led)), Response(verb, p.led) + [Send(Prompt)])
    else if |p.line| < LINE_MAX then
      Outcome(p.(line := p.line + [c]), [])
    else
      Outcome(p.(line := []), [Send(Overflow)])
  }

  function FeedAll(p: Parser, s: string): Outcome
    decreases |s|
  {
    if s == [] then Outcome(p, [])
    else
      var first := Feed(p, s[0]);
      var rest := FeedAll(first.parser, s[1..]);
      Outcome(rest.parser, first.events + rest.events)
  }

  /** Cutting a stream anywhere and carrying the parser across the cut changes nothing. */
  lemma {:induction false} FeedAllConcat(p: Parser, a: string, b: string)
    ensures var x := FeedAll(p, a);
            var y := FeedAll(x.parser, b);
            FeedAll(p, a + b) == Outcome(y.parser, x.events + y.events)
    decreases |a|
  {
    hide Feed;
    if a == [] {
      assert a + b == b;
    } else {
      assert (a + b)[0] == a[0] && (a + b)[1..] == a[1..] + b;
      FeedAllConcat(Feed(p, a[0]).parser, a[1..], b);
    }
  }

  lemma FeedAllOne(p: Parser, c: char)
    ensures FeedAll(p, [c]) == Feed(p, c)
  {
  }

  lemma FeedAllSnoc(p: Parser, s: string, c: char)
    ensures var x := FeedAll(p, s);
            var y := Feed(x.parser, c);
            FeedAll(p, s + [c]) == Outcome(y.parser, x.events + y.events)
  {
    FeedAllConcat(p, s, [c]);
    FeedAllOne(FeedAll(p, s).parser, c);
  }
}
