// An independent, line-at-a-time reading of a byte stream, and the proof that the
// byte-at-a-time parser computes it: the framing law, the LED law and the prompt law.
module UartFraming {
  import opened CStrings
  import opened UartParser

  // ----- splitting a stream into lines -----

  function FirstNewline(s: string): (k: nat)
    requires '\n' in s
    ensures k < |s| && s[k] == '\n' && forall i :: 0 <= i < k ==> s[i] != '\n'
  {
    if s[0] == '\n' then 0 else 1 + FirstNewline(s[1..])
  }

  /** The lines ended by a newline, without it. */
  function Lines(s: string): seq<string>
    decreases |s|
  {
    if '\n' !in s then []
    else var k := FirstNewline(s); [s[..k]] + Lines(s[k + 1..])
  }

  /** What follows the last newline. */
  function Tail(s: string): (t: string)
    ensures '\n' !in t && |t| <= |s|
    decreases |s|
  {
    if '\n' !in s then s else Tail(s[FirstNewline(s) + 1..])
  }

  function Unlines(lines: seq<string>): string {
    if lines == [] then [] else lines[0] + ['\n'] + Unlines(lines[1..])
  }

  lemma Assoc<T>(a: seq<T>, b: seq<T>, c: seq<T>)
    ensures a + (b + c) == (a + b) + c
  {
  }

  lemma UnlinesCons(line: string, lines: seq<string>)
    ensures Unlines([line] + lines) == line + ['\n'] + Unlines(lines)
  {
  }

  lemma CutAtNewline(s: string, k: nat)
    requires k < |s| && s[k] == '\n'
    ensures s == s[..k] + ['\n'] + s[k + 1..]
  {
  }

  /** Splitting loses nothing. */
  lemma {:induction false} SplitRoundTrip(s: string)
    ensures Unlines(Lines(s)) + Tail(s) == s
    decreases |s|
  {
    if '\n' in s {
      var k := FirstNewline(s);
      var line, rest := s[..k], s[k + 1..];
      SplitRoundTrip(rest);
      UnlinesCons(line, Lines(rest));
      Assoc(line + ['\n'], Unlines(Lines(rest)), Tail(rest));
      CutAtNewline(s, k);
    }
  }

  /** No line holds a newline. */
  lemma {:induction false} LinesArePlain(s: string)
    ensures forall i :: 0 <= i < |Lines(s)| ==> '\n' !in Lines(s)[i]
    decreases |s|
  {
    if '\n' in s {
      LinesArePlain(s[FirstNewline(s) + 1..]);
    }
  }

  /** ... and it is the only way to split: any newline-free lines and tail are recovered. */
  lemma {:induction false} SplitUnique(lines: seq<string>, tail: string)
    requires forall i :: 0 <= i < |lines| ==> '\n' !in lines[i]
    requires '\n' !in tail
    ensures Lines(Unlines(lines) + tail) == lines && Tail(Unlines(lines) + tail) == tail
  {
    var s := Unlines(lines) + tail;
    if lines == [] {
      assert s == tail;
    } else {
      var rest := Unlines(lines[1..]) + tail;
      assert s == lines[0] + ['\n'] + rest;
      assert s[|lines[0]|] == '\n';
      assert FirstNewline(s) == |lines[0]|;
      assert s[..|lines[0]|] == lines[0] && s[|lines[0]| + 1..] == rest;
      SplitUnique(lines[1..], tail);
    }
  }

  // ----- what one line and a whole stream mean -----

  function Repeat(e: Event, n: nat): (r: seq<Event>)
    ensures |r| == n && forall i :: 0 <= i < n ==> r[i] == e
  {
    seq(n, _ => e)
  }

  /** The bytes of a line after its last overflow reset. */
  function Residue(line: string): (r: string)
    ensures |r| == |line| % FRAME
  {
    line[|line| / FRAME * FRAME..]
  }

  function LineVerb(line: string): Verb {
    VerbOf(Command(Residue(line)))
  }

  function LineEvents(line: string, led: bool): seq<Event> {
    Repeat(Send(Overflow), |line| / FRAME) + Response(LineVerb(line), led) + [Send(Prompt)]
  }

  function LedOf(lines: seq<string>, led: bool): bool {
    if lines == [] then led else LedOf(lines[1..], LedAfter(LineVerb(lines[0]), led))
  }

  function Replay(lines: seq<string>, led: bool): seq<Event> {
    if lines == [] then []
    else LineEvents(lines[0], led) + Replay(lines[1..], LedAfter(LineVerb(lines[0]), led))
  }

  lemma ResidueSnoc(w: string, c: char)
    ensures var n := |w|;
            if n % FRAME < LINE_MAX
            then (n + 1) / FRAME == n / FRAME && Residue(w + [c]) == Residue(w) + [c]
            else (n + 1) / FRAME == n / FRAME + 1 && Residue(w + [c]) == []
  {
  }

  /** Newline-free bytes: one overflow report per 255 of them, the rest kept in the buffer. */
  lemma {:induction false} PlainBytes(w: string, led: bool)
    requires '\n' !in w
    ensures FeedAll(Parser([], led), w)
         == Outcome(Parser(Residue(w), led), Repeat(Send(Overflow), |w| / FRAME))
    decreases |w|
  {
    if w == [] {
      assert Repeat(Send(Overflow), 0) == [];
    } else {
      var v, c := w[..|w| - 1], w[|w| - 1];
      assert w == v + [c];
      PlainBytes(v, led);
      FeedAllSnoc(Parser([], led), v, c);
      ResidueSnoc(v, c);
      assert Repeat(Send(Overflow), |v| / FRAME) + [Send(Overflow)]
          == Repeat(Send(Overflow), |v| / FRAME + 1);
    }
  }

  /** The framing law for one line of any length. */
  lemma FramingLaw(line: string, led: bool)
    requires '\n' !in line
    ensures FeedAll(Parser([], led), line + ['\n'])
         == Outcome(Parser([], LedAfter(LineVerb(line), led)), LineEvents(line, led))
    ensures LineEvents(line, led) == Repeat(Send(Overflow), |line| / 255)
              + Response(VerbOf(Command(line[|line| / 255 * 255..])), led) + [Send(Prompt)]
  {
    PlainBytes(line, led);
    FeedAllSnoc(Parser([], led), line, '\n');
    Assoc(Repeat(Send(Overflow), |line| / FRAME), Response(LineVerb(line), led), [Send(Prompt)]);
  }

  /** A line reaches the command comparison whole exactly when it has at most 254 bytes. */
  lemma IntactExactlyUpTo254(line: string)
    ensures Residue(line) == line <==> |line| <= 254
    ensures |line| / FRAME == 0 <==> |line| <= 254
  {
  }

  lemma ReplayCons(line: string, lines: seq<string>, led: bool)
    ensures var led' := LedAfter(LineVerb(line), led);
            && Replay([line] + lines, led) == LineEvents(line, led) + Replay(lines, led')
            && LedOf([line] + lines, led) == LedOf(lines, led')
  {
  }

  /** The parser, run over any stream, computes the line-by-line reading of it. */
  lemma {:induction false} StreamLaw(s: string, led: bool)
    ensures FeedAll(Parser([], led), s)
         == Outcome(Parser(Residue(Tail(s)), LedOf(Lines(s), led)),
                    Replay(Lines(s), led) + Repeat(Send(Overflow), |Tail(s)| / FRAME))
    decreases |s|
  {
    if '\n' !in s {
      PlainBytes(s, led);
    } else {
      var k := FirstNewline(s);
      var line, rest := s[..k], s[k + 1..];
      assert s == (line + ['\n']) + rest;
      FramingLaw(line, led);
      FeedAllConcat(Parser([], led), line + ['\n'], rest);
      var led' := LedAfter(LineVerb(line), led);
      StreamLaw(rest, led');
      ReplayCons(line, Lines(rest), led);
      Assoc(LineEvents(line, led), Replay(Lines(rest), led'), Repeat(Send(Overflow), |Tail(s)| / FRAME));
    }
  }

  /** A command short enough to arrive whole, with either line ending. */
  predicate ShortCommand(cmd: string) {
    && |cmd| <= 253 && '\n' !in cmd && NUL !in cmd
    && (cmd == [] || cmd[|cmd| - 1] != '\r')
  }

  function WithEnding(cmd: string, cr: bool): string {
    if cr then cmd + ['\r'] else cmd
  }

  lemma ShortIsWhole(cmd: string, cr: bool)
    requires ShortCommand(cmd)
    ensures var line := WithEnding(cmd, cr);
            '\n' !in line && |line| / FRAME == 0 && Command(Residue(line)) == cmd
  {
    var line := WithEnding(cmd, cr);
    IntactExactlyUpTo254(line);
    assert StripCr(line) == cmd;
    CStringOfPlain(cmd);
  }

  lemma NoOverflow(reply: seq<Event>)
    ensures Repeat(Send(Overflow), 0) + reply == reply
  {
  }

  lemma ShortLine(cmd: string, cr: bool, led: bool)
    requires ShortCommand(cmd)
    ensures FeedAll(Parser([], led), WithEnding(cmd, cr) + ['\n'])
         == Outcome(Parser([], LedAfter(VerbOf(cmd), led)), Response(VerbOf(cmd), led) + [Send(Prompt)])
  {
    ShortIsWhole(cmd, cr);
    FramingLaw(WithEnding(cmd, cr), led);
    NoOverflow(Response(VerbOf(cmd), led));
  }

  /** The command table: what one short line asks for and how it is answered, in any letter case
      and with either line ending. */
  lemma CommandTable(cmd: string, cr: bool, led: bool)
    requires ShortCommand(cmd)
    ensures var o := FeedAll(Parser([], led), WithEnding(cmd, cr) + ['\n']);
            && (SaysLedOn(cmd) ==>
                  o == Outcome(Parser([], true), [SetLed(true), Send(AckOn), Send(Prompt)]))
            && (SaysLedOff(cmd) ==>
                  o == Outcome(Parser([], false), [SetLed(false), Send(AckOff), Send(Prompt)]))
            && (SaysStatus(cmd) ==>
                  o == Outcome(Parser([], led), [Send(StatusReply(led)), Send(Prompt)]))
            && (cmd == [] ==> o == Outcome(Parser([], led), [Send(Prompt)]))
            && (cmd != [] && !SaysLedOn(cmd) && !SaysLedOff(cmd) && !SaysStatus(cmd) ==>
                  o == Outcome(Parser([], led), [Send(UnknownCommand), Send(Prompt)]))
  {
    hide VerbOf, SaysLedOn, SaysLedOff, SaysStatus;
    ShortLine(cmd, cr, led);
    VerbExactly(cmd);
    assert [] + [Send(Prompt)] == [Send(Prompt)];
  }

  // ----- the LED law -----

  ghost predicate OnNotUndone(lines: seq<string>, i: nat) {
    && i < |lines|
    && LineVerb(lines[i]) == TurnOn
    && forall j :: i < j < |lines| ==> LineVerb(lines[j]) != TurnOff
  }

  lemma {:induction false} LedOfIsLastSwitch(lines: seq<string>, led: bool)
    ensures LedOf(lines, led) <==>
            || (led && forall j :: 0 <= j < |lines| ==> LineVerb(lines[j]) != TurnOff)
            || exists i :: OnNotUndone(lines, i)
  {
    if lines != [] {
      var verb := LineVerb(lines[0]);
      var rest := lines[1..];
      var led' := LedAfter(verb, led);
      LedOfIsLastSwitch(rest, led');
      assert forall j :: 0 <= j < |rest| ==> rest[j] == lines[j + 1];
      var restQuiet := forall j :: 0 <= j < |rest| ==> LineVerb(rest[j]) != TurnOff;
      assert restQuiet <==> forall j :: 0 < j < |lines| ==> LineVerb(lines[j]) != TurnOff by {
        if restQuiet {
          forall j | 0 < j < |lines| ensures LineVerb(lines[j]) != TurnOff {
            assert lines[j] == rest[j - 1];
          }
        }
      }
      assert verb == TurnOn && restQuiet <==> OnNotUndone(lines, 0);
      forall i: nat ensures OnNotUndone(rest, i) <==> OnNotUndone(lines, i + 1) {
        ShiftOn(lines, i);
      }
      if i: nat :| OnNotUndone(lines, i) && i > 0 { assert OnNotUndone(rest, i - 1); }
      if i: nat :| OnNotUndone(rest, i) { assert OnNotUndone(lines, i + 1); }
    }
  }

  lemma ShiftOn(lines: seq<string>, i: nat)
    requires lines != []
    ensures OnNotUndone(lines[1..], i) <==> OnNotUndone(lines, i + 1)
  {
  }

  /** After any drained stream the LED is on iff some line switched it on and none after it off. */
  lemma LedLaw(s: string)
    ensures FeedAll(START, s).parser.led <==> exists i :: OnNotUndone(Lines(s), i)
  {
    StreamLaw(s, false);
    LedOfIsLastSwitch(Lines(s), false);
  }

  /** The pin level a history leaves behind. */
  function PinLevel(events: seq<Event>, initial: bool): bool {
    if events == [] then initial
    else
      var last := events[|events| - 1];
      if last.SetLed? then last.on else PinLevel(events[..|events| - 1], initial)
  }

  lemma {:induction false} PinLevelConcat(a: seq<Event>, b: seq<Event>, initial: bool)
    ensures PinLevel(a + b, initial) == PinLevel(b, PinLevel(a, initial))
    decreases |b|
  {
    if b == [] {
      assert a + b == a;
    } else {
      assert (a + b)[..|a + b| - 1] == a + b[..|b| - 1];
      PinLevelConcat(a, b[..|b| - 1], initial);
    }
  }

  /** Every status reply in a history reports the pin level at its own position. */
  ghost predicate Truthful(events: seq<Event>, initial: bool) {
    forall i :: 0 <= i < |events| && events[i].Send? && events[i].msg.StatusReply? ==>
      events[i].msg.active == PinLevel(events[..i], initial)
  }

  lemma TruthfulConcat(a: seq<Event>, b: seq<Event>, initial: bool)
    requires Truthful(a, initial) && Truthful(b, PinLevel(a, initial))
    ensures Truthful(a + b, initial)
  {
    hide PinLevel;
    var ab := a + b;
    forall i | 0 <= i < |ab| && ab[i].Send? && ab[i].msg.StatusReply?
      ensures ab[i].msg.active == PinLevel(ab[..i], initial)
    {
      if i < |a| {
        assert ab[..i] == a[..i] && ab[i] == a[i];
      } else {
        assert ab[..i] == a + b[..i - |a|] && ab[i] == b[i - |a|];
        PinLevelConcat(a, b[..i - |a|], initial);
      }
    }
  }

  lemma ResponseTruthful(verb: Verb, led: bool)
    ensures Truthful(Response(verb, led), led)
    ensures PinLevel(Response(verb, led), led) == LedAfter(verb, led)
  {
  }

  lemma FeedTruthful(p: Parser, c: char)
    ensures Truthful(Feed(p, c).events, p.led)
    ensures PinLevel(Feed(p, c).events, p.led) == Feed(p, c).parser.led
  {
    if c == '\n' {
      var verb := VerbOf(Command(p.line));
      ResponseTruthful(verb, p.led);
      TruthfulConcat(Response(verb, p.led), [Send(Prompt)], p.led);
      PinLevelConcat(Response(verb, p.led), [Send(Prompt)], p.led);
    }
  }

  /** STATUS never lies, and the parser's idea of the LED is the level on the pin. */
  lemma {:induction false} StatusLaw(p: Parser, s: string)
    ensures Truthful(FeedAll(p, s).events, p.led)
    ensures PinLevel(FeedAll(p, s).events, p.led) == FeedAll(p, s).parser.led
    decreases |s|
  {
    if s != [] {
      var o := Feed(p, s[0]);
      var rest := FeedAll(o.parser, s[1..]);
      FeedTruthful(p, s[0]);
      StatusLaw(o.parser, s[1..]);
      TruthfulConcat(o.events, rest.events, p.led);
      PinLevelConcat(o.events, rest.events, p.led);
    }
  }

  // ----- the prompt law -----

  function OverflowsIn(lines: seq<string>): nat {
    if lines == [] then 0 else |lines[0]| / FRAME + OverflowsIn(lines[1..])
  }

  lemma {:induction false} RepeatCount(e: Event, n: nat)
    ensures multiset(Repeat(e, n)) == multiset{}[e := n]
  {
    if n == 0 {
      assert Repeat(e, n) == [];
    } else {
      RepeatCount(e, n - 1);
      assert Repeat(e, n) == Repeat(e, n - 1) + [e];
    }
  }

  lemma ReplyCounts(n: nat, verb: Verb, led: bool)
    ensures var m := multiset(Repeat(Send(Overflow), n) + Response(verb, led) + [Send(Prompt)]);
            m[Send(Prompt)] == 1 && m[Send(Overflow)] == n
  {
    RepeatCount(Send(Overflow), n);
    var reply := multiset(Response(verb, led));
    assert reply[Send(Prompt)] == 0 && reply[Send(Overflow)] == 0;
  }

  lemma {:induction false} ReplayCounts(lines: seq<string>, led: bool)
    ensures multiset(Replay(lines, led))[Send(Prompt)] == |lines|
    ensures multiset(Replay(lines, led))[Send(Overflow)] == OverflowsIn(lines)
  {
    if lines != [] {
      ReplyCounts(|lines[0]| / FRAME, LineVerb(lines[0]), led);
      ReplayCounts(lines[1..], LedAfter(LineVerb(lines[0]), led));
    }
  }

  /** One prompt per newline, one overflow report per 255 bytes of a line (ended or not). */
  lemma PromptLaw(s: string)
    ensures var m := multiset(FeedAll(START, s).events);
            && m[Send(Prompt)] == |Lines(s)|
            && m[Send(Overflow)] == OverflowsIn(Lines(s)) + |Tail(s)| / FRAME
  {
    StreamLaw(s, false);
    ReplayCounts(Lines(s), false);
    RepeatCount(Send(Overflow), |Tail(s)| / FRAME);
  }

  lemma CutCount(s: string, k: nat)
    requires k < |s| && s[k] == '\n' && '\n' !in s[..k]
    ensures multiset(s)['\n'] == 1 + multiset(s[k + 1..])['\n']
  {
    CutAtNewline(s, k);
    assert multiset(s[..k])['\n'] == 0;
  }

  lemma {:induction false} LinesCountNewlines(s: string)
    ensures |Lines(s)| == multiset(s)['\n']
    decreases |s|
  {
    if '\n' in s {
      var k := FirstNewline(s);
      CutCount(s, k);
      LinesCountNewlines(s[k + 1..]);
    }
  }
}
