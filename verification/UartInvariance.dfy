// Two inputs a terminal cannot tell apart: letter case never matters, and CRLF may stand
// for LF exactly on the lines characterised by `CrlfSafe`.
module UartInvariance {
  import opened CStrings
  import opened UartParser
  import opened UartFraming

  // ----- letter case -----

  lemma LowerIgnoresCase(a: string, b: string)
    ensures EqualIgnoringCase(Lower(a), b) == EqualIgnoringCase(a, b)
  {
  }

  lemma StripCrLower(line: string)
    ensures StripCr(Lower(line)) == Lower(StripCr(line))
  {
  }

  lemma VerbLower(cmd: string)
    ensures VerbOf(Lower(cmd)) == VerbOf(cmd)
  {
    LowerIgnoresCase(cmd, "LED ON");
    LowerIgnoresCase(cmd, "LED OFF");
    LowerIgnoresCase(cmd, "STATUS");
  }

  function LowerParser(p: Parser): Parser {
    p.(line := Lower(p.line))
  }

  lemma FeedLower(p: Parser, c: char)
    ensures Feed(LowerParser(p), ToLower(c))
         == Outcome(LowerParser(Feed(p, c).parser), Feed(p, c).events)
  {
    if c == '\n' {
      StripCrLower(p.line);
      CStringLower(StripCr(p.line));
      VerbLower(Command(p.line));
      assert Lower([]) == [];
    } else {
      assert Lower(p.line + [c]) == Lower(p.line) + [ToLower(c)];
      assert Lower([]) == [];
    }
  }

  /** Lower-casing a whole stream leaves every output and every LED change as it was. */
  lemma {:induction false} CaseLaw(p: Parser, s: string)
    ensures FeedAll(LowerParser(p), Lower(s))
         == Outcome(LowerParser(FeedAll(p, s).parser), FeedAll(p, s).events)
    decreases |s|
  {
    if s == [] {
      assert Lower(s) == [];
    } else {
      FeedLower(p, s[0]);
      assert Lower(s)[1..] == Lower(s[1..]);
      CaseLaw(Feed(p, s[0]).parser, s[1..]);
    }
  }

  /** Streams that differ only in case are indistinguishable. */
  lemma CaseBlind(s: string, t: string)
    requires EqualIgnoringCase(s, t)
    ensures FeedAll(START, s).events == FeedAll(START, t).events
    ensures FeedAll(START, s).parser.led == FeedAll(START, t).parser.led
  {
    CaseLaw(START, s);
    CaseLaw(START, t);
  }

  // ----- CRLF and LF -----

  predicate IsCommandWord(cmd: string) {
    VerbOf(cmd) in {TurnOn, TurnOff, Report}
  }

  /** A line on which adding a CR before the newline goes unnoticed: the CR neither completes a
      255-byte frame nor hides behind another CR that LF alone would have stripped from nothing
      or from a command word. */
  predicate CrlfSafe(line: string) {
    && |line| % FRAME != LINE_MAX
    && var q := Residue(line);
       q != [] && q[|q| - 1] == '\r' && NUL !in q ==>
         |q| != 1 && !IsCommandWord(q[..|q| - 1])
  }

  lemma CrIsNoCommand(q: string)
    requires q != [] && q[|q| - 1] == '\r'
    ensures !IsCommandWord(q)
  {
  }

  /** The case where the payload itself ends in CR. */
  lemma DoubledCr(q: string, led: bool)
    requires q != [] && q[|q| - 1] == '\r' && NUL !in q
    ensures Response(VerbOf(Command(q + ['\r'])), led) == [Send(UnknownCommand)]
    ensures LedAfter(VerbOf(Command(q + ['\r'])), led) == led
    ensures Command(q) == q[..|q| - 1]
  {
    assert StripCr(q + ['\r']) == q;
    CStringOfPlain(q);
    CrIsNoCommand(q);
    CStringOfPlain(q[..|q| - 1]);
  }

  lemma SameCommand(q: string)
    requires q == [] || q[|q| - 1] != '\r' || NUL in q
    ensures Command(q + ['\r']) == Command(q)
  {
    assert StripCr(q + ['\r']) == q;
    if q != [] && q[|q| - 1] == '\r' {
      var v := q[..|q| - 1];
      assert q == v + ['\r'];
      CStringSnoc(v, '\r');
    }
  }

  function AfterLf(line: string, led: bool): Outcome {
    FeedAll(Parser([], led), line + ['\n'])
  }

  function AfterCrlf(line: string, led: bool): Outcome {
    FeedAll(Parser([], led), (line + ['\r']) + ['\n'])
  }

  /** The two histories differ at event k, so neither is the other cut short. */
  predicate PartsAt(a: seq<Event>, b: seq<Event>, k: nat) {
    k < |a| && k < |b| && a[k] != b[k]
  }

  lemma CrCompletesFrame(line: string, led: bool)
    requires '\n' !in line && |line| % FRAME == LINE_MAX
    ensures PartsAt(AfterCrlf(line, led).events, AfterLf(line, led).events, |line| / FRAME)
  {
    FramingLaw(line, led);
    FramingLaw(line + ['\r'], led);
    ResidueSnoc(line, '\r');
    var n := |line| / FRAME;
    assert LineEvents(line + ['\r'], led)[n] == Send(Overflow);
    assert LineEvents(line, led)[n] != Send(Overflow);
  }

  /** On one line, of any length, CRLF acts as LF if and only if the line is `CrlfSafe`. */
  lemma CrlfLaw(line: string, led: bool)
    requires '\n' !in line
    ensures AfterCrlf(line, led) == AfterLf(line, led) <==> CrlfSafe(line)
  {
    if |line| % FRAME == LINE_MAX {
      CrCompletesFrame(line, led);
    } else {
      var q := Residue(line);
      ResidueSnoc(line, '\r');
      FramingLaw(line, led);
      FramingLaw(line + ['\r'], led);
      if q != [] && q[|q| - 1] == '\r' && NUL !in q {
        DoubledCr(q, led);
        UnknownReply(q[..|q| - 1], led);
        SameReplies(|line| / FRAME, Response(VerbOf(Command(q)), led), [Send(UnknownCommand)]);
      } else {
        SameCommand(q);
      }
    }
  }

  lemma UnknownReply(cmd: string, led: bool)
    ensures Response(VerbOf(cmd), led) == [Send(UnknownCommand)] <==> cmd != [] && !IsCommandWord(cmd)
    ensures !IsCommandWord(cmd) ==> LedAfter(VerbOf(cmd), led) == led
  {
  }

  lemma SameReplies(n: nat, a: seq<Event>, b: seq<Event>)
    ensures Repeat(Send(Overflow), n) + a + [Send(Prompt)] == Repeat(Send(Overflow), n) + b + [Send(Prompt)]
            <==> a == b
  {
    var x := Repeat(Send(Overflow), n) + a + [Send(Prompt)];
    var y := Repeat(Send(Overflow), n) + b + [Send(Prompt)];
    if x == y {
      assert a == x[n..|x| - 1] && b == y[n..|y| - 1];
    }
  }

  /** The event after the overflow reports of a line. */
  lemma FirstReply(line: string, led: bool)
    requires '\n' !in line
    ensures var e := AfterLf(line, led).events;
            |line| / FRAME < |e| && e[|line| / FRAME] == (Response(LineVerb(line), led) + [Send(Prompt)])[0]
  {
    FramingLaw(line, led);
  }

  lemma ReplyTells(verb: Verb, led: bool)
    ensures (Response(verb, led) + [Send(Prompt)])[0] == Send(UnknownCommand) <==> verb == Unknown
  {
  }

  lemma DoubledCrParts(line: string, led: bool)
    requires '\n' !in line && !CrlfSafe(line) && |line| % FRAME != LINE_MAX
    ensures PartsAt(AfterCrlf(line, led).events, AfterLf(line, led).events, |line| / FRAME)
  {
    hide FeedAll, Feed, Response;
    var q := Residue(line);
    ResidueSnoc(line, '\r');
    FirstReply(line, led);
    FirstReply(line + ['\r'], led);
    DoubledCr(q, led);
    ReplyTells(LineVerb(line), led);
    ReplyTells(LineVerb(line + ['\r']), led);
  }

  /** The histories of an unsafe line part right after the overflow reports they share. */
  lemma UnsafeLineParts(line: string, led: bool)
    requires '\n' !in line && !CrlfSafe(line)
    ensures PartsAt(AfterCrlf(line, led).events, AfterLf(line, led).events, |line| / FRAME)
  {
    if |line| % FRAME == LINE_MAX {
      CrCompletesFrame(line, led);
    } else {
      DoubledCrParts(line, led);
    }
  }

  lemma PartsApart(a: seq<Event>, b: seq<Event>, k: nat, more: seq<Event>, rest: seq<Event>)
    requires PartsAt(a, b, k)
    ensures PartsAt(a + more, b + rest, k)
  {
  }

  lemma PartsBehind(shared: seq<Event>, a: seq<Event>, b: seq<Event>)
    requires exists k :: PartsAt(a, b, k)
    ensures exists k :: PartsAt(shared + a, shared + b, k)
  {
    var k :| PartsAt(a, b, k);
    assert PartsAt(shared + a, shared + b, |shared| + k);
  }

  /** The stream with every newline sent as CRLF. */
  function WithCrlf(s: string): string {
    if s == [] then []
    else (if s[0] == '\n' then ['\r', '\n'] else [s[0]]) + WithCrlf(s[1..])
  }

  lemma {:induction false} CrlfCut(s: string, k: nat)
    requires k < |s| && s[k] == '\n' && '\n' !in s[..k]
    ensures WithCrlf(s) == ((s[..k] + ['\r']) + ['\n']) + WithCrlf(s[k + 1..])
    decreases k
  {
    if k == 0 {
      assert s[..0] == [];
    } else {
      assert s[k] == s[1..][k - 1] && s[1..][..k - 1] == s[..k][1..];
      CrlfCut(s[1..], k - 1);
      assert s[1..][k..] == s[k + 1..];
      assert s[..k] == [s[0]] + s[1..][..k - 1];
    }
  }

  lemma {:induction false} CrlfPlain(s: string)
    requires '\n' !in s
    ensures WithCrlf(s) == s
  {
    if s != [] {
      CrlfPlain(s[1..]);
    }
  }

  ghost predicate AllSafe(lines: seq<string>) {
    forall i :: 0 <= i < |lines| ==> CrlfSafe(lines[i])
  }

  lemma AllSafeCons(line: string, lines: seq<string>)
    ensures AllSafe([line] + lines) <==> CrlfSafe(line) && AllSafe(lines)
  {
    if AllSafe([line] + lines) {
      assert ([line] + lines)[0] == line;
      forall i | 0 <= i < |lines| ensures CrlfSafe(lines[i]) {
        assert ([line] + lines)[i + 1] == lines[i];
      }
    }
  }

  lemma {:induction false} CrlfStream(s: string, led: bool)
    ensures AllSafe(Lines(s)) ==> FeedAll(Parser([], led), WithCrlf(s)) == FeedAll(Parser([], led), s)
    ensures !AllSafe(Lines(s)) ==>
              exists k :: PartsAt(FeedAll(Parser([], led), WithCrlf(s)).events, FeedAll(Parser([], led), s).events, k)
    decreases |s|
  {
    if '\n' !in s {
      CrlfPlain(s);
    } else {
      var k := FirstNewline(s);
      var line, rest := s[..k], s[k + 1..];
      CutAtNewline(s, k);
      CrlfCut(s, k);
      AllSafeCons(line, Lines(rest));
      CrlfLaw(line, led);
      var lf, crlf := AfterLf(line, led), AfterCrlf(line, led);
      FeedAllConcat(Parser([], led), line + ['\n'], rest);
      FeedAllConcat(Parser([], led), (line + ['\r']) + ['\n'], WithCrlf(rest));
      var a, b := FeedAll(crlf.parser, WithCrlf(rest)), FeedAll(lf.parser, rest);
      if CrlfSafe(line) {
        FramingLaw(line, led);
        CrlfStream(rest, lf.parser.led);
        if !AllSafe(Lines(rest)) {
          PartsBehind(lf.events, a.events, b.events);
        }
      } else {
        UnsafeLineParts(line, led);
        PartsApart(crlf.events, lf.events, |line| / FRAME, a.events, b.events);
      }
    }
  }

  /** On any stream whatever, CRLF gives the history and the final state of LF if and only if
      every complete line is safe; otherwise neither history is the other cut short. */
  lemma CrlfStreamLaw(s: string, led: bool)
    ensures var x, y := FeedAll(Parser([], led), WithCrlf(s)), FeedAll(Parser([], led), s);
            && (x == y <==> AllSafe(Lines(s)))
            && (x.events <= y.events <==> AllSafe(Lines(s)))
            && (y.events <= x.events <==> AllSafe(Lines(s)))
  {
    CrlfStream(s, led);
  }

  /** In particular, every payload of at most 253 bytes that does not end in CR is safe. */
  lemma ShortLinesAreSafe(line: string)
    requires |line| <= 253 && (line == [] || line[|line| - 1] != '\r')
    ensures CrlfSafe(line)
  {
  }
}
