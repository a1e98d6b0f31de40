// uart/src/main.c in its own form: the ring, the semaphore, temp[256] with its 8-bit index,
// the LED pin and the transmitter, updated in place. Every method is proved to take the step
// of `UartMachine` it implements, whatever stale bytes the buffer holds.
module UartApp {
  import opened CStrings
  import opened UartParser
  import opened UartFraming
  import opened UartMachine

  newtype uint8 = x: int | 0 <= x < 256

  const TEMP_SIZE := 256

  /** What leaves the chip: a byte on the UART or a level on the LED pin. */
  datatype Signal = Tx(c: char) | Pin(on: bool)

  datatype Pc = PcTake | PcGet | PcByte

  function Wire(text: string): (r: seq<Signal>)
    ensures |r| == |text| && forall i :: 0 <= i < |text| ==> r[i] == Tx(text[i])
  {
    seq(|text|, i requires 0 <= i < |text| => Tx(text[i]))
  }

  lemma WireSnoc(text: string, i: nat)
    requires i < |text|
    ensures Wire(text[..i + 1]) == Wire(text[..i]) + [Tx(text[i])]
  {
  }

  /** The texts of the messages; the program's own are `Text`. Most of what follows holds for
      any table. */
  type Texts = Message -> string

  function Render(text: Texts, e: Event): seq<Signal> {
    match e
    case SetLed(on) => [Pin(on)]
    case Send(m) => Wire(CString(text(m)))
  }

  function RenderAll(text: Texts, events: seq<Event>): seq<Signal> {
    if events == [] then []
    else RenderAll(text, events[..|events| - 1]) + Render(text, events[|events| - 1])
  }

  lemma RenderSnoc(text: Texts, events: seq<Event>, e: Event)
    ensures RenderAll(text, events + [e]) == RenderAll(text, events) + Render(text, e)
  {
    assert (events + [e])[..|events|] == events;
  }

  /** The only '>' a text can hold is the prompt's; no text holds a NUL. */
  lemma ShortTexts(c: char)
    requires c == NUL || c == '>'
    ensures c !in Text(AckOn) && c !in Text(AckOff)
  {
  }

  lemma StatusTexts(c: char, active: bool)
    requires c == NUL || c == '>'
    ensures c !in Text(StatusReply(active))
  {
  }

  lemma UnknownText(c: char)
    requires c == NUL || c == '>'
    ensures c !in Text(UnknownCommand)
  {
    assert c !in "[ERR] Unknown Command! Use: ";
    assert c !in "LED ON | LED OFF | STATUS\r\n";
  }

  lemma OverflowText(c: char)
    requires c == NUL || c == '>'
    ensures c !in "\r\n[ERR] Buffer overflow\r\n"
  {
  }

  lemma TextHasNoNul(m: Message)
    ensures NUL !in Text(m)
  {
    match m
    case AckOn => ShortTexts(NUL);
    case AckOff => ShortTexts(NUL);
    case StatusReply(active) => StatusTexts(NUL, active);
    case UnknownCommand => UnknownText(NUL);
    case Prompt =>
    case Overflow => OverflowText(NUL);
  }

  lemma TerminatedText(t: string)
    ensures CString(t + [NUL]) == CString(t)
  {
    CStringSnoc(t, NUL);
  }

  lemma TextIsPlain(m: Message)
    ensures CString(Text(m)) == Text(m)
  {
    TextHasNoNul(m);
    CStringOfPlain(Text(m));
  }

  // ----- the prompt law, on the wire -----

  lemma {:induction false} WireCount(text: string, c: char)
    ensures multiset(Wire(text))[Tx(c)] == multiset(text)[c]
    decreases |text|
  {
    if text == [] {
      assert Wire(text) == [];
    } else {
      WireCount(text[1..], c);
      SplitHead(Wire(text));
      SplitHead(text);
      assert Wire(text)[1..] == Wire(text[1..]);
    }
  }

  lemma SplitHead<T>(s: seq<T>)
    requires s != []
    ensures multiset(s) == multiset{s[0]} + multiset(s[1..])
  {
    assert s == [s[0]] + s[1..];
  }

  lemma QuietText(m: Message)
    requires m != Prompt && m != Overflow
    ensures '>' !in Text(m)
  {
    match m
    case AckOn => ShortTexts('>');
    case AckOff => ShortTexts('>');
    case StatusReply(active) => StatusTexts('>', active);
    case UnknownCommand => UnknownText('>');
  }

  lemma AbsentCount(s: string, c: char)
    requires c !in s
    ensures multiset(s)[c] == 0
  {
  }

  lemma PromptCount(s: string)
    requires '>' !in s
    ensures multiset(s + "> ")['>'] == 1
  {
  }

  lemma TextPrompts(m: Message)
    ensures multiset(Text(m))['>'] == if m == Prompt || m == Overflow then 1 else 0
  {
    if m == Prompt {
      PromptCount([]);
      assert [] + "> " == "> ";
    } else if m == Overflow {
      OverflowText('>');
      PromptCount("\r\n[ERR] Buffer overflow\r\n");
    } else {
      QuietText(m);
      AbsentCount(Text(m), '>');
    }
  }

  lemma PromptBytes(e: Event)
    ensures multiset(Render(Text, e))[Tx('>')] == if e == Send(Prompt) || e == Send(Overflow) then 1 else 0
  {
    match e
    case SetLed(on) =>
    case Send(m) =>
      TextIsPlain(m);
      WireCount(Text(m), '>');
      TextPrompts(m);
  }

  lemma {:induction false} WirePrompts(events: seq<Event>)
    ensures multiset(RenderAll(Text, events))[Tx('>')]
         == multiset(events)[Send(Prompt)] + multiset(events)[Send(Overflow)]
    decreases |events|
  {
    if events != [] {
      var front, e := events[..|events| - 1], events[|events| - 1];
      assert events == front + [e];
      WirePrompts(front);
      PromptBytes(e);
    }
  }

  /** On the wire, '>' appears once for each newline parsed and once for each overflow. */
  lemma WirePromptLaw(s: string)
    ensures multiset(RenderAll(Text, FeedAll(START, s).events))[Tx('>')]
         == multiset(s)['\n'] + OverflowsIn(Lines(s)) + |Tail(s)| / FRAME
  {
    WirePrompts(FeedAll(START, s).events);
    PromptLaw(s);
    LinesCountNewlines(s);
  }

  // ----- one command, from bytes in to bytes out -----

  lemma WireConcat(a: string, b: string)
    ensures Wire(a + b) == Wire(a) + Wire(b)
  {
  }

  lemma RenderOne(text: Texts, a: Event)
    ensures RenderAll(text, [a]) == Render(text, a)
  {
    hide Render;
    RenderSnoc(text, [], a);
    assert [] + [a] == [a];
  }

  lemma RenderTwo(text: Texts, a: Event, b: Event)
    ensures RenderAll(text, [a, b]) == Render(text, a) + Render(text, b)
  {
    hide RenderAll, Render;
    RenderOne(text, a);
    RenderSnoc(text, [a], b);
    assert [a] + [b] == [a, b];
  }

  lemma RenderThree(text: Texts, a: Event, b: Event, c: Event)
    ensures RenderAll(text, [a, b, c]) == Render(text, a) + (Render(text, b) + Render(text, c))
  {
    hide RenderAll, Render;
    RenderTwo(text, a, b);
    RenderSnoc(text, [a, b], c);
    assert [a, b] + [c] == [a, b, c];
  }

  lemma RenderReply(text: Texts, m: Message, on: bool)
    ensures RenderAll(text, [Send(m), Send(Prompt)]) == Wire(CString(text(m)) + CString(text(Prompt)))
    ensures RenderAll(text, [SetLed(on), Send(m), Send(Prompt)]) == [Pin(on)] + Wire(CString(text(m)) + CString(text(Prompt)))
  {
    WireConcat(CString(text(m)), CString(text(Prompt)));
    RenderTwo(text, Send(m), Send(Prompt));
    RenderThree(text, SetLed(on), Send(m), Send(Prompt));
  }

  /** The pin changes and bytes that answer one short command line. */
  function Answer(cmd: string, cr: bool, led: bool): seq<Signal> {
    RenderAll(Text, FeedAll(Parser([], led), WithEnding(cmd, cr) + ['\n']).events)
  }

  /** The documented dialogue, byte for byte. */
  lemma CommandOnWire(cmd: string, cr: bool, led: bool)
    requires ShortCommand(cmd)
    ensures SaysLedOn(cmd) ==>
              Answer(cmd, cr, led) == [Pin(true)] + Wire("[ACK] LED is now ON\r\n" + "> ")
    ensures SaysLedOff(cmd) ==>
              Answer(cmd, cr, led) == [Pin(false)] + Wire("[ACK] LED is now OFF\r\n" + "> ")
    ensures SaysStatus(cmd) && led ==>
              Answer(cmd, cr, led) == Wire("[STATUS] LED State: ACTIVE\r\n" + "> ")
    ensures SaysStatus(cmd) && !led ==>
              Answer(cmd, cr, led) == Wire("[STATUS] LED State: INACTIVE\r\n" + "> ")
    ensures cmd != [] && !SaysLedOn(cmd) && !SaysLedOff(cmd) && !SaysStatus(cmd) ==>
              Answer(cmd, cr, led)
              == Wire("[ERR] Unknown Command! Use: " + "LED ON | LED OFF | STATUS\r\n" + "> ")
    ensures cmd == [] ==> Answer(cmd, cr, led) == Wire("> ")
  {
    hide RenderAll, Render, Wire, SaysLedOn, SaysLedOff, SaysStatus, FeedAll;
    CommandTable(cmd, cr, led);
    PlainReply(AckOn, true);
    PlainReply(AckOff, false);
    PlainReply(StatusReply(led), led);
    PlainReply(UnknownCommand, led);
    PlainMessage(Prompt);
  }

  lemma PlainMessage(m: Message)
    ensures RenderAll(Text, [Send(m)]) == Wire(Text(m))
  {
    RenderOne(Text, Send(m));
    TextIsPlain(m);
  }

  /** 255 bytes without a newline bring the error text and a prompt, and nothing else. */
  lemma OverflowOnWire(s: string, led: bool)
    requires |s| == 255 && '\n' !in s
    ensures RenderAll(Text, FeedAll(Parser([], led), s).events) == Wire("\r\n[ERR] Buffer overflow\r\n" + "> ")
    ensures FeedAll(Parser([], led), s).parser == Parser([], led)
  {
    hide RenderAll, Render, Wire, FeedAll;
    PlainBytes(s, led);
    assert Repeat(Send(Overflow), 1) == [Send(Overflow)];
    PlainMessage(Overflow);
  }

  lemma PlainReply(m: Message, on: bool)
    ensures RenderAll(Text, [Send(m), Send(Prompt)]) == Wire(Text(m) + "> ")
    ensures RenderAll(Text, [SetLed(on), Send(m), Send(Prompt)]) == [Pin(on)] + Wire(Text(m) + "> ")
  {
    RenderReply(Text, m, on);
    TextIsPlain(m);
    TextIsPlain(Prompt);
  }

  // ----- the buffer -----

  /** Both ways of ending a line (lines 63-67) leave the command as the buffer's C string,
      independently of what lies beyond the index. */
  lemma TerminatedBuffer(before: string, idx: nat, after: string)
    requires |before| == TEMP_SIZE && idx < TEMP_SIZE
    requires after == if idx > 0 && before[idx - 1] == '\r' then before[idx - 1 := NUL] else before[idx := NUL]
    ensures CString(after) == Command(before[..idx])
  {
    var k := if idx > 0 && before[idx - 1] == '\r' then idx - 1 else idx;
    assert StripCr(before[..idx]) == before[..k];
    assert after == before[..k] + [NUL] + before[k + 1..];
    CStringIgnoresTail(before[..k], before[k + 1..]);
  }

  // ----- the program -----

  /** The put and give of one byte of an interrupt, and the rest of it. */
  lemma NextByte(s: State, rx: string, i: nat)
    requires i < |rx|
    ensures Exec(s, IsrActions(rx[i..]))
         == Exec(Step(Step(s, IsrPut(rx[i])), IsrGive), IsrActions(rx[i + 1..]))
  {
    assert rx[i..][1..] == rx[i + 1..];
    ExecConcat(s, [IsrPut(rx[i]), IsrGive], IsrActions(rx[i + 1..]));
    ExecTwo(s, IsrPut(rx[i]), IsrGive);
  }

  class App {
    const text: Texts
    var ring: string
    var sem: nat
    var givePending: bool
    const temp: array<char>
    var idx: uint8
    var pc: Pc
    var led: bool
    var signals: seq<Signal>

    ghost var events: seq<Event>
    ghost var received: string
    ghost var kept: seq<bool>
    ghost var drained: string

    ghost predicate Valid()
      reads this
    {
      && temp.Length == TEMP_SIZE && idx as int <= LINE_MAX
      && signals == RenderAll(text, events)
    }

    ghost function Abs(): State
      requires Valid()
      reads this, temp
    {
      State(ring, sem, givePending,
            match pc case PcTake => AtTake case PcGet => Draining case PcByte => HaveByte(temp[idx]),
            Parser(temp[..idx], led), events, received, kept, drained)
    }

    constructor (text: Texts)
      ensures Valid() && Abs() == INIT && fresh(temp) && temp.Length == 256 && this.text == text
    {
      this.text := text;
      ring, sem, givePending := [], 0, false;
      temp := new char[TEMP_SIZE];
      idx, pc, led, signals := 0, PcTake, false, [];
      events, received, kept, drained := [], [], [], [];
    }

    /** uart_send_string */
    method SendString(str: string)
      requires NUL in str
      modifies this`signals
      ensures signals == old(signals) + Wire(CString(str))
    {
      ghost var n := |CString(str)|;
      CStringIsPrefix(str);
      var i := 0;
      while str[i] != NUL
        invariant i <= n < |str|
        invariant signals == old(signals) + Wire(str[..i])
        decreases n - i
      {
        WireSnoc(str, i);
        signals := signals + [Tx(str[i])];
        i := i + 1;
      }
    }

    method Reply(m: Message)
      requires signals == RenderAll(text, events)
      modifies this`signals, this`events
      ensures signals == RenderAll(text, events)
      ensures events == old(events) + [Send(m)]
    {
      SendString(text(m) + [NUL]);
      TerminatedText(text(m));
      RenderSnoc(text, events, Send(m));
      events := events + [Send(m)];
    }

    /** gpio_pin_set_dt */
    method PinSet(on: bool)
      requires signals == RenderAll(text, events)
      modifies this`signals, this`events, this`led
      ensures signals == RenderAll(text, events) && led == on
      ensures events == old(events) + [SetLed(on)]
    {
      led := on;
      signals := signals + [Pin(on)];
      RenderSnoc(text, events, SetLed(on));
      events := events + [SetLed(on)];
    }

    /** ring_buf_put in the interrupt handler; `c` was read from the hardware FIFO. */
    method RingPut(c: char)
      requires Valid() && !givePending
      modifies this`ring, this`givePending, this`received, this`kept
      ensures Valid() && Abs() == Step(old(Abs()), IsrPut(c))
      ensures ring == if |old(ring)| < 256 then old(ring) + [c] else old(ring)
      ensures givePending <==> c == '\n'
    {
      received, kept := received + [c], kept + [|ring| < RING_SIZE];
      if |ring| < RING_SIZE {
        ring := ring + [c];
      }
      givePending := c == '\n';
    }

    /** k_sem_give */
    method SemGive()
      requires Valid() && givePending
      modifies this`sem, this`givePending
      ensures Valid() && Abs() == Step(old(Abs()), IsrGive)
      ensures sem == (if old(sem) == 0 then 1 else old(sem)) && !givePending
    {
      if sem < SEM_LIMIT {
        sem := sem + 1;
      }
      givePending := false;
    }

    /** uart_callback: `rx` is what the hardware FIFO holds when the handler runs. */
    method UartCallback(updated: bool, rxReady: bool, rx: string)
      requires Valid() && !givePending
      modifies this`ring, this`sem, this`givePending, this`received, this`kept
      ensures Valid() && !givePending
      ensures Abs() == if updated && rxReady then Exec(old(Abs()), IsrActions(rx)) else old(Abs())
    {
      if !updated {
        return;
      }
      if rxReady {
        var i := 0;
        assert rx[0..] == rx;
        while i < |rx|
          invariant i <= |rx| && Valid() && !givePending
          invariant Exec(Abs(), IsrActions(rx[i..])) == Exec(old(Abs()), IsrActions(rx))
        {
          NextByte(Abs(), rx, i);
          RingPut(rx[i]);
          if rx[i] == '\n' {
            SemGive();
          }
          i := i + 1;
        }
      }
    }

    /** k_sem_take by a thread that finds the semaphore available */
    method SemTake()
      requires Valid() && pc == PcTake && sem > 0
      modifies this`sem, this`pc
      ensures Valid() && Abs() == ThreadStep(old(Abs()))
      ensures pc == PcGet && sem == old(sem) - 1
    {
      sem, pc := sem - 1, PcGet;
    }

    /** ring_buf_get into temp[idx] */
    method RingGet()
      requires Valid() && pc == PcGet
      modifies this`ring, this`pc, this`drained, temp
      ensures Valid() && Abs() == ThreadStep(old(Abs()))
      ensures pc == if old(ring) == [] then PcTake else PcByte
      ensures old(ring) == [] ==> ring == []
      ensures old(ring) != [] ==> ring == old(ring)[1..] && temp[idx] == old(ring)[0]
    {
      if |ring| > 0 {
        temp[idx] := ring[0];
        drained := drained + [ring[0]];
        ring, pc := ring[1..], PcByte;
      } else {
        pc := PcTake;
      }
      assert temp[..idx] == old(temp[..idx]);
    }

    method SwitchLed(on: bool)
      requires Valid()
      modifies this`led, this`signals, this`events
      ensures Valid() && led == on
      ensures events == old(events) + [SetLed(on), Send(if on then AckOn else AckOff)]
    {
      PinSet(on);
      Reply(if on then AckOn else AckOff);
    }

    /** Lines 69-86: what the string in the buffer asks for. */
    method Dispatch(verb: Verb)
      requires Valid()
      modifies this`led, this`signals, this`events
      ensures Valid()
      ensures led == LedAfter(verb, old(led))
      ensures events == old(events) + Response(verb, old(led))
    {
      match verb
      case Nothing =>
      case TurnOn => SwitchLed(true);
      case TurnOff => SwitchLed(false);
      case Report => Reply(StatusReply(led));
      case Unknown => Reply(UnknownCommand);
    }

    /** The state is what `Feed` makes of `line`, `led` and `c`. */
    ghost predicate Parsed(line: string, c: char, led: bool, events: seq<Event>)
      requires Valid()
      reads this, temp
    {
      var o := Feed(Parser(line, led), c);
      Parser(temp[..idx], this.led) == o.parser && this.events == events + o.events
    }

    /** Lines 63-67: the line becomes a C string. */
    method Terminate(ghost line: string)
      requires temp.Length == TEMP_SIZE && idx as int <= LINE_MAX && line == temp[..idx]
      modifies temp
      ensures CString(temp[..]) == Command(line)
    {
      ghost var before := temp[..];
      if idx > 0 && temp[idx - 1] == '\r' {
        temp[idx - 1] := NUL;
      } else {
        temp[idx] := NUL;
      }
      TerminatedBuffer(before, idx as int, temp[..]);
      assert line == before[..idx];
    }

    /** Lines 62-89: a newline at temp[idx] ends the line. */
    method EndLine(ghost line: string)
      requires Valid() && line == temp[..idx]
      modifies this`idx, this`led, this`signals, this`events, temp
      ensures Valid() && Parsed(line, '\n', old(led), old(events))
    {
      hide RenderAll;
      Terminate(line);
      Dispatch(VerbOf(CString(temp[..])));
      Reply(Prompt);
      idx := 0;
      assert temp[..0] == [];
      Assoc(old(events), Response(VerbOf(Command(line)), old(led)), [Send(Prompt)]);
    }

    /** Lines 90-97: any other byte stays in the buffer, or resets it. */
    method KeepByte(ghost line: string)
      requires Valid() && line == temp[..idx] && temp[idx] != '\n'
      modifies this`idx, this`signals, this`events
      ensures Valid() && Parsed(line, old(temp[idx]), led, old(events))
    {
      assert temp[..idx + 1] == line + [temp[idx]];
      assert temp[..0] == [];
      if idx < 254 {
        idx := idx + 1;
      } else {
        idx := 0;
        Reply(Overflow);
      }
    }

    /** Lines 61-97: the byte at temp[idx]. */
    method ProcessByte()
      requires Valid() && pc == PcByte
      modifies this`idx, this`pc, this`led, this`signals, this`events, temp
      ensures Valid() && Abs() == ThreadStep(old(Abs()))
      ensures pc == PcGet
    {
      hide RenderAll;
      ghost var line := temp[..idx];
      if temp[idx] == '\n' {
        EndLine(line);
      } else {
        KeepByte(line);
      }
      pc := PcGet;
    }

    /** The thread's nested loops, from a semaphore take until it would block again. */
    method ProducerThread()
      requires Valid() && pc == PcTake && sem <= SEM_LIMIT
      modifies this`ring, this`sem, this`idx, this`pc, this`led, this`signals, this`events, this`drained, temp
      ensures Valid() && Blocked(Abs())
      ensures Abs() == if old(sem) == 0 then old(Abs()) else Drained(old(Abs()))
    {
      ghost var start := Abs();
      while sem > 0
        invariant Valid() && pc == PcTake && sem <= SEM_LIMIT
        invariant Abs() == start || (old(sem) == 1 && sem == 0 && Abs() == Drained(start))
        decreases sem
      {
        SemTake();
        DrainLoop();
      }
    }

    method DrainLoop()
      requires Valid() && pc == PcGet
      modifies this`ring, this`idx, this`pc, this`led, this`signals, this`events, this`drained, temp
      ensures Valid() && pc == PcTake && Abs() == Drained(old(Abs())).(sem := sem)
    {
      ghost var goal := Drained(Abs());
      while |ring| > 0
        invariant Valid() && pc == PcGet
        invariant Drained(Abs()) == goal
        decreases |ring|
      {
        DrainedStep(Abs());
        RingGet();
        ProcessByte();
      }
      NothingToDrain(Abs());
      RingGet();
    }

    /** The thread's next step, if it can take one. */
    method RunThread()
      requires Valid()
      modifies this, temp
      ensures Valid() && Abs() == ThreadStep(old(Abs()))
    {
      match pc
      case PcTake => if sem > 0 { SemTake(); }
      case PcGet => RingGet();
      case PcByte => ProcessByte();
    }

    /** Any interleaving of the two contexts; a context that cannot move is skipped. */
    method Interleave(schedule: seq<Action>)
      requires Valid()
      modifies this, temp
      ensures Valid() && Abs() == Exec(old(Abs()), schedule)
    {
      var i := 0;
      assert schedule[0..] == schedule;
      while i < |schedule|
        invariant i <= |schedule| && Valid()
        invariant Exec(Abs(), schedule[i..]) == Exec(old(Abs()), schedule)
        decreases |schedule| - i
      {
        assert schedule[i..][1..] == schedule[i + 1..];
        match schedule[i] {
          case IsrPut(c) => if !givePending { RingPut(c); }
          case IsrGive => if givePending { SemGive(); }
          case Thread => RunThread();
        }
        i := i + 1;
      }
    }
  }
}
