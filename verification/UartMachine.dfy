// The interrupt handler and the parser thread of uart/src/main.c as a step machine: every
// interleaving of ring put, semaphore give, semaphore take, ring get and byte processing.
// The kernel objects have their documented contracts only: a 256-byte FIFO ring that refuses
// a byte when full, and a semaphore that saturates at 1.
module UartMachine {
  import opened UartParser
  import opened UartFraming

  const RING_SIZE := 256
  const SEM_LIMIT := 1

  /** Where the thread is: before line 58, before line 60, or holding a byte at line 61. */
  datatype Point = AtTake | Draining | HaveByte(b: char)

  /** `received`, `kept` and `drained` are history: the bytes read from the UART, whether the
      ring took each of them, and the bytes the thread got from the ring. */
  datatype State = State(
    ring: string, sem: nat, givePending: bool,
    at: Point, parser: Parser, events: seq<Event>,
    received: string, kept: seq<bool>, drained: string)

  datatype Action = IsrPut(c: char) | IsrGive | Thread

  const INIT := State([], 0, false, AtTake, START, [], [], [], [])

  predicate Blocked(s: State) {
    s.at == AtTake && s.sem == 0
  }

  function Give(sem: nat): nat {
    if sem < SEM_LIMIT then sem + 1 else sem
  }

  function ThreadStep(s: State): State {
    match s.at
    case AtTake =>
      if s.sem == 0 then s else s.(sem := s.sem - 1, at := Draining)
    case Draining =>
      if s.ring == [] then s.(at := AtTake)
      else s.(ring := s.ring[1..], at := HaveByte(s.ring[0]), drained := s.drained + [s.ring[0]])
    case HaveByte(c) =>
      var o := Feed(s.parser, c);
      s.(parser := o.parser, events := s.events + o.events, at := Draining)
  }

  /** One step; an action that cannot happen yet (a blocked thread, an interrupt handler that
      still has to give) leaves the state alone, so every sequence of actions is a schedule. */
  function Step(s: State, a: Action): State {
    match a
    case IsrPut(c) =>
      if s.givePending then s
      else
        var room := |s.ring| < RING_SIZE;
        s.(ring := if room then s.ring + [c] else s.ring, givePending := c == '\n',
           received := s.received + [c], kept := s.kept + [room])
    case IsrGive =>
      if s.givePending then s.(sem := Give(s.sem), givePending := false) else s
    case Thread => ThreadStep(s)
  }

  function Exec(s: State, schedule: seq<Action>): State
    decreases |schedule|
  {
    if schedule == [] then s else Exec(Step(s, schedule[0]), schedule[1..])
  }

  lemma {:induction false} ExecConcat(s: State, a: seq<Action>, b: seq<Action>)
    ensures Exec(s, a + b) == Exec(Exec(s, a), b)
    decreases |a|
  {
    if a == [] {
      assert a + b == b;
    } else {
      assert (a + b)[1..] == a[1..] + b;
      ExecConcat(Step(s, a[0]), a[1..], b);
    }
  }

  lemma ExecOne(s: State, a: Action)
    ensures Exec(s, [a]) == Step(s, a)
  {
  }

  lemma ExecTwo(s: State, a: Action, b: Action)
    ensures Exec(s, [a, b]) == Step(Step(s, a), b)
  {
    ExecConcat(s, [a], [b]);
    ExecOne(s, a);
    ExecOne(Step(s, a), b);
    assert [a] + [b] == [a, b];
  }

  // ----- the invariant -----

  /** The received bytes the ring took. */
  function Accepted(received: string, kept: seq<bool>): string
    requires |received| == |kept|
  {
    if received == [] then []
    else
      var n := |received| - 1;
      Accepted(received[..n], kept[..n]) + (if kept[n] then [received[n]] else [])
  }

  /** The drained bytes the parser has finished with. */
  function Processed(s: State): string {
    if s.at.HaveByte? && s.drained != [] then s.drained[..|s.drained| - 1] else s.drained
  }

  ghost predicate Inv(s: State) {
    && |s.ring| <= RING_SIZE && s.sem <= SEM_LIMIT
    && |s.kept| == |s.received|
    && s.drained + s.ring == Accepted(s.received, s.kept)
    && (s.at.HaveByte? ==> s.drained != [] && s.drained[|s.drained| - 1] == s.at.b)
    && FeedAll(START, Processed(s)) == Outcome(s.parser, s.events)
    && (s.givePending ==> s.received != [] && s.received[|s.received| - 1] == '\n')
    // no lost wakeup
    && (s.at == AtTake && '\n' in s.ring ==> s.sem == 1 || s.givePending)
  }

  lemma PutKeepsInv(s: State, c: char)
    requires Inv(s)
    ensures Inv(Step(s, IsrPut(c)))
  {
  }

  lemma GetKeepsInv(s: State)
    requires Inv(s) && s.at == Draining && s.ring != []
    ensures Inv(ThreadStep(s))
  {
    var t := ThreadStep(s);
    assert t.drained + t.ring == s.drained + s.ring;
    assert Processed(t) == s.drained;
  }

  lemma ProcessKeepsInv(s: State)
    requires Inv(s) && s.at.HaveByte?
    ensures Inv(ThreadStep(s))
  {
    assert s.drained == Processed(s) + [s.at.b];
    FeedAllSnoc(START, Processed(s), s.at.b);
  }

  lemma ThreadKeepsInv(s: State)
    requires Inv(s)
    ensures Inv(ThreadStep(s))
  {
    match s.at
    case AtTake =>
    case Draining => if s.ring != [] { GetKeepsInv(s); }
    case HaveByte(_) => ProcessKeepsInv(s);
  }

  lemma StepKeepsInv(s: State, a: Action)
    requires Inv(s)
    ensures Inv(Step(s, a))
  {
    match a
    case IsrPut(c) => PutKeepsInv(s, c);
    case IsrGive =>
    case Thread => ThreadKeepsInv(s);
  }

  lemma {:induction false} ExecKeepsInv(s: State, schedule: seq<Action>)
    requires Inv(s)
    ensures Inv(Exec(s, schedule))
    decreases |schedule|
  {
    if schedule != [] {
      StepKeepsInv(s, schedule[0]);
      ExecKeepsInv(Step(s, schedule[0]), schedule[1..]);
    }
  }

  lemma InvReachable(schedule: seq<Action>)
    ensures Inv(Exec(INIT, schedule))
  {
    assert Accepted([], []) == [];
    ExecKeepsInv(INIT, schedule);
  }

  // ----- what holds on every schedule -----

  /** Bytes drained, then bytes waiting, are the received bytes minus the ones a full ring
      refused; and all output and LED changes are the line-by-line reading of what the thread
      has processed. */
  lemma ScheduleLaw(schedule: seq<Action>)
    ensures var s := Exec(INIT, schedule);
            && |s.kept| == |s.received|
            && s.drained + s.ring == Accepted(s.received, s.kept)
            && Processed(s) <= s.drained
            && s.events == Replay(Lines(Processed(s)), false)
                         + Repeat(Send(Overflow), |Tail(Processed(s))| / FRAME)
            && s.parser == Parser(Residue(Tail(Processed(s))), LedOf(Lines(Processed(s)), false))
  {
    InvReachable(schedule);
    StreamLaw(Processed(Exec(INIT, schedule)), false);
  }

  /** temp[0..idx) is exactly the part of the current line after its last overflow reset, and
      never reaches past index 253, so both the byte and its terminator fit. */
  lemma BufferLaw(schedule: seq<Action>)
    ensures var s := Exec(INIT, schedule);
            && s.parser.line == Residue(Tail(Processed(s)))
            && |s.parser.line| <= LINE_MAX
  {
    InvReachable(schedule);
    StreamLaw(Processed(Exec(INIT, schedule)), false);
  }

  /** A thread waiting at the semaphore is never left asleep over a complete line. */
  lemma NoLostWakeup(schedule: seq<Action>)
    ensures var s := Exec(INIT, schedule);
            s.at == AtTake && '\n' in s.ring ==> s.sem == 1 || s.givePending
  {
    InvReachable(schedule);
  }

  /** A newline refused by a full ring still wakes the thread: from any reachable state in
      which the thread is blocked, the newline's put and give let it take the semaphore and
      get the oldest byte. */
  lemma FullRingIsReleased(schedule: seq<Action>)
    ensures var s := Exec(INIT, schedule);
            Blocked(s) && !s.givePending && |s.ring| == 256 ==>
              var t := Exec(s, [IsrPut('\n'), IsrGive, Thread, Thread]);
              && t.at == HaveByte(s.ring[0])
              && t.ring == s.ring[1..]
              && t.kept == s.kept + [false]
  {
  }

  // ----- schedule independence -----

  predicate NothingDropped(s: State) {
    forall i :: 0 <= i < |s.kept| ==> s.kept[i]
  }

  lemma {:induction false} AllAccepted(received: string, kept: seq<bool>)
    requires |received| == |kept|
    requires forall i :: 0 <= i < |kept| ==> kept[i]
    ensures Accepted(received, kept) == received
  {
    if received != [] {
      AllAccepted(received[..|received| - 1], kept[..|kept| - 1]);
    }
  }

  lemma ProcessedPrefixEvents(s: State, t: State)
    requires Inv(s) && Inv(t)
    requires Processed(s) <= Processed(t)
    ensures s.events <= t.events
    ensures Processed(s) == Processed(t) ==> s.parser == t.parser && s.events == t.events
  {
    var k := |Processed(s)|;
    assert Processed(t) == Processed(s) + Processed(t)[k..];
    FeedAllConcat(START, Processed(s), Processed(t)[k..]);
  }

  /** Same input, nothing dropped: one history is a prefix of the other, and they agree once
      both have processed as much. */
  ghost predicate SameUpToProgress(s: State, t: State) {
    && (s.events <= t.events || t.events <= s.events)
    && (|Processed(s)| == |Processed(t)| ==> s.events == t.events && s.parser == t.parser)
  }

  lemma ProcessedIsPrefix(s: State)
    requires Inv(s) && NothingDropped(s)
    ensures s.drained + s.ring == s.received && Processed(s) <= s.received
  {
    AllAccepted(s.received, s.kept);
  }

  lemma SameInputSameHistory(s: State, t: State)
    requires Inv(s) && Inv(t) && NothingDropped(s) && NothingDropped(t)
    requires s.received == t.received
    ensures SameUpToProgress(s, t)
  {
    ProcessedIsPrefix(s);
    ProcessedIsPrefix(t);
    if |Processed(s)| <= |Processed(t)| {
      ProcessedPrefixEvents(s, t);
    } else {
      ProcessedPrefixEvents(t, s);
    }
  }

  /** When nothing is dropped, two schedules over the same input can only differ in how far
      they have got; a schedule that has processed all its input has the history of that input. */
  lemma ScheduleIndependence(a: seq<Action>, b: seq<Action>)
    requires NothingDropped(Exec(INIT, a)) && NothingDropped(Exec(INIT, b))
    requires Exec(INIT, a).received == Exec(INIT, b).received
    ensures SameUpToProgress(Exec(INIT, a), Exec(INIT, b))
    ensures var s := Exec(INIT, a);
            Processed(s) == s.received ==> Outcome(s.parser, s.events) == FeedAll(START, s.received)
  {
    InvReachable(a);
    InvReachable(b);
    SameInputSameHistory(Exec(INIT, a), Exec(INIT, b));
  }

  // ----- one interrupt -----

  /** What one call of the interrupt handler does when the hardware FIFO holds `rx`. */
  function IsrActions(rx: string): seq<Action>
    decreases |rx|
  {
    if rx == [] then [] else [IsrPut(rx[0]), IsrGive] + IsrActions(rx[1..])
  }

  // ----- the thread on its own -----

  function ThreadTimes(s: State, n: nat): State
    decreases n
  {
    if n == 0 then s else ThreadTimes(ThreadStep(s), n - 1)
  }

  function ThreadActions(n: nat): seq<Action> {
    if n == 0 then [] else [Thread] + ThreadActions(n - 1)
  }

  lemma {:induction false} ThreadTimesIsExec(s: State, n: nat)
    ensures Exec(s, ThreadActions(n)) == ThreadTimes(s, n)
    decreases n
  {
    if n > 0 {
      assert ThreadActions(n)[1..] == ThreadActions(n - 1);
      ThreadTimesIsExec(ThreadStep(s), n - 1);
    }
  }

  /** Steps the thread still has before it blocks, if the interrupt handler stays quiet. */
  function Work(s: State): nat {
    if Blocked(s) then 0
    else
      2 * |s.ring| + 2 * s.sem
      + (match s.at case AtTake => 0 case Draining => 1 case HaveByte(_) => 2)
  }

  ghost predicate SettledFrom(s: State, t: State) {
    && Inv(t) && Blocked(t)
    && (if Blocked(s) then t == s else t.ring == [] && t.drained == s.drained + s.ring)
    && t.received == s.received && t.kept == s.kept && t.givePending == s.givePending
  }

  lemma ThreadStepWorks(s: State)
    requires Inv(s) && !Blocked(s)
    ensures var t := ThreadStep(s);
            && Inv(t)
            && Work(s) == Work(t) + 1
            && t.drained + t.ring == s.drained + s.ring
            && t.received == s.received && t.kept == s.kept && t.givePending == s.givePending
            && (Blocked(t) ==> t.ring == [])
  {
    ThreadKeepsInv(s);
  }

  /** Left alone, the thread blocks after `Work(s)` steps; unless it was already blocked, it
      has then drained and processed every byte the ring held. */
  lemma {:induction false} ThreadSettles(s: State)
    requires Inv(s)
    ensures SettledFrom(s, ThreadTimes(s, Work(s)))
    decreases Work(s)
  {
    if !Blocked(s) {
      ThreadStepWorks(s);
      ThreadSettles(ThreadStep(s));
    }
  }

  /** So once input stops, any run comes to rest with everything it accepted processed, except
      what is left in the ring of a thread that was not woken. */
  lemma EveryRunSettles(schedule: seq<Action>)
    ensures var s := Exec(INIT, schedule);
            var t := Exec(INIT, schedule + ThreadActions(Work(s)));
            SettledFrom(s, t) && (t.givePending || '\n' !in t.ring)
  {
    InvReachable(schedule);
    var s := Exec(INIT, schedule);
    ThreadSettles(s);
    ThreadTimesIsExec(s, Work(s));
    ExecConcat(INIT, schedule, ThreadActions(Work(s)));
  }

  /** ... and not earlier: each of those steps uses up one unit of work. */
  lemma {:induction false} ThreadNeverIdlesEarly(s: State, n: nat)
    requires Inv(s) && n <= Work(s)
    ensures Work(ThreadTimes(s, n)) == Work(s) - n
    ensures n < Work(s) ==> !Blocked(ThreadTimes(s, n))
    decreases n
  {
    if n > 0 {
      ThreadStepWorks(s);
      ThreadNeverIdlesEarly(ThreadStep(s), n - 1);
    }
  }

  /** Everything waiting in the ring, parsed and taken out. */
  function Drained(s: State): State {
    var o := FeedAll(s.parser, s.ring);
    s.(ring := [], sem := 0, at := AtTake, parser := o.parser,
       events := s.events + o.events, drained := s.drained + s.ring)
  }

  lemma DrainedStep(s: State)
    requires s.at == Draining && s.ring != []
    ensures Drained(ThreadStep(ThreadStep(s))) == Drained(s)
  {
    var first := Feed(s.parser, s.ring[0]);
    var rest := FeedAll(first.parser, s.ring[1..]);
    Assoc(s.events, first.events, rest.events);
    assert (s.drained + [s.ring[0]]) + s.ring[1..] == s.drained + s.ring;
  }

  lemma NothingToDrain(s: State)
    requires s.ring == []
    ensures Drained(s) == s.(sem := 0, at := AtTake)
  {
  }

  /** A get and the processing of its byte. */
  lemma GetAndProcess(s: State, n: nat)
    requires s.at == Draining && s.ring != [] && n >= 2
    ensures var t := ThreadStep(ThreadStep(s));
            && t.at == Draining && t.sem == s.sem && |t.ring| == |s.ring| - 1
            && ThreadTimes(s, n) == ThreadTimes(t, n - 2)
  {
  }

  lemma {:induction false} DrainLaw(s: State)
    requires s.at == Draining && s.sem == 0
    ensures Work(s) == 2 * |s.ring| + 1
    ensures ThreadTimes(s, Work(s)) == Drained(s)
    decreases |s.ring|
  {
    if s.ring == [] {
      NothingToDrain(s);
      assert ThreadTimes(ThreadStep(s), 0) == ThreadStep(s);
    } else {
      DrainedStep(s);
      GetAndProcess(s, Work(s));
      DrainLaw(ThreadStep(ThreadStep(s)));
    }
  }

  /** One wake-up of the thread parses exactly what the ring holds. */
  lemma WakeLaw(s: State)
    requires s.at == AtTake && s.sem == 1
    ensures ThreadTimes(s, Work(s)) == Drained(s)
  {
    var t := ThreadStep(s);
    DrainLaw(t);
    assert Work(s) == Work(t) + 1;
  }
}
