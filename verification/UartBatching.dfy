// Interrupts of any size. One call of the interrupt handler empties the hardware FIFO, so on
// the chip input arrives in batches and a batch is not preempted by the thread. What a batch
// does is computed in closed form, and how input is cut into batches is proved not to matter.
module UartBatching {
  import opened UartParser
  import opened UartMachine
  import UartFraming

  function Min(a: nat, b: nat): (r: nat)
    ensures r <= a && r <= b && (r == a || r == b)
  {
    if a <= b then a else b
  }

  // ----- one interrupt -----

  /** How many of `n` bytes that arrive together the ring takes. */
  function Fitting(s: State, n: nat): (r: nat)
    requires |s.ring| <= RING_SIZE
    ensures r <= n
  {
    Min(n, RING_SIZE - |s.ring|)
  }

  function KeptFirst(fit: nat, n: nat): seq<bool> {
    seq(n, i => i < fit)
  }

  /** The state after an interrupt that brings `rx`: the bytes that fit are kept in order, the
      others are refused, and the semaphore is available if a newline was among them all. */
  function AfterInterrupt(s: State, rx: string): State
    requires |s.ring| <= RING_SIZE
  {
    var n := Fitting(s, |rx|);
    s.(ring := s.ring + rx[..n], sem := if '\n' in rx then 1 else s.sem,
       received := s.received + rx, kept := s.kept + KeptFirst(n, |rx|))
  }

  /** The handler's loop does nothing between interrupts. */
  predicate Idle(s: State) {
    !s.givePending && |s.ring| <= RING_SIZE && s.sem <= SEM_LIMIT
  }

  lemma FittingRing(ring: string, rx: string, n: nat)
    requires n <= |rx| && rx != []
    ensures ring + rx[..n] == if n > 0 then (ring + [rx[0]]) + rx[1..][..n - 1] else ring + rx[1..][..0]
  {
  }

  lemma KeptCons(kept: seq<bool>, n: nat, len: nat)
    requires 0 < len
    ensures kept + KeptFirst(n, len) == (kept + [n > 0]) + KeptFirst(if n > 0 then n - 1 else 0, len - 1)
  {
  }

  lemma HeadFirst(received: string, rx: string)
    requires rx != []
    ensures received + rx == (received + [rx[0]]) + rx[1..]
    ensures '\n' in rx <==> rx[0] == '\n' || '\n' in rx[1..]
  {
  }

  lemma PutAndGive(s: State, rx: string)
    requires Idle(s) && rx != []
    ensures var u := Step(Step(s, IsrPut(rx[0])), IsrGive);
            Idle(u) && AfterInterrupt(u, rx[1..]) == AfterInterrupt(s, rx)
  {
    hide KeptFirst;
    var n := Fitting(s, |rx|);
    FittingRing(s.ring, rx, n);
    KeptCons(s.kept, n, |rx|);
    HeadFirst(s.received, rx);
  }

  /** What the put and give steps of an interrupt amount to. */
  lemma {:induction false} InterruptLaw(s: State, rx: string)
    requires Idle(s)
    ensures Exec(s, IsrActions(rx)) == AfterInterrupt(s, rx)
    ensures var t := Exec(s, IsrActions(rx));
            && |t.ring| == Min(|s.ring| + |rx|, 256) && t.ring == s.ring + rx[..|t.ring| - |s.ring|]
            && t.received == s.received + rx
            && t.sem == (if '\n' in rx then 1 else s.sem) && !t.givePending
    decreases |rx|
  {
    if rx == [] {
      assert s.kept + KeptFirst(0, 0) == s.kept;
    } else {
      var u := Step(Step(s, IsrPut(rx[0])), IsrGive);
      ExecConcat(s, [IsrPut(rx[0]), IsrGive], IsrActions(rx[1..]));
      ExecTwo(s, IsrPut(rx[0]), IsrGive);
      PutAndGive(s, rx);
      InterruptLaw(u, rx[1..]);
    }
  }

  /** An interrupt loses nothing exactly when all it brings fits. */
  lemma InterruptDropsNothing(s: State, rx: string)
    requires Idle(s) && NothingDropped(s)
    ensures NothingDropped(Exec(s, IsrActions(rx))) <==> |s.ring| + |rx| <= RING_SIZE
  {
    hide Exec, IsrActions;
    InterruptLaw(s, rx);
    var n := Fitting(s, |rx|);
    var t := AfterInterrupt(s, rx);
    if n < |rx| {
      assert t.kept[|s.kept| + n] == KeptFirst(n, |rx|)[n];
    }
  }

  // ----- runs made of whole interrupts and thread steps -----

  datatype Turn = Interrupt(rx: string) | ThreadTurn

  function TurnActions(turn: Turn): seq<Action> {
    match turn
    case Interrupt(rx) => IsrActions(rx)
    case ThreadTurn => [Thread]
  }

  function Flatten(turns: seq<Turn>): seq<Action>
    decreases |turns|
  {
    if turns == [] then [] else TurnActions(turns[0]) + Flatten(turns[1..])
  }

  function Brings(turn: Turn): string {
    match turn
    case Interrupt(rx) => rx
    case ThreadTurn => []
  }

  /** All the bytes the interrupts bring. */
  function Input(turns: seq<Turn>): string
    decreases |turns|
  {
    if turns == [] then [] else Brings(turns[0]) + Input(turns[1..])
  }

  function ExecTurns(s: State, turns: seq<Turn>): State {
    Exec(s, Flatten(turns))
  }

  lemma {:induction false} FlattenConcat(a: seq<Turn>, b: seq<Turn>)
    ensures Flatten(a + b) == Flatten(a) + Flatten(b)
    decreases |a|
  {
    if a == [] {
      assert a + b == b;
    } else {
      assert (a + b)[1..] == a[1..] + b;
      FlattenConcat(a[1..], b);
    }
  }

  lemma ExecTurnsConcat(s: State, a: seq<Turn>, b: seq<Turn>)
    ensures ExecTurns(s, a + b) == ExecTurns(ExecTurns(s, a), b)
  {
    FlattenConcat(a, b);
    ExecConcat(s, Flatten(a), Flatten(b));
  }

  lemma ExecInterrupt(s: State, rx: string)
    requires Idle(s)
    ensures ExecTurns(s, [Interrupt(rx)]) == AfterInterrupt(s, rx)
  {
    assert Flatten([Interrupt(rx)]) == IsrActions(rx);
    InterruptLaw(s, rx);
  }

  lemma ExecThreadTurn(s: State)
    ensures ExecTurns(s, [ThreadTurn]) == ThreadStep(s)
  {
    assert Flatten([ThreadTurn]) == [Thread];
    ExecOne(s, Thread);
  }

  lemma TurnReceives(s: State, turn: Turn)
    requires Inv(s) && !s.givePending
    ensures var t := ExecTurns(s, [turn]);
            Inv(t) && !t.givePending && t.received == s.received + Brings(turn)
  {
    ExecKeepsInv(s, Flatten([turn]));
    match turn
    case Interrupt(rx) => ExecInterrupt(s, rx);
    case ThreadTurn =>
      ExecThreadTurn(s);
      assert s.received + [] == s.received;
  }

  /** Whole interrupts bring exactly their bytes and leave no give pending. */
  lemma {:induction false} TurnsReceive(s: State, turns: seq<Turn>)
    requires Inv(s) && !s.givePending
    ensures var t := ExecTurns(s, turns);
            Inv(t) && !t.givePending && t.received == s.received + Input(turns)
    decreases |turns|
  {
    hide Inv;
    if turns == [] {
      assert s.received + [] == s.received;
    } else {
      hide ExecTurns;
      assert [turns[0]] + turns[1..] == turns;
      ExecTurnsConcat(s, [turns[0]], turns[1..]);
      TurnReceives(s, turns[0]);
      TurnsReceive(ExecTurns(s, [turns[0]]), turns[1..]);
      UartFraming.Assoc(s.received, Brings(turns[0]), Input(turns[1..]));
    }
  }

  lemma InitTurns(turns: seq<Turn>)
    ensures var s := ExecTurns(INIT, turns);
            Inv(s) && !s.givePending && s.received == Input(turns)
  {
    InvReachable([]);
    TurnsReceive(INIT, turns);
    assert [] + Input(turns) == Input(turns);
  }

  /** How the input is cut into interrupts, and where the thread runs between them, is
      invisible: two runs that bring the same bytes and lose none differ only in how far the
      thread has got, and a run that has processed everything has the history of those bytes. */
  lemma BatchingLaw(a: seq<Turn>, b: seq<Turn>)
    requires Input(a) == Input(b)
    requires NothingDropped(ExecTurns(INIT, a)) && NothingDropped(ExecTurns(INIT, b))
    ensures SameUpToProgress(ExecTurns(INIT, a), ExecTurns(INIT, b))
    ensures var s := ExecTurns(INIT, a);
            && s.received == Input(a)
            && (Processed(s) == Input(a) ==> Outcome(s.parser, s.events) == FeedAll(START, Input(a)))
  {
    InitTurns(a);
    InitTurns(b);
    ScheduleIndependence(Flatten(a), Flatten(b));
  }
}
