// How far schedule independence reaches. Once input stops and the thread blocks again, is the
// history fixed by the input alone? Not always: an unfinished last line may be left in the
// ring or drained, and draining 255 bytes of it reports an overflow. `SettlesAlikeExactly`
// gives the exact condition, for every input.
module UartSchedules {
  import opened UartParser
  import opened UartFraming
  import opened UartMachine
  import opened UartBatching

  predicate Quiescent(s: State) {
    Blocked(s) && !s.givePending
  }

  /** A schedule that feeds exactly `r`, drops none of it and leaves the system at rest. */
  ghost predicate SettlesOn(r: string, schedule: seq<Action>) {
    var s := Exec(INIT, schedule);
    Quiescent(s) && NothingDropped(s) && s.received == r
  }

  ghost predicate SettlesAlike(r: string) {
    forall a, b :: SettlesOn(r, a) && SettlesOn(r, b) ==> Exec(INIT, a).events == Exec(INIT, b).events
  }

  /** The same for runs in which the thread never preempts an interrupt. */
  ghost predicate BatchesSettleAlike(r: string) {
    forall a, b :: SettlesOn(r, Flatten(a)) && SettlesOn(r, Flatten(b)) ==>
      ExecTurns(INIT, a).events == ExecTurns(INIT, b).events
  }

  /** Either the ring fills before the first newline, so the thread is never woken in time, or
      the unfinished last line is shorter than a frame. */
  predicate Determined(r: string) {
    '\n' !in r[..Min(|r|, RING_SIZE)] || |Tail(r)| < FRAME
  }

  // ----- the history at rest -----

  lemma {:induction false} PlainSuffix(s: string, w: string)
    requires '\n' !in w
    ensures Lines(s + w) == Lines(s)
    ensures Tail(s + w) == Tail(s) + w
    decreases |s|
  {
    if '\n' in s {
      var k := FirstNewline(s);
      assert (s + w)[k] == '\n';
      assert FirstNewline(s + w) == k;
      assert (s + w)[..k] == s[..k];
      assert (s + w)[k + 1..] == s[k + 1..] + w;
      PlainSuffix(s[k + 1..], w);
    }
  }

  /** The history of `r` when the last `left` bytes of its unfinished line stay in the ring. */
  function RestHistory(r: string, left: nat): seq<Event>
    requires left <= |Tail(r)|
  {
    Replay(Lines(r), false) + Repeat(Send(Overflow), (|Tail(r)| - left) / FRAME)
  }

  lemma RestOf(s: State)
    requires Inv(s) && Quiescent(s) && NothingDropped(s)
    ensures |s.ring| <= |Tail(s.received)| && s.events == RestHistory(s.received, |s.ring|)
  {
    ProcessedIsPrefix(s);
    PlainSuffix(s.drained, s.ring);
    StreamLaw(s.drained, false);
  }

  /** At rest, with nothing dropped, only an unfinished line is left in the ring, and the
      history is that of the input with the ring's bytes taken off the last line. */
  lemma HistoryAtRest(r: string, schedule: seq<Action>)
    requires SettlesOn(r, schedule)
    ensures var s := Exec(INIT, schedule);
            |s.ring| <= |Tail(r)| && s.events == RestHistory(r, |s.ring|)
  {
    InvReachable(schedule);
    RestOf(Exec(INIT, schedule));
  }

  // ----- an input whose first newline comes too late -----

  ghost predicate Unseen(s: State) {
    var r := s.received;
    && |s.kept| == |r|
    && ('\n' !in r[..Min(|r|, RING_SIZE)] ==>
          && (|r| <= RING_SIZE ==> Quiescent(s) && |s.ring| == |r| && s.events == [])
          && (|r| > RING_SIZE ==> !s.kept[RING_SIZE]))
  }

  lemma StepKeepsUnseen(s: State, a: Action)
    requires Unseen(s)
    ensures Unseen(Step(s, a))
  {
    var t := Step(s, a);
    if t.received != s.received {
      var n := Min(|s.received|, RING_SIZE);
      assert t.received[..n] == s.received[..n];
      if '\n' !in t.received[..Min(|t.received|, RING_SIZE)] {
        assert forall i :: 0 <= i < n ==> s.received[i] == t.received[..Min(|t.received|, RING_SIZE)][i];
        assert |s.received| < RING_SIZE ==> a.c == t.received[..Min(|t.received|, RING_SIZE)][|s.received|];
      }
    }
  }

  lemma {:induction false} ExecKeepsUnseen(s: State, schedule: seq<Action>)
    requires Unseen(s)
    ensures Unseen(Exec(s, schedule))
    decreases |schedule|
  {
    if schedule != [] {
      StepKeepsUnseen(s, schedule[0]);
      ExecKeepsUnseen(Step(s, schedule[0]), schedule[1..]);
    }
  }

  lemma UnseenAtRest(r: string, schedule: seq<Action>)
    requires SettlesOn(r, schedule)
    requires '\n' !in r[..Min(|r|, RING_SIZE)]
    ensures Exec(INIT, schedule).events == []
  {
    ExecKeepsUnseen(INIT, schedule);
    InvReachable(schedule);
  }

  lemma ShortTailAtRest(r: string, schedule: seq<Action>)
    requires SettlesOn(r, schedule) && |Tail(r)| < FRAME
    ensures Exec(INIT, schedule).events == RestHistory(r, 0)
  {
    HistoryAtRest(r, schedule);
  }

  lemma DeterminedSettlesAlike(r: string)
    requires Determined(r)
    ensures SettlesAlike(r)
  {
    forall a, b | SettlesOn(r, a) && SettlesOn(r, b)
      ensures Exec(INIT, a).events == Exec(INIT, b).events
    {
      if |Tail(r)| < FRAME {
        ShortTailAtRest(r, a);
        ShortTailAtRest(r, b);
      } else {
        UnseenAtRest(r, a);
        UnseenAtRest(r, b);
      }
    }
  }

  // ----- building runs -----

  lemma Regroup(a: string, w: string)
    requires w != []
    ensures a + [w[0]] + w[1..] == a + w
  {
  }

  function ThreadTurns(n: nat): seq<Turn> {
    if n == 0 then [] else [ThreadTurn] + ThreadTurns(n - 1)
  }

  lemma {:induction false} ThreadTurnsRun(s: State, n: nat)
    ensures ExecTurns(s, ThreadTurns(n)) == ThreadTimes(s, n)
    decreases n
  {
    if n > 0 {
      ExecTurnsConcat(s, [ThreadTurn], ThreadTurns(n - 1));
      ExecThreadTurn(s);
      ThreadTurnsRun(ThreadStep(s), n - 1);
    }
  }

  /** The thread is draining, has caught up with `r`, and nothing was dropped. */
  ghost predicate CaughtUp(s: State, r: string) {
    && s.at == Draining && s.ring == [] && s.sem <= SEM_LIMIT && !s.givePending
    && s.received == r && |s.kept| == |r| && NothingDropped(s)
  }

  lemma {:induction false} DrainRun(s: State)
    requires s.at == Draining && s.sem <= SEM_LIMIT && !s.givePending
    requires |s.kept| == |s.received| && NothingDropped(s)
    ensures CaughtUp(ThreadTimes(s, 2 * |s.ring|), s.received)
    decreases |s.ring|
  {
    if s.ring != [] {
      GetAndProcess(s, 2 * |s.ring|);
      DrainRun(ThreadStep(ThreadStep(s)));
    }
  }

  function Eager(w: string): seq<Turn>
    decreases |w|
  {
    if w == [] then [] else ([Interrupt([w[0]])] + ThreadTurns(2)) + Eager(w[1..])
  }

  lemma EagerByte(s: State, r: string, c: char)
    requires CaughtUp(s, r)
    ensures CaughtUp(ExecTurns(s, [Interrupt([c])] + ThreadTurns(2)), r + [c])
  {
    ExecTurnsConcat(s, [Interrupt([c])], ThreadTurns(2));
    ExecInterrupt(s, [c]);
    var t := AfterInterrupt(s, [c]);
    assert t.ring == [c];
    ThreadTurnsRun(t, 2);
    DrainRun(t);
  }

  /** A draining thread keeps up with any input, byte by byte. */
  lemma {:induction false} EagerRun(s: State, r: string, w: string)
    requires CaughtUp(s, r)
    ensures CaughtUp(ExecTurns(s, Eager(w)), r + w)
    decreases |w|
  {
    if w == [] {
      assert r + w == r;
    } else {
      var first := [Interrupt([w[0]])] + ThreadTurns(2);
      ExecTurnsConcat(s, first, Eager(w[1..]));
      EagerByte(s, r, w[0]);
      EagerRun(ExecTurns(s, first), r + [w[0]], w[1..]);
      Regroup(r, w);
    }
  }

  lemma RestRun(s: State, r: string)
    requires CaughtUp(s, r)
    ensures var t := ThreadTimes(s, 4);
            && Quiescent(t) && t.ring == [] && t.received == r && |t.kept| == |r| && NothingDropped(t)
  {
  }

  /** A first line that fits wakes the thread, and loses nothing. */
  lemma FirstLineWakes(line: string)
    requires |line| < RING_SIZE
    ensures var rx := line + ['\n'];
            var s := AfterInterrupt(INIT, rx);
            && ExecTurns(INIT, [Interrupt(rx)]) == s
            && s.at == AtTake && s.sem == 1 && !s.givePending && s.ring == s.received == rx
            && |s.kept| == |rx| && NothingDropped(s)
  {
    hide Exec, ExecTurns, IsrActions;
    var rx := line + ['\n'];
    ExecInterrupt(INIT, rx);
    InterruptLaw(INIT, rx);
    InterruptDropsNothing(INIT, rx);
    assert rx[|line|] == '\n';
    assert [] + rx == rx && rx[..|rx|] == rx;
  }

  /** The first line is received in one interrupt, wakes the thread, and is drained. */
  lemma FirstLineRun(line: string) returns (turns: seq<Turn>)
    requires |line| < RING_SIZE
    ensures CaughtUp(ExecTurns(INIT, turns), line + ['\n'])
  {
    hide AfterInterrupt, ExecTurns;
    var rx := line + ['\n'];
    var s := AfterInterrupt(INIT, rx);
    FirstLineWakes(line);
    var n := 2 * |rx|;
    turns := [Interrupt(rx)] + ThreadTurns(1 + n);
    ExecTurnsConcat(INIT, [Interrupt(rx)], ThreadTurns(1 + n));
    ThreadTurnsRun(s, 1 + n);
    DrainRun(ThreadStep(s));
  }

  /** The thread, draining and caught up with part of the input, keeps up with some more,
      comes to rest, and the remaining plain bytes then stay in the ring. */
  lemma FinishRun(s: State, done: string, more: string, left: string) returns (turns: seq<Turn>)
    requires CaughtUp(s, done) && '\n' !in left && |left| <= RING_SIZE
    ensures var t := ExecTurns(s, turns);
            && Quiescent(t) && NothingDropped(t)
            && t.received == done + more + left && t.ring == left
  {
    EagerRun(s, done, more);
    var s1 := ExecTurns(s, Eager(more));
    RestRun(s1, done + more);
    ThreadTurnsRun(s1, 4);
    var s2 := ThreadTimes(s1, 4);
    ExecInterrupt(s2, left);
    InterruptLaw(s2, left);
    InterruptDropsNothing(s2, left);
    ExecTurnsConcat(s1, ThreadTurns(4), [Interrupt(left)]);
    ExecTurnsConcat(s, Eager(more), ThreadTurns(4) + [Interrupt(left)]);
    turns := Eager(more) + (ThreadTurns(4) + [Interrupt(left)]);
    assert [] + left == left;
  }

  lemma CutInThree(r: string, k: nat, n: nat)
    requires k < n <= |r| && r[k] == '\n'
    ensures r == (r[..k] + ['\n']) + r[k + 1..n] + r[n..]
  {
  }

  /** Any part of the last line that fits the ring can be the part left in it at rest. */
  lemma RunLeaving(r: string, m: nat) returns (turns: seq<Turn>)
    requires '\n' in r && FirstNewline(r) < RING_SIZE
    requires m <= |Tail(r)| && m <= RING_SIZE
    ensures SettlesOn(r, Flatten(turns)) && |ExecTurns(INIT, turns).ring| == m
  {
    var k, n := FirstNewline(r), |r| - m;
    TailIsPlain(r);
    var head, more, left := r[..k] + ['\n'], r[k + 1..n], r[n..];
    CutInThree(r, k, n);
    var first := FirstLineRun(r[..k]);
    var s := ExecTurns(INIT, first);
    var finish := FinishRun(s, head, more, left);
    ExecTurnsConcat(INIT, first, finish);
    turns := first + finish;
  }

  /** The last `|Tail(r)|` bytes hold no newline, so every newline lies before them. */
  lemma TailIsPlain(r: string)
    ensures forall i :: |r| - |Tail(r)| <= i < |r| ==> r[i] != '\n'
    ensures '\n' in r ==> |r| - |Tail(r)| > FirstNewline(r)
  {
  }

  lemma EarlyNewline(r: string)
    requires '\n' in r[..Min(|r|, RING_SIZE)]
    ensures '\n' in r && FirstNewline(r) < RING_SIZE
  {
  }

  lemma LeavingTells(r: string, m: nat)
    requires FRAME <= m <= |Tail(r)|
    ensures RestHistory(r, 0) != RestHistory(r, m)
  {
  }

  lemma UndeterminedSettlesApart(r: string)
    requires !Determined(r)
    ensures !SettlesAlike(r) && !BatchesSettleAlike(r)
  {
    EarlyNewline(r);
    var m := Min(|Tail(r)|, RING_SIZE);
    var a := RunLeaving(r, 0);
    var b := RunLeaving(r, m);
    HistoryAtRest(r, Flatten(a));
    HistoryAtRest(r, Flatten(b));
    LeavingTells(r, m);
  }

  /** The history at rest is a function of the input exactly when the input is `Determined`;
      and it makes no difference if only runs of whole interrupts are considered. */
  lemma SettlesAlikeExactly(r: string)
    ensures SettlesAlike(r) <==> Determined(r)
    ensures BatchesSettleAlike(r) <==> Determined(r)
  {
    if Determined(r) {
      DeterminedSettlesAlike(r);
    } else {
      UndeterminedSettlesApart(r);
    }
  }
}
