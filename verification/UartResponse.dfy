// How soon a received byte is processed. The interrupt handler may keep the ring busy, but it
// cannot delay what is already in it: the number of thread steps until a waiting byte has been
// processed is fixed when it is waiting, exactly, on every later schedule.
module UartResponse {
  import opened UartParser
  import opened UartMachine
  import UartFraming

  /** The thread's own steps in a schedule. */
  function ThreadSteps(schedule: seq<Action>): nat {
    if schedule == [] then 0 else (if schedule[0] == Thread then 1 else 0) + ThreadSteps(schedule[1..])
  }

  /** The first `goal` accepted bytes have arrived, and they are processed or the thread is awake. */
  ghost predicate OnTheWay(s: State, goal: nat) {
    && goal <= |s.drained| + |s.ring|
    && (s.at.HaveByte? ==> s.drained != [])
    && (|Processed(s)| >= goal || !Blocked(s))
  }

  /** Thread steps until the first `goal` bytes are processed: a get and a parser turn for each
      one still in the ring, after the take or the parser turn that comes first. */
  function StepsNeeded(s: State, goal: nat): nat {
    if |Processed(s)| >= goal then 0
    else if s.at == Draining then 2 * (goal - |s.drained|)
    else if goal <= |s.drained| then 1
    else 1 + 2 * (goal - |s.drained|)
  }

  /** A thread step uses up one of them, and any other step none. */
  lemma StepNeedsLess(s: State, a: Action, goal: nat)
    requires OnTheWay(s, goal)
    ensures OnTheWay(Step(s, a), goal)
    ensures StepsNeeded(Step(s, a), goal)
         == if a == Thread && StepsNeeded(s, goal) > 0 then StepsNeeded(s, goal) - 1 else StepsNeeded(s, goal)
  {
  }

  lemma {:induction false} RunNeedsLess(s: State, goal: nat, schedule: seq<Action>)
    requires OnTheWay(s, goal)
    ensures |Processed(Exec(s, schedule))| >= goal <==> ThreadSteps(schedule) >= StepsNeeded(s, goal)
    decreases |schedule|
  {
    hide OnTheWay;
    if schedule != [] {
      StepNeedsLess(s, schedule[0], goal);
      RunNeedsLess(Step(s, schedule[0]), goal, schedule[1..]);
    }
  }

  lemma StepGrows(s: State, a: Action)
    ensures s.drained + s.ring <= Step(s, a).drained + Step(s, a).ring
  {
    match a
    case IsrPut(c) => UartFraming.Assoc(s.drained, s.ring, [c]);
    case IsrGive =>
    case Thread =>
      if s.at == Draining && s.ring != [] {
        assert [s.ring[0]] + s.ring[1..] == s.ring;
        UartFraming.Assoc(s.drained, [s.ring[0]], s.ring[1..]);
      }
  }

  /** The accepted bytes are only ever added to. */
  lemma {:induction false} RunGrows(s: State, schedule: seq<Action>)
    ensures s.drained + s.ring <= Exec(s, schedule).drained + Exec(s, schedule).ring
    decreases |schedule|
  {
    if schedule != [] {
      StepGrows(s, schedule[0]);
      RunGrows(Step(s, schedule[0]), schedule[1..]);
    }
  }

  lemma PrefixesByLength(a: string, b: string, all: string)
    requires a <= all && b <= all
    ensures a <= b <==> |a| <= |b|
  {
  }

  /** The bytes up to position p of the ring. */
  function UpTo(s: State, p: nat): string
    requires p < |s.ring|
  {
    s.drained + s.ring[..p + 1]
  }

  lemma ProcessedCovers(s: State, p: nat, after: seq<Action>)
    requires p < |s.ring|
    ensures var t := Exec(s, after);
            UpTo(s, p) <= Processed(t) <==> |Processed(t)| >= |s.drained| + p + 1
  {
    var t := Exec(s, after);
    RunGrows(s, after);
    assert UpTo(s, p) <= s.drained + s.ring;
    assert Processed(t) <= t.drained <= t.drained + t.ring;
    PrefixesByLength(UpTo(s, p), Processed(t), t.drained + t.ring);
  }

  lemma AwakeOverNewline(s: State, p: nat)
    requires Inv(s) && '\n' in s.ring && !s.givePending && p < |s.ring|
    ensures var goal := |s.drained| + p + 1;
            OnTheWay(s, goal) && 2 * (p + 1) <= StepsNeeded(s, goal) <= 2 * (p + 1) + 1
  {
  }

  /** Once a newline is in the ring and its give is done, the bytes up to any position p of the
      ring have been processed exactly when the thread has had its next `StepsNeeded` steps, at
      most 2 * (p + 1) + 1 of them, whatever the interrupt handler does meanwhile. */
  lemma ResponseLaw(before: seq<Action>, p: nat, after: seq<Action>)
    ensures var s := Exec(INIT, before);
            p < |s.ring| && '\n' in s.ring && !s.givePending ==>
              var needed := StepsNeeded(s, |s.drained| + p + 1);
              && (UpTo(s, p) <= Processed(Exec(INIT, before + after)) <==> ThreadSteps(after) >= needed)
              && 2 * (p + 1) <= needed <= 2 * (p + 1) + 1
  {
    hide *;
    InvReachable(before);
    var s := Exec(INIT, before);
    if p < |s.ring| && '\n' in s.ring && !s.givePending {
      AwakeOverNewline(s, p);
      RunNeedsLess(s, |s.drained| + p + 1, after);
      ProcessedCovers(s, p, after);
      ExecConcat(INIT, before, after);
    }
  }
}
