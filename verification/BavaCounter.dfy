// bava_counter.c: any number of threads call get and reset on one device. Lock, the read into
// `*val`, the load and the store of `counter += step`, and unlock are separate steps; the
// mutex is only assumed to be exclusive. Every interleaving is proved to return what an atomic
// counter returns when the calls are taken in lock order.
module BavaCounter {
  import opened Common

  const EINVAL := 22

  /** The devicetree properties of an instance. */
  datatype Config = Config(start: int, step: int)

  predicate IsInt(x: int) {
    -0x8000_0000 <= x < 0x8000_0000
  }

  /** Two's complement wrap-around of a C `int`. The C standard leaves the overflow undefined;
      the results that speak of exact values assume there is none. */
  function Wrap(x: int): (r: int)
    ensures IsInt(r) && (IsInt(x) ==> r == x)
  {
    (x + 0x8000_0000) % U32 - 0x8000_0000
  }

  // ----- the atomic counter -----

  datatype Op = Get | Reset

  /** The counter after a sequence of calls, none of which overlap. */
  function CounterAfter(cfg: Config, ops: seq<Op>): int {
    if ops == [] then cfg.start
    else if ops[|ops| - 1] == Reset then cfg.start
    else Wrap(CounterAfter(cfg, ops[..|ops| - 1]) + cfg.step)
  }

  /** Gets since the last reset (or since init). */
  function Epoch(ops: seq<Op>): nat {
    if ops == [] || ops[|ops| - 1] == Reset then 0 else 1 + Epoch(ops[..|ops| - 1])
  }

  /** The k-th get of an epoch, from 0, finds start + k * step. */
  lemma {:induction false} CounterClosedForm(cfg: Config, ops: seq<Op>)
    requires IsInt(cfg.start)
    ensures CounterAfter(cfg, ops) == Wrap(cfg.start + Epoch(ops) * cfg.step)
  {
    if ops != [] && ops[|ops| - 1] == Get {
      var front := ops[..|ops| - 1];
      CounterClosedForm(cfg, front);
      WrapAdd(cfg.start + Epoch(front) * cfg.step, cfg.step);
      Distribute(Epoch(front), 1, cfg.step);
    }
  }

  lemma Distribute(a: int, b: int, c: int)
    ensures (a + b) * c == a * c + b * c
  {
  }

  lemma WrapAdd(x: int, y: int)
    ensures Wrap(Wrap(x) + y) == Wrap(x + y)
  {
  }

  lemma WrapEqual(x: int, y: int)
    ensures Wrap(x) == Wrap(y) <==> (y - x) % U32 == 0
  {
  }

  // ----- the interleaved driver -----

  /** A thread outside the driver, waiting at line 29 or 44, before line 31 or 46, after the
      read of line 31, after the load and after the store of line 32, after line 46. */
  datatype Pc =
    | Idle
    | Waiting(op: Op)
    | Locked(op: Op)
    | HasRead(val: int)
    | Loaded(val: int, tmp: int)
    | Stored(val: int)
    | Cleared

  datatype Call = Call(thread: nat, op: Op)

  /** What a finished call returned. */
  datatype Done = GotValue(thread: nat, val: int) | WasReset(thread: nat)

  /** `calls` is the history of lock acquisitions, `results` that of finished calls. */
  datatype State = State(
    counter: int, holder: Option<nat>, pcs: map<nat, Pc>, calls: seq<Call>, results: seq<Done>)

  /** A thread enters the driver, or takes its next step there. */
  datatype Action = Enter(thread: nat, op: Op) | Advance(thread: nat)

  function PcOf(s: State, t: nat): Pc {
    if t in s.pcs then s.pcs[t] else Idle
  }

  /** bava_counter_init */
  function Init(cfg: Config): State {
    State(cfg.start, None, map[], [], [])
  }

  function Goto(s: State, t: nat, pc: Pc): State {
    s.(pcs := s.pcs[t := pc])
  }

  function AdvanceThread(cfg: Config, s: State, t: nat): State {
    match PcOf(s, t)
    case Idle => s
    case Waiting(op) =>
      if s.holder != None then s
      else Goto(s, t, Locked(op)).(holder := Some(t), calls := s.calls + [Call(t, op)])
    case Locked(op) =>
      if op == Get then Goto(s, t, HasRead(s.counter))
      else Goto(s, t, Cleared).(counter := cfg.start)
    case HasRead(val) => Goto(s, t, Loaded(val, s.counter))
    case Loaded(val, tmp) => Goto(s, t, Stored(val)).(counter := Wrap(tmp + cfg.step))
    case Stored(val) => Goto(s, t, Idle).(holder := None, results := s.results + [GotValue(t, val)])
    case Cleared => Goto(s, t, Idle).(holder := None, results := s.results + [WasReset(t)])
  }

  function Step(cfg: Config, s: State, a: Action): State {
    match a
    case Enter(t, op) => if PcOf(s, t) == Idle then Goto(s, t, Waiting(op)) else s
    case Advance(t) => AdvanceThread(cfg, s, t)
  }

  function Exec(cfg: Config, s: State, schedule: seq<Action>): State
    decreases |schedule|
  {
    if schedule == [] then s else Exec(cfg, Step(cfg, s, schedule[0]), schedule[1..])
  }

  // ----- the invariant -----

  predicate InRegion(pc: Pc) {
    !pc.Idle? && !pc.Waiting?
  }

  function Ops(calls: seq<Call>): (r: seq<Op>)
    ensures |r| == |calls| && forall k :: 0 <= k < |calls| ==> r[k] == calls[k].op
  {
    seq(|calls|, k requires 0 <= k < |calls| => calls[k].op)
  }

  /** What the atomic counter returns for the k-th call in lock order. */
  function Expected(cfg: Config, calls: seq<Call>, k: nat): Done
    requires k < |calls|
  {
    if calls[k].op == Get then GotValue(calls[k].thread, CounterAfter(cfg, Ops(calls)[..k]))
    else WasReset(calls[k].thread)
  }

  ghost predicate ResultsAgree(cfg: Config, s: State) {
    && |s.results| <= |s.calls|
    && forall k :: 0 <= k < |s.results| ==> s.results[k] == Expected(cfg, s.calls, k)
  }

  /** The counter is the atomic one, up to where the lock holder has got. */
  ghost predicate HolderOnTrack(cfg: Config, s: State, t: nat) {
    && |s.calls| == |s.results| + 1
    && var call := s.calls[|s.results|];
       var c := CounterAfter(cfg, Ops(s.calls)[..|s.results|]);
       && call.thread == t
       && match PcOf(s, t)
          case Locked(op) => op == call.op && s.counter == c
          case HasRead(val) => call.op == Get && val == c && s.counter == c
          case Loaded(val, tmp) => call.op == Get && val == c && tmp == c
          case Stored(val) => call.op == Get && val == c && s.counter == Wrap(c + cfg.step)
          case Cleared => call.op == Reset && s.counter == cfg.start
          case _ => false
  }

  ghost predicate Inv(cfg: Config, s: State) {
    && ResultsAgree(cfg, s)
    && (forall t: nat :: InRegion(PcOf(s, t)) <==> s.holder == Some(t))
    && match s.holder
       case None => |s.calls| == |s.results| && s.counter == CounterAfter(cfg, Ops(s.calls))
       case Some(t) => HolderOnTrack(cfg, s, t)
  }

  lemma OpsSnoc(calls: seq<Call>, call: Call)
    ensures Ops(calls + [call]) == Ops(calls) + [call.op]
    ensures Ops(calls + [call])[..|calls|] == Ops(calls)
  {
  }

  lemma ExpectedStable(cfg: Config, calls: seq<Call>, call: Call, k: nat)
    requires k < |calls|
    ensures Expected(cfg, calls + [call], k) == Expected(cfg, calls, k)
  {
    OpsSnoc(calls, call);
    assert Ops(calls + [call])[..k] == Ops(calls)[..k];
  }

  lemma LockKeepsInv(cfg: Config, s: State, t: nat)
    requires Inv(cfg, s) && PcOf(s, t).Waiting?
    ensures Inv(cfg, AdvanceThread(cfg, s, t))
  {
    if s.holder == None {
      var u := AdvanceThread(cfg, s, t);
      var call := Call(t, PcOf(s, t).op);
      OpsSnoc(s.calls, call);
      forall k | 0 <= k < |s.results| ensures u.results[k] == Expected(cfg, u.calls, k) {
        ExpectedStable(cfg, s.calls, call, k);
      }
    }
  }

  lemma UnlockKeepsInv(cfg: Config, s: State, t: nat)
    requires Inv(cfg, s) && (PcOf(s, t).Stored? || PcOf(s, t).Cleared?)
    ensures Inv(cfg, AdvanceThread(cfg, s, t))
  {
    assert s.holder == Some(t);
    var n := |s.results|;
    var ops := Ops(s.calls);
    assert ops[..|ops| - 1] == ops[..n];
  }

  lemma AdvanceKeepsInv(cfg: Config, s: State, t: nat)
    requires Inv(cfg, s)
    ensures Inv(cfg, AdvanceThread(cfg, s, t))
  {
    match PcOf(s, t)
    case Idle =>
    case Waiting(_) => LockKeepsInv(cfg, s, t);
    case Stored(_) => UnlockKeepsInv(cfg, s, t);
    case Cleared => UnlockKeepsInv(cfg, s, t);
    case _ => assert s.holder == Some(t);
  }

  lemma AloneInRegion(cfg: Config, s: State, t: nat, u: nat)
    requires Inv(cfg, s) && InRegion(PcOf(s, t)) && u != t
    ensures !InRegion(PcOf(s, u))
  {
  }

  lemma EnterKeepsInv(cfg: Config, s: State, t: nat, op: Op)
    requires Inv(cfg, s)
    ensures Inv(cfg, Step(cfg, s, Enter(t, op)))
  {
  }

  lemma {:induction false} InvReachable(cfg: Config, s: State, schedule: seq<Action>)
    requires Inv(cfg, s)
    ensures Inv(cfg, Exec(cfg, s, schedule))
    decreases |schedule|
  {
    if schedule != [] {
      match schedule[0] {
        case Enter(t, op) => EnterKeepsInv(cfg, s, t, op);
        case Advance(t) => AdvanceKeepsInv(cfg, s, t);
      }
      InvReachable(cfg, Step(cfg, s, schedule[0]), schedule[1..]);
    }
  }

  // ----- what holds on every schedule -----

  /** Mutual exclusion, and refinement of the atomic counter: the results so far are those of
      the calls in lock order, and between calls the counter is the atomic one. */
  lemma RefinesAtomicCounter(cfg: Config, schedule: seq<Action>)
    ensures var s := Exec(cfg, Init(cfg), schedule);
            && (forall t: nat, u: nat :: InRegion(PcOf(s, t)) && InRegion(PcOf(s, u)) ==> t == u)
            && |s.results| <= |s.calls| <= |s.results| + 1
            && (forall k :: 0 <= k < |s.results| ==> s.results[k] == Expected(cfg, s.calls, k))
            && (s.holder == None ==> s.counter == CounterAfter(cfg, Ops(s.calls)))
  {
    InvReachable(cfg, Init(cfg), schedule);
  }

  /** Gets among the results since the last reset before the k-th. */
  function ResultEpoch(results: seq<Done>): nat {
    if results == [] || results[|results| - 1].WasReset? then 0
    else 1 + ResultEpoch(results[..|results| - 1])
  }

  lemma {:induction false} EpochOfResults(cfg: Config, s: State, k: nat)
    requires ResultsAgree(cfg, s) && k <= |s.results|
    ensures Epoch(Ops(s.calls)[..k]) == ResultEpoch(s.results[..k])
    decreases k
  {
    if k > 0 {
      EpochOfResults(cfg, s, k - 1);
      assert Ops(s.calls)[..k][..k - 1] == Ops(s.calls)[..k - 1];
      assert s.results[..k][..k - 1] == s.results[..k - 1];
      assert s.results[k - 1] == Expected(cfg, s.calls, k - 1);
    }
  }

  /** The value of the i-th result, were there no overflow. */
  function Exact(cfg: Config, results: seq<Done>, i: nat): int
    requires i <= |results|
  {
    cfg.start + ResultEpoch(results[..i]) * cfg.step
  }

  /** Every get returns start + k * step, where k counts the gets since the last reset. */
  lemma GetValueLaw(cfg: Config, schedule: seq<Action>, i: nat)
    requires IsInt(cfg.start)
    ensures var r := Exec(cfg, Init(cfg), schedule).results;
            i < |r| && r[i].GotValue? ==>
              && r[i].val == Wrap(Exact(cfg, r, i))
              && (r[i].val == Exact(cfg, r, i) <==> IsInt(Exact(cfg, r, i)))
  {
    InvReachable(cfg, Init(cfg), schedule);
    var s := Exec(cfg, Init(cfg), schedule);
    if i < |s.results| {
      EpochOfResults(cfg, s, i);
      CounterClosedForm(cfg, Ops(s.calls)[..i]);
    }
  }

  lemma {:induction false} EpochGrows(results: seq<Done>, i: nat, j: nat)
    requires i < j <= |results|
    requires forall k :: i <= k < j ==> results[k].GotValue?
    ensures ResultEpoch(results[..j]) == ResultEpoch(results[..i]) + (j - i)
    decreases j
  {
    assert results[..j][..j - 1] == results[..j - 1];
    if i < j - 1 {
      EpochGrows(results, i, j - 1);
    }
  }

  /** In particular, with the count written out: j results before the i-th is the last reset, or the
      start of the run. */
  lemma GetAfterReset(cfg: Config, schedule: seq<Action>, i: nat, j: nat)
    requires IsInt(cfg.start)
    ensures var r := Exec(cfg, Init(cfg), schedule).results;
            && j <= i < |r| && (j == 0 || r[j - 1].WasReset?)
            && (forall k :: j <= k <= i ==> r[k].GotValue?) ==>
              && (r[i].val - (cfg.start + (i - j) * cfg.step)) % 0x1_0000_0000 == 0
              && -0x8000_0000 <= r[i].val < 0x8000_0000
  {
    var r := Exec(cfg, Init(cfg), schedule).results;
    if j <= i < |r| && (j == 0 || r[j - 1].WasReset?) && forall k :: j <= k <= i ==> r[k].GotValue? {
      GetValueLaw(cfg, schedule, i);
      if j < i { EpochGrows(r, j, i); }
      assert ResultEpoch(r[..j]) == 0;
      WrapDiffers(cfg.start + (i - j) * cfg.step);
    }
  }

  lemma WrapDiffers(x: int)
    ensures (Wrap(x) - x) % U32 == 0
  {
  }

  /** Two gets of one epoch, d calls apart, agree exactly when d * step is a multiple of 2^32;
      so with a nonzero step and no overflow they never agree. */
  lemma EpochDistinct(cfg: Config, schedule: seq<Action>, i: nat, j: nat)
    requires IsInt(cfg.start)
    ensures var r := Exec(cfg, Init(cfg), schedule).results;
            i < j < |r| && (forall k :: i <= k <= j ==> r[k].GotValue?) ==>
              && (r[i].val == r[j].val <==> ((j - i) * cfg.step) % U32 == 0)
              && (cfg.step != 0 && IsInt(Exact(cfg, r, i)) && IsInt(Exact(cfg, r, j)) ==>
                    r[i].val != r[j].val)
  {
    var r := Exec(cfg, Init(cfg), schedule).results;
    if i < j < |r| && forall k :: i <= k <= j ==> r[k].GotValue? {
      GetValueLaw(cfg, schedule, i);
      GetValueLaw(cfg, schedule, j);
      EpochGrows(r, i, j);
      var ei, ej := ResultEpoch(r[..i]), ResultEpoch(r[..j]);
      var d := (j - i) * cfg.step;
      assert ej * cfg.step == ei * cfg.step + d by {
        Distribute(ei, j - i, cfg.step);
      }
      WrapEqual(cfg.start + ei * cfg.step, cfg.start + ej * cfg.step);
      if cfg.step != 0 { NonZero(j - i, cfg.step); }
    }
  }

  lemma NonZero(a: int, b: int)
    requires a != 0 && b != 0
    ensures a * b != 0
  {
  }

  // ----- progress -----

  /** A thread in the driver is held up exactly by another one's lock. */
  lemma BlockedExactly(cfg: Config, s: State, t: nat)
    ensures AdvanceThread(cfg, s, t) == s <==>
              PcOf(s, t) == Idle || (PcOf(s, t).Waiting? && s.holder != None)
  {
    var u := AdvanceThread(cfg, s, t);
    if !PcOf(s, t).Idle? && !(PcOf(s, t).Waiting? && s.holder != None) {
      assert PcOf(u, t) != PcOf(s, t);
    }
  }

  function Advances(t: nat, n: nat): (r: seq<Action>)
    ensures |r| == n && forall k :: 0 <= k < n ==> r[k] == Advance(t)
  {
    seq(n, _ => Advance(t))
  }

  /** Steps until a thread inside the critical region leaves it. */
  function ToUnlock(pc: Pc): nat {
    match pc
    case Locked(op) => if op == Get then 4 else 2
    case HasRead(_) => 3
    case Loaded(_, _) => 2
    case Stored(_) => 1
    case Cleared => 1
    case _ => 0
  }

  lemma {:induction false} HolderRuns(cfg: Config, s: State, t: nat, n: nat)
    requires Inv(cfg, s) && s.holder == Some(t) && n == ToUnlock(PcOf(s, t))
    ensures var u := Exec(cfg, s, Advances(t, n));
            u.holder == None && u.calls == s.calls && |u.results| == |u.calls| && PcOf(u, t) == Idle
    decreases n
  {
    assert InRegion(PcOf(s, t));
    assert Advances(t, n)[1..] == Advances(t, n - 1);
    AdvanceKeepsInv(cfg, s, t);
    var u := AdvanceThread(cfg, s, t);
    if u.holder == Some(t) {
      HolderRuns(cfg, u, t, n - 1);
    }
  }

  lemma {:induction false} ExecConcat(cfg: Config, s: State, a: seq<Action>, b: seq<Action>)
    ensures Exec(cfg, s, a + b) == Exec(cfg, Exec(cfg, s, a), b)
    decreases |a|
  {
    if a == [] {
      assert a + b == b;
    } else {
      assert (a + b)[1..] == a[1..] + b;
      ExecConcat(cfg, Step(cfg, s, a[0]), a[1..], b);
    }
  }

  /** The lock is always given back: in any run, at most four steps of the thread that holds it
      finish its call, and the next one waiting can have it. */
  lemma LockIsReleased(cfg: Config, schedule: seq<Action>, t: nat)
    ensures var s := Exec(cfg, Init(cfg), schedule);
            s.holder == Some(t) ==>
              var n := ToUnlock(PcOf(s, t));
              var u := Exec(cfg, Init(cfg), schedule + Advances(t, n));
              n <= 4 && u.holder == None && u.calls == s.calls && |u.results| == |u.calls|
  {
    InvReachable(cfg, Init(cfg), schedule);
    var s := Exec(cfg, Init(cfg), schedule);
    if s.holder == Some(t) {
      HolderRuns(cfg, s, t, ToUnlock(PcOf(s, t)));
      ExecConcat(cfg, Init(cfg), schedule, Advances(t, ToUnlock(PcOf(s, t))));
    }
  }

  // ----- calls that are not interrupted -----

  function CallActions(t: nat, op: Op): seq<Action> {
    if op == Get
    then [Enter(t, op), Advance(t), Advance(t), Advance(t), Advance(t), Advance(t)]
    else [Enter(t, op), Advance(t), Advance(t), Advance(t)]
  }

  /** The net effect of a call that has the device to itself. */
  function AfterCall(cfg: Config, s: State, t: nat, op: Op): State {
    var result := if op == Get then GotValue(t, s.counter) else WasReset(t);
    var counter := if op == Get then Wrap(s.counter + cfg.step) else cfg.start;
    Goto(s, t, Idle).(counter := counter, calls := s.calls + [Call(t, op)], results := s.results + [result])
  }

  lemma ExecCons(cfg: Config, s: State, a: Action, rest: seq<Action>)
    ensures Exec(cfg, s, [a] + rest) == Exec(cfg, Step(cfg, s, a), rest)
  {
  }

  lemma ExecThree(cfg: Config, s: State, a: Action, b: Action, c: Action, rest: seq<Action>)
    ensures Exec(cfg, s, [a, b, c] + rest) == Exec(cfg, Step(cfg, Step(cfg, Step(cfg, s, a), b), c), rest)
  {
    var s1 := Step(cfg, s, a);
    assert [a, b, c] + rest == [a] + ([b] + ([c] + rest));
    ExecCons(cfg, s, a, [b] + ([c] + rest));
    ExecCons(cfg, s1, b, [c] + rest);
    ExecCons(cfg, Step(cfg, s1, b), c, rest);
  }

  lemma GetSteps(cfg: Config, s: State, t: nat)
    requires s.holder == None && PcOf(s, t) == Idle
    ensures var a := Advance(t);
            var mid := Step(cfg, Step(cfg, Step(cfg, s, Enter(t, Get)), a), a);
            Step(cfg, Step(cfg, Step(cfg, mid, a), a), a) == AfterCall(cfg, s, t, Get)
  {
    var a := Advance(t);
    var mid := Step(cfg, Step(cfg, Step(cfg, s, Enter(t, Get)), a), a);
    assert PcOf(mid, t) == HasRead(s.counter) && mid.counter == s.counter;
  }

  lemma GetUninterrupted(cfg: Config, s: State, t: nat)
    requires s.holder == None && PcOf(s, t) == Idle
    ensures Exec(cfg, s, CallActions(t, Get)) == AfterCall(cfg, s, t, Get)
  {
    var a := Advance(t);
    var mid := Step(cfg, Step(cfg, Step(cfg, s, Enter(t, Get)), a), a);
    assert CallActions(t, Get) == [Enter(t, Get), a, a] + [a, a, a];
    ExecThree(cfg, s, Enter(t, Get), a, a, [a, a, a]);
    assert [a, a, a] == [a, a, a] + [];
    ExecThree(cfg, mid, a, a, a, []);
    GetSteps(cfg, s, t);
  }

  lemma ResetUninterrupted(cfg: Config, s: State, t: nat)
    requires s.holder == None && PcOf(s, t) == Idle
    ensures Exec(cfg, s, CallActions(t, Reset)) == AfterCall(cfg, s, t, Reset)
  {
    var a := Advance(t);
    var mid := Step(cfg, Step(cfg, Step(cfg, s, Enter(t, Reset)), a), a);
    assert CallActions(t, Reset) == [Enter(t, Reset), a, a] + [a];
    ExecThree(cfg, s, Enter(t, Reset), a, a, [a]);
    assert [a] == [a] + [];
    ExecCons(cfg, mid, a, []);
    assert PcOf(mid, t) == Cleared;
  }

  // ----- the driver's own code -----

  /** The driver's data and the memory of its callers, updated in place. Each method is one step
      of one thread: any number of threads may be waiting or half way through a call. */
  class Device {
    const cfg: Config
    var counter: int
    var holder: Option<nat>
    var pcs: map<nat, Pc>
    var mem: map<nat, int>      // the ints of the callers, by address
    var val: map<nat, nat>      // the `val` argument of each thread's get
    ghost var calls: seq<Call>
    ghost var results: seq<Done>

    ghost function Abs(): State
      reads this
    {
      State(counter, holder, pcs, calls, results)
    }

    /** `*val` holds what thread t has read. */
    ghost predicate Delivered(t: nat, v: int)
      reads this
    {
      t in val && val[t] in mem && mem[val[t]] == v
    }

    ghost predicate PointerGood(t: nat, pc: Pc)
      reads this
    {
      match pc
      case Waiting(op) => op == Op.Get ==> t in val
      case Locked(op) => op == Op.Get ==> t in val
      case HasRead(v) => Delivered(t, v)
      case Loaded(v, _) => Delivered(t, v)
      case Stored(v) => Delivered(t, v)
      case _ => true
    }

    ghost predicate Valid()
      reads this
    {
      && Inv(cfg, Abs())
      && forall t :: t in pcs ==> PointerGood(t, pcs[t])
    }

    /** bava_counter_init */
    constructor (cfg: Config, mem: map<nat, int>)
      ensures Valid() && this.cfg == cfg && Abs() == Init(cfg) && this.mem == mem
    {
      this.cfg, this.mem := cfg, mem;
      counter, holder := cfg.start, None;
      pcs, val, calls, results := map[], map[], [], [];
    }

    /** Lines 22-27 of bava_get; `None` is a NULL pointer. The call either returns or goes on
        to the lock. */
    method EnterGet(t: nat, p: Option<nat>) returns (ret: Option<int>)
      requires Valid() && PcOf(Abs(), t) == Idle
      modifies this`pcs, this`val
      ensures Valid()
      ensures p == None ==> ret == Some(-22) && Abs() == old(Abs()) && val == old(val)
      ensures p != None ==>
                && ret == None && val == old(val)[t := p.value]
                && Abs() == Step(cfg, old(Abs()), Enter(t, Op.Get))
    {
      if p == None {
        return Some(-EINVAL);
      }
      EnterKeepsInv(cfg, Abs(), t, Op.Get);
      val, pcs := val[t := p.value], pcs[t := Waiting(Op.Get)];
      return None;
    }

    /** Lines 41-42 of bava_reset */
    method EnterReset(t: nat)
      requires Valid() && PcOf(Abs(), t) == Idle
      modifies this`pcs
      ensures Valid() && Abs() == Step(cfg, old(Abs()), Enter(t, Op.Reset))
    {
      EnterKeepsInv(cfg, Abs(), t, Op.Reset);
      pcs := pcs[t := Waiting(Op.Reset)];
    }

    /** k_mutex_lock: the thread waits on while another one holds the lock. */
    method Lock(t: nat)
      requires Valid() && PcOf(Abs(), t).Waiting?
      modifies this`holder, this`pcs, this`calls
      ensures Valid() && Abs() == AdvanceThread(cfg, old(Abs()), t)
      ensures PcOf(Abs(), t).Locked? <==> old(holder) == None
    {
      AdvanceKeepsInv(cfg, Abs(), t);
      if holder == None {
        var op := pcs[t].op;
        holder, pcs := Some(t), pcs[t := Locked(op)];
        calls := calls + [Call(t, op)];
      }
    }

    /** `*val = data->counter` */
    method Read(t: nat)
      requires Valid() && PcOf(Abs(), t) == Locked(Op.Get)
      modifies this`mem, this`pcs
      ensures Valid() && Abs() == AdvanceThread(cfg, old(Abs()), t)
      ensures t in val && mem == old(mem)[val[t] := counter]
    {
      AdvanceKeepsInv(cfg, Abs(), t);
      forall u | u in pcs && u != t ensures !InRegion(pcs[u]) {
        AloneInRegion(cfg, Abs(), t, u);
      }
      mem, pcs := mem[val[t] := counter], pcs[t := HasRead(counter)];
    }

    /** The load of `data->counter += config->step_size` */
    method Load(t: nat)
      requires Valid() && PcOf(Abs(), t).HasRead?
      modifies this`pcs
      ensures Valid() && Abs() == AdvanceThread(cfg, old(Abs()), t)
      ensures pcs == old(pcs)[t := Loaded(old(pcs[t].val), counter)]
    {
      AdvanceKeepsInv(cfg, Abs(), t);
      pcs := pcs[t := Loaded(pcs[t].val, counter)];
    }

    /** ... and its store */
    method Store(t: nat)
      requires Valid() && PcOf(Abs(), t).Loaded?
      modifies this`counter, this`pcs
      ensures Valid() && Abs() == AdvanceThread(cfg, old(Abs()), t)
      ensures counter == Wrap(old(pcs[t].tmp) + cfg.step) && pcs == old(pcs)[t := Stored(old(pcs[t].val))]
    {
      AdvanceKeepsInv(cfg, Abs(), t);
      counter := Wrap(pcs[t].tmp + cfg.step);
      pcs := pcs[t := Stored(pcs[t].val)];
    }

    /** `data->counter = config->start_offset` */
    method Clear(t: nat)
      requires Valid() && PcOf(Abs(), t) == Locked(Op.Reset)
      modifies this`counter, this`pcs
      ensures Valid() && Abs() == AdvanceThread(cfg, old(Abs()), t)
      ensures counter == cfg.start
    {
      AdvanceKeepsInv(cfg, Abs(), t);
      counter, pcs := cfg.start, pcs[t := Cleared];
    }

    /** k_mutex_unlock and return of bava_get. `*val` is then the atomic counter's answer, even
        if other threads were given the same pointer. */
    method UnlockGet(t: nat) returns (ret: int)
      requires Valid() && PcOf(Abs(), t).Stored?
      modifies this`holder, this`pcs, this`results
      ensures Valid() && Abs() == AdvanceThread(cfg, old(Abs()), t)
      ensures ret == 0 && t in val && val[t] in mem
      ensures |old(results)| < |calls|
      ensures GotValue(t, mem[val[t]]) == Expected(cfg, calls, |old(results)|)
    {
      AdvanceKeepsInv(cfg, Abs(), t);
      results := results + [GotValue(t, pcs[t].val)];
      holder, pcs := None, pcs[t := Idle];
      assert results[|old(results)|] == Expected(cfg, calls, |old(results)|);
      return 0;
    }

    /** k_mutex_unlock and return of bava_reset */
    method UnlockReset(t: nat) returns (ret: int)
      requires Valid() && PcOf(Abs(), t) == Cleared
      modifies this`holder, this`pcs, this`results
      ensures Valid() && Abs() == AdvanceThread(cfg, old(Abs()), t)
      ensures ret == 0
    {
      AdvanceKeepsInv(cfg, Abs(), t);
      results := results + [WasReset(t)];
      holder, pcs := None, pcs[t := Idle];
      return 0;
    }

    /** The next step of a thread inside the driver. */
    method AdvanceOne(t: nat)
      requires Valid()
      modifies this
      ensures Valid() && Abs() == AdvanceThread(cfg, old(Abs()), t)
    {
      if t !in pcs {
        return;
      }
      match pcs[t] {
        case Idle =>
        case Waiting(_) => Lock(t);
        case Locked(op) => if op == Op.Get { Read(t); } else { Clear(t); }
        case HasRead(_) => Load(t);
        case Loaded(_, _) => Store(t);
        case Stored(_) => var _ := UnlockGet(t);
        case Cleared => var _ := UnlockReset(t);
      }
    }

    method EnterOne(t: nat, op: Op, p: nat)
      requires Valid()
      modifies this
      ensures Valid() && Abs() == Step(cfg, old(Abs()), Enter(t, op))
    {
      if t !in pcs || pcs[t] == Idle {
        if op == Op.Get {
          var _ := EnterGet(t, Some(p));
        } else {
          EnterReset(t);
        }
      }
    }

    /** Any number of threads under any scheduler, each get with any pointer: `vals[i]` is the
        one passed by a get that enters in step i. */
    method Interleave(schedule: seq<Action>, vals: seq<nat>)
      requires Valid() && |vals| == |schedule|
      modifies this
      ensures Valid() && Abs() == Exec(cfg, old(Abs()), schedule)
    {
      var i := 0;
      assert schedule[0..] == schedule;
      while i < |schedule|
        invariant i <= |schedule| && Valid()
        invariant Exec(cfg, Abs(), schedule[i..]) == Exec(cfg, old(Abs()), schedule)
      {
        assert schedule[i..][1..] == schedule[i + 1..];
        match schedule[i] {
          case Enter(t, op) => EnterOne(t, op, vals[i]);
          case Advance(t) => AdvanceOne(t);
        }
        i := i + 1;
      }
    }
  }
}
