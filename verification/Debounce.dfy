// interrupt/src/main.c: each button edge reschedules the delayable work to 500 ms from now,
// and the work samples the button and toggles the LED. A millisecond-by-millisecond machine,
// with any edges and any samples, is proved to run the work once per maximal burst of edges.
// The kernel contract assumed: rescheduling replaces the pending deadline, and due work runs
// before time moves on (before or after an edge of the same millisecond).
module Debounce {
  import opened Common

  const DELAY := 500

  /** `unarmed` tells whether no work was pending when the edge came: it only matters to an edge
      in the very millisecond in which the work of the previous one is due. */
  datatype Edge = Edge(time: nat, unarmed: bool)

  /** One run of the work handler and the level it read. */
  datatype Firing = Firing(time: nat, sample: int)

  /** `edges` and `firings` are history. */
  datatype State = State(now: nat, deadline: Option<nat>, led: bool, edges: seq<Edge>, firings: seq<Firing>)

  datatype Action = Tick | Isr | Expire(sample: int)

  const INIT := State(0, None, false, [], [])

  function Handle(s: State, sample: int): State {
    s.(deadline := None, firings := s.firings + [Firing(s.now, sample)],
       led := if sample == 1 then !s.led else s.led)
  }

  function Step(s: State, a: Action): State {
    match a
    case Tick => if s.deadline == Some(s.now) then s else s.(now := s.now + 1)
    case Isr =>
      s.(deadline := Some(s.now + DELAY), edges := s.edges + [Edge(s.now, s.deadline.None?)])
    case Expire(sample) => if s.deadline == Some(s.now) then Handle(s, sample) else s
  }

  function Exec(s: State, schedule: seq<Action>): State
    decreases |schedule|
  {
    if schedule == [] then s else Exec(Step(s, schedule[0]), schedule[1..])
  }

  // ----- bursts, defined offline -----

  /** Whether `b`, the edge after `a`, starts a new burst. */
  predicate Splits(a: Edge, b: Edge) {
    b.time > a.time + DELAY || (b.time == a.time + DELAY && b.unarmed)
  }

  function Last<T>(s: seq<T>): T
    requires s != []
  {
    s[|s| - 1]
  }

  /** A burst is a longest run of edges without a split; this is its last edge. */
  predicate EndsBurst(edges: seq<Edge>, i: nat)
    requires i < |edges|
  {
    i == |edges| - 1 || Splits(edges[i], edges[i + 1])
  }

  /** The positions of the last edges of the bursts, found edge by edge. */
  function Ends(edges: seq<Edge>): (r: seq<nat>)
    ensures |r| <= |edges| && (edges == [] <==> r == [])
    ensures forall k :: 0 <= k < |r| ==> r[k] < |edges|
    ensures r != [] ==> Last(r) == |edges| - 1
  {
    if edges == [] then []
    else
      var n := |edges| - 1;
      var r := Ends(edges[..n]);
      assert n > 0 ==> r != [];
      if n > 0 && !Splits(edges[n - 1], edges[n]) then r[..|r| - 1] + [n] else r + [n]
  }

  ghost predicate Increasing(r: seq<nat>) {
    forall j, k :: 0 <= j < k < |r| ==> r[j] < r[k]
  }

  /** They are in order ... */
  lemma {:induction false} EndsIncrease(edges: seq<Edge>)
    ensures Increasing(Ends(edges))
  {
    if edges != [] {
      EndsIncrease(edges[..|edges| - 1]);
    }
  }

  lemma EndsSnoc(edges: seq<Edge>, i: nat)
    requires edges != []
    ensures var n := |edges| - 1;
            var front := Ends(edges[..n]);
            i in Ends(edges) <==>
              || i == n
              || (i in front && !(n > 0 && i == n - 1 && !Splits(edges[n - 1], edges[n])))
  {
  }

  /** ... and are exactly the edges that end a burst. */
  lemma {:induction false} EndsExactly(edges: seq<Edge>, i: nat)
    requires i < |edges|
    ensures i in Ends(edges) <==> EndsBurst(edges, i)
    decreases |edges|
  {
    EndsSnoc(edges, i);
    if i < |edges| - 1 {
      EndsExactly(edges[..|edges| - 1], i);
    } else {
      NoLateEnds(edges[..|edges| - 1], i);
    }
  }

  lemma NoLateEnds(edges: seq<Edge>, i: nat)
    requires i >= |edges|
    ensures i !in Ends(edges)
  {
  }

  // ----- the invariant -----

  ghost predicate OnTime(s: State) {
    var ends := Ends(s.edges);
    && (s.edges != [] ==> Last(s.edges).time <= s.now)
    && (match s.deadline
        case None =>
          && |s.firings| == |ends|
          && (s.edges != [] ==> Last(s.edges).time + DELAY <= s.now)
        case Some(d) =>
          && s.edges != [] && |s.firings| == |ends| - 1
          && d == Last(s.edges).time + DELAY && s.now <= d)
    && (forall i :: 0 <= i < |s.firings| ==> s.firings[i].time == s.edges[ends[i]].time + DELAY)
  }

  ghost predicate LedRight(s: State) {
    s.led <==> Presses(s.firings) % 2 == 1
  }

  ghost predicate Inv(s: State) {
    OnTime(s) && LedRight(s)
  }

  /** Firings that found the button pressed. */
  function Presses(firings: seq<Firing>): nat {
    if firings == [] then 0
    else Presses(firings[..|firings| - 1]) + (if Last(firings).sample == 1 then 1 else 0)
  }

  lemma IsrKeepsInv(s: State)
    requires Inv(s)
    ensures Inv(Step(s, Isr))
  {
    var t := Step(s, Isr);
    var e := Last(t.edges);
    assert t.edges[..|t.edges| - 1] == s.edges;
    if s.edges != [] {
      assert Splits(Last(s.edges), e) <==> s.deadline.None?;
    }
  }

  lemma PressesSnoc(firings: seq<Firing>, f: Firing)
    ensures Presses(firings + [f]) == Presses(firings) + (if f.sample == 1 then 1 else 0)
  {
    assert (firings + [f])[..|firings|] == firings;
  }

  lemma ExpireOnTime(s: State, sample: int)
    requires OnTime(s) && s.deadline == Some(s.now)
    ensures OnTime(Handle(s, sample))
  {
  }

  lemma ExpireLedRight(s: State, sample: int)
    requires LedRight(s)
    ensures LedRight(Handle(s, sample))
  {
    PressesSnoc(s.firings, Firing(s.now, sample));
  }

  lemma TickKeepsInv(s: State)
    requires Inv(s)
    ensures Inv(Step(s, Tick))
  {
    hide Ends, Presses;
  }

  lemma StepKeepsInv(s: State, a: Action)
    requires Inv(s)
    ensures Inv(Step(s, a))
  {
    hide OnTime, LedRight;
    match a
    case Tick => TickKeepsInv(s);
    case Isr => IsrKeepsInv(s);
    case Expire(sample) =>
      if s.deadline == Some(s.now) {
        ExpireOnTime(s, sample);
        ExpireLedRight(s, sample);
      }
  }

  lemma {:induction false} InvReachable(s: State, schedule: seq<Action>)
    requires Inv(s)
    ensures Inv(Exec(s, schedule))
    decreases |schedule|
  {
    if schedule != [] {
      StepKeepsInv(s, schedule[0]);
      InvReachable(Step(s, schedule[0]), schedule[1..]);
    }
  }

  // ----- what holds for all edges and samples -----

  /** The work ran once for each maximal burst that is over, exactly 500 ms after the burst's
      last edge; only the last burst can still be pending, and not for longer than 500 ms. */
  lemma DebounceLaw(schedule: seq<Action>)
    ensures var s := Exec(INIT, schedule);
            var ends := Ends(s.edges);
            && |s.firings| == |ends| - (if s.deadline.Some? then 1 else 0)
            && (forall i :: 0 <= i < |s.firings| ==> s.firings[i].time == s.edges[ends[i]].time + 500)
            && (s.edges != [] && s.now > Last(s.edges).time + 500 ==> |s.firings| == |ends|)
            && (s.deadline.Some? ==> s.edges != [] && s.deadline.value == Last(s.edges).time + 500)
  {
    InvReachable(INIT, schedule);
  }

  /** What a course of events feeds in: when edges come, and the levels that are read when work
      is due. */
  function EdgeTimes(s: State, schedule: seq<Action>): seq<nat>
    decreases |schedule|
  {
    if schedule == [] then []
    else (if schedule[0] == Isr then [s.now] else []) + EdgeTimes(Step(s, schedule[0]), schedule[1..])
  }

  function Levels(s: State, schedule: seq<Action>): seq<int>
    decreases |schedule|
  {
    if schedule == [] then []
    else
      (if schedule[0].Expire? && s.deadline == Some(s.now) then [schedule[0].sample] else [])
      + Levels(Step(s, schedule[0]), schedule[1..])
  }

  function TimesOf(edges: seq<Edge>): (r: seq<nat>)
    ensures |r| == |edges| && forall i :: 0 <= i < |edges| ==> r[i] == edges[i].time
  {
    seq(|edges|, i requires 0 <= i < |edges| => edges[i].time)
  }

  function SamplesOf(firings: seq<Firing>): (r: seq<int>)
    ensures |r| == |firings| && forall i :: 0 <= i < |firings| ==> r[i] == firings[i].sample
  {
    seq(|firings|, i requires 0 <= i < |firings| => firings[i].sample)
  }

  lemma StepRecords(s: State, a: Action)
    ensures TimesOf(Step(s, a).edges) == TimesOf(s.edges) + (if a == Isr then [s.now] else [])
    ensures SamplesOf(Step(s, a).firings)
         == SamplesOf(s.firings) + (if a.Expire? && s.deadline == Some(s.now) then [a.sample] else [])
  {
  }

  lemma {:induction false} RunRecords(s: State, schedule: seq<Action>)
    ensures TimesOf(Exec(s, schedule).edges) == TimesOf(s.edges) + EdgeTimes(s, schedule)
    ensures SamplesOf(Exec(s, schedule).firings) == SamplesOf(s.firings) + Levels(s, schedule)
    decreases |schedule|
  {
    hide Step;
    if schedule != [] {
      StepRecords(s, schedule[0]);
      RunRecords(Step(s, schedule[0]), schedule[1..]);
    }
  }

  /** The history is true: its edges are the edges there were, and its firings, in order, read
      the levels there were when work was due. */
  lemma HistoryLaw(schedule: seq<Action>)
    ensures TimesOf(Exec(INIT, schedule).edges) == EdgeTimes(INIT, schedule)
    ensures SamplesOf(Exec(INIT, schedule).firings) == Levels(INIT, schedule)
  {
    RunRecords(INIT, schedule);
  }

  lemma {:induction false} PressesAreOnes(firings: seq<Firing>)
    ensures Presses(firings) == multiset(SamplesOf(firings))[1]
    decreases |firings|
  {
    if firings == [] {
      assert SamplesOf(firings) == [];
    } else {
      var n := |firings| - 1;
      PressesAreOnes(firings[..n]);
      assert SamplesOf(firings) == SamplesOf(firings[..n]) + [firings[n].sample];
    }
  }

  /** The LED is on iff the work has read the level 1 an odd number of times. */
  lemma LedLaw(schedule: seq<Action>)
    ensures Exec(INIT, schedule).led <==> multiset(Levels(INIT, schedule))[1] % 2 == 1
  {
    InvReachable(INIT, schedule);
    HistoryLaw(schedule);
    PressesAreOnes(Exec(INIT, schedule).firings);
  }

  // ----- when the edge times decide the firings -----

  /** No two consecutive edges are exactly 500 ms apart. */
  predicate NoTies(times: seq<nat>) {
    forall i :: 0 <= i < |times| - 1 ==> times[i + 1] != times[i] + DELAY
  }

  predicate NonDecreasing(times: seq<nat>) {
    forall i :: 0 <= i < |times| - 1 ==> times[i] <= times[i + 1]
  }

  predicate HasTimes(edges: seq<Edge>, times: seq<nat>) {
    |edges| == |times| && forall i :: 0 <= i < |edges| ==> edges[i].time == times[i]
  }

  /** A run with edges at exactly these times, and nothing pending at its end. */
  predicate RunsOn(times: seq<nat>, schedule: seq<Action>) {
    var s := Exec(INIT, schedule);
    HasTimes(s.edges, times) && s.deadline == None
  }

  predicate SameFirings(s: State, t: State) {
    |s.firings| == |t.firings| && forall i :: 0 <= i < |s.firings| ==> s.firings[i].time == t.firings[i].time
  }

  ghost predicate FiresAlike(times: seq<nat>) {
    forall a, b :: RunsOn(times, a) && RunsOn(times, b) ==> SameFirings(Exec(INIT, a), Exec(INIT, b))
  }

  /** Without ties, which edges end a burst depends on the edge times alone. */
  lemma {:induction false} TimesDecide(a: seq<Edge>, b: seq<Edge>, times: seq<nat>)
    requires HasTimes(a, times) && HasTimes(b, times) && NoTies(times)
    ensures Ends(a) == Ends(b)
    decreases |a|
  {
    if a != [] {
      var n := |a| - 1;
      TimesDecide(a[..n], b[..n], times[..n]);
      if n > 0 {
        assert times[n - 1 + 1] != times[n - 1] + DELAY;
        assert Splits(a[n - 1], a[n]) == Splits(b[n - 1], b[n]);
      }
    }
  }

  lemma SameTimesSameFirings(s: State, t: State, times: seq<nat>)
    requires Inv(s) && Inv(t) && s.deadline == t.deadline == None
    requires HasTimes(s.edges, times) && HasTimes(t.edges, times) && NoTies(times)
    ensures SameFirings(s, t)
  {
    hide Ends;
    TimesDecide(s.edges, t.edges, times);
  }

  lemma RunsFireAlike(times: seq<nat>, a: seq<Action>, b: seq<Action>)
    requires NoTies(times) && RunsOn(times, a) && RunsOn(times, b)
    ensures SameFirings(Exec(INIT, a), Exec(INIT, b))
  {
    hide Exec, Inv, SameFirings;
    InvReachable(INIT, a);
    InvReachable(INIT, b);
    SameTimesSameFirings(Exec(INIT, a), Exec(INIT, b), times);
  }

  lemma NoTiesFireAlike(times: seq<nat>)
    requires NoTies(times)
    ensures FiresAlike(times)
  {
    hide RunsOn, Exec, SameFirings, NoTies;
    forall a, b | RunsOn(times, a) && RunsOn(times, b)
      ensures SameFirings(Exec(INIT, a), Exec(INIT, b))
    {
      RunsFireAlike(times, a, b);
    }
  }

  lemma {:induction false} ExecConcat(s: State, a: seq<Action>, b: seq<Action>)
    ensures Exec(s, a + b) == Exec(Exec(s, a), b)
    decreases |a|
  {
    if a == [] {
      assert a + b == b;
    } else {
      assert (a + b)[1..] == a[1..] + b;
      ExecConcat(Step(s, a[0]), a[1..], b);
    }
  }

  function Ticks(n: nat): seq<Action> {
    if n == 0 then [] else [Tick] + Ticks(n - 1)
  }

  lemma {:induction false} TicksRun(s: State, n: nat)
    requires s.deadline.Some? ==> s.now + n <= s.deadline.value
    ensures Exec(s, Ticks(n)) == s.(now := s.now + n)
    decreases n
  {
    if n > 0 {
      assert Ticks(n)[1..] == Ticks(n - 1);
      TicksRun(Step(s, Tick), n - 1);
    }
  }

  /** Whether pending work runs on the way to time t, first if it is due just then. */
  predicate RunsBy(s: State, t: nat, first: bool) {
    s.deadline.Some? && (s.deadline.value < t || (s.deadline.value == t && first))
  }

  lemma AdvanceTo(s: State, t: nat, first: bool) returns (schedule: seq<Action>)
    requires s.now <= t && (s.deadline.Some? ==> s.now <= s.deadline.value)
    ensures var u := Exec(s, schedule);
            && u.now == t && u.edges == s.edges
            && u.deadline == if RunsBy(s, t, first) then None else s.deadline
  {
    if RunsBy(s, t, first) {
      var d := s.deadline.value;
      TicksRun(s, d - s.now);
      var u := s.(now := d);
      TicksRun(Handle(u, 0), t - d);
      schedule := Ticks(d - s.now) + ([Expire(0)] + Ticks(t - d));
      ExecConcat(s, Ticks(d - s.now), [Expire(0)] + Ticks(t - d));
      assert ([Expire(0)] + Ticks(t - d))[1..] == Ticks(t - d);
    } else {
      schedule := Ticks(t - s.now);
      TicksRun(s, t - s.now);
    }
  }

  /** At every tie the work ran before the edge (`first`) or after it. */
  predicate TiesGo(edges: seq<Edge>, first: bool) {
    forall i :: 0 <= i < |edges| - 1 && edges[i + 1].time == edges[i].time + DELAY ==>
      edges[i + 1].unarmed == first
  }

  ghost predicate JustAfter(s: State, times: seq<nat>, first: bool) {
    && HasTimes(s.edges, times) && TiesGo(s.edges, first)
    && (if times == [] then s == INIT else s.now == Last(times) && s.deadline == Some(s.now + DELAY))
  }

  lemma EdgeFollows(s: State, u: State, times: seq<nat>, t: nat, first: bool)
    requires JustAfter(s, times, first) && u.edges == s.edges && u.now == t && s.now <= t
    requires u.deadline == if RunsBy(s, t, first) then None else s.deadline
    ensures JustAfter(Step(u, Isr), times + [t], first)
  {
  }

  lemma {:induction false} Drive(times: seq<nat>, first: bool) returns (schedule: seq<Action>)
    requires NonDecreasing(times)
    ensures JustAfter(Exec(INIT, schedule), times, first)
    decreases |times|
  {
    if times == [] {
      schedule := [];
    } else {
      var n := |times| - 1;
      var before := Drive(times[..n], first);
      var s := Exec(INIT, before);
      if n > 0 { assert times[n - 1] <= times[n - 1 + 1]; }
      var wait := AdvanceTo(s, times[n], first);
      EdgeFollows(s, Exec(s, wait), times[..n], times[n], first);
      assert times[..n] + [times[n]] == times;
      ExecConcat(INIT, before, wait);
      ExecConcat(INIT, before + wait, [Isr]);
      schedule := before + wait + [Isr];
    }
  }

  /** Non-decreasing times can be had, with nothing pending at the end, and all the ties going
      either way. */
  lemma SettledRun(times: seq<nat>, first: bool) returns (schedule: seq<Action>)
    requires NonDecreasing(times)
    ensures RunsOn(times, schedule) && TiesGo(Exec(INIT, schedule).edges, first)
  {
    var drive := Drive(times, first);
    var s := Exec(INIT, drive);
    var wait := AdvanceTo(s, s.now + DELAY, true);
    ExecConcat(INIT, drive, wait);
    schedule := drive + wait;
  }

  lemma EndsCount(edges: seq<Edge>)
    requires edges != []
    ensures var n := |edges| - 1;
            |Ends(edges)| == |Ends(edges[..n])| + if n > 0 && !Splits(edges[n - 1], edges[n]) then 0 else 1
  {
  }

  lemma TieOrEarlier(times: seq<nat>, n: nat)
    requires n + 1 == |times| && !NoTies(times)
    ensures !NoTies(times[..n]) || (n > 0 && times[n] == times[n - 1] + DELAY)
  {
    var i: nat :| i < n && times[i + 1] == times[i] + DELAY;
    if i + 1 < n {
      assert times[..n][i + 1] == times[..n][i] + DELAY;
    }
  }

  /** Working before the edge splits bursts at ties, and working after it does not. */
  lemma {:induction false} TiesSplit(a: seq<Edge>, b: seq<Edge>, times: seq<nat>)
    requires HasTimes(a, times) && HasTimes(b, times) && TiesGo(a, true) && TiesGo(b, false)
    ensures |Ends(a)| >= |Ends(b)|
    ensures !NoTies(times) ==> |Ends(a)| > |Ends(b)|
    decreases |a|
  {
    hide Ends;
    if a != [] {
      var n := |a| - 1;
      TiesSplit(a[..n], b[..n], times[..n]);
      EndsCount(a);
      EndsCount(b);
      if n > 0 {
        assert a[n - 1 + 1] == a[n] && b[n - 1 + 1] == b[n];
      }
      if !NoTies(times) {
        TieOrEarlier(times, n);
      }
    }
  }

  lemma TiesFireApart(times: seq<nat>)
    requires NonDecreasing(times) && !NoTies(times)
    ensures !FiresAlike(times)
  {
    var a := SettledRun(times, true);
    var b := SettledRun(times, false);
    InvReachable(INIT, a);
    InvReachable(INIT, b);
    TiesSplit(Exec(INIT, a).edges, Exec(INIT, b).edges, times);
  }

  ghost predicate TimesRise(s: State) {
    && (forall i :: 0 <= i < |s.edges| ==> s.edges[i].time <= s.now)
    && forall i :: 0 <= i < |s.edges| - 1 ==> s.edges[i].time <= s.edges[i + 1].time
  }

  lemma {:induction false} EdgesRise(s: State, schedule: seq<Action>)
    requires TimesRise(s)
    ensures TimesRise(Exec(s, schedule))
    decreases |schedule|
  {
    if schedule != [] {
      EdgesRise(Step(s, schedule[0]), schedule[1..]);
    }
  }

  /** The possible edge times are the non-decreasing ones. On these, all runs that end with
      nothing pending ran the work at the same times, however edges, samples and time were
      interleaved, if and only if no two consecutive edges are exactly 500 ms apart. */
  lemma ScheduleIndependence(times: seq<nat>)
    ensures (exists a :: RunsOn(times, a)) <==> NonDecreasing(times)
    ensures NonDecreasing(times) ==> (FiresAlike(times) <==> NoTies(times))
  {
    if NonDecreasing(times) {
      var a := SettledRun(times, true);
      assert RunsOn(times, a);
      if NoTies(times) {
        NoTiesFireAlike(times);
      } else {
        TiesFireApart(times);
      }
    } else {
      forall a ensures !RunsOn(times, a) {
        EdgesRise(INIT, a);
      }
    }
  }

  // ----- the program -----

  class App {
    var now: nat
    var deadline: Option<nat>
    var led: bool
    ghost var edges: seq<Edge>
    ghost var firings: seq<Firing>

    ghost function Abs(): State
      reads this
    {
      State(now, deadline, led, edges, firings)
    }

    constructor ()
      ensures Abs() == INIT
    {
      now, deadline, led, edges, firings := 0, None, false, [], [];
    }

    /** isr_handle: k_work_reschedule with 500 ms */
    method IsrHandle()
      modifies this`deadline, this`edges
      ensures Abs() == Step(old(Abs()), Isr)
      ensures deadline == Some(now + 500) && edges == old(edges) + [Edge(now, old(deadline) == None)]
    {
      edges := edges + [Edge(now, deadline.None?)];
      deadline := Some(now + DELAY);
    }

    /** work_handle: `value` is what gpio_pin_get_dt reads */
    method WorkHandle(value: int)
      requires deadline == Some(now)
      modifies this`deadline, this`led, this`firings
      ensures Abs() == Step(old(Abs()), Expire(value))
      ensures deadline == None && firings == old(firings) + [Firing(now, value)]
      ensures led == if value == 1 then !old(led) else old(led)
    {
      deadline := None;
      firings := firings + [Firing(now, value)];
      if value == 1 {
        led := !led;
      }
    }

    /** A millisecond goes by, unless work is due in this one. */
    method PassTime()
      modifies this`now
      ensures Abs() == Step(old(Abs()), Tick)
      ensures now == if deadline == Some(old(now)) then old(now) else old(now) + 1
    {
      if deadline != Some(now) {
        now := now + 1;
      }
    }

    /** Any course of edges, samples and time. */
    method Run(schedule: seq<Action>)
      modifies this
      ensures Abs() == Exec(old(Abs()), schedule)
    {
      var i := 0;
      assert schedule[0..] == schedule;
      while i < |schedule|
        invariant i <= |schedule|
        invariant Exec(Abs(), schedule[i..]) == Exec(old(Abs()), schedule)
      {
        assert schedule[i..][1..] == schedule[i + 1..];
        match schedule[i] {
          case Tick => PassTime();
          case Isr => IsrHandle();
          case Expire(sample) => if deadline == Some(now) { WorkHandle(sample); }
        }
        i := i + 1;
      }
    }
  }
}
