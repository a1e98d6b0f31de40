// fifo/src/main.c: four static nodes, reused in turn, linked by the kernel into the queue
// through their own first word. Nothing stops the producer from reusing a node that is still
// queued or being read; the theorems say exactly when that is harmless and what it breaks.
module FifoRing {
  import opened Common

  const BUFFER := 4
  const NULL := -1

  /** The node the k-th write (from 0) uses. */
  function Slot(k: nat): (r: nat)
    ensures r < BUFFER
  {
    k % BUFFER
  }

  /** The queue: head and tail pointers, and the `fifo_reserved` word of each node. */
  datatype Queue = Queue(head: int, tail: int, next: seq<int>)

  predicate IsNode(p: int) {
    0 <= p < BUFFER
  }

  predicate WellTyped(q: Queue) {
    && |q.next| == BUFFER
    && (q.head == NULL || IsNode(q.head)) && (q.tail == NULL || IsNode(q.tail))
    && forall p :: 0 <= p < BUFFER ==> q.next[p] == NULL || IsNode(q.next[p])
  }

  /** The kernel's list append, as k_fifo_put does it: the node's link is cleared, then the old
      tail, if any, is made to point at it. */
  function Append(q: Queue, node: nat): (r: Queue)
    requires WellTyped(q) && IsNode(node)
    ensures WellTyped(r)
  {
    var cleared := q.next[node := NULL];
    if q.tail == NULL then Queue(node, node, cleared)
    else Queue(q.head, node, cleared[q.tail := node])
  }

  /** The kernel's list removal, as k_fifo_get does it. */
  function RemoveFirst(q: Queue): (r: Queue)
    requires WellTyped(q) && q.head != NULL
    ensures WellTyped(r) && r.next == q.next
  {
    var rest := q.next[q.head];
    Queue(rest, if q.tail == q.head then rest else q.tail, q.next)
  }

  /** The producer before line 29 and, holding a filled node, before line 34. */
  datatype Producer = AtWrite | AtPut(node: nat)

  /** The consumer before line 47 and, holding a node, before line 49. */
  datatype Consumer = AtGet | Got(node: nat)

  /** `writes`, `log` and `overrun` are history: how many nodes were filled, the ids the
      consumer logged, and whether a write ever happened with all four nodes outstanding. */
  datatype State = State(
    queue: Queue, id: seq<nat>, seqno: nat, producer: Producer, consumer: Consumer,
    writes: nat, log: seq<nat>, overrun: bool)

  datatype Action = ProducerStep | ConsumerStep

  const INIT := State(Queue(NULL, NULL, [NULL, NULL, NULL, NULL]), [0, 0, 0, 0], 0, AtWrite, AtGet, 0, [], false)

  predicate Typed(s: State) {
    && WellTyped(s.queue) && |s.id| == BUFFER
    && (s.producer.AtPut? ==> IsNode(s.producer.node))
    && (s.consumer.Got? ==> IsNode(s.consumer.node))
  }

  /** Nodes queued so far. */
  function Puts(s: State): int {
    s.writes - if s.producer.AtPut? then 1 else 0
  }

  /** Nodes queued or still in the consumer's hand. */
  function Outstanding(s: State): int {
    Puts(s) - |s.log|
  }

  function Write(s: State): (t: State)
    requires Typed(s) && s.producer == AtWrite
    ensures Typed(t)
  {
    var node := s.seqno % BUFFER;
    var seqno := (s.seqno + 1) % U32;
    s.(seqno := seqno, id := s.id[node := seqno], producer := AtPut(node),
       writes := s.writes + 1, overrun := s.overrun || Outstanding(s) >= BUFFER)
  }

  function StepProducer(s: State): (t: State)
    requires Typed(s)
    ensures Typed(t)
  {
    match s.producer
    case AtWrite => Write(s)
    case AtPut(node) => s.(queue := Append(s.queue, node), producer := AtWrite)
  }

  function StepConsumer(s: State): (t: State)
    requires Typed(s)
    ensures Typed(t)
  {
    match s.consumer
    case AtGet =>
      if s.queue.head == NULL then s
      else s.(queue := RemoveFirst(s.queue), consumer := Got(s.queue.head))
    case Got(node) => s.(log := s.log + [s.id[node]], consumer := AtGet)
  }

  function Step(s: State, a: Action): (t: State)
    requires Typed(s)
    ensures Typed(t)
  {
    if a == ProducerStep then StepProducer(s) else StepConsumer(s)
  }

  function Exec(s: State, schedule: seq<Action>): (t: State)
    requires Typed(s)
    ensures Typed(t)
    decreases |schedule|
  {
    if schedule == [] then s else Exec(Step(s, schedule[0]), schedule[1..])
  }

  // ----- the invariant -----

  /** The index of the write at the head of the queue. */
  function First(s: State): nat {
    |s.log| + if s.consumer.Got? then 1 else 0
  }

  /** The queue links exactly the nodes of writes `first` to `last` - 1, in order. */
  ghost predicate Links(q: Queue, first: nat, last: nat)
    requires WellTyped(q)
  {
    && first <= last <= first + BUFFER
    && (first == last <==> q.head == NULL) && (first == last ==> q.tail == NULL)
    && (first < last ==> q.head == Slot(first) && q.tail == Slot(last - 1) && q.next[q.tail] == NULL)
    && forall k :: first <= k < last - 1 ==> q.next[Slot(k)] == Slot(k + 1)
  }

  ghost predicate InOrder(log: seq<nat>) {
    forall k :: 0 <= k < |log| ==> log[k] == (k + 1) % U32
  }

  ghost predicate Sound(s: State)
    requires Typed(s)
  {
    && s.seqno == s.writes % U32
    && Puts(s) >= First(s)
    && Links(s.queue, First(s), Puts(s))
    && s.writes - |s.log| <= BUFFER
    && (forall k :: |s.log| <= k < s.writes ==> s.id[Slot(k)] == (k + 1) % U32)
    && (s.producer.AtPut? ==> s.producer.node == Slot(s.writes - 1))
    && (s.consumer.Got? ==> s.consumer.node == Slot(|s.log|))
    && InOrder(s.log)
  }

  /** The slot order survives the 32-bit wrap of `seq`, because 4 divides 2^32. */
  lemma SlotSurvivesWrap(n: nat)
    ensures (n % U32) % BUFFER == Slot(n)
  {
  }

  lemma SlotsDiffer(a: nat, b: nat)
    requires a < b < a + BUFFER
    ensures Slot(a) != Slot(b)
  {
  }

  lemma WriteKeepsSound(s: State)
    requires Typed(s) && Sound(s) && s.producer == AtWrite && Outstanding(s) < BUFFER
    ensures Sound(Write(s))
  {
    SlotSurvivesWrap(s.writes);
    WrapSucc(s.writes);
    var t := Write(s);
    forall k | |s.log| <= k < t.writes ensures t.id[Slot(k)] == (k + 1) % U32 {
      if k < s.writes {
        SlotsDiffer(k, s.writes);
      }
    }
  }

  lemma AppendLinks(q: Queue, first: nat, last: nat)
    requires WellTyped(q) && Links(q, first, last) && last < first + BUFFER
    ensures Links(Append(q, Slot(last)), first, last + 1)
  {
    var r := Append(q, Slot(last));
    forall k | first <= k < last ensures r.next[Slot(k)] == Slot(k + 1) {
      SlotsDiffer(k, last);
      if k < last - 1 { SlotsDiffer(k, last - 1); }
    }
    if first < last { SlotsDiffer(last - 1, last); }
  }

  lemma RemoveLinks(q: Queue, first: nat, last: nat)
    requires WellTyped(q) && Links(q, first, last) && first < last
    ensures Links(RemoveFirst(q), first + 1, last)
  {
    if first + 1 < last {
      assert q.next[Slot(first)] == Slot(first + 1);
      SlotsDiffer(first, last - 1);
    }
  }

  lemma PutKeepsSound(s: State)
    requires Typed(s) && Sound(s) && s.producer.AtPut?
    ensures Sound(StepProducer(s))
  {
    hide Links, Append;
    AppendLinks(s.queue, First(s), Puts(s));
  }

  lemma ConsumerKeepsSound(s: State)
    requires Typed(s) && Sound(s)
    ensures Sound(StepConsumer(s))
  {
    if s.consumer == AtGet && s.queue.head != NULL {
      GetKeepsSound(s);
    }
  }

  lemma GetKeepsSound(s: State)
    requires Typed(s) && Sound(s) && s.consumer == AtGet && s.queue.head != NULL
    ensures Sound(StepConsumer(s))
  {
    HeadIsFirst(s.queue, First(s), Puts(s));
    hide Links, RemoveFirst;
    RemoveLinks(s.queue, First(s), Puts(s));
  }

  lemma HeadIsFirst(q: Queue, first: nat, last: nat)
    requires WellTyped(q) && Links(q, first, last) && q.head != NULL
    ensures first < last && q.head == Slot(first)
  {
  }

  lemma StepKeepsSound(s: State, a: Action)
    requires Typed(s) && (!s.overrun ==> Sound(s))
    ensures !Step(s, a).overrun ==> Sound(Step(s, a))
  {
    hide Sound;
    if !Step(s, a).overrun {
      if a == ConsumerStep {
        ConsumerKeepsSound(s);
      } else if s.producer == AtWrite {
        WriteKeepsSound(s);
      } else {
        PutKeepsSound(s);
      }
    }
  }

  lemma {:induction false} ExecKeepsSound(s: State, schedule: seq<Action>)
    requires Typed(s) && (!s.overrun ==> Sound(s))
    ensures !Exec(s, schedule).overrun ==> Sound(Exec(s, schedule))
    decreases |schedule|
  {
    if schedule != [] {
      StepKeepsSound(s, schedule[0]);
      ExecKeepsSound(Step(s, schedule[0]), schedule[1..]);
    }
  }

  // ----- without an overrun -----

  /** The nodes met by following the links from `p`, at most `fuel` of them. */
  function Walk(next: seq<int>, p: int, fuel: nat): seq<int>
    decreases fuel
  {
    if fuel == 0 || !IsNode(p) || p >= |next| then [] else [p] + Walk(next, next[p], fuel - 1)
  }

  lemma {:induction false} WalkFollowsLinks(q: Queue, first: nat, last: nat, fuel: nat)
    requires WellTyped(q) && Links(q, first, last) && last - first <= fuel
    ensures var w := Walk(q.next, q.head, fuel);
            |w| == last - first && forall i :: 0 <= i < |w| ==> w[i] == Slot(first + i)
    decreases last - first
  {
    if first < last {
      RemoveLinks(q, first, last);
      WalkFollowsLinks(RemoveFirst(q), first + 1, last, fuel - 1);
    }
  }

  /** The intrusive list ends, its nodes are distinct and hold exactly the ids still to come,
      and the consumer has logged 1, 2, 3, ... (mod 2^32). */
  ghost predicate ListInOrder(s: State)
    requires Typed(s)
  {
    var w := Walk(s.queue.next, s.queue.head, BUFFER + 1);
    && |w| <= BUFFER
    && (forall i, j :: 0 <= i < j < |w| ==> w[i] != w[j])
    && (forall i :: 0 <= i < |w| ==> IsNode(w[i]) && s.id[w[i]] == (First(s) + i + 1) % U32)
    && InOrder(s.log)
  }

  lemma WindowSlotsDiffer(w: seq<int>, first: nat)
    requires |w| <= BUFFER && forall i :: 0 <= i < |w| ==> w[i] == Slot(first + i)
    ensures forall i, j :: 0 <= i < j < |w| ==> w[i] != w[j]
  {
  }

  lemma WindowIds(s: State, w: seq<int>)
    requires Typed(s) && Sound(s) && |w| == Puts(s) - First(s)
    requires forall i :: 0 <= i < |w| ==> w[i] == Slot(First(s) + i)
    ensures forall i :: 0 <= i < |w| ==> IsNode(w[i]) && s.id[w[i]] == (First(s) + i + 1) % U32
  {
    hide Links, InOrder;
    forall i | 0 <= i < |w| ensures IsNode(w[i]) && s.id[w[i]] == (First(s) + i + 1) % U32 {
      assert s.id[Slot(First(s) + i)] == (First(s) + i + 1) % U32;
    }
  }

  lemma SoundIsInOrder(s: State)
    requires Typed(s) && Sound(s)
    ensures ListInOrder(s)
  {
    hide Walk, Links, InOrder;
    var w := Walk(s.queue.next, s.queue.head, BUFFER + 1);
    LinksFit(s.queue, First(s), Puts(s));
    WalkFollowsLinks(s.queue, First(s), Puts(s), BUFFER + 1);
    WindowSlotsDiffer(w, First(s));
    WindowIds(s, w);
  }

  lemma LinksFit(q: Queue, first: nat, last: nat)
    requires WellTyped(q) && Links(q, first, last)
    ensures first <= last <= first + BUFFER
  {
  }

  lemma SoundExec(schedule: seq<Action>)
    ensures !Exec(INIT, schedule).overrun ==> Sound(Exec(INIT, schedule))
  {
    ExecKeepsSound(INIT, schedule);
  }

  /** As long as every write found fewer than four nodes outstanding, the list is in order. */
  lemma OrderLaw(schedule: seq<Action>)
    ensures !Exec(INIT, schedule).overrun ==> ListInOrder(Exec(INIT, schedule))
  {
    SoundExec(schedule);
    if !Exec(INIT, schedule).overrun {
      SoundIsInOrder(Exec(INIT, schedule));
    }
  }

  // ----- progress -----

  /** The producer never waits; the consumer waits exactly on an empty queue. */
  lemma BlockedExactly(s: State)
    requires Typed(s)
    ensures StepProducer(s) != s
    ensures StepConsumer(s) == s <==> s.consumer == AtGet && s.queue.head == NULL
  {
  }

  /** One turn of the producer's loop: the next id goes into the node of its turn, and the node to
      the end of the list. */
  lemma ProducerTurn(s: State)
    requires Typed(s) && s.producer == AtWrite
    ensures var t := StepProducer(StepProducer(s));
            && t.id == s.id[s.seqno % 4 := (s.seqno + 1) % 0x1_0000_0000]
            && t.seqno == (s.seqno + 1) % 0x1_0000_0000 && t.writes == s.writes + 1
            && t.queue == Append(s.queue, s.seqno % 4)
            && t.producer == AtWrite && t.consumer == s.consumer && t.log == s.log
  {
  }

  /** One turn of the consumer's loop: the id in the first node is logged. */
  lemma ConsumerTurn(s: State)
    requires Typed(s) && s.consumer == AtGet && s.queue.head != NULL
    ensures StepConsumer(StepConsumer(s))
         == s.(queue := RemoveFirst(s.queue), log := s.log + [s.id[s.queue.head]])
  {
  }

  function ConsumerSteps(n: nat): (r: seq<Action>)
    ensures |r| == n && forall i :: 0 <= i < n ==> r[i] == ConsumerStep
  {
    seq(n, _ => ConsumerStep)
  }

  /** Consumer steps until it waits, if nothing more is queued. */
  function ToConsume(s: State): int {
    2 * (Puts(s) - First(s)) + if s.consumer.Got? then 1 else 0
  }

  lemma ConsumerGetsOn(s: State)
    requires Typed(s) && Sound(s) && ToConsume(s) > 0
    ensures var t := StepConsumer(s);
            && ToConsume(t) == ToConsume(s) - 1 && t.overrun == s.overrun
            && t.writes == s.writes && t.producer == s.producer
  {
  }

  lemma {:induction false} ConsumerRuns(s: State, n: nat)
    requires Typed(s) && Sound(s) && n == ToConsume(s)
    ensures var t := Exec(s, ConsumerSteps(n));
            && Sound(t) && ToConsume(t) == 0 && t.writes == s.writes && t.producer == s.producer
    decreases n
  {
    if n > 0 {
      hide Sound, StepConsumer, ToConsume;
      assert ConsumerSteps(n)[1..] == ConsumerSteps(n - 1);
      ConsumerGetsOn(s);
      ConsumerKeepsSound(s);
      ConsumerRuns(StepConsumer(s), n - 1);
    }
  }

  lemma SoundAtRest(s: State)
    requires Typed(s) && Sound(s)
    ensures 0 <= ToConsume(s) <= 9
    ensures ToConsume(s) == 0 ==> s.queue.head == NULL && |s.log| == Puts(s) && InOrder(s.log)
  {
  }

  /** Nothing queued stays behind: any run without an overrun, followed by at most nine consumer
      steps, has logged every id that was queued, 1, 2, 3, ..., and emptied the list. */
  lemma AllConsumed(schedule: seq<Action>)
    ensures var s := Exec(INIT, schedule);
            !s.overrun ==>
              && 0 <= ToConsume(s) <= 9
              && var t := Exec(INIT, schedule + ConsumerSteps(ToConsume(s)));
                 t.queue.head == NULL && |t.log| == Puts(s) && InOrder(t.log)
  {
    hide Sound, ToConsume;
    SoundExec(schedule);
    var s := Exec(INIT, schedule);
    if !s.overrun {
      SoundAtRest(s);
      ConsumerRuns(s, ToConsume(s));
      ExecConcat(INIT, schedule, ConsumerSteps(ToConsume(s)));
      SoundAtRest(Exec(s, ConsumerSteps(ToConsume(s))));
    }
  }

  // ----- with four nodes outstanding -----

  /** The producer is about to write, for the first time with all four nodes outstanding. */
  ghost predicate AtOverrun(s: State)
    requires Typed(s)
  {
    !s.overrun && s.producer == AtWrite && Outstanding(s) >= BUFFER
  }

  lemma SlotsRepeat(m: nat)
    ensures Slot(m + BUFFER) == Slot(m)
  {
  }

  lemma SoundOldest(s: State)
    requires Typed(s) && Sound(s) && AtOverrun(s)
    ensures Outstanding(s) == BUFFER && s.seqno % BUFFER == Slot(|s.log|)
  {
    assert s.writes == |s.log| + BUFFER;
    SlotSurvivesWrap(s.writes);
    SlotsRepeat(|s.log|);
  }

  /** The bound is tight: with four nodes outstanding, the one written next is the oldest, in
      the consumer's hand or else at the head of the queue. */
  lemma OldestIsOverwritten(schedule: seq<Action>)
    ensures var s := Exec(INIT, schedule);
            AtOverrun(s) ==>
              s.seqno % BUFFER == if s.consumer.Got? then s.consumer.node else s.queue.head
  {
    SoundExec(schedule);
    if AtOverrun(Exec(INIT, schedule)) {
      SoundOldest(Exec(INIT, schedule));
    }
  }

  // ----- an overrun is always near -----

  function ProducerTimes(n: nat): (r: seq<Action>)
    ensures |r| == n && forall i :: 0 <= i < n ==> r[i] == ProducerStep
  {
    seq(n, _ => ProducerStep)
  }

  lemma {:induction false} ExecConcat(s: State, a: seq<Action>, b: seq<Action>)
    requires Typed(s)
    ensures Exec(s, a + b) == Exec(Exec(s, a), b)
    decreases |a|
  {
    if a == [] {
      assert a + b == b;
    } else {
      assert (a + b)[1..] == a[1..] + b;
      ExecConcat(Step(s, a[0]), a[1..], b);
    }
  }

  lemma ProducerFirst(s: State, n: nat)
    requires Typed(s) && n > 0
    ensures Exec(s, ProducerTimes(n)) == Exec(StepProducer(s), ProducerTimes(n - 1))
  {
    assert ProducerTimes(n)[1..] == ProducerTimes(n - 1);
  }

  /** Producer steps until it is about to overrun, if the consumer does not run. */
  function StepsToOverrun(s: State): int {
    2 * (BUFFER - Outstanding(s)) - if s.producer.AtPut? then 1 else 0
  }

  lemma {:induction false} ProducerOverruns(s: State, n: nat)
    requires Typed(s) && !s.overrun && n == StepsToOverrun(s)
    ensures var t := Exec(s, ProducerTimes(n)); AtOverrun(t) && t.consumer == s.consumer
    decreases n
  {
    if n > 0 {
      ProducerFirst(s, n);
      ProducerOverruns(StepProducer(s), n - 1);
    }
  }

  /** Nothing holds the producer back: from wherever a run has got without an overrun, at most
      eight more steps of the producer alone bring it to the next one, and the consumer may be
      waiting or holding a node. */
  lemma OverrunIsNear(schedule: seq<Action>)
    ensures var s := Exec(INIT, schedule);
            !s.overrun ==>
              && 0 <= StepsToOverrun(s) <= 2 * BUFFER
              && var t := Exec(INIT, schedule + ProducerTimes(StepsToOverrun(s)));
                 AtOverrun(t) && t.consumer == s.consumer
  {
    SoundExec(schedule);
    var s := Exec(INIT, schedule);
    if !s.overrun {
      ProducerOverruns(s, StepsToOverrun(s));
      ExecConcat(INIT, schedule, ProducerTimes(StepsToOverrun(s)));
    }
  }

  lemma FirstTaken()
    ensures var s := Exec(INIT, [ProducerStep, ProducerStep, ConsumerStep]);
            s.producer == AtWrite && s.consumer == Got(0) && !s.overrun && Outstanding(s) == 1
  {
    var taken := [ProducerStep, ProducerStep, ConsumerStep];
    assert taken[1..] == [ProducerStep, ConsumerStep] && taken[1..][1..] == [ConsumerStep];
    assert Exec(INIT, taken) == StepConsumer(StepProducer(StepProducer(INIT)));
  }

  /** Eight steps of the producer from the start overrun a waiting consumer; nine steps, one of
      them the consumer's, overrun a consumer that holds a node. */
  lemma OverrunSchedules()
    ensures var s := Exec(INIT, ProducerTimes(8)); AtOverrun(s) && s.consumer == AtGet
    ensures var s := Exec(INIT, [ProducerStep, ProducerStep, ConsumerStep] + ProducerTimes(6));
            AtOverrun(s) && s.consumer == Got(0)
  {
    hide Exec, AtOverrun, StepProducer, StepConsumer;
    ProducerOverruns(INIT, 8);
    FirstTaken();
    var taken := [ProducerStep, ProducerStep, ConsumerStep];
    ProducerOverruns(Exec(INIT, taken), 6);
    ExecConcat(INIT, taken, ProducerTimes(6));
  }

  function ConsumerTimes(s: State, n: nat): (t: State)
    requires Typed(s)
    ensures Typed(t)
    decreases n
  {
    if n == 0 then s else ConsumerTimes(StepConsumer(s), n - 1)
  }

  /** The ids logged are right however long the consumer then runs. */
  ghost predicate ReadsInOrder(s: State)
    requires Typed(s)
  {
    forall n: nat :: InOrder(ConsumerTimes(s, n).log)
  }

  lemma {:induction false} SoundReads(s: State, n: nat)
    requires Typed(s) && !s.overrun && Sound(s)
    ensures InOrder(ConsumerTimes(s, n).log)
    decreases n
  {
    if n > 0 {
      StepKeepsSound(s, ConsumerStep);
      SoundReads(StepConsumer(s), n - 1);
    }
  }

  lemma StaleIdDiffers(m: nat)
    ensures (m + 5) % U32 != (m + 1) % U32
  {
  }

  /** Read m has gone wrong or is bound to: its id is overwritten, and its node is held or is the
      head of a list that the producer only appends to. */
  ghost predicate Spoiled(s: State, m: nat)
    requires Typed(s)
  {
    || (m < |s.log| && s.log[m] != (m + 1) % U32)
    || (&& |s.log| == m && s.id[Slot(m)] != (m + 1) % U32
        && match s.consumer
           case Got(node) => node == Slot(m)
           case AtGet => s.queue.head == Slot(m) && s.queue.tail != NULL)
  }

  lemma WriteSpoils(s: State)
    requires Typed(s) && Sound(s) && AtOverrun(s)
    ensures Spoiled(Write(s), |s.log|)
  {
    SoundOldest(s);
    StaleIdDiffers(|s.log|);
    WrapSucc(s.writes);
  }

  lemma SpoiledMisreads(s: State, m: nat)
    requires Typed(s) && Spoiled(s, m)
    ensures !ReadsInOrder(s)
  {
    if m < |s.log| {
      assert ConsumerTimes(s, 0) == s;
    } else {
      var n := if s.consumer.Got? then 1 else 2;
      var u := StepConsumer(s);
      assert ConsumerTimes(u, 0) == u;
      assert ConsumerTimes(u, 1) == ConsumerTimes(StepConsumer(u), 0) == StepConsumer(u);
      assert ConsumerTimes(s, n).log == s.log + [s.id[Slot(m)]];
      assert ConsumerTimes(s, n).log[m] != (m + 1) % U32;
    }
  }

  lemma OverrunMisreads(s: State)
    requires Typed(s) && Sound(s) && AtOverrun(s)
    ensures !ReadsInOrder(Write(s))
  {
    WriteSpoils(s);
    SpoiledMisreads(Write(s), |s.log|);
  }

  lemma SoundReadsOn(s: State)
    requires Typed(s) && !s.overrun && Sound(s)
    ensures ReadsInOrder(s)
  {
    forall n: nat ensures InOrder(ConsumerTimes(s, n).log) {
      SoundReads(s, n);
    }
  }

  lemma SoundWriteIsSafe(s: State)
    requires Typed(s) && Sound(s) && !s.overrun && s.producer == AtWrite && Outstanding(s) < BUFFER
    ensures ReadsInOrder(Write(s))
  {
    WriteKeepsSound(s);
    SoundReadsOn(Write(s));
  }

  /** Up to the first overrun, a write leaves the consumer reading in order if and only if it
      found fewer than four nodes outstanding. */
  lemma WriteIsSafeExactly(schedule: seq<Action>)
    ensures var s := Exec(INIT, schedule);
            !s.overrun && s.producer == AtWrite ==>
              (ReadsInOrder(Write(s)) <==> Outstanding(s) < BUFFER)
  {
    SoundExec(schedule);
    var s := Exec(INIT, schedule);
    if !s.overrun && s.producer == AtWrite {
      if Outstanding(s) < BUFFER {
        SoundWriteIsSafe(s);
      } else {
        OverrunMisreads(s);
      }
    }
  }

  // ----- whole runs -----

  ghost predicate OverrunSpoils(s: State)
    requires Typed(s)
  {
    && s.seqno == s.writes % U32
    && if s.overrun then exists m: nat :: m < s.writes && Spoiled(s, m) else Sound(s)
  }

  lemma LaterIdDiffers(m: nat, w: nat)
    requires m < w < U32
    ensures (w + 1) % U32 != (m + 1) % U32
  {
  }

  lemma ProducerKeepsSpoiled(s: State, m: nat)
    requires Typed(s) && Spoiled(s, m) && m < s.writes < U32
    requires s.seqno == s.writes % U32
    ensures Spoiled(StepProducer(s), m)
  {
    if s.producer == AtWrite && m == |s.log| {
      WrapSucc(s.writes);
      LaterIdDiffers(m, s.writes);
    }
  }

  lemma PutKeepsSpoiled(s: State, m: nat)
    requires Typed(s) && Spoiled(s, m) && s.producer.AtPut?
    ensures Spoiled(StepProducer(s), m)
  {
  }

  lemma ConsumerKeepsSpoiled(s: State, m: nat)
    requires Typed(s) && Spoiled(s, m)
    ensures Spoiled(StepConsumer(s), m)
  {
  }

  lemma StepSpoils(s: State, a: Action)
    requires Typed(s) && OverrunSpoils(s) && Step(s, a).writes <= U32
    ensures OverrunSpoils(Step(s, a))
  {
    var t := Step(s, a);
    if s.overrun {
      var m: nat :| m < s.writes && Spoiled(s, m);
      SpoiledStays(s, a, m);
      SeqnoFollows(s, a);
      assert m < t.writes && Spoiled(t, m);
    } else if t.overrun {
      WriteSpoils(s);
      SeqnoFollows(s, a);
      assert |s.log| < t.writes && Spoiled(t, |s.log|);
    } else {
      StepKeepsSound(s, a);
    }
  }

  lemma SpoiledStays(s: State, a: Action, m: nat)
    requires Typed(s) && Spoiled(s, m) && m < s.writes && Step(s, a).writes <= U32
    requires s.seqno == s.writes % U32
    ensures Spoiled(Step(s, a), m) && m < Step(s, a).writes
  {
    hide Spoiled;
    if a == ConsumerStep {
      ConsumerKeepsSpoiled(s, m);
    } else if s.producer == AtWrite {
      ProducerKeepsSpoiled(s, m);
    } else {
      PutKeepsSpoiled(s, m);
    }
  }

  lemma SeqnoFollows(s: State, a: Action)
    requires Typed(s) && s.seqno == s.writes % U32
    ensures Step(s, a).seqno == Step(s, a).writes % U32
  {
    WrapSucc(s.writes);
  }

  lemma {:induction false} WritesGrow(s: State, schedule: seq<Action>)
    requires Typed(s)
    ensures s.writes <= Exec(s, schedule).writes
    decreases |schedule|
  {
    if schedule != [] {
      WritesGrow(Step(s, schedule[0]), schedule[1..]);
    }
  }

  lemma {:induction false} RunSpoils(s: State, schedule: seq<Action>)
    requires Typed(s) && OverrunSpoils(s) && Exec(s, schedule).writes <= U32
    ensures OverrunSpoils(Exec(s, schedule))
    decreases |schedule|
  {
    hide OverrunSpoils;
    if schedule != [] {
      WritesGrow(Step(s, schedule[0]), schedule[1..]);
      StepSpoils(s, schedule[0]);
      RunSpoils(Step(s, schedule[0]), schedule[1..]);
    }
  }

  /** Without an overrun every id is read in order, however long the run. With one, some id has
      been or will be misread, for good, until `seq` has gone round all 2^32 of its values. */
  lemma RunIsSafeExactly(schedule: seq<Action>)
    ensures var s := Exec(INIT, schedule);
            && (!s.overrun ==> ReadsInOrder(s))
            && (s.writes <= U32 ==> (ReadsInOrder(s) <==> !s.overrun))
  {
    hide ReadsInOrder;
    var s := Exec(INIT, schedule);
    SoundExec(schedule);
    if !s.overrun {
      SoundReadsOn(s);
    } else if s.writes <= U32 {
      RunSpoils(INIT, schedule);
      var m: nat :| m < s.writes && Spoiled(s, m);
      SpoiledMisreads(s, m);
    }
  }

  /** The bound is the best one: alone from the start, the producer has cut the list down to one
      node when it writes for the (2^32 + 1)-st time, and that write puts a 1 back into it. */
  lemma LapHidesOverrun()
    ensures var s := Exec(INIT, ProducerTimes(2 * (U32 + 1)));
            s.writes == U32 + 1 && s.overrun && ReadsInOrder(s)
  {
    var s := Exec(INIT, ProducerTimes(2 * (U32 + 1)));
    ProducerAlone(U32 + 1);
    LastNodeReads(s);
  }

  /** The state after the producer alone has written and queued w nodes. */
  ghost predicate AloneAfter(s: State, w: nat)
    requires Typed(s) && w > 0
  {
    && s.producer == AtWrite && s.consumer == AtGet && s.log == []
    && s.writes == w && s.seqno == w % U32 && s.id[Slot(w - 1)] == w % U32
    && s.queue.head == Slot(0) && s.queue.tail == Slot(w - 1) && s.queue.next[Slot(w - 1)] == NULL
    && (s.overrun <==> w > BUFFER)
  }

  lemma AloneOnce(s: State, w: nat)
    requires Typed(s)
    requires if w == 0 then s == INIT else AloneAfter(s, w)
    ensures AloneAfter(StepProducer(StepProducer(s)), w + 1)
  {
    SlotSurvivesWrap(w);
    WrapSucc(w);
    if w > 0 { SlotsDiffer(w - 1, w); }
  }

  lemma {:induction false} ProducerAlone(w: nat)
    requires w > 0
    ensures AloneAfter(Exec(INIT, ProducerTimes(2 * w)), w)
  {
    hide AloneAfter;
    var before := ProducerTimes(2 * w - 2);
    var s := Exec(INIT, before);
    if w > 1 { ProducerAlone(w - 1); }
    AloneOnce(s, w - 1);
    assert ProducerTimes(2 * w) == before + [ProducerStep, ProducerStep];
    ExecConcat(INIT, before, [ProducerStep, ProducerStep]);
    TwoSteps(s);
  }

  lemma TwoSteps(s: State)
    requires Typed(s)
    ensures Exec(s, [ProducerStep, ProducerStep]) == StepProducer(StepProducer(s))
  {
    assert [ProducerStep, ProducerStep][1..] == [ProducerStep];
  }

  /** One node, with the next id to read: it is read, and then there is nothing to read. */
  lemma LastNodeReads(s: State)
    requires Typed(s) && s.consumer == AtGet && s.log == []
    requires s.queue.head == Slot(0) && s.queue.next[Slot(0)] == NULL && s.id[Slot(0)] == 1
    ensures ReadsInOrder(s)
  {
    forall n: nat ensures InOrder(ConsumerTimes(s, n).log) {
      var u := StepConsumer(s);
      var v := StepConsumer(u);
      assert v.log == [1];
      if n >= 2 {
        assert ConsumerTimes(s, n) == ConsumerTimes(u, n - 1) == ConsumerTimes(v, n - 2);
        NothingToRead(v, n - 2);
      } else if n == 1 {
        assert ConsumerTimes(s, 1) == ConsumerTimes(u, 0) == u;
      }
    }
  }

  lemma {:induction false} NothingToRead(s: State, n: nat)
    requires Typed(s) && s.consumer == AtGet && s.queue.head == NULL
    ensures ConsumerTimes(s, n) == s
    decreases n
  {
    if n > 0 {
      NothingToRead(s, n - 1);
    }
  }

  // ----- what else an overrun breaks -----

  lemma RequeueTruncates(q: Queue, first: nat)
    requires WellTyped(q) && Links(q, first, first + BUFFER)
    ensures Walk(Append(q, Slot(first)).next, q.head, BUFFER + 1) == [q.head]
  {
  }

  lemma SoundTruncates(s: State)
    requires Typed(s) && Sound(s) && AtOverrun(s) && s.consumer == AtGet
    ensures |Walk(s.queue.next, s.queue.head, BUFFER + 1)| == BUFFER
    ensures var t := StepProducer(Write(s)).queue;
            Walk(t.next, t.head, BUFFER + 1) == [s.queue.head]
  {
    SoundOldest(s);
    WalkFollowsLinks(s.queue, First(s), Puts(s), BUFFER + 1);
    RequeueTruncates(s.queue, |s.log|);
  }

  /** Queueing a node that is still queued cuts the list: of four nodes one is left in it. */
  lemma DoublePutTruncates(schedule: seq<Action>)
    ensures var s := Exec(INIT, schedule);
            AtOverrun(s) && s.consumer == AtGet ==>
              var t := StepProducer(Write(s)).queue;
              && |Walk(s.queue.next, s.queue.head, BUFFER + 1)| == BUFFER
              && Walk(t.next, t.head, BUFFER + 1) == [s.queue.head]
  {
    SoundExec(schedule);
    var s := Exec(INIT, schedule);
    if AtOverrun(s) && s.consumer == AtGet {
      SoundTruncates(s);
    }
  }

  // ----- the program -----

  class App {
    const next: array<int>      // fifo_reserved of buffer_array[0..4)
    const id: array<nat>        // id of buffer_array[0..4)
    var head: int
    var tail: int
    var seqno: nat
    var producer: Producer
    var consumer: Consumer
    ghost var writes: nat
    ghost var log: seq<nat>
    ghost var overrun: bool

    ghost function Abs(): State
      reads this, next, id
    {
      State(Queue(head, tail, next[..]), id[..], seqno, producer, consumer, writes, log, overrun)
    }

    ghost predicate Valid()
      reads this, next, id
    {
      next.Length == BUFFER && id.Length == BUFFER && Typed(Abs())
    }

    constructor ()
      ensures Valid() && Abs() == INIT && fresh(next) && fresh(id)
    {
      next := new int[BUFFER](_ => NULL);
      id := new nat[BUFFER](_ => 0);
      head, tail, seqno, producer, consumer := NULL, NULL, 0, AtWrite, AtGet;
      writes, log, overrun := 0, [], false;
    }

    /** k_fifo_put */
    method FifoPut(node: nat)
      requires Valid() && IsNode(node)
      modifies this`head, this`tail, next
      ensures Valid()
      ensures Queue(head, tail, next[..]) == Append(old(Abs()).queue, node)
      ensures tail == node && head == if old(tail) == NULL then node else old(head)
      ensures old(tail) != NULL && old(tail) != node ==> next[old(tail)] == node && next[node] == NULL
    {
      next[node] := NULL;
      if tail == NULL {
        head := node;
      } else {
        next[tail] := node;
      }
      tail := node;
    }

    /** The producer's next statement. */
    method Produce()
      requires Valid()
      modifies this, next, id
      ensures Valid() && Abs() == StepProducer(old(Abs()))
      ensures old(producer) == AtWrite ==>
                producer == AtPut(old(seqno) % 4) && id[old(seqno) % 4] == seqno == (old(seqno) + 1) % 0x1_0000_0000
    {
      match producer
      case AtWrite =>
        overrun := overrun || Outstanding(Abs()) >= BUFFER;
        var node := seqno % BUFFER;
        seqno := (seqno + 1) % U32;
        id[node] := seqno;
        writes, producer := writes + 1, AtPut(node);
      case AtPut(node) =>
        FifoPut(node);
        producer := AtWrite;
    }

    /** The consumer's next statement; it waits while the queue is empty. */
    method Consume()
      requires Valid()
      modifies this
      ensures Valid() && Abs() == StepConsumer(old(Abs()))
      ensures old(consumer) == AtGet && old(head) != NULL ==> consumer == Got(old(head)) && head == next[old(head)]
      ensures old(consumer).Got? ==> log == old(log) + [id[old(consumer).node]]
    {
      match consumer
      case AtGet =>
        if head != NULL {
          var node := head;
          head := next[node];
          if tail == node {
            tail := head;
          }
          consumer := Got(node);
        }
      case Got(node) =>
        log, consumer := log + [id[node]], AtGet;
    }

    /** The two threads under any scheduler. */
    method Interleave(schedule: seq<Action>)
      requires Valid()
      modifies this, next, id
      ensures Valid() && Abs() == Exec(old(Abs()), schedule)
    {
      var i := 0;
      assert schedule[0..] == schedule;
      while i < |schedule|
        invariant i <= |schedule| && Valid()
        invariant Exec(Abs(), schedule[i..]) == Exec(old(Abs()), schedule)
      {
        assert schedule[i..][1..] == schedule[i + 1..];
        if schedule[i] == ProducerStep {
          Produce();
        } else {
          Consume();
        }
        i := i + 1;
      }
    }
  }
}
