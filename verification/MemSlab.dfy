// memslab/src/main.c: blocks of a 10-block slab travel from the free set to the producer, the
// FIFO, the consumer and back. The program as written frees `&rx`, the address of a local
// pointer (line 47); its README gives `rx`, the block itself, as the correction. The machine
// takes the freed address as a parameter, and `ConservationExactly` shows which one works.
module MemSlab {
  import opened Common

  const BLOCKS := 10

  datatype Address = Block(n: nat) | AddressOfRx

  /** What line 47 hands to k_mem_slab_free: `rx` or `&rx`. */
  datatype FreeArg = Rx | RefRx

  /** The producer before line 25, 27, 28 and 29. */
  datatype Producer = AtAlloc | Allocated(a: Address) | Written(a: Address) | Pushed(a: Address)

  /** The consumer before line 42, 46 and 47. */
  datatype Consumer = AtGet | Got(a: Address) | Logged(a: Address)

  /** `ids` is the `id` word of each block: freeing and queueing only write the other word.
      `produced` and `consumed` are the two threads' log lines. */
  datatype State = State(
    free: set<Address>, fifo: seq<Address>, ids: map<Address, nat>, seqno: nat,
    producer: Producer, consumer: Consumer,
    produced: seq<nat>, consumed: seq<nat>)

  datatype Action = ProducerStep(choice: Address) | ConsumerStep

  const ALL_BLOCKS: set<Address> := set n | 0 <= n < BLOCKS :: Block(n)

  /** Everything that can ever be handed out. */
  const ADDRESSES: set<Address> := ALL_BLOCKS + {AddressOfRx}

  const INIT := State(ALL_BLOCKS, [], map a | a in ADDRESSES :: 0, 0, AtAlloc, AtGet, [], [])

  function IdOf(ids: map<Address, nat>, a: Address): nat {
    if a in ids then ids[a] else 0
  }

  /** The slab may hand out any free block: `choice` is the one it takes. */
  function StepProducer(s: State, choice: Address): State {
    match s.producer
    case AtAlloc =>
      if choice in s.free then s.(free := s.free - {choice}, producer := Allocated(choice)) else s
    case Allocated(a) => s.(ids := s.ids[a := s.seqno], producer := Written(a))
    case Written(a) => s.(fifo := s.fifo + [a], producer := Pushed(a))
    case Pushed(a) =>
      s.(produced := s.produced + [IdOf(s.ids, a)], seqno := (s.seqno + 1) % U32, producer := AtAlloc)
  }

  function StepConsumer(s: State, arg: FreeArg): State {
    match s.consumer
    case AtGet =>
      if s.fifo == [] then s else s.(fifo := s.fifo[1..], consumer := Got(s.fifo[0]))
    case Got(a) => s.(consumed := s.consumed + [IdOf(s.ids, a)], consumer := Logged(a))
    case Logged(a) =>
      s.(free := s.free + {if arg == Rx then a else AddressOfRx}, consumer := AtGet)
  }

  function Step(s: State, action: Action, arg: FreeArg): State {
    match action
    case ProducerStep(choice) => StepProducer(s, choice)
    case ConsumerStep => StepConsumer(s, arg)
  }

  function Exec(s: State, schedule: seq<Action>, arg: FreeArg): State
    decreases |schedule|
  {
    if schedule == [] then s else Exec(Step(s, schedule[0], arg), schedule[1..], arg)
  }

  // ----- ownership -----

  function ProducerOwns(s: State): multiset<Address> {
    match s.producer
    case Allocated(a) => multiset{a}
    case Written(a) => multiset{a}
    case _ => multiset{}
  }

  function ConsumerOwns(s: State): multiset<Address> {
    match s.consumer
    case Got(a) => multiset{a}
    case Logged(a) => multiset{a}
    case AtGet => multiset{}
  }

  /** Every place an address can be, with multiplicity. */
  function Places(s: State): multiset<Address> {
    multiset(s.free) + multiset(s.fifo) + ProducerOwns(s) + ConsumerOwns(s)
  }

  /** Each of the 10 blocks is in exactly one place, and nothing else is in any. */
  ghost predicate Conserved(s: State) {
    Places(s) == multiset(ALL_BLOCKS)
  }

  // ----- the invariant -----

  /** Index of the first id in the FIFO: ids before it were logged or are in the consumer's hand. */
  function FirstQueued(s: State): nat {
    |s.consumed| + if s.consumer.Got? then 1 else 0
  }

  ghost predicate IdsInOrder(s: State) {
    && s.seqno == |s.produced| % U32
    && FirstQueued(s) + |s.fifo| == |s.produced| + (if s.producer.Pushed? then 1 else 0)
    && (forall k :: 0 <= k < |s.fifo| ==> IdOf(s.ids, s.fifo[k]) == (FirstQueued(s) + k) % U32)
    && (s.consumer.Got? ==> IdOf(s.ids, s.consumer.a) == |s.consumed| % U32)
    && (s.producer.Written? || s.producer.Pushed? ==> IdOf(s.ids, s.producer.a) == s.seqno)
    && (forall k :: 0 <= k < |s.produced| ==> s.produced[k] == k % U32)
    && (forall k :: 0 <= k < |s.consumed| ==> s.consumed[k] == k % U32)
  }

  ghost predicate Inv(s: State) {
    Conserved(s) && IdsInOrder(s)
  }

  lemma TakeOut(free: set<Address>, a: Address)
    requires a in free
    ensures multiset(free) == multiset(free - {a}) + multiset{a}
  {
  }

  lemma PutIn(free: set<Address>, a: Address)
    requires a !in free
    ensures multiset(free + {a}) == multiset(free) + multiset{a}
  {
  }

  lemma TakeFirst(fifo: seq<Address>)
    requires fifo != []
    ensures multiset(fifo) == multiset(fifo[1..]) + multiset{fifo[0]}
  {
    assert fifo == [fifo[0]] + fifo[1..];
  }

  lemma Regroup(s: State)
    ensures Places(s) == (multiset(s.free) + multiset(s.fifo) + ConsumerOwns(s)) + ProducerOwns(s)
  {
  }

  /** The producer only moves addresses about. */
  lemma ProducerMoves(s: State, choice: Address)
    ensures Places(StepProducer(s, choice)) == Places(s)
  {
    var t := StepProducer(s, choice);
    if s.producer == AtAlloc && choice in s.free {
      TakeOut(s.free, choice);
    }
    assert multiset(t.free) + multiset(t.fifo) + ProducerOwns(t)
        == multiset(s.free) + multiset(s.fifo) + ProducerOwns(s);
    assert ConsumerOwns(t) == ConsumerOwns(s);
  }

  lemma HeldIsNotFree(s: State)
    requires Conserved(s) && s.consumer.Logged?
    ensures s.consumer.a !in s.free
  {
    var a := s.consumer.a;
    assert multiset(ALL_BLOCKS)[a] <= 1;
    assert Places(s)[a] >= multiset(s.free)[a] + 1;
  }

  lemma ConsumerConserves(s: State)
    requires Conserved(s)
    ensures Conserved(StepConsumer(s, Rx))
  {
    var t := StepConsumer(s, Rx);
    if s.consumer == AtGet && s.fifo != [] {
      TakeFirst(s.fifo);
    } else if s.consumer.Logged? {
      HeldIsNotFree(s);
      PutIn(s.free, s.consumer.a);
    }
    assert multiset(t.free) + multiset(t.fifo) + ConsumerOwns(t)
        == multiset(s.free) + multiset(s.fifo) + ConsumerOwns(s);
    Regroup(s);
    Regroup(t);
  }

  /** The block being written is nowhere else, so no queued or held id changes. */
  lemma WriterIsAlone(s: State)
    requires Conserved(s) && s.producer.Allocated?
    ensures s.producer.a !in s.fifo
    ensures s.consumer.Got? ==> s.consumer.a != s.producer.a
  {
    var a := s.producer.a;
    assert multiset(ALL_BLOCKS)[a] <= 1;
    assert Places(s)[a] == multiset(s.free)[a] + multiset(s.fifo)[a] + 1 + ConsumerOwns(s)[a];
  }

  lemma WriteKeepsOrder(s: State)
    requires Inv(s) && s.producer.Allocated?
    ensures IdsInOrder(StepProducer(s, s.producer.a))
  {
    WriterIsAlone(s);
    var t := StepProducer(s, s.producer.a);
    assert forall k :: 0 <= k < |s.fifo| ==> s.fifo[k] != s.producer.a;
    assert forall k :: 0 <= k < |s.fifo| ==> IdOf(t.ids, t.fifo[k]) == IdOf(s.ids, s.fifo[k]);
  }

  lemma PutKeepsOrder(s: State, choice: Address)
    requires IdsInOrder(s) && s.producer.Written?
    ensures IdsInOrder(StepProducer(s, choice))
  {
  }

  lemma LogKeepsOrder(s: State, choice: Address)
    requires IdsInOrder(s) && s.producer.Pushed?
    ensures IdsInOrder(StepProducer(s, choice))
  {
    WrapSucc(|s.produced|);
  }

  lemma ProducerKeepsOrder(s: State, choice: Address)
    requires Inv(s)
    ensures IdsInOrder(StepProducer(s, choice))
  {
    match s.producer
    case AtAlloc =>
    case Allocated(a) => WriteKeepsOrder(s);
    case Written(a) => PutKeepsOrder(s, choice);
    case Pushed(a) => LogKeepsOrder(s, choice);
  }

  lemma ConsumerKeepsOrder(s: State, arg: FreeArg)
    requires IdsInOrder(s)
    ensures IdsInOrder(StepConsumer(s, arg))
  {
  }

  lemma {:induction false} InvReachable(s: State, schedule: seq<Action>)
    requires Inv(s)
    ensures Inv(Exec(s, schedule, Rx))
    decreases |schedule|
  {
    if schedule != [] {
      match schedule[0] {
        case ProducerStep(choice) =>
          ProducerMoves(s, choice);
          ProducerKeepsOrder(s, choice);
        case ConsumerStep =>
          ConsumerKeepsInv(s);
      }
      InvReachable(Step(s, schedule[0], Rx), schedule[1..]);
    }
  }

  lemma InvExec(schedule: seq<Action>)
    ensures Inv(Exec(INIT, schedule, Rx))
  {
    InvReachable(INIT, schedule);
  }

  // ----- what holds on every schedule, freeing `rx` -----

  lemma CountBlocks(n: nat)
    ensures var bs := set k | 0 <= k < n :: Block(k); |bs| == n
  {
    var bs := set k | 0 <= k < n :: Block(k);
    if n == 0 {
      assert bs == {};
    } else {
      CountBlocks(n - 1);
      assert bs == (set k | 0 <= k < n - 1 :: Block(k)) + {Block(n - 1)};
    }
  }

  lemma TenPlaces(s: State)
    requires Conserved(s)
    ensures |s.free| + |s.fifo| + |ProducerOwns(s)| + |ConsumerOwns(s)| == BLOCKS
  {
    CountBlocks(BLOCKS);
    assert ALL_BLOCKS == set k | 0 <= k < BLOCKS :: Block(k);
    assert |Places(s)| == |multiset(s.free)| + |multiset(s.fifo)| + |ProducerOwns(s)| + |ConsumerOwns(s)|;
  }

  /** A thread is held up exactly by an empty slab (no free block to choose) or an empty FIFO. */
  lemma BlockedExactly(s: State, choice: Address, arg: FreeArg)
    ensures StepProducer(s, choice) == s <==> s.producer == AtAlloc && choice !in s.free
    ensures StepConsumer(s, arg) == s <==> s.consumer == AtGet && s.fifo == []
  {
  }

  /** Some step changes the state. */
  ghost predicate CanMove(s: State) {
    exists action :: Step(s, action, Rx) != s
  }

  /** The producer and the consumer never wait for each other. */
  lemma NeverBothBlocked(schedule: seq<Action>)
    ensures CanMove(Exec(INIT, schedule, Rx))
  {
    InvExec(schedule);
    SomeoneMoves(Exec(INIT, schedule, Rx));
  }

  lemma SomeoneMoves(s: State)
    requires Conserved(s)
    ensures CanMove(s)
  {
    TenPlaces(s);
    var choice := if s.free == {} then AddressOfRx else Member(s.free);
    BlockedExactly(s, choice, Rx);
    var p, c := ProducerStep(choice), ConsumerStep;
    assert Step(s, p, Rx) == StepProducer(s, choice) && Step(s, c, Rx) == StepConsumer(s, Rx);
    assert Step(s, p, Rx) != s || Step(s, c, Rx) != s;
  }

  ghost function Member(free: set<Address>): (a: Address)
    requires free != {}
    ensures a in free
  {
    var a :| a in free;
    a
  }

  // ----- progress -----

  /** One turn of the producer's loop, for any free block: it is given the next id and goes to
      the end of the FIFO. (The slab's choice matters in the first step only.) */
  lemma ProducerTurn(s: State, block: Address)
    requires s.producer == AtAlloc && block in s.free
    ensures StepProducer(StepProducer(StepProducer(StepProducer(s, block), block), block), block)
         == s.(free := s.free - {block}, ids := s.ids[block := s.seqno], fifo := s.fifo + [block],
               produced := s.produced + [s.seqno], seqno := (s.seqno + 1) % 0x1_0000_0000)
  {
  }

  /** The producer's loop, k turns of it, taking the blocks in order. */
  function FillSteps(k: nat): seq<Action> {
    if k == 0 then [] else FillSteps(k - 1) + Turn(Block(k - 1))
  }

  function Turn(block: Address): seq<Action> {
    var p := ProducerStep(block);
    [p, p, p] + [p]
  }

  lemma TurnRuns(s: State, block: Address, arg: FreeArg)
    ensures Exec(s, Turn(block), arg)
         == StepProducer(StepProducer(StepProducer(StepProducer(s, block), block), block), block)
  {
    var p := ProducerStep(block);
    Unroll(s, p, p, p, [p], arg);
    assert [p][1..] == [];
  }

  /** k turns of the producer alone: blocks 0 to k - 1 are queued and the others free. */
  ghost predicate Filled(s: State, k: nat) {
    && s.producer == AtAlloc && s.consumer == AtGet && s.consumed == []
    && |s.produced| == k && |s.fifo| == k
    && forall n :: 0 <= n < 10 ==> (Block(n) in s.free <==> k <= n)
  }

  lemma FillOnce(s: State, k: nat)
    requires Filled(s, k) && k < 10
    ensures Filled(StepProducer(StepProducer(StepProducer(StepProducer(s, Block(k)), Block(k)), Block(k)), Block(k)), k + 1)
  {
    hide StepProducer;
    ProducerTurn(s, Block(k));
  }

  lemma {:induction false} FillRuns(k: nat)
    requires k <= 10
    ensures Filled(Exec(INIT, FillSteps(k), Rx), k)
    decreases k
  {
    if k > 0 {
      hide Filled, StepProducer, Turn;
      FillRuns(k - 1);
      var s := Exec(INIT, FillSteps(k - 1), Rx);
      ExecConcat(INIT, FillSteps(k - 1), Turn(Block(k - 1)), Rx);
      TurnRuns(s, Block(k - 1), Rx);
      FillOnce(s, k - 1);
    }
  }

  /** The slab holds ten blocks: the producer alone pushes exactly ten, and then waits. */
  lemma TenArePushed()
    ensures var s := Exec(INIT, FillSteps(10), Rx);
            |s.produced| == 10 && s.consumed == [] && s.producer == AtAlloc && s.free == {}
  {
    FillRuns(10);
    InvExec(FillSteps(10));
    TenPlaces(Exec(INIT, FillSteps(10), Rx));
  }

  /** One turn of the consumer's loop: the oldest block is logged and freed, or `&rx` is. */
  lemma ConsumerTurn(s: State, arg: FreeArg)
    requires s.consumer == AtGet && s.fifo != [] && s.fifo[0] in s.ids
    ensures StepConsumer(StepConsumer(StepConsumer(s, arg), arg), arg)
         == s.(fifo := s.fifo[1..], consumed := s.consumed + [s.ids[s.fifo[0]]],
               free := s.free + {if arg == Rx then s.fifo[0] else AddressOfRx})
  {
  }

  function ConsumerSteps(n: nat): (r: seq<Action>)
    ensures |r| == n && forall k :: 0 <= k < n ==> r[k] == ConsumerStep
  {
    seq(n, _ => ConsumerStep)
  }

  /** Consumer steps until it waits, if nothing more is pushed. */
  function ToConsume(s: State): nat {
    3 * |s.fifo| + match s.consumer case AtGet => 0 case Got(_) => 2 case Logged(_) => 1
  }

  /** Blocks handed over so far. */
  function Pushes(s: State): nat {
    |s.produced| + if s.producer.Pushed? then 1 else 0
  }

  lemma ConsumerGetsOn(s: State)
    requires ToConsume(s) > 0
    ensures var t := StepConsumer(s, Rx);
            ToConsume(t) == ToConsume(s) - 1 && t.producer == s.producer && t.produced == s.produced
  {
  }

  lemma ConsumerAtRest(s: State)
    ensures ToConsume(s) == 0 ==> s.fifo == [] && s.consumer == AtGet
  {
  }

  lemma {:induction false} ConsumerRuns(s: State, n: nat)
    requires Inv(s) && n == ToConsume(s)
    ensures var t := Exec(s, ConsumerSteps(n), Rx);
            && Inv(t) && t.fifo == [] && t.consumer == AtGet
            && t.producer == s.producer && t.produced == s.produced
    decreases n
  {
    hide Inv, StepConsumer, ToConsume;
    ConsumerAtRest(s);
    if n > 0 {
      assert ConsumerSteps(n)[1..] == ConsumerSteps(n - 1);
      ConsumerGetsOn(s);
      ConsumerKeepsInv(s);
      ConsumerRuns(StepConsumer(s, Rx), n - 1);
    }
  }

  lemma ConsumerKeepsInv(s: State)
    requires Inv(s)
    ensures Inv(StepConsumer(s, Rx))
  {
    hide Conserved, IdsInOrder, StepConsumer;
    ConsumerConserves(s);
    ConsumerKeepsOrder(s, Rx);
  }

  lemma {:induction false} ExecConcat(s: State, a: seq<Action>, b: seq<Action>, arg: FreeArg)
    ensures Exec(s, a + b, arg) == Exec(Exec(s, a, arg), b, arg)
    decreases |a|
  {
    if a == [] {
      assert a + b == b;
    } else {
      assert (a + b)[1..] == a[1..] + b;
      ExecConcat(Step(s, a[0], arg), a[1..], b, arg);
    }
  }

  /** At rest all that was pushed is logged and back in the slab. */
  ghost predicate AllReturned(s: State) {
    && s.consumer == AtGet && s.fifo == []
    && |s.consumed| == Pushes(s)
    && multiset(s.free) + ProducerOwns(s) == multiset(ALL_BLOCKS)
  }

  lemma RestReturnsAll(s: State)
    requires Inv(s) && s.consumer == AtGet && s.fifo == []
    ensures AllReturned(s)
  {
    assert Places(s) == multiset(s.free) + ProducerOwns(s);
  }

  /** Any run followed by at most 32 consumer steps has every id that was pushed logged and every
      block that was pushed back in the slab. */
  lemma AllConsumed(schedule: seq<Action>)
    ensures var s := Exec(INIT, schedule, Rx);
            var t := Exec(INIT, schedule + ConsumerSteps(ToConsume(s)), Rx);
            && ToConsume(s) <= 32 && AllReturned(t)
            && t.producer == s.producer && t.produced == s.produced
  {
    hide AllReturned;
    InvExec(schedule);
    var s := Exec(INIT, schedule, Rx);
    TenPlaces(s);
    ConsumerRuns(s, ToConsume(s));
    ExecConcat(INIT, schedule, ConsumerSteps(ToConsume(s)), Rx);
    RestReturnsAll(Exec(s, ConsumerSteps(ToConsume(s)), Rx));
  }

  /** The consumer logs 0, 1, 2, ... (mod 2^32), at most 10 ids behind what was pushed; and the
      producer's own log line, read after the block was handed over, names the id it pushed. */
  lemma IdsLaw(schedule: seq<Action>)
    ensures var s := Exec(INIT, schedule, Rx);
            && (forall k :: 0 <= k < |s.consumed| ==> s.consumed[k] == k % U32)
            && (forall k :: 0 <= k < |s.produced| ==> s.produced[k] == k % U32)
            && |s.consumed| <= |s.produced| + (if s.producer.Pushed? then 1 else 0)
            && |s.produced| + (if s.producer.Pushed? then 1 else 0) <= |s.consumed| + 10
  {
    InvExec(schedule);
    TenPlaces(Exec(INIT, schedule, Rx));
  }

  // ----- which argument to free -----

  ghost predicate AlwaysConserved(arg: FreeArg) {
    forall schedule :: Conserved(Exec(INIT, schedule, arg))
  }

  /** One trip of one block loses it when `&rx` is freed: it is in no place any more. */
  lemma FreeingRefRxLosesBlock()
    ensures var p, c := ProducerStep(Block(0)), ConsumerStep;
            Places(Exec(INIT, [p, p, p, c, c, c], RefRx))[Block(0)] == 0
  {
    var p, c := ProducerStep(Block(0)), ConsumerStep;
    assert Block(0) in INIT.free;
    var s := StepProducer(StepProducer(StepProducer(INIT, Block(0)), Block(0)), Block(0));
    var t := StepConsumer(StepConsumer(StepConsumer(s, RefRx), RefRx), RefRx);
    assert [p, p, p, c, c, c] == [p, p, p] + [c, c, c];
    Unroll(INIT, p, p, p, [c, c, c], RefRx);
    assert [c, c, c] == [c, c, c] + [];
    Unroll(s, c, c, c, [], RefRx);
    assert Exec(INIT, [p, p, p, c, c, c], RefRx) == t;
    assert Block(0) !in t.free && t.fifo == [];
  }

  lemma Unroll(s: State, a: Action, b: Action, c: Action, rest: seq<Action>, arg: FreeArg)
    ensures Exec(s, [a, b, c] + rest, arg) == Exec(Step(Step(Step(s, a, arg), b, arg), c, arg), rest, arg)
  {
    var s1 := Step(s, a, arg);
    var s2 := Step(s1, b, arg);
    assert ([a, b, c] + rest)[1..] == [b, c] + rest;
    assert ([b, c] + rest)[1..] == [c] + rest;
    assert ([c] + rest)[1..] == rest;
    assert Exec(s1, [b, c] + rest, arg) == Exec(s2, [c] + rest, arg);
    assert Exec(s2, [c] + rest, arg) == Exec(Step(s2, c, arg), rest, arg);
  }

  /** Blocks are conserved on every schedule exactly when the freed address is `rx`. */
  lemma ConservationExactly(arg: FreeArg)
    ensures AlwaysConserved(arg) <==> arg == Rx
  {
    if arg == Rx {
      forall schedule ensures Conserved(Exec(INIT, schedule, Rx)) {
        InvExec(schedule);
      }
    } else {
      var p, c := ProducerStep(Block(0)), ConsumerStep;
      FreeingRefRxLosesBlock();
      assert Block(0) in ALL_BLOCKS;
      assert !Conserved(Exec(INIT, [p, p, p, c, c, c], arg));
    }
  }

  /** Blocks the consumer has freed. */
  function Frees(s: State): int {
    |s.consumed| - if s.consumer.Logged? then 1 else 0
  }

  lemma ConsumerKeepsStray(s: State)
    requires Places(s)[AddressOfRx] >= 1
    ensures Places(StepConsumer(s, RefRx))[AddressOfRx] >= 1
  {
    if s.consumer == AtGet && s.fifo != [] {
      TakeFirst(s.fifo);
    }
  }

  /** Nothing is lost before the first free; from then on `&rx` is somewhere. */
  ghost predicate StraySince(s: State) {
    && Frees(s) >= 0
    && if Frees(s) == 0 then Conserved(s) else Places(s)[AddressOfRx] >= 1
  }

  lemma ProducerFreesNothing(s: State, choice: Address)
    ensures Frees(StepProducer(s, choice)) == Frees(s)
  {
  }

  lemma ProducerKeepsStray(s: State, choice: Address)
    requires StraySince(s)
    ensures StraySince(StepProducer(s, choice))
  {
    hide Places, StepProducer;
    ProducerFreesNothing(s, choice);
    ProducerMoves(s, choice);
  }

  /** Until it frees, the consumer does the same in both programs. */
  lemma OnlyFreeingDiffers(s: State)
    ensures !s.consumer.Logged? ==>
              StepConsumer(s, RefRx) == StepConsumer(s, Rx) && Frees(StepConsumer(s, RefRx)) == Frees(s)
    ensures s.consumer.Logged? ==>
              var t := StepConsumer(s, RefRx);
              AddressOfRx in t.free && Frees(t) == Frees(s) + 1
  {
  }

  lemma FreeIsSomewhere(s: State, a: Address)
    requires a in s.free
    ensures Places(s)[a] >= 1
  {
  }

  lemma ConsumerStrays(s: State)
    requires StraySince(s)
    ensures StraySince(StepConsumer(s, RefRx))
  {
    hide Places, Conserved, StepConsumer, Frees;
    OnlyFreeingDiffers(s);
    if s.consumer.Logged? {
      FreeIsSomewhere(StepConsumer(s, RefRx), AddressOfRx);
    } else if Frees(s) == 0 {
      ConsumerConserves(s);
    } else {
      ConsumerKeepsStray(s);
    }
  }

  lemma StepKeepsStray(s: State, action: Action)
    requires StraySince(s)
    ensures StraySince(Step(s, action, RefRx))
  {
    hide StraySince, StepProducer, StepConsumer;
    match action
    case ProducerStep(choice) => ProducerKeepsStray(s, choice);
    case ConsumerStep => ConsumerStrays(s);
  }

  lemma {:induction false} RunKeepsStray(s: State, schedule: seq<Action>)
    requires StraySince(s)
    ensures StraySince(Exec(s, schedule, RefRx))
    decreases |schedule|
  {
    hide StraySince, Step;
    if schedule != [] {
      StepKeepsStray(s, schedule[0]);
      RunKeepsStray(Step(s, schedule[0], RefRx), schedule[1..]);
    }
  }

  /** In any one run, of either program, blocks are conserved exactly if `rx` is freed or nothing
      has been freed yet: as written, the program loses a block with its first free, for good. */
  lemma ConservedInRunExactly(schedule: seq<Action>, arg: FreeArg)
    ensures var s := Exec(INIT, schedule, arg);
            Conserved(s) <==> arg == Rx || Frees(s) == 0
  {
    if arg == Rx {
      InvExec(schedule);
    } else {
      RunKeepsStray(INIT, schedule);
      assert multiset(ALL_BLOCKS)[AddressOfRx] == 0;
    }
  }

  // ----- the program -----

  class App {
    const arg: FreeArg
    const words: array<nat>     // the `id` word of each block of the slab
    var stray: nat              // the word an `id` at `&rx` would be
    var free: set<Address>
    var fifo: seq<Address>
    var seqno: nat
    var producer: Producer
    var consumer: Consumer
    ghost var produced: seq<nat>
    ghost var consumed: seq<nat>

    ghost predicate Valid()
      reads this
    {
      && words.Length == BLOCKS
      && free <= ADDRESSES && (forall a :: a in fifo ==> a in ADDRESSES)
      && (producer != AtAlloc ==> producer.a in ADDRESSES)
      && (consumer != AtGet ==> consumer.a in ADDRESSES)
    }

    function Word(a: Address): nat
      requires words.Length == BLOCKS && a in ADDRESSES
      reads this`stray, words
    {
      match a
      case Block(n) => words[n]
      case AddressOfRx => stray
    }

    ghost function Ids(): (r: map<Address, nat>)
      requires words.Length == BLOCKS
      ensures forall a :: a in ADDRESSES ==> IdOf(r, a) == Word(a)
      reads this`stray, words
    {
      map a | a in ADDRESSES :: Word(a)
    }

    ghost function Abs(): State
      requires Valid()
      reads this, words
    {
      State(free, fifo, Ids(), seqno, producer, consumer, produced, consumed)
    }

    constructor (arg: FreeArg)
      ensures Valid() && Abs() == INIT && this.arg == arg && fresh(words)
    {
      this.arg := arg;
      words := new nat[BLOCKS](_ => 0);
      free, fifo, stray, seqno := ALL_BLOCKS, [], 0, 0;
      producer, consumer, produced, consumed := AtAlloc, AtGet, [], [];
    }

    /** `ptr->id = seq` */
    method WriteId(a: Address)
      requires words.Length == BLOCKS && a in ADDRESSES
      modifies this`stray, words
      ensures Ids() == old(Ids())[a := seqno] && Word(a) == seqno
    {
      match a
      case Block(n) => words[n] := seqno;
      case AddressOfRx => stray := seqno;
    }

    /** The producer's next statement. */
    method Produce(choice: Address)
      requires Valid()
      modifies this, words
      ensures Valid() && Abs() == StepProducer(old(Abs()), choice)
      ensures old(producer) == AtAlloc && choice in old(free) ==>
                producer == Allocated(choice) && free == old(free) - {choice}
      ensures old(producer).Allocated? ==> Word(old(producer).a) == seqno && fifo == old(fifo)
      ensures old(producer).Written? ==> fifo == old(fifo) + [old(producer).a]
    {
      hide Ids, Word, IdOf;
      match producer
      case AtAlloc =>
        if choice in free {
          free, producer := free - {choice}, Allocated(choice);
        }
      case Allocated(a) =>
        WriteId(a);
        producer := Written(a);
      case Written(a) =>
        fifo, producer := fifo + [a], Pushed(a);
      case Pushed(a) =>
        produced := produced + [Word(a)];
        seqno, producer := (seqno + 1) % U32, AtAlloc;
    }

    /** The consumer's next statement. */
    method Consume()
      requires Valid()
      modifies this
      ensures Valid() && Abs() == StepConsumer(old(Abs()), arg)
      ensures old(consumer) == AtGet && old(fifo) != [] ==> consumer == Got(old(fifo)[0]) && fifo == old(fifo)[1..]
      ensures old(consumer).Got? ==> consumed == old(consumed) + [Word(old(consumer).a)] && free == old(free)
      ensures old(consumer).Logged? ==> free == old(free) + {if arg == Rx then old(consumer).a else AddressOfRx}
    {
      match consumer
      case AtGet =>
        if fifo != [] {
          consumer, fifo := Got(fifo[0]), fifo[1..];
        }
      case Got(a) =>
        consumed, consumer := consumed + [Word(a)], Logged(a);
      case Logged(a) =>
        free := free + {if arg == Rx then a else AddressOfRx};
        consumer := AtGet;
    }

    /** The two threads under any scheduler. */
    method Interleave(schedule: seq<Action>)
      requires Valid()
      modifies this, words
      ensures Valid() && Abs() == Exec(old(Abs()), schedule, arg)
    {
      var i := 0;
      assert schedule[0..] == schedule;
      while i < |schedule|
        invariant i <= |schedule| && Valid()
        invariant Exec(Abs(), schedule[i..], arg) == Exec(old(Abs()), schedule, arg)
      {
        assert schedule[i..][1..] == schedule[i + 1..];
        match schedule[i] {
          case ProducerStep(choice) => Produce(choice);
          case ConsumerStep => Consume();
        }
        i := i + 1;
      }
    }
  }
}
