// msgq/src/main.c: a sender fills one local message again and again and puts copies into a
// queue of five, giving up on a message when the queue stays full; a receiver takes them out.
// The kernel contract assumed: put copies the message in at the end if there is room and may
// time out only while the queue is full; get copies the first message out.
module MessageQueue {

  const DEPTH := 5

  datatype Msg = Msg(id: nat, count: nat)

  /** The sender before line 41, 42, 44, on a successful put before line 45, and done. */
  datatype Sender = AtId | AtCount | AtPut | AtSent | Finished

  /** The receiver before line 25 and, after a successful get, before line 26. */
  datatype Receiver = AtGet | AtLog

  /** `msg` is the sender's local and `rx` the receiver's. `outcomes` records whether each put
      so far succeeded; `sent` and `received` are the two threads' log lines. */
  datatype State = State(
    i: nat, msg: Msg, queue: seq<Msg>, rx: Msg, sender: Sender, receiver: Receiver,
    outcomes: seq<bool>, sent: seq<nat>, received: seq<Msg>)

  datatype Action = SenderStep | PutTimesOut | ReceiverStep

  /** The locals start with whatever the stacks hold. */
  function Init(bound: nat, msg: Msg, rx: Msg): State {
    State(0, msg, [], rx, if bound == 0 then Finished else AtId, AtGet, [], [], [])
  }

  /** `i++` and the loop test. */
  function NextTurn(bound: nat, s: State): State {
    s.(i := s.i + 1, sender := if s.i + 1 < bound then AtId else Finished)
  }

  function StepSender(bound: nat, s: State): State {
    match s.sender
    case AtId => s.(msg := s.msg.(id := s.i), sender := AtCount)
    case AtCount => s.(msg := s.msg.(count := s.i % 256), sender := AtPut)
    case AtPut =>
      if |s.queue| < DEPTH
      then s.(queue := s.queue + [s.msg], outcomes := s.outcomes + [true], sender := AtSent)
      else s
    case AtSent => NextTurn(bound, s.(sent := s.sent + [s.msg.id]))
    case Finished => s
  }

  function StepTimeout(bound: nat, s: State): State {
    if s.sender == AtPut && |s.queue| == DEPTH
    then NextTurn(bound, s.(outcomes := s.outcomes + [false]))
    else s
  }

  function StepReceiver(s: State): State {
    match s.receiver
    case AtGet =>
      if s.queue == [] then s
      else s.(rx := s.queue[0], queue := s.queue[1..], receiver := AtLog)
    case AtLog => s.(received := s.received + [s.rx], receiver := AtGet)
  }

  function Step(bound: nat, s: State, a: Action): State {
    match a
    case SenderStep => StepSender(bound, s)
    case PutTimesOut => StepTimeout(bound, s)
    case ReceiverStep => StepReceiver(s)
  }

  function Exec(bound: nat, s: State, schedule: seq<Action>): State
    decreases |schedule|
  {
    if schedule == [] then s else Exec(bound, Step(bound, s, schedule[0]), schedule[1..])
  }

  // ----- the invariant -----

  /** What the k-th attempt sends. */
  function MsgOf(k: nat): Msg {
    Msg(k, k % 256)
  }

  /** The messages of the successful attempts, in order. */
  function Accepted(outcomes: seq<bool>): seq<Msg> {
    if outcomes == [] then []
    else
      var n := |outcomes| - 1;
      Accepted(outcomes[..n]) + (if outcomes[n] then [MsgOf(n)] else [])
  }

  function Failures(outcomes: seq<bool>): nat {
    if outcomes == [] then 0
    else Failures(outcomes[..|outcomes| - 1]) + (if outcomes[|outcomes| - 1] then 0 else 1)
  }

  /** Taken out and perhaps not yet logged. */
  function Taken(s: State): seq<Msg> {
    s.received + if s.receiver == AtLog then [s.rx] else []
  }

  function Ids(ms: seq<Msg>): (r: seq<nat>)
    ensures |r| == |ms| && forall k :: 0 <= k < |ms| ==> r[k] == ms[k].id
  {
    seq(|ms|, k requires 0 <= k < |ms| => ms[k].id)
  }

  ghost predicate Inv(bound: nat, s: State) {
    && |s.queue| <= DEPTH
    && Taken(s) + s.queue == Accepted(s.outcomes)
    && s.i <= bound && (s.sender == Finished <==> s.i == bound)
    && |s.outcomes| == s.i + (if s.sender == AtSent then 1 else 0)
    && (s.sender == AtCount ==> s.msg.id == s.i)
    && (s.sender == AtPut || s.sender == AtSent ==> s.msg == MsgOf(s.i))
    && (s.sender == AtSent ==> s.outcomes[s.i])
    && s.sent + (if s.sender == AtSent then [s.i] else []) == Ids(Accepted(s.outcomes))
  }

  lemma TimeoutKeepsInv(bound: nat, s: State)
    requires Inv(bound, s)
    ensures Inv(bound, StepTimeout(bound, s))
  {
  }

  /** The receiver only moves messages on. */
  lemma ReceiverMoves(s: State)
    ensures Taken(StepReceiver(s)) + StepReceiver(s).queue == Taken(s) + s.queue
  {
    var t := StepReceiver(s);
    if s.receiver == AtGet && s.queue != [] {
      assert Taken(t) + t.queue == s.received + ([s.queue[0]] + s.queue[1..]);
      assert [s.queue[0]] + s.queue[1..] == s.queue;
      assert Taken(s) == s.received;
    } else {
      assert Taken(t) == Taken(s);
    }
  }

  lemma ReceiverKeepsInv(bound: nat, s: State)
    requires Inv(bound, s)
    ensures Inv(bound, StepReceiver(s))
  {
    ReceiverMoves(s);
  }

  lemma SenderKeepsInv(bound: nat, s: State)
    requires Inv(bound, s)
    ensures Inv(bound, StepSender(bound, s))
  {
  }

  lemma {:induction false} InvReachable(bound: nat, s: State, schedule: seq<Action>)
    requires Inv(bound, s)
    ensures Inv(bound, Exec(bound, s, schedule))
    decreases |schedule|
  {
    if schedule != [] {
      match schedule[0] {
        case SenderStep => SenderKeepsInv(bound, s);
        case PutTimesOut => TimeoutKeepsInv(bound, s);
        case ReceiverStep => ReceiverKeepsInv(bound, s);
      }
      InvReachable(bound, Step(bound, s, schedule[0]), schedule[1..]);
    }
  }

  lemma InvExec(bound: nat, msg: Msg, rx: Msg, schedule: seq<Action>)
    ensures Inv(bound, Exec(bound, Init(bound, msg, rx), schedule))
  {
    InvReachable(bound, Init(bound, msg, rx), schedule);
  }

  // ----- what holds for every loop bound, interleaving and pattern of timeouts -----

  lemma {:induction false} AcceptedShape(outcomes: seq<bool>)
    ensures var ms := Accepted(outcomes);
            && |ms| + Failures(outcomes) == |outcomes|
            && (forall k :: 0 <= k < |ms| ==> ms[k].count == ms[k].id % 256 && ms[k].id < |outcomes| && outcomes[ms[k].id])
            && (forall j, k :: 0 <= j < k < |ms| ==> ms[j].id < ms[k].id)
  {
    if outcomes != [] {
      var n := |outcomes| - 1;
      AcceptedShape(outcomes[..n]);
      assert forall k :: 0 <= k < n ==> outcomes[..n][k] == outcomes[k];
    }
  }

  /** Every success is there: no accepted message is skipped. */
  lemma {:induction false} AcceptedComplete(outcomes: seq<bool>, k: nat)
    requires k < |outcomes| && outcomes[k]
    ensures MsgOf(k) in Accepted(outcomes)
  {
    var n := |outcomes| - 1;
    if k < n {
      AcceptedComplete(outcomes[..n], k);
    }
  }

  /** Taken messages followed by queued ones are the messages of the successful puts, in order,
      although the sender overwrites its local message after each put; and nothing is lost:
      taken + queued + failed = attempts. */
  lemma AccountingLaw(bound: nat, msg: Msg, rx: Msg, schedule: seq<Action>)
    ensures var s := Exec(bound, Init(bound, msg, rx), schedule);
            && Taken(s) + s.queue == Accepted(s.outcomes)
            && |s.queue| <= 5
            && |Taken(s)| + |s.queue| + Failures(s.outcomes) == |s.outcomes|
            && (s.sender == Finished ==> |s.outcomes| == bound)
            && s.sent <= Ids(Accepted(s.outcomes)) && |Ids(Accepted(s.outcomes))| <= |s.sent| + 1
  {
    InvExec(bound, msg, rx, schedule);
    AcceptedShape(Exec(bound, Init(bound, msg, rx), schedule).outcomes);
  }

  /** What the receiver logs has strictly increasing ids and count = id mod 256. */
  lemma ReceivedLaw(bound: nat, msg: Msg, rx: Msg, schedule: seq<Action>)
    ensures var r := Exec(bound, Init(bound, msg, rx), schedule).received;
            && (forall k :: 0 <= k < |r| ==> r[k].count == r[k].id % 256 && r[k].id < bound)
            && (forall j, k :: 0 <= j < k < |r| ==> r[j].id < r[k].id)
  {
    InvExec(bound, msg, rx, schedule);
    var s := Exec(bound, Init(bound, msg, rx), schedule);
    AcceptedShape(s.outcomes);
    assert s.received <= Accepted(s.outcomes);
    assert |s.outcomes| <= bound;
  }

  // ----- progress -----

  /** A thread is held up exactly by a full queue, an empty one, or the end of the loop; and a put
      may give up exactly on a full queue. */
  lemma BlockedExactly(bound: nat, s: State)
    ensures StepSender(bound, s) == s <==>
              s.sender == Finished || (s.sender == AtPut && |s.queue| >= 5)
    ensures StepTimeout(bound, s) == s <==> !(s.sender == AtPut && |s.queue| == 5)
    ensures StepReceiver(s) == s <==> s.receiver == AtGet && s.queue == []
  {
  }

  /** One turn of the sender's loop, if the queue has room: message i goes to the end. */
  lemma SenderTurn(bound: nat, s: State)
    requires s.sender == AtId && |s.queue| < 5
    ensures StepSender(bound, StepSender(bound, StepSender(bound, StepSender(bound, s))))
         == s.(msg := Msg(s.i, s.i % 256), queue := s.queue + [Msg(s.i, s.i % 256)],
               outcomes := s.outcomes + [true], sent := s.sent + [s.i],
               i := s.i + 1, sender := if s.i + 1 < bound then AtId else Finished)
  {
  }

  /** ... and if it has none and the put times out: the message is lost, and nothing else. */
  lemma SenderGivesUp(bound: nat, s: State)
    requires s.sender == AtId && |s.queue| == 5
    ensures StepTimeout(bound, StepSender(bound, StepSender(bound, s)))
         == s.(msg := Msg(s.i, s.i % 256), outcomes := s.outcomes + [false],
               i := s.i + 1, sender := if s.i + 1 < bound then AtId else Finished)
  {
  }

  /** One turn of the receiver's loop: the first message is taken and logged. */
  lemma ReceiverTurn(s: State)
    requires s.receiver == AtGet && s.queue != []
    ensures StepReceiver(StepReceiver(s))
         == s.(rx := s.queue[0], queue := s.queue[1..], received := s.received + [s.queue[0]])
  {
  }

  function ReceiverSteps(n: nat): (r: seq<Action>)
    ensures |r| == n && forall k :: 0 <= k < n ==> r[k] == ReceiverStep
  {
    seq(n, _ => ReceiverStep)
  }

  /** Receiver steps until it waits, if nothing more is sent. */
  function ToReceive(s: State): nat {
    2 * |s.queue| + if s.receiver == AtLog then 1 else 0
  }

  lemma ReceiverGetsOn(s: State)
    requires ToReceive(s) > 0
    ensures ToReceive(StepReceiver(s)) == ToReceive(s) - 1 && StepReceiver(s).outcomes == s.outcomes
  {
  }

  lemma {:induction false} ReceiverRuns(bound: nat, s: State, n: nat)
    requires n == ToReceive(s)
    ensures var t := Exec(bound, s, ReceiverSteps(n));
            && t.queue == [] && t.receiver == AtGet && t.outcomes == s.outcomes
            && t.received == Taken(s) + s.queue
    decreases n
  {
    if n > 0 {
      hide StepReceiver, Taken;
      assert ReceiverSteps(n)[1..] == ReceiverSteps(n - 1);
      ReceiverGetsOn(s);
      ReceiverMoves(s);
      ReceiverRuns(bound, StepReceiver(s), n - 1);
    }
  }

  lemma {:induction false} ExecConcat(bound: nat, s: State, a: seq<Action>, b: seq<Action>)
    ensures Exec(bound, s, a + b) == Exec(bound, Exec(bound, s, a), b)
    decreases |a|
  {
    if a == [] {
      assert a + b == b;
    } else {
      assert (a + b)[1..] == a[1..] + b;
      ExecConcat(bound, Step(bound, s, a[0]), a[1..], b);
    }
  }

  /** Nothing accepted stays behind: any run followed by at most eleven receiver steps has
      received exactly the messages of the successful puts, in order, and the queue is empty. */
  lemma AllReceived(bound: nat, msg: Msg, rx: Msg, schedule: seq<Action>)
    ensures var n := ToReceive(Exec(bound, Init(bound, msg, rx), schedule));
            var t := Exec(bound, Init(bound, msg, rx), schedule + ReceiverSteps(n));
            n <= 11 && t.queue == [] && t.received == Accepted(t.outcomes)
            && t.outcomes == Exec(bound, Init(bound, msg, rx), schedule).outcomes
  {
    InvExec(bound, msg, rx, schedule);
    var s := Exec(bound, Init(bound, msg, rx), schedule);
    ReceiverRuns(bound, s, ToReceive(s));
    ExecConcat(bound, Init(bound, msg, rx), schedule, ReceiverSteps(ToReceive(s)));
  }

  // ----- the program -----

  /** The k-th message of a queue whose first is in slot `head`. */
  function SlotOf(head: nat, k: nat): (r: nat)
    ensures r < DEPTH
  {
    (head + k) % DEPTH
  }

  /** What a ring of five slots holds. */
  function Contents(slots: seq<Msg>, head: nat, used: nat): (r: seq<Msg>)
    requires |slots| == DEPTH
    ensures |r| == used && forall k :: 0 <= k < used ==> r[k] == slots[SlotOf(head, k)]
  {
    seq(used, k requires 0 <= k < used => slots[SlotOf(head, k)])
  }

  /** Filling the slot after the last one adds a message at the end and touches no other. */
  lemma FillSlot(slots: seq<Msg>, head: nat, used: nat, m: Msg)
    requires |slots| == DEPTH && used < DEPTH
    ensures Contents(slots[SlotOf(head, used) := m], head, used + 1) == Contents(slots, head, used) + [m]
  {
    forall k | 0 <= k < used ensures SlotOf(head, k) != SlotOf(head, used) {
      SlotsApart(head, k, used);
    }
  }

  lemma SlotsApart(head: nat, j: nat, k: nat)
    requires j < k < DEPTH
    ensures SlotOf(head, j) != SlotOf(head, k)
  {
  }

  /** Moving the head on takes the first message out. */
  lemma EmptySlot(slots: seq<Msg>, head: nat, used: nat)
    requires |slots| == DEPTH && 0 < used
    ensures Contents(slots, head, used)[1..] == Contents(slots, SlotOf(head, 1), used - 1)
  {
    forall k | 0 <= k < used - 1 ensures SlotOf(SlotOf(head, 1), k) == SlotOf(head, k + 1) {
      NextSlot(head, k);
    }
  }

  lemma NextSlot(head: nat, k: nat)
    ensures SlotOf(SlotOf(head, 1), k) == SlotOf(head, k + 1)
  {
  }

  class App {
    const bound: nat
    const slots: array<Msg>     // the five message buffers of my_msgq
    var head: nat
    var used: nat
    var i: nat
    var msg: Msg
    var rx: Msg
    var sender: Sender
    var receiver: Receiver
    ghost var outcomes: seq<bool>
    ghost var sent: seq<nat>
    ghost var received: seq<Msg>

    ghost predicate Valid()
      reads this
    {
      slots.Length == DEPTH && head < DEPTH && used <= DEPTH
    }

    ghost function Abs(): State
      requires Valid()
      reads this, slots
    {
      State(i, msg, Contents(slots[..], head, used), rx, sender, receiver, outcomes, sent, received)
    }

    constructor (bound: nat, msg: Msg, rx: Msg)
      ensures Valid() && Abs() == Init(bound, msg, rx) && this.bound == bound && fresh(slots)
    {
      this.bound, this.msg, this.rx := bound, msg, rx;
      slots := new Msg[DEPTH](_ => msg);
      head, used, i, receiver := 0, 0, 0, AtGet;
      sender := if bound == 0 then Finished else AtId;
      outcomes, sent, received := [], [], [];
    }

    /** `i++` and the loop test of line 40. */
    method Advance()
      modifies this`i, this`sender
      ensures i == old(i) + 1 && sender == if i < bound then AtId else Finished
    {
      i := i + 1;
      sender := if i < bound then AtId else Finished;
    }

    /** k_msgq_put into a queue with room: the message is copied. */
    method Put()
      requires Valid() && used < DEPTH
      modifies this`used, slots
      ensures Valid() && Contents(slots[..], head, used) == old(Contents(slots[..], head, used)) + [msg]
    {
      FillSlot(slots[..], head, used, msg);
      slots[SlotOf(head, used)] := msg;
      used := used + 1;
      assert slots[..] == old(slots[..])[SlotOf(head, old(used)) := msg];
    }

    /** k_msgq_get from a queue that is not empty: the message is copied out. */
    method Get()
      requires Valid() && used > 0
      modifies this`head, this`used, this`rx
      ensures Valid() && [rx] + Contents(slots[..], head, used) == old(Contents(slots[..], head, used))
    {
      EmptySlot(slots[..], head, used);
      rx := slots[head];
      assert SlotOf(head, 0) == head;
      head, used := SlotOf(head, 1), used - 1;
    }

    /** send_handler's next statement; a put into a full queue waits. */
    method Send()
      requires Valid()
      modifies this, slots
      ensures Valid() && Abs() == StepSender(bound, old(Abs()))
      ensures old(sender) == AtId ==> msg.id == i && sender == AtCount
      ensures old(sender) == AtCount ==> msg.count == i % 256 && sender == AtPut
      ensures old(sender) == AtPut ==> (used == old(used) + 1 && sender == AtSent <==> old(used) < 5)
    {
      match sender
      case AtId =>
        msg, sender := msg.(id := i), AtCount;
      case AtCount =>
        msg, sender := msg.(count := i % 256), AtPut;
      case AtPut =>
        if used < DEPTH {
          Put();
          outcomes, sender := outcomes + [true], AtSent;
        }
      case AtSent =>
        sent := sent + [msg.id];
        Advance();
      case Finished =>
    }

    /** A put that has waited too long. */
    method TimeOut()
      requires Valid()
      modifies this
      ensures Valid() && Abs() == StepTimeout(bound, old(Abs()))
      ensures i == old(i) + 1 && outcomes == old(outcomes) + [false]
              <==> old(sender) == AtPut && old(used) == 5
    {
      if sender == AtPut && used == DEPTH {
        outcomes := outcomes + [false];
        Advance();
      }
    }

    /** get_handler's next statement; a get from an empty queue waits. */
    method Receive()
      requires Valid()
      modifies this
      ensures Valid() && Abs() == StepReceiver(old(Abs()))
      ensures old(receiver) == AtGet ==> (receiver == AtLog <==> old(used) > 0)
      ensures old(receiver) == AtGet && old(used) > 0 ==> rx == old(slots[head])
      ensures old(receiver) == AtLog ==> received == old(received) + [rx] && receiver == AtGet
    {
      match receiver
      case AtGet =>
        if used > 0 {
          Get();
          receiver := AtLog;
        }
      case AtLog =>
        received, receiver := received + [rx], AtGet;
    }

    /** The two threads under any scheduler and any timeouts. */
    method Interleave(schedule: seq<Action>)
      requires Valid()
      modifies this, slots
      ensures Valid() && Abs() == Exec(bound, old(Abs()), schedule)
    {
      var k := 0;
      assert schedule[0..] == schedule;
      while k < |schedule|
        invariant k <= |schedule| && Valid()
        invariant Exec(bound, Abs(), schedule[k..]) == Exec(bound, old(Abs()), schedule)
      {
        assert schedule[k..][1..] == schedule[k + 1..];
        match schedule[k] {
          case SenderStep => Send();
          case PutTimesOut => TimeOut();
          case ReceiverStep => Receive();
        }
        k := k + 1;
      }
    }
  }
}
