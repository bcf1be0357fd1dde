/** MidiInApi::MidiQueue: a ring shared by one producer thread (`push`) and one
    consumer thread (`pop`). Each access to a shared variable is one step, and
    the steps of the two threads interleave freely. */
module MidiQueue {

  /** A message; its parts are copied one after the other. */
  datatype Message = Message(bytes: seq<int>, timeStamp: int)

  function Wrap(i: nat, n: nat): (r: nat)
    requires i < 2 * n
    ensures r < n
  {
    if i >= n then i - n else i
  }

  /** `size()` on the two index values read. */
  function Size(back: nat, front: nat, ringSize: nat): int {
    if back >= front then back - front else ringSize - front + back
  }

  /** The queue: the slots from `front` up to, not including, `back`. */
  function Contents(ring: seq<Message>, front: nat, back: nat): (q: seq<Message>)
    requires front < |ring| && back < |ring|
    ensures |q| == Size(back, front, |ring|)
    ensures forall i :: 0 <= i < |q| ==> q[i] == ring[Wrap(front + i, |ring|)]
    decreases Size(back, front, |ring|)
  {
    if front == back then []
    else [ring[front]] + Contents(ring, Wrap(front + 1, |ring|), back)
  }

  // ------------------------------------------------------- the two threads

  /** Where a call of `push` stands, with its local copies. */
  datatype Producer =
    | NoPush
    | HasBack(msg: Message, back: nat)
    | WritesBytes(msg: Message, back: nat)
    | WritesTime(msg: Message, back: nat)
    | MovesBack(msg: Message)

  /** Where a call of `pop` stands. `wasEmpty` records whether the queue was
      empty when `back` was read. */
  datatype Consumer =
    | NoPop
    | HasBack(back: nat, wasEmpty: bool)
    | ReadsBytes(front: nat)
    | ReadsTime(front: nat, bytes: seq<int>)
    | MovesFront(msg: Message)

  /** `accepted` are the messages whose push returned true, `popped` those that
      a pop returned, in order; the last answers of refused calls are kept with
      what the queue held. */
  datatype State = State(ring: seq<Message>, front: nat, back: nat,
                         producer: Producer, consumer: Consumer,
                         accepted: seq<Message>, popped: seq<Message>,
                         refusedPushSawFull: bool, refusedPopSawEmpty: bool) {
    predicate InRange() { front < |ring| && back < |ring| }
    function Queue(): seq<Message> requires InRange() { Contents(ring, front, back) }
  }

  function Initial(ring: seq<Message>): State {
    State(ring, 0, 0, NoPush, NoPop, [], [], true, true)
  }

  datatype Step = CallPush(msg: Message) | Produce | CallPop | Consume

  /** All indices, shared and local, point into the ring. */
  predicate Fits(s: State) {
    var n := |s.ring|;
    && s.InRange()
    && (match s.producer
        case HasBack(_, back) => back < n
        case WritesBytes(_, back) => back < n
        case WritesTime(_, back) => back < n
        case _ => true)
    && (match s.consumer
        case HasBack(back, _) => back < n
        case ReadsBytes(front) => front < n
        case ReadsTime(front, _) => front < n
        case _ => true)
  }

  /** One step of a thread; a step it cannot take changes nothing. */
  function Next(s: State, step: Step): (r: State)
    requires Fits(s)
    ensures Fits(r) && |r.ring| == |s.ring|
  {
    var n := |s.ring|;
    match step
    case CallPush(m) =>
      if s.producer == NoPush then s.(producer := Producer.HasBack(m, s.back)) else s
    case CallPop =>
      if s.consumer == NoPop then s.(consumer := Consumer.HasBack(s.back, s.Queue() == [])) else s
    case Produce => (
      match s.producer
      case NoPush => s
      case HasBack(m, back) =>
        if Size(back, s.front, n) < n - 1 then s.(producer := WritesBytes(m, back))
        else s.(producer := NoPush, refusedPushSawFull := |s.Queue()| == n - 1)
      case WritesBytes(m, back) =>
        s.(ring := s.ring[back := s.ring[back].(bytes := m.bytes)], producer := WritesTime(m, back))
      case WritesTime(m, back) =>
        s.(ring := s.ring[back := s.ring[back].(timeStamp := m.timeStamp)], producer := MovesBack(m))
      case MovesBack(m) =>
        s.(back := Wrap(s.back + 1, n), producer := NoPush, accepted := s.accepted + [m]))
    case Consume =>
      match s.consumer
      case NoPop => s
      case HasBack(back, wasEmpty) =>
        if Size(back, s.front, n) == 0 then s.(consumer := NoPop, refusedPopSawEmpty := wasEmpty)
        else s.(consumer := ReadsBytes(s.front))
      case ReadsBytes(front) => s.(consumer := ReadsTime(front, s.ring[front].bytes))
      case ReadsTime(front, bytes) => s.(consumer := MovesFront(Message(bytes, s.ring[front].timeStamp)))
      case MovesFront(m) => s.(front := Wrap(s.front + 1, n), consumer := NoPop, popped := s.popped + [m])
  }

  function Run(s: State, steps: seq<Step>): (r: State)
    requires Fits(s)
    ensures Fits(r) && |r.ring| == |s.ring|
    decreases |steps|
  {
    if steps == [] then s
    else
      var k := |steps| - 1;
      Next(Run(s, steps[..k]), steps[k])
  }

  // ------------------------------------------------------------ the invariant

  /** What each thread may rely on whatever the other does. */
  predicate Inv(s: State) {
    && Fits(s)
    && s.accepted == s.popped + s.Queue()
    && s.refusedPushSawFull && s.refusedPopSawEmpty
    && ProducerInv(s) && ConsumerInv(s)
  }

  predicate ProducerInv(s: State)
    requires s.InRange()
  {
    var n := |s.ring|;
    match s.producer
    case NoPush => true
    case HasBack(_, back) => back == s.back
    case WritesBytes(_, back) => back == s.back && |s.Queue()| < n - 1
    case WritesTime(m, back) => back == s.back && |s.Queue()| < n - 1 && s.ring[back].bytes == m.bytes
    case MovesBack(m) => |s.Queue()| < n - 1 && s.ring[s.back] == m
  }

  predicate ConsumerInv(s: State)
    requires s.InRange()
  {
    match s.consumer
    case NoPop => true
    case HasBack(back, wasEmpty) =>
      back < |s.ring| && Size(back, s.front, |s.ring|) <= |s.Queue()| && (Size(back, s.front, |s.ring|) == 0 ==> wasEmpty)
    case ReadsBytes(front) => front == s.front && s.Queue() != []
    case ReadsTime(front, bytes) => front == s.front && s.Queue() != [] && bytes == s.ring[front].bytes
    case MovesFront(m) => s.Queue() != [] && m == s.ring[s.front]
  }

  /** A slot outside the queue can change without the queue changing. */
  lemma OutsideWrite(ring: seq<Message>, front: nat, back: nat, m: Message)
    requires front < |ring| && back < |ring|
    ensures Contents(ring[back := m], front, back) == Contents(ring, front, back)
  {
    var q, q' := Contents(ring, front, back), Contents(ring[back := m], front, back);
    assert forall i :: 0 <= i < |q| ==> q'[i] == q[i];
  }

  lemma Grow(ring: seq<Message>, front: nat, back: nat)
    requires front < |ring| && back < |ring| && Size(back, front, |ring|) < |ring| - 1
    ensures Contents(ring, front, Wrap(back + 1, |ring|)) == Contents(ring, front, back) + [ring[back]]
  {
    var q, q' := Contents(ring, front, back), Contents(ring, front, Wrap(back + 1, |ring|));
    assert forall i :: 0 <= i < |q'| ==> q'[i] == (q + [ring[back]])[i];
  }

  lemma Shrink(ring: seq<Message>, front: nat, back: nat)
    requires front < |ring| && back < |ring| && front != back
    ensures [ring[front]] + Contents(ring, Wrap(front + 1, |ring|), back) == Contents(ring, front, back)
  {
  }

  lemma WrapIsModulo(i: nat, n: nat)
    requires i < n
    ensures (i + 1) % n == Wrap(i + 1, n)
  {
    if i + 1 == n {
      assert n % n == 0;
    }
  }

  ghost predicate Keeps(s: State, step: Step)
    requires Fits(s)
  {
    Inv(Next(s, step))
  }

  lemma CallKeeps(s: State, step: Step)
    requires Inv(s) && (step.CallPush? || step.CallPop?)
    ensures Keeps(s, step)
  {
    hide Contents;
  }

  lemma WriteKeeps(s: State)
    requires Inv(s) && (s.producer.WritesBytes? || s.producer.WritesTime?)
    ensures Keeps(s, Produce)
  {
    hide Contents;
    OutsideWrite(s.ring, s.front, s.back, Next(s, Produce).ring[s.back]);
  }

  lemma MoveBackKeeps(s: State)
    requires Inv(s) && s.producer.MovesBack?
    ensures Keeps(s, Produce)
  {
    hide Contents;
    Grow(s.ring, s.front, s.back);
    assert s.popped + (s.Queue() + [s.producer.msg]) == (s.popped + s.Queue()) + [s.producer.msg];
  }

  lemma ProduceKeeps(s: State)
    requires Inv(s) && (s.producer.NoPush? || s.producer.HasBack?)
    ensures Keeps(s, Produce)
  {
    hide Contents;
  }

  lemma ReadKeeps(s: State)
    requires Inv(s) && !s.consumer.MovesFront?
    ensures Keeps(s, Consume)
  {
    hide Contents;
  }

  lemma MoveFrontKeeps(s: State)
    requires Inv(s) && s.consumer.MovesFront?
    ensures Keeps(s, Consume)
  {
    var n := |s.ring|;
    var rest := Contents(s.ring, Wrap(s.front + 1, n), s.back);
    assert s.Queue() == [s.consumer.msg] + rest;
    assert s.popped + ([s.consumer.msg] + rest) == (s.popped + [s.consumer.msg]) + rest;
  }

  lemma InvKept(s: State, step: Step)
    requires Inv(s)
    ensures Keeps(s, step)
  {
    hide Inv, Next, Keeps;
    match step {
      case CallPush(_) => CallKeeps(s, step);
      case CallPop => CallKeeps(s, step);
      case Produce =>
        if s.producer.WritesBytes? || s.producer.WritesTime? {
          WriteKeeps(s);
        } else if s.producer.MovesBack? {
          MoveBackKeeps(s);
        } else {
          ProduceKeeps(s);
        }
      case Consume =>
        if s.consumer.MovesFront? { MoveFrontKeeps(s); } else { ReadKeeps(s); }
    }
  }

  // ------------------------------------------------------ what callers can rely on

  /** The slot that a running push writes, if any; and the one a pop reads. */
  function WrittenSlot(p: Producer): int {
    match p
    case WritesBytes(_, back) => back
    case WritesTime(_, back) => back
    case _ => -1
  }

  function ReadSlot(c: Consumer): int {
    match c
    case ReadsBytes(front) => front
    case ReadsTime(front, _) => front
    case _ => -2
  }

  lemma {:induction false} RunKeeps(s: State, steps: seq<Step>)
    requires Inv(s)
    ensures Inv(Run(s, steps))
    decreases |steps|
  {
    hide Next, ProducerInv, ConsumerInv;
    if steps != [] {
      var k := |steps| - 1;
      RunKeeps(s, steps[..k]);
      InvKept(Run(s, steps[..k]), steps[k]);
    }
  }

  /** In every interleaving: messages come out in the order in which their
      pushes were accepted and none is lost or made up; a slot being read is
      never written; at most `ringSize - 1` messages are held; a refused push
      saw the ring full and a refused pop saw it empty. */
  lemma EveryInterleaving(ring: seq<Message>, steps: seq<Step>)
    requires |ring| > 0
    ensures var s := Run(Initial(ring), steps);
            && s.InRange()
            && s.accepted == s.popped + s.Queue()
            && |s.Queue()| <= |ring| - 1
            && WrittenSlot(s.producer) != ReadSlot(s.consumer)
            && s.refusedPushSawFull && s.refusedPopSawEmpty
  {
    RunKeeps(Initial(ring), steps);
  }

  // ------------------------------------------------- what a call comes to

  function Count(steps: seq<Step>, step: Step): nat
    decreases |steps|
  {
    if steps == [] then 0 else Count(steps[..|steps| - 1], step) + if steps[|steps| - 1] == step then 1 else 0
  }

  /** No further call of push is made. */
  predicate NoPushCall(steps: seq<Step>) { forall i :: 0 <= i < |steps| ==> !steps[i].CallPush? }

  /** A push of `m` that began in `s0` after `k` steps of its thread. */
  predicate Pushing(s0: State, s: State, m: Message, k: nat)
    requires Fits(s)
  {
    && s.accepted == s0.accepted + (if k >= 4 then [m] else [])
    && if k == 0 then s.producer == Producer.HasBack(m, s0.back) && |s.Queue()| < |s.ring| - 1
       else if k == 1 then s.producer == WritesBytes(m, s0.back)
       else if k == 2 then s.producer == WritesTime(m, s0.back)
       else if k == 3 then s.producer == MovesBack(m)
       else s.producer == NoPush
  }

  /** What the other thread does to the queue: a pop can only make it shorter. */
  lemma ConsumerShrinks(s: State, step: Step)
    requires Inv(s) && (step == CallPop || step == Consume)
    ensures var r := Next(s, step);
            r.producer == s.producer && r.accepted == s.accepted && r.back == s.back && |r.Queue()| <= |s.Queue()|
  {
    hide Contents, ProducerInv, ConsumerInv;
    if s.consumer.MovesFront? {
      InvKept(s, step);
      assert |s.popped| + |s.Queue()| == |s.accepted| && |Next(s, step).popped| + |Next(s, step).Queue()| == |s.accepted|;
    }
  }

  lemma PushingStep(s0: State, s: State, m: Message, k: nat, step: Step)
    requires Inv(s) && Pushing(s0, s, m, k) && !step.CallPush?
    ensures Pushing(s0, Next(s, step), m, if step == Produce then k + 1 else k)
  {
    hide Contents, ConsumerInv;
    if step != Produce { ConsumerShrinks(s, step); }
  }

  lemma {:induction false} PushRuns(s: State, m: Message, steps: seq<Step>)
    requires Inv(s) && s.producer == NoPush && |s.Queue()| < |s.ring| - 1 && NoPushCall(steps)
    ensures Pushing(s, Run(Next(s, CallPush(m)), steps), m, Count(steps, Produce))
    decreases |steps|
  {
    hide Next, ProducerInv, ConsumerInv;
    CallStarts(s, m);
    if steps != [] {
      var k := |steps| - 1;
      PushRuns(s, m, steps[..k]);
      RunKeeps(Next(s, CallPush(m)), steps[..k]);
      PushingStep(s, Run(Next(s, CallPush(m)), steps[..k]), m, Count(steps[..k], Produce), steps[k]);
    }
  }

  lemma CallStarts(s: State, m: Message)
    requires Inv(s) && s.producer == NoPush
    ensures Inv(Next(s, CallPush(m)))
    ensures |s.Queue()| < |s.ring| - 1 ==> Pushing(s, Next(s, CallPush(m)), m, 0)
  {
    hide Contents, ProducerInv, ConsumerInv;
    InvKept(s, CallPush(m));
  }

  /** Whatever the other thread does meanwhile, a push that finds room is through
      after four steps of its own: the message is accepted, and with that in the
      queue or already popped. */
  lemma PushGetsThrough(s: State, m: Message, steps: seq<Step>)
    requires Inv(s) && s.producer == NoPush && |s.Queue()| < |s.ring| - 1
    requires NoPushCall(steps) && Count(steps, Produce) >= 4
    ensures var r := Run(Next(s, CallPush(m)), steps);
            r.producer == NoPush && r.accepted == s.accepted + [m] && r.popped + r.Queue() == s.accepted + [m]
  {
    hide Next, ProducerInv, ConsumerInv;
    PushRuns(s, m, steps);
    CallStarts(s, m);
    RunKeeps(Next(s, CallPush(m)), steps);
  }

  /** A push that finds the ring full, and no pop at work, is refused. */
  lemma PushIsRefused(s: State, m: Message)
    requires Inv(s) && s.producer == NoPush && |s.Queue()| == |s.ring| - 1
    ensures Run(s, [CallPush(m), Produce]) == s
  {
    hide Contents;
    assert [CallPush(m), Produce][..1] == [CallPush(m)] && [CallPush(m)][..0] == [];
    assert Run(s, [CallPush(m)]) == Next(s, CallPush(m));
  }

  /** No further call of pop is made. */
  predicate NoPopCall(steps: seq<Step>) { CallPop !in steps }

  /** A pop that began in `s0`, where `m` came first, after `k` steps of its thread. */
  predicate Popping(s0: State, s: State, m: Message, k: nat)
    requires Fits(s)
  {
    && s.popped == s0.popped + (if k >= 4 then [m] else [])
    && (k < 4 ==> s.Queue() != [] && s.Queue()[0] == m)
    && if k == 0 then s.consumer.HasBack? && Size(s.consumer.back, s.front, |s.ring|) != 0
       else if k == 1 then s.consumer == ReadsBytes(s.front)
       else if k == 2 then s.consumer.ReadsTime?
       else if k == 3 then s.consumer == MovesFront(m)
       else s.consumer == NoPop
  }

  lemma ProducerAppends(s: State, step: Step)
    requires Inv(s) && (step.CallPush? || step == Produce)
    ensures var r := Next(s, step);
            r.consumer == s.consumer && r.popped == s.popped && r.front == s.front && s.Queue() <= r.Queue()
  {
    hide Contents, Next, ProducerInv, ConsumerInv;
    InvKept(s, step);
    ProducerOnly(s, step);
    SameFront(s.popped, s.Queue(), Next(s, step).Queue());
  }

  lemma ProducerOnly(s: State, step: Step)
    requires Fits(s) && (step.CallPush? || step == Produce)
    ensures var r := Next(s, step);
            r.consumer == s.consumer && r.popped == s.popped && r.front == s.front && s.accepted <= r.accepted
  {
    hide Contents;
  }

  lemma SameFront<T>(p: seq<T>, a: seq<T>, b: seq<T>)
    requires p + a <= p + b
    ensures a <= b
  {
    assert |a| <= |b|;
    forall i | 0 <= i < |a| ensures a[i] == b[i] {
      assert (p + a)[|p| + i] == (p + b)[|p| + i];
    }
  }

  lemma FirstElement(s: State)
    requires Fits(s) && s.Queue() != []
    ensures s.Queue()[0] == s.ring[s.front]
  {
  }

  lemma PoppingStep(s0: State, s: State, m: Message, k: nat, step: Step)
    requires Inv(s) && Popping(s0, s, m, k) && step != CallPop
    ensures Popping(s0, Next(s, step), m, if step == Consume then k + 1 else k)
  {
    hide Contents, ProducerInv;
    if step == Consume {
      if k < 4 { FirstElement(s); }
    } else {
      ProducerAppends(s, step);
    }
  }

  lemma PopStarts(s: State)
    requires Inv(s) && s.consumer == NoPop
    ensures Inv(Next(s, CallPop))
    ensures s.Queue() != [] ==> Popping(s, Next(s, CallPop), s.Queue()[0], 0)
  {
    hide Contents, ProducerInv, ConsumerInv;
    InvKept(s, CallPop);
  }

  lemma {:induction false} PopRuns(s: State, steps: seq<Step>)
    requires Inv(s) && s.consumer == NoPop && s.Queue() != [] && NoPopCall(steps)
    ensures Popping(s, Run(Next(s, CallPop), steps), s.Queue()[0], Count(steps, Consume))
    decreases |steps|
  {
    hide Next, ProducerInv, ConsumerInv;
    PopStarts(s);
    if steps != [] {
      var k := |steps| - 1;
      assert steps[k] in steps && forall x :: x in steps[..k] ==> x in steps;
      PopRuns(s, steps[..k]);
      RunKeeps(Next(s, CallPop), steps[..k]);
      PoppingStep(s, Run(Next(s, CallPop), steps[..k]), s.Queue()[0], Count(steps[..k], Consume), steps[k]);
    }
  }

  /** Whatever the other thread does meanwhile, a pop that finds the queue not
      empty has the message that came first after four steps of its own. */
  lemma PopGetsThrough(s: State, steps: seq<Step>)
    requires Inv(s) && s.consumer == NoPop && s.Queue() != [] && NoPopCall(steps) && Count(steps, Consume) >= 4
    ensures var r := Run(Next(s, CallPop), steps); r.consumer == NoPop && r.popped == s.popped + [s.Queue()[0]]
  {
    hide Next, ProducerInv, ConsumerInv;
    PopRuns(s, steps);
  }

  /** A pop that finds the queue empty, and no push at work, is refused. */
  lemma PopIsRefused(s: State)
    requires Inv(s) && s.consumer == NoPop && s.Queue() == []
    ensures Run(s, [CallPop, Consume]) == s
  {
    hide Contents;
    assert [CallPop, Consume][..1] == [CallPop] && [CallPop][..0] == [];
    assert Run(s, [CallPop]) == Next(s, CallPop);
  }

  // ---------------------------------------------------------- the queue itself

  /** The struct, used by one thread at a time. */
  class Queue {
    var front: nat
    var back: nat
    const ringSize: nat
    const ring: array<Message>

    predicate Valid()
      reads this
    {
      ring.Length == ringSize && front < ringSize && back < ringSize
    }

    function Elements(): (q: seq<Message>)
      requires Valid()
      reads this, ring
    {
      Contents(ring[..], front, back)
    }

    constructor (queueSizeLimit: nat)
      requires queueSizeLimit > 0
      ensures Valid() && fresh(ring) && ringSize == queueSizeLimit && Elements() == []
    {
      front, back, ringSize := 0, 0, queueSizeLimit;
      ring := new Message[queueSizeLimit](_ => Message([], 0));
    }

    method SizeNow() returns (size: nat, oldBack: nat, oldFront: nat)
      requires Valid()
      ensures size == |Elements()| && oldBack == back && oldFront == front
    {
      oldBack, oldFront := back, front;
      if oldBack >= oldFront {
        size := oldBack - oldFront;
      } else {
        size := ringSize - oldFront + oldBack;
      }
    }

    method Push(msg: Message) returns (ok: bool)
      requires Valid()
      modifies this, ring
      ensures Valid() && ok == (|old(Elements())| < ringSize - 1)
      ensures Elements() == if ok then old(Elements()) + [msg] else old(Elements())
    {
      hide Contents;
      ghost var before := ring[..];
      var size, b, f := SizeNow();
      if size < ringSize - 1 {
        ring[b] := msg;
        assert ring[..] == before[back := msg];
        OutsideWrite(before, front, back, msg);
        Grow(ring[..], front, back);
        WrapIsModulo(back, ringSize);
        back := (back + 1) % ringSize;
        return true;
      }
      return false;
    }

    method Pop() returns (ok: bool, msg: Message)
      requires Valid()
      modifies this
      ensures Valid() && ok == (old(Elements()) != [])
      ensures if ok then old(Elements()) == [msg] + Elements() else Elements() == old(Elements())
    {
      hide Contents;
      var size, b, f := SizeNow();
      msg := Message([], 0);
      if size == 0 {
        return false, msg;
      }
      msg := ring[f];
      Shrink(ring[..], front, back);
      WrapIsModulo(front, ringSize);
      front := (front + 1) % ringSize;
      return true, msg;
    }
  }
}
