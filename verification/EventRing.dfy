/**
 * The lock-free ring between the network thread and the game thread (`net/udp_client.cpp`), as interleaved
 * steps: every atomic load and store, the length and each copied byte of a packet is a step of its own.
 */
module EventRing {
  import opened Basics

  const SLOTS: nat := 256
  const DATA: nat := 1500

  type Packet = p: seq<bv8> | |p| <= DATA

  datatype Slot = Slot(len: nat, data: seq<bv8>)

  /** Where the network thread is while it enqueues a packet. */
  datatype Producer =
    | Idle
    | HasHead(packet: Packet, head: nat)
    | Sizing(packet: Packet, head: nat)
    | Filling(packet: Packet, head: nat, copied: nat)

  /** Where the game thread is in `PollEvent`. */
  datatype Consumer =
    | Resting
    | HasTail(max: nat, tail: nat)
    | Measuring(max: nat, tail: nat)
    | Copying(max: nat, tail: nat, len: nat, out: seq<bv8>)
    | Skipping(max: nat, tail: nat)

  datatype State = State(ring: seq<Slot>, head: nat, tail: nat, dropped: nat, producer: Producer, consumer: Consumer)

  /** What a step does, seen from outside. */
  datatype Event =
    | Silent
    | Enqueued(packet: Packet)
    | RefusedFull(packet: Packet)
    | FoundEmpty
    | Delivered(max: nat, bytes: seq<bv8>)
    | DiscardedLong(max: nat)

  datatype Turn = Produce(packet: Packet) | Consume(max: nat)

  function Next(i: nat): nat { (i + 1) % SLOTS }

  /** A resting producer starts on `packet`; a busy one goes on with what it has. */
  function ProducerStep(s: State, packet: Packet): (State, Event) {
    match s.producer
    case Idle => (s.(producer := HasHead(packet, s.head)), Silent)
    case HasHead(p, head) =>
      if Next(head) != s.tail then (s.(producer := Sizing(p, head)), Silent)
      else (s.(producer := Idle, dropped := s.dropped + 1), RefusedFull(p))
    case Sizing(p, head) =>
      if head >= |s.ring| then (s, Silent)
      else (s.(ring := s.ring[head := s.ring[head].(len := |p|)], producer := Filling(p, head, 0)), Silent)
    case Filling(p, head, i) =>
      if i >= |p| then (s.(head := Next(head), producer := Idle), Enqueued(p))
      else if head >= |s.ring| || i >= |s.ring[head].data| then (s, Silent)
      else (s.(ring := s.ring[head := s.ring[head].(data := s.ring[head].data[i := p[i]])],
          producer := Filling(p, head, i + 1)), Silent)
  }

  function ConsumerStep(s: State, max: nat): (State, Event) {
    match s.consumer
    case Resting => (s.(consumer := HasTail(max, s.tail)), Silent)
    case HasTail(m, tail) =>
      if tail == s.head then (s.(consumer := Resting), FoundEmpty) else (s.(consumer := Measuring(m, tail)), Silent)
    case Measuring(m, tail) =>
      if tail >= |s.ring| then (s, Silent)
      else if s.ring[tail].len > m then (s.(consumer := Skipping(m, tail), dropped := s.dropped + 1), Silent)
      else (s.(consumer := Copying(m, tail, s.ring[tail].len, [])), Silent)
    case Copying(m, tail, len, out) =>
      if |out| >= len then (s.(tail := Next(tail), consumer := Resting), Delivered(m, out))
      else if tail >= |s.ring| || |out| >= |s.ring[tail].data| then (s, Silent)
      else (s.(consumer := Copying(m, tail, len, out + [s.ring[tail].data[|out|]])), Silent)
    case Skipping(m, tail) => (s.(tail := Next(tail), consumer := Resting), DiscardedLong(m))
  }

  function Step(s: State, t: Turn): (State, Event) {
    if t.Produce? then ProducerStep(s, t.packet) else ConsumerStep(s, t.max)
  }

  ghost predicate Initial(s: State) {
    && |s.ring| == SLOTS && (forall i :: 0 <= i < SLOTS ==> |s.ring[i].data| == DATA)
    && s.head == 0 && s.tail == 0 && s.dropped == 0 && s.producer.Idle? && s.consumer.Resting?
  }

  function Trace(s: State, schedule: seq<Turn>): seq<Event>
    decreases |schedule|
  {
    if schedule == [] then [] else
      var (after, e) := Step(s, schedule[0]);
      [e] + Trace(after, schedule[1..])
  }

  // ---- A bounded queue ----

  /** An event that a FIFO of at most 255 packets may show, and its contents afterwards. */
  function Queue(q: seq<Packet>, e: Event): Option<seq<Packet>> {
    match e
    case Silent => Some(q)
    case Enqueued(p) => if |q| < 255 then Some(q + [p]) else None
    case RefusedFull(_) => if |q| == 255 then Some(q) else None
    case FoundEmpty => if q == [] then Some(q) else None
    case Delivered(max, p) => if q != [] && q[0] == p && |p| <= max then Some(q[1..]) else None
    case DiscardedLong(max) => if q != [] && |q[0]| > max then Some(q[1..]) else None
  }

  function QueueAll(q: seq<Packet>, es: seq<Event>): Option<seq<Packet>>
    decreases |es|
  {
    if es == [] then Some(q)
    else match Queue(q, es[0])
      case None => None
      case Some(after) => QueueAll(after, es[1..])
  }

  // ---- The invariant ----

  predicate Holds(slot: Slot, p: Packet) {
    slot.len == |p| && |slot.data| == DATA && slot.data[..|p|] == p
  }

  /**
   * The ring holds the queue in the slots after `tail`, one slot at least is free, and nobody else's slot is touched.
   */
  ghost predicate Inv(s: State, q: seq<Packet>) {
    && |s.ring| == SLOTS && (forall i :: 0 <= i < SLOTS ==> |s.ring[i].data| == DATA)
    && s.tail < SLOTS && |q| < SLOTS && s.head == (s.tail + |q|) % SLOTS
    && (forall k :: 0 <= k < |q| ==> Holds(s.ring[(s.tail + k) % SLOTS], q[k]))
    && ProducerInv(s, q) && ConsumerInv(s, q)
  }

  ghost predicate ProducerInv(s: State, q: seq<Packet>)
    requires |s.ring| == SLOTS && s.head < SLOTS
  {
    match s.producer
    case Idle => true
    case HasHead(_, head) => head == s.head
    case Sizing(_, head) => head == s.head && |q| < SLOTS - 1
    case Filling(p, head, i) =>
      && head == s.head && |q| < SLOTS - 1 && i <= |p|
      && s.ring[head].len == |p| && |s.ring[head].data| == DATA && s.ring[head].data[..i] == p[..i]
  }

  ghost predicate ConsumerInv(s: State, q: seq<Packet>) {
    match s.consumer
    case Resting => true
    case HasTail(_, tail) => tail == s.tail
    case Measuring(_, tail) => tail == s.tail && q != []
    case Copying(m, tail, len, out) => tail == s.tail && q != [] && len == |q[0]| <= m && |out| <= len
        && out == q[0][..|out|]
    case Skipping(m, tail) => tail == s.tail && q != [] && |q[0]| > m
  }

  lemma Wrap(tail: nat, k: nat)
    requires tail < SLOTS && k < SLOTS
    ensures (tail + k) % SLOTS == if tail + k < SLOTS then tail + k else tail + k - SLOTS
    ensures Next((tail + k) % SLOTS) == (tail + k + 1) % SLOTS
  {
  }

  lemma FullIff(tail: nat, n: nat)
    requires tail < SLOTS && n < SLOTS
    ensures Next((tail + n) % SLOTS) == tail <==> n == SLOTS - 1
    ensures (tail + n) % SLOTS == tail <==> n == 0
  {
  }

  lemma NextWrap(tail: nat, k: nat)
    requires tail < SLOTS && k < SLOTS
    ensures Next(tail) < SLOTS && (Next(tail) + k) % SLOTS == (tail + (k + 1)) % SLOTS
  {
  }

  /** The producer's slot holds none of the queued packets. */
  lemma FreeSlot(s: State, q: seq<Packet>, k: nat)
    requires Inv(s, q) && k < |q|
    ensures (s.tail + k) % SLOTS != s.head
  {
  }

  /** Writing the producer's slot and moving the producer on keeps everything else. */
  lemma WriteKeeps(s: State, q: seq<Packet>, slot: Slot, producer: Producer)
    requires Inv(s, q) && |slot.data| == DATA
    requires ProducerInv(s.(ring := s.ring[s.head := slot], producer := producer), q)
    ensures Inv(s.(ring := s.ring[s.head := slot], producer := producer), q)
  {
    hide Holds, ProducerInv;
    forall k | 0 <= k < |q|
      ensures Holds(s.ring[s.head := slot][(s.tail + k) % SLOTS], q[k])
    {
      FreeSlot(s, q, k);
    }
  }

  lemma MoveProducer(s: State, q: seq<Packet>, producer: Producer, dropped: nat)
    requires Inv(s, q) && ProducerInv(s.(producer := producer), q)
    ensures Inv(s.(producer := producer, dropped := dropped), q)
  {
    hide Holds;
  }

  lemma MoveConsumer(s: State, q: seq<Packet>, consumer: Consumer, dropped: nat)
    requires Inv(s, q) && ConsumerInv(s.(consumer := consumer), q)
    ensures Inv(s.(consumer := consumer, dropped := dropped), q)
  {
    hide Holds;
  }

  lemma Bounds(s: State, q: seq<Packet>)
    requires Inv(s, q)
    ensures |s.ring| == SLOTS && s.head < SLOTS && s.tail < SLOTS && |q| < SLOTS
    ensures ProducerInv(s, q) && ConsumerInv(s, q)
    ensures Next(s.head) == s.tail <==> |q| == SLOTS - 1
    ensures s.head == s.tail <==> q == []
    ensures forall i :: 0 <= i < SLOTS ==> |s.ring[i].data| == DATA
  {
    hide Holds, ProducerInv, ConsumerInv;
    FullIff(s.tail, |q|);
  }

  lemma FillStep(s: State, q: seq<Packet>)
    requires Inv(s, q) && (s.producer.Sizing? || (s.producer.Filling? && s.producer.copied < |s.producer.packet|))
    ensures var (after, e) := ProducerStep(s, []);
      e == Silent && Inv(after, q) && after.dropped == s.dropped
  {
    hide Inv, Next;
    Bounds(s, q);
    var p, head := s.producer.packet, s.producer.head;
    if s.producer.Sizing? {
      WriteKeeps(s, q, s.ring[head].(len := |p|), Filling(p, head, 0));
    } else {
      var i := s.producer.copied;
      var data := s.ring[head].data[i := p[i]];
      assert data[..i + 1] == p[..i + 1];
      WriteKeeps(s, q, s.ring[head].(data := data), Filling(p, head, i + 1));
    }
  }

  lemma ProducerStepRefines(s: State, q: seq<Packet>, packet: Packet)
    requires Inv(s, q)
    ensures var (after, e) := ProducerStep(s, packet);
      var out := Queue(q, e);
      && out.Some? && Inv(after, out.value)
      && after.dropped == s.dropped + (if e.RefusedFull? then 1 else 0)
  {
    hide Inv, Next;
    Bounds(s, q);
    match s.producer
    case Idle => MoveProducer(s, q, HasHead(packet, s.head), s.dropped);
    case HasHead(p, head) =>
      if |q| < SLOTS - 1 {
        MoveProducer(s, q, Sizing(p, head), s.dropped);
      } else {
        MoveProducer(s, q, Idle, s.dropped + 1);
      }
    case Sizing(p, head) => FillStep(s, q);
    case Filling(p, head, i) =>
      if i < |p| {
        FillStep(s, q);
      } else {
        assert p[..i] == p;
        Publish(s, q, p);
      }
  }

  lemma Publish(s: State, q: seq<Packet>, p: Packet)
    requires Inv(s, q) && |q| < SLOTS - 1 && s.ring[s.head].len == |p| && s.ring[s.head].data[..|p|] == p
    ensures Inv(s.(head := Next(s.head), producer := Idle), q + [p])
  {
    assert Holds(s.ring[s.head], p);
    hide Holds;
    Wrap(s.tail, |q|);
    forall k | 0 <= k < |q + [p]|
      ensures Holds(s.ring[(s.tail + k) % SLOTS], (q + [p])[k])
    {
    }
  }

  lemma ConsumerStepRefines(s: State, q: seq<Packet>, max: nat)
    requires Inv(s, q)
    ensures var (after, e) := ConsumerStep(s, max);
      var out := Queue(q, e);
      && out.Some? && Inv(after, out.value)
      && after.dropped == s.dropped + (if after.consumer.Skipping? && !s.consumer.Skipping? then 1 else 0)
  {
    hide Inv, Next;
    Bounds(s, q);
    if q != [] {
      FirstSlot(s, q);
    }
    match s.consumer
    case Resting => MoveConsumer(s, q, HasTail(max, s.tail), s.dropped);
    case HasTail(m, tail) =>
      MoveConsumer(s, q, if q == [] then Resting else Measuring(m, tail), s.dropped);
    case Measuring(m, tail) =>
      var len := s.ring[tail].len;
      if len > m {
        MoveConsumer(s, q, Skipping(m, tail), s.dropped + 1);
      } else {
        MoveConsumer(s, q, Copying(m, tail, len, []), s.dropped);
      }
    case Copying(m, tail, len, out) =>
      if |out| < len {
        CopyByte(s, q);
      } else {
        assert q[0][..|out|] == q[0];
        Take(s, q);
      }
    case Skipping(m, tail) => Take(s, q);
  }

  lemma CopyByte(s: State, q: seq<Packet>)
    requires Inv(s, q) && s.consumer.Copying? && |s.consumer.out| < s.consumer.len
    ensures Inv(ConsumerStep(s, 0).0, q) && ConsumerStep(s, 0).1 == Silent && ConsumerStep(s, 0).0.dropped == s.dropped
  {
    hide Inv, Next;
    Bounds(s, q);
    FirstSlot(s, q);
    var c := s.consumer;
    var n := |c.out|;
    assert s.ring[s.tail].data[n] == s.ring[s.tail].data[..c.len][n];
    var out := c.out + [q[0][n]];
    assert out == q[0][..n + 1];
    MoveConsumer(s, q, Copying(c.max, c.tail, c.len, out), s.dropped);
  }

  lemma FirstSlot(s: State, q: seq<Packet>)
    requires Inv(s, q) && q != []
    ensures Holds(s.ring[s.tail], q[0])
  {
    assert (s.tail + 0) % SLOTS == s.tail;
  }

  lemma Take(s: State, q: seq<Packet>)
    requires Inv(s, q) && q != []
    ensures Inv(s.(tail := Next(s.tail), consumer := Resting), q[1..])
  {
    hide Holds;
    var tail := Next(s.tail);
    NextWrap(s.tail, |q| - 1);
    forall k | 0 <= k < |q| - 1
      ensures Holds(s.ring[(tail + k) % SLOTS], q[1..][k])
    {
      NextWrap(s.tail, k);
      assert Holds(s.ring[(s.tail + (k + 1)) % SLOTS], q[k + 1]);
    }
  }

  /** Under every interleaving the ring behaves as a FIFO queue of at most 255 packets. */
  lemma {:induction false} RunRefines(s: State, q: seq<Packet>, schedule: seq<Turn>)
    requires Inv(s, q)
    ensures QueueAll(q, Trace(s, schedule)).Some?
    decreases |schedule|
  {
    hide Inv, ProducerStep, ConsumerStep;
    if schedule != [] {
      var t := schedule[0];
      if t.Produce? {
        ProducerStepRefines(s, q, t.packet);
      } else {
        ConsumerStepRefines(s, q, t.max);
      }
      var (after, e) := Step(s, t);
      RunRefines(after, Queue(q, e).value, schedule[1..]);
    }
  }

  lemma EveryRunIsFifo(s: State, schedule: seq<Turn>)
    requires Initial(s)
    ensures QueueAll([], Trace(s, schedule)).Some?
  {
    assert Inv(s, []);
    RunRefines(s, [], schedule);
  }

  // ---- Every operation is answered ----

  /** The steps an enqueue still needs, whatever the other thread does. */
  function ProducerLeft(p: Producer): nat {
    match p
    case Idle => 0
    case HasHead(packet, _) => |packet| + 3
    case Sizing(packet, _) => |packet| + 2
    case Filling(packet, _, i) => if i <= |packet| then |packet| - i + 1 else 0
  }

  function ConsumerLeft(c: Consumer): nat {
    match c
    case Resting => 0
    case HasTail(_, _) => DATA + 3
    case Measuring(_, _) => DATA + 2
    case Copying(_, _, len, out) => if |out| <= len then len - |out| + 1 else 0
    case Skipping(_, _) => 1
  }

  predicate AnswersProducer(e: Event) { e.Enqueued? || e.RefusedFull? }

  predicate AnswersConsumer(e: Event) { e.FoundEmpty? || e.Delivered? || e.DiscardedLong? }

  /** An enqueue goes on with its packet and comes nearer to its answer with every step of its own. */
  lemma ProducerProgress(s: State, q: seq<Packet>, t: Turn)
    requires Inv(s, q) && !s.producer.Idle?
    ensures var (after, e) := Step(s, t);
      if t.Consume? then after.producer == s.producer && !AnswersProducer(e)
      else if e.Silent? then
        && !after.producer.Idle? && after.producer.packet == s.producer.packet
        && ProducerLeft(after.producer) == ProducerLeft(s.producer) - 1
      else after.producer.Idle? && (e == Enqueued(s.producer.packet) || e == RefusedFull(s.producer.packet))
  {
    hide Inv, Next;
    Bounds(s, q);
  }

  lemma ConsumerProgress(s: State, q: seq<Packet>, t: Turn)
    requires Inv(s, q) && !s.consumer.Resting?
    ensures var (after, e) := Step(s, t);
      if t.Produce? then after.consumer == s.consumer && !AnswersConsumer(e)
      else if e.Silent? then
        && !after.consumer.Resting? && after.consumer.max == s.consumer.max
        && ConsumerLeft(after.consumer) < ConsumerLeft(s.consumer)
      else after.consumer.Resting? && AnswersConsumer(e) && (e.FoundEmpty? || e.max == s.consumer.max)
  {
    hide Inv, Next;
    Bounds(s, q);
    if q != [] {
      FirstSlot(s, q);
    }
  }

  function FirstAnswer(es: seq<Event>, answers: Event -> bool): Option<Event> {
    if es == [] then None else if answers(es[0]) then Some(es[0]) else FirstAnswer(es[1..], answers)
  }

  function Turns(schedule: seq<Turn>, produce: bool): nat {
    if schedule == [] then 0 else (if schedule[0].Produce? == produce then 1 else 0) + Turns(schedule[1..], produce)
  }

  /**
   * An enqueue under way is answered for its own packet once the network thread has had as many steps as the packet
   * has bytes and three, however they are interleaved with the game thread.
   */
  lemma {:induction false} EnqueueIsAnswered(s: State, q: seq<Packet>, schedule: seq<Turn>)
    requires Inv(s, q) && !s.producer.Idle? && Turns(schedule, true) >= |s.producer.packet| + 3
    ensures FirstAnswer(Trace(s, schedule), AnswersProducer)
            in {Some(Enqueued(s.producer.packet)), Some(RefusedFull(s.producer.packet))}
  {
    EnqueueWithin(s, q, schedule);
  }

  lemma {:induction false} EnqueueWithin(s: State, q: seq<Packet>, schedule: seq<Turn>)
    requires Inv(s, q) && !s.producer.Idle? && Turns(schedule, true) >= ProducerLeft(s.producer)
    ensures FirstAnswer(Trace(s, schedule), AnswersProducer)
            in {Some(Enqueued(s.producer.packet)), Some(RefusedFull(s.producer.packet))}
    decreases |schedule|
  {
    hide Inv, Step;
    StillLeft(s, q);
    var t := schedule[0];
    var (after, e) := Step(s, t);
    var rest := Trace(after, schedule[1..]);
    assert Trace(s, schedule) == [e] + rest && ([e] + rest)[1..] == rest;
    ProducerProgress(s, q, t);
    if !AnswersProducer(e) {
      StepKeeps(s, q, t);
      EnqueueWithin(after, Queue(q, e).value, schedule[1..]);
    }
  }

  /** A poll under way is answered for its own room within 1503 steps of the game thread. */
  lemma {:induction false} PollIsAnswered(s: State, q: seq<Packet>, schedule: seq<Turn>)
    requires Inv(s, q) && !s.consumer.Resting? && Turns(schedule, false) >= 1503
    ensures var e := FirstAnswer(Trace(s, schedule), AnswersConsumer);
      e.Some? && AnswersConsumer(e.value) && (e.value.FoundEmpty? || e.value.max == s.consumer.max)
  {
    StillLeft(s, q);
    PollWithin(s, q, schedule);
  }

  lemma {:induction false} PollWithin(s: State, q: seq<Packet>, schedule: seq<Turn>)
    requires Inv(s, q) && !s.consumer.Resting? && Turns(schedule, false) >= ConsumerLeft(s.consumer)
    ensures var e := FirstAnswer(Trace(s, schedule), AnswersConsumer);
      e.Some? && AnswersConsumer(e.value) && (e.value.FoundEmpty? || e.value.max == s.consumer.max)
    decreases |schedule|
  {
    hide Inv, Step;
    StillLeft(s, q);
    var t := schedule[0];
    var (after, e) := Step(s, t);
    var rest := Trace(after, schedule[1..]);
    assert Trace(s, schedule) == [e] + rest && ([e] + rest)[1..] == rest;
    ConsumerProgress(s, q, t);
    if !AnswersConsumer(e) {
      StepKeeps(s, q, t);
      PollWithin(after, Queue(q, e).value, schedule[1..]);
    }
  }

  lemma StillLeft(s: State, q: seq<Packet>)
    requires Inv(s, q)
    ensures !s.producer.Idle? ==> 1 <= ProducerLeft(s.producer) <= |s.producer.packet| + 3
    ensures !s.consumer.Resting? ==> 1 <= ConsumerLeft(s.consumer) <= 1503
  {
    hide Holds;
  }

  lemma StepKeeps(s: State, q: seq<Packet>, t: Turn)
    requires Inv(s, q)
    ensures var (after, e) := Step(s, t); Queue(q, e).Some? && Inv(after, Queue(q, e).value)
  {
    hide Inv, Queue, ProducerStep, ConsumerStep;
    if t.Produce? {
      ProducerStepRefines(s, q, t.packet);
    } else {
      ConsumerStepRefines(s, q, t.max);
    }
  }

  /** A resting thread takes on what its turn asks for. */
  lemma TurnBegins(s: State, t: Turn)
    ensures var (after, e) := Step(s, t);
      && (t.Produce? && s.producer.Idle? ==>
            e.Silent? && !after.producer.Idle? && after.producer.packet == t.packet
            && after.(producer := s.producer) == s)
      && (t.Consume? && s.consumer.Resting? ==>
            e.Silent? && !after.consumer.Resting? && after.consumer.max == t.max
            && after.(consumer := s.consumer) == s)
  {
  }

  // ---- What a queue's events say ----

  function SentBy(e: Event): seq<Packet> {
    if e.Enqueued? then [e.packet] else []
  }

  /** The packet an event takes out, with the room its poll had; None when it did not fit. */
  function PolledBy(e: Event): seq<(nat, Option<seq<bv8>>)> {
    match e
    case Delivered(m, p) => [(m, Some(p))]
    case DiscardedLong(m) => [(m, None)]
    case _ => []
  }

  function Sent(es: seq<Event>): seq<Packet> {
    if es == [] then [] else SentBy(es[0]) + Sent(es[1..])
  }

  function Polled(es: seq<Event>): seq<(nat, Option<seq<bv8>>)> {
    if es == [] then [] else PolledBy(es[0]) + Polled(es[1..])
  }

  /** The k-th take gets the k-th accepted packet, whole, unless it is too long for the poll. */
  ghost predicate InOrder(sent: seq<Packet>, polled: seq<(nat, Option<seq<bv8>>)>) {
    |polled| <= |sent|
    && forall k :: 0 <= k < |polled| ==>
         polled[k].1 == (if |sent[k]| > polled[k].0 then None else Some(sent[k]))
  }

  lemma {:induction false} QueueOrder(q: seq<Packet>, es: seq<Event>)
    requires QueueAll(q, es).Some? && |q| < SLOTS
    ensures InOrder(q + Sent(es), Polled(es))
    ensures |q + Sent(es)| - |Polled(es)| < SLOTS
    decreases |es|
  {
    hide InOrder, Queue;
    if es == [] {
      Untouched(q);
    } else {
      QueueGrows(q, es[0]);
      QueueOrder(Queue(q, es[0]).value, es[1..]);
      OrderStep(q, es[0], Sent(es[1..]), Polled(es[1..]));
    }
  }

  lemma Untouched(q: seq<Packet>)
    ensures InOrder(q + [], []) && |q + []| == |q|
  {
  }

  lemma QueueGrows(q: seq<Packet>, e: Event)
    requires |q| < SLOTS && Queue(q, e).Some?
    ensures |Queue(q, e).value| < SLOTS
  {
  }

  lemma TakenFirst(p: Packet, sent: seq<Packet>, first: (nat, Option<seq<bv8>>), polled: seq<(nat, Option<seq<bv8>>)>)
    requires InOrder(sent, polled) && first.1 == (if |p| > first.0 then None else Some(p))
    ensures InOrder([p] + sent, [first] + polled)
  {
  }

  lemma OrderStep(q: seq<Packet>, e: Event, sent: seq<Packet>, polled: seq<(nat, Option<seq<bv8>>)>)
    requires Queue(q, e).Some?
    requires InOrder(Queue(q, e).value + sent, polled) && |Queue(q, e).value + sent| - |polled| < SLOTS
    ensures var all := q + (SentBy(e) + sent);
      InOrder(all, PolledBy(e) + polled) && |all| - |PolledBy(e) + polled| < SLOTS
  {
    hide InOrder;
    var after := Queue(q, e).value;
    var all := q + (SentBy(e) + sent);
    if e.Delivered? || e.DiscardedLong? {
      assert all == [q[0]] + (after + sent);
      TakenFirst(q[0], after + sent, PolledBy(e)[0], polled);
      assert PolledBy(e) == [PolledBy(e)[0]];
    } else {
      assert after + sent == all;
      assert PolledBy(e) + polled == polled;
    }
  }

  /** Polled packets are the accepted ones, in order and intact; at most 255 are waiting. */
  lemma PolledInOrder(s: State, schedule: seq<Turn>)
    requires Initial(s)
    ensures var es := Trace(s, schedule);
      InOrder(Sent(es), Polled(es)) && |Sent(es)| - |Polled(es)| <= 255
  {
    var es := Trace(s, schedule);
    EveryRunIsFifo(s, schedule);
    QueueOrder([], es);
    assert [] + Sent(es) == Sent(es);
  }
}
