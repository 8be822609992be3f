/**
  The ring of two threads, one producer and one consumer, as a step system.  A push is its
  test for a full ring, the copy of the message word by word in any order, and the
  publication of the new head; a pop is its test for an empty ring, the word copy and the
  publication of the new tail.  Memory is sequentially consistent.
 */
module ConcurrentRing {

  import opened Slots

  type Message = seq<nat>

  /** What a thread is doing: nothing, or copying; done are the words copied so far. */
  datatype Thread = Idle | Copying(msg: Message, done: set<nat>)

  /** accepted and delivered record the messages pushed and popped so far. */
  datatype State = State(width: nat, slots: seq<Message>, head: nat, tail: nat,
                         producer: Thread, consumer: Thread,
                         accepted: seq<Message>, delivered: seq<Message>)

  datatype Action =
    | PushRefused
    | PushBegin(msg: Message)
    | PushWord(i: nat)
    | PushPublish
    | PopRefused
    | PopBegin(buffer: Message)
    | PopWord(j: nat)
    | PopPublish

  predicate Shape(s: State) {
    && |s.slots| == SLOT_COUNT && s.head < SLOT_COUNT && s.tail < SLOT_COUNT
    && (forall k: nat :: k < SLOT_COUNT ==> |s.slots[k]| == s.width)
    && (s.producer.Copying? ==> |s.producer.msg| == s.width)
    && (s.consumer.Copying? ==> |s.consumer.msg| == s.width)
  }

  ghost predicate AllDone(t: Thread, width: nat)
    requires t.Copying?
  {
    forall i: nat :: i < width ==> i in t.done
  }

  ghost predicate Enabled(s: State, a: Action) {
    match a
    case PushRefused => s.producer.Idle? && Next(s.head) == s.tail
    case PushBegin(msg) => s.producer.Idle? && Next(s.head) != s.tail && |msg| == s.width
    case PushWord(i) => s.producer.Copying? && i < s.width && i !in s.producer.done
    case PushPublish => s.producer.Copying? && AllDone(s.producer, s.width)
    case PopRefused => s.consumer.Idle? && s.head == s.tail
    case PopBegin(buffer) => s.consumer.Idle? && s.head != s.tail && |buffer| == s.width
    case PopWord(j) => s.consumer.Copying? && j < s.width && j !in s.consumer.done
    case PopPublish => s.consumer.Copying? && AllDone(s.consumer, s.width)
  }

  function Publish(s: State): State
    requires s.producer.Copying?
  {
    s.(head := Next(s.head), producer := Idle, accepted := s.accepted + [s.producer.msg])
  }

  ghost function Do(s: State, a: Action): State
    requires Shape(s) && Enabled(s, a)
  {
    match a
    case PushRefused => s
    case PushBegin(msg) => s.(producer := Copying(msg, {}))
    case PushWord(i) =>
      s.(slots := s.slots[s.head := s.slots[s.head][i := s.producer.msg[i]]],
         producer := s.producer.(done := s.producer.done + {i}))
    case PushPublish => Publish(s)
    case PopRefused => s
    case PopBegin(buffer) => s.(consumer := Copying(buffer, {}))
    case PopWord(j) =>
      s.(consumer := Copying(s.consumer.msg[j := s.slots[s.tail][j]], s.consumer.done + {j}))
    case PopPublish =>
      s.(tail := Next(s.tail), consumer := Idle, delivered := s.delivered + [s.consumer.msg])
  }

  ghost predicate Initial(s: State) {
    Shape(s) && s.head == s.tail == 0 && s.producer == s.consumer == Idle && s.accepted == s.delivered == []
  }

  /** Messages published and not yet taken. */
  ghost function Queue(s: State): seq<Message>
    requires |s.delivered| <= |s.accepted|
  {
    s.accepted[|s.delivered|..]
  }

  ghost predicate Copied(from: Message, to: Message, done: set<nat>) {
    |from| == |to| && forall i: nat :: i in done && i < |from| ==> to[i] == from[i]
  }

  ghost predicate Inv(s: State) {
    && Shape(s)
    && s.delivered <= s.accepted
    && |Queue(s)| < SLOT_COUNT
    && s.head == Slot(s.tail, |Queue(s)|)
    && (forall k: nat :: k < |Queue(s)| ==> s.slots[Slot(s.tail, k)] == Queue(s)[k])
    && (s.producer.Copying? ==>
          Next(s.head) != s.tail && Copied(s.producer.msg, s.slots[s.head], s.producer.done))
    && (s.consumer.Copying? ==>
          s.head != s.tail && Copied(s.slots[s.tail], s.consumer.msg, s.consumer.done))
  }

  lemma InitialInv(s: State)
    requires Initial(s)
    ensures Inv(s)
  {
  }

  lemma CopyComplete(from: Message, to: Message, done: set<nat>)
    requires Copied(from, to, done) && forall i: nat :: i < |from| ==> i in done
    ensures from == to
  {
    forall i: nat | i < |from| ensures from[i] == to[i] {}
  }

  lemma StepKeeps(s: State, a: Action)
    requires Inv(s) && Enabled(s, a)
    ensures Inv(Do(s, a))
  {
    match a {
      case PushWord(i) => PushWordKeeps(s, i);
      case PushPublish => PushPublishKeeps(s);
      case PopPublish => PopPublishKeeps(s);
      case _ =>
    }
  }

  /** The producer's slot is not one of the queued ones. */
  lemma HeadIsFree(s: State, k: nat)
    requires Inv(s) && k < |Queue(s)|
    ensures Slot(s.tail, k) != s.head
  {
  }

  lemma PushWordKeeps(s: State, i: nat)
    requires Inv(s) && Enabled(s, PushWord(i))
    ensures Inv(Do(s, PushWord(i)))
  {
    hide Slot;
    var s' := Do(s, PushWord(i));
    if s.consumer.Copying? {
      TailIsQueued(s);
    }
    forall k: nat | k < |Queue(s)| ensures s'.slots[Slot(s.tail, k)] == s.slots[Slot(s.tail, k)] {
      HeadIsFree(s, k);
    }
  }

  lemma TailIsQueued(s: State)
    requires Inv(s) && s.head != s.tail
    ensures |Queue(s)| > 0 && Slot(s.tail, 0) == s.tail && s.slots[s.tail] == Queue(s)[0]
  {
    assert s.slots[Slot(s.tail, 0)] == s.slots[s.tail];
  }

  lemma PushPublishKeeps(s: State)
    requires Inv(s) && Enabled(s, PushPublish)
    ensures Inv(Do(s, PushPublish)) && Queue(Do(s, PushPublish)) == Queue(s) + [s.producer.msg]
  {
    CopyComplete(s.producer.msg, s.slots[s.head], s.producer.done);
    PublishKeeps(s);
  }

  /** A published message joins the queue; its slot has to hold it by then. */
  lemma PublishKeeps(s: State)
    requires Inv(s) && s.producer.Copying?
    ensures Inv(Publish(s)) <==> s.slots[s.head] == s.producer.msg
    ensures |s.delivered| <= |Publish(s).accepted| && Queue(Publish(s)) == Queue(s) + [s.producer.msg]
  {
    hide Slot, Next;
    var s', q := Publish(s), Queue(s);
    assert Queue(s') == q + [s.producer.msg];
    NextSlot(s.tail, |q|);
    assert s'.slots[Slot(s'.tail, |q|)] == s.slots[s.head];
    assert Inv(s') ==> s'.slots[Slot(s'.tail, |q|)] == Queue(s')[|q|];
  }

  lemma PopPublishKeeps(s: State)
    requires Inv(s) && Enabled(s, PopPublish)
    ensures Inv(Do(s, PopPublish)) && [s.consumer.msg] + Queue(Do(s, PopPublish)) == Queue(s)
  {
    hide Slot;
    TailIsQueued(s);
    CopyComplete(s.slots[s.tail], s.consumer.msg, s.consumer.done);
    var q, s' := Queue(s), Do(s, PopPublish);
    assert s.accepted[|s.delivered|] == q[0];
    assert Queue(s') == q[1..];
    forall k: nat | k < |q| - 1 ensures s'.slots[Slot(s'.tail, k)] == Queue(s')[k] {
      SlotShift(s.tail, k);
    }
    SlotShift(s.tail, |q| - 1);
    if s.producer.Copying? {
      HeadStaysFree(s);
    }
  }

  lemma HeadStaysFree(s: State)
    requires Inv(s) && s.producer.Copying? && s.head != s.tail
    ensures Next(s.head) != Next(s.tail)
  {
  }

  // ---------------------------------------------------------------- what each thread can do

  /** An idle producer can begin a push exactly when fewer than 31 messages are queued and is
      refused exactly when 31 are; once it copies, it can copy each missing word, and publish
      exactly when none is missing. */
  lemma ProducerCan(s: State, msg: Message, i: nat)
    requires Inv(s) && |msg| == s.width
    ensures Enabled(s, PushBegin(msg)) <==> s.producer == Idle && |Queue(s)| < CAPACITY
    ensures Enabled(s, PushRefused) <==> s.producer == Idle && |Queue(s)| == CAPACITY
    ensures s.producer.Copying? ==>
              && (Enabled(s, PushWord(i)) <==> i in Missing(s.producer, s.width))
              && (Enabled(s, PushPublish) <==> Missing(s.producer, s.width) == {})
  {
    NextSlot(s.tail, |Queue(s)|);
    if s.producer.Copying? {
      NoneMissing(s.producer, s.width);
    }
  }

  /** An idle consumer can begin a pop exactly when a message is queued and is refused
      exactly when none is; once it copies, likewise. */
  lemma ConsumerCan(s: State, buffer: Message, j: nat)
    requires Inv(s) && |buffer| == s.width
    ensures Enabled(s, PopBegin(buffer)) <==> s.consumer == Idle && Queue(s) != []
    ensures Enabled(s, PopRefused) <==> s.consumer == Idle && Queue(s) == []
    ensures s.consumer.Copying? ==>
              && (Enabled(s, PopWord(j)) <==> j in Missing(s.consumer, s.width))
              && (Enabled(s, PopPublish) <==> Missing(s.consumer, s.width) == {})
  {
    if s.consumer.Copying? {
      NoneMissing(s.consumer, s.width);
    }
  }

  /** The words a copying thread has not copied yet. */
  ghost function Missing(t: Thread, width: nat): (r: set<nat>)
    requires t.Copying?
    ensures forall i: nat :: i in r <==> i < width && i !in t.done
  {
    set i: nat | i < width && i !in t.done
  }

  lemma NoneMissing(t: Thread, width: nat)
    requires t.Copying?
    ensures Missing(t, width) == {} <==> AllDone(t, width)
  {
    assert AllDone(t, width) ==> forall i: nat :: i !in Missing(t, width);
  }

  lemma OneLess(s: set<nat>, t: set<nat>, i: nat)
    requires i in s && t == s - {i}
    ensures |s| == |t| + 1
  {
  }

  predicate ByProducer(a: Action) {
    a.PushRefused? || a.PushBegin? || a.PushWord? || a.PushPublish?
  }

  function ProducerSteps(actions: seq<Action>): nat {
    if |actions| == 0 then 0 else (if ByProducer(actions[0]) then 1 else 0) + ProducerSteps(actions[1..])
  }

  function ConsumerSteps(actions: seq<Action>): nat {
    if |actions| == 0 then 0 else (if ByProducer(actions[0]) then 0 else 1) + ConsumerSteps(actions[1..])
  }

  ghost predicate Runs(s: State, actions: seq<Action>, s': State)
    decreases |actions|
  {
    if actions == [] then s == s'
    else Shape(s) && Enabled(s, actions[0]) && Runs(Do(s, actions[0]), actions[1..], s')
  }

  /** Each step does to the queue what the sequential ring does, or leaves it alone; a push
      is refused only with 31 messages queued, a pop only with none. */
  lemma StepRefinesQueue(s: State, a: Action)
    requires Inv(s) && Enabled(s, a)
    ensures Inv(Do(s, a))
    ensures a.PushPublish? ==> Queue(Do(s, a)) == Queue(s) + [s.producer.msg] && |Queue(s)| < CAPACITY
    ensures a.PopPublish? ==> [s.consumer.msg] + Queue(Do(s, a)) == Queue(s)
    ensures !a.PushPublish? && !a.PopPublish? ==> Queue(Do(s, a)) == Queue(s)
    ensures a.PushRefused? ==> |Queue(s)| == CAPACITY
    ensures a.PopRefused? ==> Queue(s) == []
  {
    StepKeeps(s, a);
    match a {
      case PushPublish => PushPublishKeeps(s);
      case PopPublish => PopPublishKeeps(s);
      case _ =>
    }
  }

  // ---------------------------------------------------------------- progress

  lemma {:induction false} RecordsGrow(s: State, actions: seq<Action>, s': State)
    requires Runs(s, actions, s')
    ensures s.accepted <= s'.accepted && s.delivered <= s'.delivered && s.width == s'.width
    decreases |actions|
  {
    if actions != [] {
      RecordsGrow(Do(s, actions[0]), actions[1..], s');
    }
  }

  /** A push that has begun is complete after one more producer step than words are missing,
      whatever the consumer does meanwhile. */
  lemma {:induction false} PushCompletes(s: State, actions: seq<Action>, s': State)
    requires Inv(s) && s.producer.Copying? && Runs(s, actions, s')
    requires ProducerSteps(actions) > |Missing(s.producer, s.width)|
    ensures s.accepted + [s.producer.msg] <= s'.accepted
    decreases |actions|
  {
    hide Inv;
    var a, rest := actions[0], actions[1..];
    var t := Do(s, a);
    StepKeeps(s, a);
    if a.PushPublish? {
      RecordsGrow(t, rest, s');
    } else {
      if a.PushWord? {
        OneLess(Missing(s.producer, s.width), Missing(t.producer, s.width), a.i);
      }
      PushCompletes(t, rest, s');
    }
  }

  /** A pop that has begun delivers the oldest message after one more consumer step than
      words are missing, whatever the producer does meanwhile. */
  lemma {:induction false} PopCompletes(s: State, actions: seq<Action>, s': State)
    requires Inv(s) && s.consumer.Copying? && Runs(s, actions, s')
    requires ConsumerSteps(actions) > |Missing(s.consumer, s.width)|
    ensures Queue(s) != [] && s.delivered + [Queue(s)[0]] <= s'.delivered
    decreases |actions|
  {
    hide Slot;
    TailIsQueued(s);
    var a, rest := actions[0], actions[1..];
    var t := Do(s, a);
    StepRefinesQueue(s, a);
    if a.PopPublish? {
      CopyComplete(s.slots[s.tail], s.consumer.msg, s.consumer.done);
      RecordsGrow(t, rest, s');
    } else {
      if a.PopWord? {
        OneLess(Missing(s.consumer, s.width), Missing(t.consumer, s.width), a.j);
      }
      PopCompletes(t, rest, s');
    }
  }

  /** A producer that runs alone completes any push into a ring that is not full. */
  lemma PushAlone(s: State, msg: Message) returns (actions: seq<Action>, s': State)
    requires Inv(s) && s.producer == Idle && |msg| == s.width && |Queue(s)| < CAPACITY
    ensures Runs(s, actions, s') && forall a: Action :: a in actions ==> ByProducer(a)
    ensures s'.accepted == s.accepted + [msg] && s'.producer == Idle
    ensures s'.delivered == s.delivered && s'.tail == s.tail && s'.consumer == s.consumer
  {
    ProducerCan(s, msg, 0);
    var t := Do(s, PushBegin(msg));
    StepKeeps(s, PushBegin(msg));
    var rest;
    rest, s' := FinishPush(t);
    actions := [PushBegin(msg)] + rest;
    assert actions[1..] == rest;
  }

  lemma FinishPush(s: State) returns (actions: seq<Action>, s': State)
    requires Inv(s) && s.producer.Copying?
    ensures Runs(s, actions, s') && forall a: Action :: a in actions ==> ByProducer(a)
    ensures s'.accepted == s.accepted + [s.producer.msg] && s'.producer == Idle
    ensures s'.delivered == s.delivered && s'.tail == s.tail && s'.consumer == s.consumer
    decreases |Missing(s.producer, s.width)|
  {
    hide Inv;
    InvShape(s);
    var missing := Missing(s.producer, s.width);
    if missing == {} {
      NoneMissing(s.producer, s.width);
      s' := Do(s, PushPublish);
      actions := [PushPublish];
      assert actions[1..] == [];
    } else {
      var i: nat :| i in missing;
      var t := Do(s, PushWord(i));
      StepKeeps(s, PushWord(i));
      OneLess(missing, Missing(t.producer, s.width), i);
      var rest;
      rest, s' := FinishPush(t);
      actions := [PushWord(i)] + rest;
      assert actions[1..] == rest;
    }
  }

  lemma InvShape(s: State)
    requires Inv(s)
    ensures Shape(s)
  {
  }

  // ---------------------------------------------------------------- what every run keeps

  function Begun(a: Action): seq<Message> {
    if a.PushBegin? then [a.msg] else []
  }

  /** The messages that pushes were begun with, in order. */
  function Offered(actions: seq<Action>): seq<Message> {
    if actions == [] then []
    else Begun(actions[0]) + Offered(actions[1..])
  }

  function Pending(t: Thread): seq<Message> {
    if t.Copying? then [t.msg] else []
  }

  lemma {:induction false} RunKeeps(s: State, actions: seq<Action>, s': State)
    requires Inv(s) && Runs(s, actions, s')
    ensures Inv(s')
    ensures s'.accepted + Pending(s'.producer) == s.accepted + Pending(s.producer) + Offered(actions)
    decreases |actions|
  {
    hide Inv, Do, Pending, Begun, Enabled, Shape;
    if actions != [] {
      StepKeeps(s, actions[0]);
      StepOffers(s, actions[0]);
      RunKeeps(Do(s, actions[0]), actions[1..], s');
      var before, begun := s.accepted + Pending(s.producer), Begun(actions[0]);
      assert (before + begun) + Offered(actions[1..]) == before + (begun + Offered(actions[1..]));
    }
  }

  lemma StepOffers(s: State, a: Action)
    requires Shape(s) && Enabled(s, a)
    ensures var s' := Do(s, a);
      s'.accepted + Pending(s'.producer) == s.accepted + Pending(s.producer) + Begun(a)
  {
  }

  /** In every interleaving of one producer and one consumer: the messages delivered are the
      first ones offered, whole and in order; at most 31 are in between; and the slot being
      written is never the slot being read. */
  lemma RingSafety(s: State, actions: seq<Action>, s': State)
    requires Initial(s) && Runs(s, actions, s')
    ensures s'.delivered <= s'.accepted <= Offered(actions)
    ensures |s'.accepted| - |s'.delivered| <= CAPACITY
    ensures |Offered(actions)| <= |s'.accepted| + 1
    ensures s'.producer.Copying? && s'.consumer.Copying? ==> s'.head != s'.tail
    ensures s'.consumer.Copying? && AllDone(s'.consumer, s'.width) ==>
              |s'.delivered| < |s'.accepted| && s'.consumer.msg == s'.accepted[|s'.delivered|]
  {
    InitialInv(s);
    RunKeeps(s, actions, s');
    assert s'.accepted + Pending(s'.producer) == Offered(actions);
    if s'.consumer.Copying? && AllDone(s'.consumer, s'.width) {
      TailIsQueued(s');
      CopyComplete(s'.slots[s'.tail], s'.consumer.msg, s'.consumer.done);
    }
  }
}
