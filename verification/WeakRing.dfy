/**
  The ring without the memory barrier that the source asks for.  The new head may become
  visible before words of the message do: the producer publishes at any time while it
  copies, and the stores it has not made by then reach the slot later, in any order.  Only
  stores to the same place stay in order.
 */
module WeakRing {

  import opened Slots
  import opened ConcurrentRing

  datatype Store = Store(slot: nat, word: nat, value: nat)

  /** late are the stores that the producer has issued and no one has seen yet. */
  datatype WeakState = WeakState(now: State, late: set<Store>)

  datatype WeakAction = Step(a: Action) | PublishNow | Drain(st: Store)

  ghost predicate Possible(w: WeakState, x: WeakAction) {
    match x
    case Step(a) =>
      && !a.PushPublish? && Enabled(w.now, a)
      && (a.PushBegin? ==> forall st: Store :: st in w.late ==> st.slot != w.now.head)
    case PublishNow => w.now.producer.Copying?
    case Drain(st) => st in w.late && st.slot < SLOT_COUNT && st.word < w.now.width
  }

  ghost function Unseen(s: State): (r: set<Store>)
    requires s.producer.Copying? && |s.producer.msg| == s.width
    ensures forall st: Store :: st in r <==>
              st.slot == s.head && st.word < s.width && st.word !in s.producer.done
              && st.value == s.producer.msg[st.word]
  {
    set i: nat | i < s.width && i !in s.producer.done :: Store(s.head, i, s.producer.msg[i])
  }

  ghost function After(w: WeakState, x: WeakAction): WeakState
    requires Shape(w.now) && Possible(w, x)
  {
    match x
    case Step(a) => w.(now := Do(w.now, a))
    case PublishNow => WeakState(Publish(w.now), w.late + Unseen(w.now))
    case Drain(st) =>
      var slot: Message := w.now.slots[st.slot][st.word := st.value];
      WeakState(w.now.(slots := w.now.slots[st.slot := slot]), w.late - {st})
  }

  /** The slot that is about to be published holds the whole message already. */
  predicate SlotComplete(s: State)
    requires Shape(s) && s.producer.Copying?
  {
    s.slots[s.head] == s.producer.msg
  }

  /** Runs of the two threads; with `whole`, those in which every publication finds its slot
      complete. */
  ghost predicate WeakRuns(w: WeakState, xs: seq<WeakAction>, w': WeakState, whole: bool)
    decreases |xs|
  {
    if xs == [] then w == w'
    else
      && Shape(w.now) && Possible(w, xs[0])
      && (whole && xs[0].PublishNow? ==> SlotComplete(w.now))
      && WeakRuns(After(w, xs[0]), xs[1..], w', whole)
  }

  function WeakOffered(xs: seq<WeakAction>): seq<Message> {
    if xs == [] then []
    else (if xs[0].Step? then Begun(xs[0].a) else []) + WeakOffered(xs[1..])
  }

  // ---------------------------------------------------------------- complete publications

  ghost predicate Queued(s: State, slot: nat)
    requires Shape(s) && |s.delivered| <= |s.accepted| && |Queue(s)| < SLOT_COUNT
  {
    exists k: nat :: k < |Queue(s)| && Slot(s.tail, k) == slot
  }

  /** The ring invariant, and late stores can change neither a queued slot nor the one being
      written. */
  ghost predicate WeakInv(w: WeakState) {
    && Inv(w.now)
    && (forall st: Store :: st in w.late ==>
          && st.slot < SLOT_COUNT && st.word < w.now.width
          && (w.now.producer.Copying? ==> st.slot != w.now.head)
          && (Queued(w.now, st.slot) ==> w.now.slots[st.slot][st.word] == st.value))
  }

  lemma WeakStepKeeps(w: WeakState, x: WeakAction)
    requires WeakInv(w) && Possible(w, x)
    requires x.PublishNow? ==> SlotComplete(w.now)
    ensures WeakInv(After(w, x))
  {
    match x {
      case Step(a) => StoresKept(w, a);
      case PublishNow => PublicationKeeps(w);
      case Drain(st) => DrainKeeps(w, st);
    }
  }

  lemma StoresKept(w: WeakState, a: Action)
    requires WeakInv(w) && Possible(w, Step(a))
    ensures WeakInv(After(w, Step(a)))
  {
    hide Slot, Next;
    var s, s' := w.now, Do(w.now, a);
    StepRefinesQueue(s, a);
    forall st: Store | st in w.late && Queued(s', st.slot)
      ensures Queued(s, st.slot) && s'.slots[st.slot] == s.slots[st.slot]
    {
      var k: nat :| k < |Queue(s')| && Slot(s'.tail, k) == st.slot;
      if a.PopPublish? {
        SlotShift(s.tail, k);
      }
    }
  }

  lemma PublicationKeeps(w: WeakState)
    requires WeakInv(w) && w.now.producer.Copying? && SlotComplete(w.now)
    ensures WeakInv(After(w, PublishNow))
  {
    hide Slot, Next;
    var s, s' := w.now, Publish(w.now);
    PublishKeeps(s);
    forall st: Store | st in w.late && Queued(s', st.slot) ensures Queued(s, st.slot) {
      var k: nat :| k < |Queue(s')| && Slot(s'.tail, k) == st.slot;
    }
  }

  lemma DrainKeeps(w: WeakState, st: Store)
    requires WeakInv(w) && Possible(w, Drain(st))
    ensures WeakInv(After(w, Drain(st)))
  {
    hide Slot, Next;
    var s, s' := w.now, After(w, Drain(st)).now;
    if Queued(s, st.slot) {
      assert s.slots[st.slot][st.word := st.value] == s.slots[st.slot];
      assert s'.slots == s.slots;
    } else if s.consumer.Copying? {
      TailIsQueued(s);
    }
  }

  /** As long as every publication finds its slot complete, delivered messages are the first
      ones offered, whole and in order, however late the remaining stores are. */
  lemma {:induction false} WholeRunKeeps(w: WeakState, xs: seq<WeakAction>, w': WeakState)
    requires WeakInv(w) && WeakRuns(w, xs, w', true)
    ensures WeakInv(w')
    ensures w'.now.accepted + Pending(w'.now.producer) == w.now.accepted + Pending(w.now.producer) + WeakOffered(xs)
    decreases |xs|
  {
    hide WeakInv, After, Possible, Pending, Shape, Begun;
    if xs != [] {
      WeakStepKeeps(w, xs[0]);
      WeakStepOffers(w, xs[0]);
      WholeRunKeeps(After(w, xs[0]), xs[1..], w');
      var before, begun := w.now.accepted + Pending(w.now.producer), if xs[0].Step? then Begun(xs[0].a) else [];
      assert (before + begun) + WeakOffered(xs[1..]) == before + (begun + WeakOffered(xs[1..]));
    }
  }

  lemma WeakStepOffers(w: WeakState, x: WeakAction)
    requires Shape(w.now) && Possible(w, x)
    ensures var s, s' := w.now, After(w, x).now;
      s'.accepted + Pending(s'.producer)
      == s.accepted + Pending(s.producer) + if x.Step? then Begun(x.a) else []
  {
    if x.Step? {
      StepOffers(w.now, x.a);
    }
  }

  lemma WholeRunSafety(s: State, xs: seq<WeakAction>, w': WeakState)
    requires Initial(s) && WeakRuns(WeakState(s, {}), xs, w', true)
    ensures w'.now.delivered <= w'.now.accepted <= WeakOffered(xs)
  {
    InitialInv(s);
    WholeRunKeeps(WeakState(s, {}), xs, w');
    assert w'.now.accepted + Pending(w'.now.producer) == WeakOffered(xs);
  }

  // ---------------------------------------------------------------- late stores

  /** Every late store can still arrive, publishing is never refused, and an idle producer can
      begin a push exactly when the ring is not full and no store to its slot is late. */
  lemma ProducerIsFree(w: WeakState, msg: Message, st: Store)
    requires WeakInv(w) && |msg| == w.now.width
    ensures Possible(w, Drain(st)) <==> st in w.late
    ensures Possible(w, PublishNow) <==> w.now.producer.Copying?
    ensures Possible(w, Step(PushBegin(msg))) <==>
            && w.now.producer == Idle && |Queue(w.now)| < CAPACITY
            && forall late: Store :: late in w.late ==> late.slot != w.now.head
  {
    ProducerCan(w.now, msg, 0);
  }

  /** The stores of the message just published are the missing words of its slot. */
  ghost predicate OnlyTorn(s: State, slot: nat, msg: Message, late: set<Store>)
    requires Shape(s) && slot < SLOT_COUNT && |msg| == s.width
  {
    && (forall st: Store :: st in late && st.slot == slot ==> st.word < s.width && st.value == msg[st.word])
    && (forall i: nat :: i < s.width && s.slots[slot][i] != msg[i] ==> Store(slot, i, msg[i]) in late)
  }

  /** The late stores to a slot complete its message, in whatever order they arrive. */
  lemma {:induction false} StoresArrive(w: WeakState, slot: nat, msg: Message)
    returns (xs: seq<WeakAction>, w': WeakState)
    requires Shape(w.now) && slot < SLOT_COUNT && |msg| == w.now.width && OnlyTorn(w.now, slot, msg, w.late)
    ensures WeakRuns(w, xs, w', true) && forall x: WeakAction :: x in xs ==> x.Drain?
    ensures w'.now == w.now.(slots := w.now.slots[slot := msg])
    decreases w.late
  {
    xs, w' := [], w;
    if st: Store :| st in w.late && st.slot == slot {
      var next := After(w, Drain(st));
      assert next.late < w.late;
      var rest;
      rest, w' := StoresArrive(next, slot, msg);
      xs := [Drain(st)] + rest;
      assert xs[1..] == rest;
      assert w'.now.slots == w.now.slots[slot := msg];
    } else {
      assert w.now.slots[slot] == msg;
      assert w.now.slots == w.now.slots[slot := msg];
    }
  }

  /** A torn publication does no harm once its stores have arrived: the ring invariant holds
      again, with the whole message queued. */
  lemma TornRecovers(w: WeakState) returns (xs: seq<WeakAction>, w': WeakState)
    requires WeakInv(w) && w.now.producer.Copying?
    ensures WeakRuns(After(w, PublishNow), xs, w', true) && forall x: WeakAction :: x in xs ==> x.Drain?
    ensures Inv(w'.now) && |w.now.delivered| <= |w.now.accepted|
    ensures Queue(w'.now) == Queue(w.now) + [w.now.producer.msg]
  {
    var s, next := w.now, After(w, PublishNow);
    forall i: nat | i < s.width && s.slots[s.head][i] != s.producer.msg[i]
      ensures Store(s.head, i, s.producer.msg[i]) in next.late
    {
      assert i !in s.producer.done;
    }
    xs, w' := StoresArrive(next, s.head, s.producer.msg);
    var filled := s.(slots := s.slots[s.head := s.producer.msg]);
    assert w'.now == Publish(filled);
    FilledInv(s);
    PublishKeeps(filled);
  }

  lemma FilledInv(s: State)
    requires Inv(s) && s.producer.Copying?
    ensures Inv(s.(slots := s.slots[s.head := s.producer.msg]))
  {
    hide Slot;
    if s.consumer.Copying? {
      TailIsQueued(s);
    }
    forall k: nat | k < |Queue(s)| ensures Slot(s.tail, k) != s.head {
      HeadIsFree(s, k);
    }
  }

  // ---------------------------------------------------------------- a torn publication

  /** Some message is queued, and the consumer has copied its front slot faithfully so far. */
  ghost predicate Draining(s: State) {
    && Shape(s) && 0 < |s.accepted| - |s.delivered| < SLOT_COUNT
    && s.head == Slot(s.tail, |s.accepted| - |s.delivered|)
    && (s.consumer.Copying? ==> Copied(s.slots[s.tail], s.consumer.msg, s.consumer.done))
  }

  ghost function LastSlot(s: State): nat
    requires Draining(s)
  {
    Slot(s.tail, |s.accepted| - |s.delivered| - 1)
  }

  /** What the consumer does next when it runs alone. */
  lemma ConsumerStep(s: State) returns (a: Action)
    requires Draining(s)
    ensures (a.PopBegin? || a.PopWord? || a.PopPublish?) && Enabled(s, a)
    ensures var s' := Do(s, a);
      && s'.slots == s.slots && s'.accepted == s.accepted
      && (a.PopBegin? ==> s.consumer.Idle? && s'.consumer.Copying?)
      && (a.PopWord? ==> s.consumer.Copying? && s'.consumer.Copying?
                         && |Missing(s'.consumer, s.width)| < |Missing(s.consumer, s.width)|)
      && (!a.PopPublish? ==> Draining(s') && LastSlot(s') == LastSlot(s) && s'.delivered == s.delivered)
      && (a.PopPublish? ==> s'.delivered == s.delivered + [s.slots[s.tail]])
      && (a.PopPublish? && |s.delivered| + 1 < |s.accepted| ==> Draining(s') && LastSlot(s') == LastSlot(s))
      && (a.PopPublish? && |s.delivered| + 1 == |s.accepted| ==> LastSlot(s) == s.tail)
  {
    DistanceOfQueue(s);
    if s.consumer.Idle? {
      a := PopBegin(s.slots[s.tail]);
    } else if i: nat :| i < s.width && i !in s.consumer.done {
      a := PopWord(i);
      OneLess(Missing(s.consumer, s.width), Missing(Do(s, a).consumer, s.width), i);
    } else {
      a := PopPublish;
      CopyComplete(s.slots[s.tail], s.consumer.msg, s.consumer.done);
      SlotShift(s.tail, |s.accepted| - |s.delivered| - 1);
      if |s.delivered| + 1 < |s.accepted| {
        SlotShift(s.tail, |s.accepted| - |s.delivered| - 2);
      }
    }
  }

  lemma DistanceOfQueue(s: State)
    requires Draining(s)
    ensures s.head != s.tail
  {
  }

  /** The consumer running alone empties the ring; the last message it delivers is whatever
      the last slot holds. */
  lemma ConsumerRun(w: WeakState) returns (xs: seq<WeakAction>, w': WeakState)
    requires Draining(w.now)
    ensures forall whole: bool :: WeakRuns(w, xs, w', whole)
    ensures WeakOffered(xs) == [] && w'.now.accepted == w.now.accepted
    ensures |w'.now.delivered| == |w.now.accepted| > 0
    ensures w'.now.delivered[|w.now.accepted| - 1] == w.now.slots[LastSlot(w.now)]
    decreases |w.now.accepted| - |w.now.delivered|, w.now.consumer.Idle?,
      if w.now.consumer.Copying? then |Missing(w.now.consumer, w.now.width)| else 0
  {
    hide Do, Enabled, Slot, Copied, Missing;
    var a := ConsumerStep(w.now);
    var next, rest := WeakState(Do(w.now, a), w.late), [];
    w' := next;
    if !(a.PopPublish? && |w.now.delivered| + 1 == |w.now.accepted|) {
      rest, w' := ConsumerRun(next);
    }
    xs := [Step(a)] + rest;
    assert xs[1..] == rest && After(w, xs[0]) == next;
  }

  /** In every continuation whose publications find their slots complete, all deliveries are
      intact. */
  ghost predicate AlwaysIntact(w: WeakState) {
    forall xs: seq<WeakAction>, w': WeakState ::
      WeakRuns(w, xs, w', true) ==> w'.now.delivered <= w'.now.accepted
  }

  /** Whatever has happened before, the next publication is followed by intact deliveries
      only, in every continuation, if and only if its slot is complete: otherwise a consumer
      that runs before the late stores delivers a message that was never offered. */
  lemma PublicationDecides(w: WeakState)
    requires WeakInv(w) && w.now.producer.Copying?
    ensures AlwaysIntact(After(w, PublishNow)) <==> SlotComplete(w.now)
  {
    hide Slot;
    var next := After(w, PublishNow);
    if SlotComplete(w.now) {
      WeakStepKeeps(w, PublishNow);
      forall xs: seq<WeakAction>, w': WeakState | WeakRuns(next, xs, w', true)
        ensures w'.now.delivered <= w'.now.accepted
      {
        WholeRunKeeps(next, xs, w');
      }
    } else {
      TornDraining(w.now);
      var xs, w' := ConsumerRun(next);
      var n := |next.now.accepted|;
      assert next.now.accepted[n - 1] == w.now.producer.msg;
      assert WeakRuns(next, xs, w', true) && w'.now.delivered[n - 1] != w'.now.accepted[n - 1];
      assert !(w'.now.delivered <= w'.now.accepted);
      assert !AlwaysIntact(next);
    }
  }

  lemma TornDraining(s: State)
    requires Inv(s) && s.producer.Copying?
    ensures Draining(Publish(s)) && LastSlot(Publish(s)) == s.head
  {
    NextSlot(s.tail, |Queue(s)|);
  }

  /** Messages of one word in fresh memory: the head is published before the word is
      written, and the consumer delivers a message that nobody offered. */
  lemma TornDelivery() returns (s: State, xs: seq<WeakAction>, w': WeakState)
    ensures Initial(s) && WeakRuns(WeakState(s, {}), xs, w', false)
    ensures WeakOffered(xs) == [[7]] && w'.now.delivered == [[0]]
  {
    s := State(1, seq(SLOT_COUNT, _ => [0]), 0, 0, Idle, Idle, [], []);
    var w0 := WeakState(s, {});
    var w1 := After(w0, Step(PushBegin([7])));
    var w2 := After(w1, PublishNow);
    var consumer;
    assert LastSlot(w2.now) == 0;
    consumer, w' := ConsumerRun(w2);
    var published := [PublishNow] + consumer;
    assert published[1..] == consumer && WeakRuns(w1, published, w', false);
    xs := [Step(PushBegin([7]))] + published;
    assert xs[1..] == published;
  }
}
