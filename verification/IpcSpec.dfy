/**
  The two rings and the channels between the kernels as values: what each send, receive,
  channel creation and channel destruction does, and what every run of them keeps.
 */
module IpcSpec {
  import opened Types
  import opened Messages
  import opened Slots

  const MAX_CHANNELS: nat := 64

  /** wired: the channel's ring pointers are set. */
  datatype Channel = Channel(id: nat, wired: bool, tx: nat, rx: nat, drop: nat)

  function Closed(): Channel {
    Channel(0, false, 0, 0, 0)
  }

  datatype Side = ToHw | ToSw

  datatype Ipc = Ipc(ready: bool, toHw: seq<Msg>, toSw: seq<Msg>, channels: seq<Channel>, count: nat, nextSeq: nat)

  predicate Shape(s: Ipc) {
    && |s.channels| == MAX_CHANNELS && s.count <= MAX_CHANNELS
    && |s.toHw| <= CAPACITY && |s.toSw| <= CAPACITY
    && (s.ready ==> s.count >= 1)
  }

  function AllClosed(): (r: seq<Channel>)
    ensures |r| == MAX_CHANNELS && forall k: nat :: k < MAX_CHANNELS ==> r[k] == Closed()
  {
    seq(MAX_CHANNELS, _ => Closed())
  }

  function Opened(id: nat): Channel {
    Channel(id, true, 0, 0, 0)
  }

  function Started(): (s: Ipc)
    ensures Shape(s)
  {
    Ipc(true, [], [], AllClosed()[0 := Opened(0)], 1, 1)
  }

  function Queue(s: Ipc, side: Side): seq<Msg> {
    if side.ToHw? then s.toHw else s.toSw
  }

  function WithQueue(s: Ipc, side: Side, q: seq<Msg>): Ipc {
    if side.ToHw? then s.(toHw := q) else s.(toSw := q)
  }

  /** Stamps the message with the shared sequence counter and pushes it; a full ring drops
      it, which uses up the sequence number all the same. */
  function SendOn(s: Ipc, side: Side, ch: nat, msg: Msg, now: nat): (r: (Ipc, Status))
    requires Shape(s) && ch < MAX_CHANNELS
    ensures Shape(r.0)
  {
    var stamped := msg.(seqNo := s.nextSeq, stamp := now);
    var c := s.channels[ch];
    if |Queue(s, side)| == CAPACITY then
      (s.(nextSeq := s.nextSeq + 1, channels := s.channels[ch := c.(drop := c.drop + 1)]), ErrOverflow)
    else
      (WithQueue(s, side, Queue(s, side) + [stamped])
         .(nextSeq := s.nextSeq + 1, channels := s.channels[ch := c.(tx := c.tx + 1)]), Ok)
  }

  /** Pops the oldest message of a ring; an empty ring answers at once without a timeout and
      with a timeout error otherwise. */
  function RecvOn(s: Ipc, side: Side, ch: nat, timeout: nat): (r: (Ipc, Status, Option<Msg>))
    requires Shape(s) && ch < MAX_CHANNELS
    ensures Shape(r.0)
  {
    var q := Queue(s, side);
    var c := s.channels[ch];
    if q == [] then (s, if timeout == 0 then ErrAgain else ErrTimeout, None)
    else (WithQueue(s, side, q[1..]).(channels := s.channels[ch := c.(rx := c.rx + 1)]), Ok, Some(q[0]))
  }

  function Create(s: Ipc): (r: (Ipc, Status, nat))
    requires Shape(s)
    ensures Shape(r.0)
  {
    if !s.ready then (s, ErrInval, 0)
    else if s.count >= MAX_CHANNELS then (s, ErrOverflow, 0)
    else
      var c := s.channels[s.count].(id := s.count, wired := true);
      (s.(channels := s.channels[s.count := c], count := s.count + 1), Ok, s.count)
  }

  function Destroy(s: Ipc, id: nat): (r: (Ipc, Status))
    requires Shape(s)
    ensures Shape(r.0)
  {
    if !s.ready || id == 0 || id >= s.count then (s, ErrInval)
    else (s.(channels := s.channels[id := Closed()]), Ok)
  }

  // ---------------------------------------------------------------- what one call does

  function Other(side: Side): Side {
    if side.ToHw? then ToSw else ToHw
  }

  /** Everything is as before but the ring of the given side and the record of channel ch. */
  ghost predicate SameElsewhere(s: Ipc, t: Ipc, side: Side, ch: nat) {
    && t.ready == s.ready && t.count == s.count && Queue(t, Other(side)) == Queue(s, Other(side))
    && |t.channels| == |s.channels|
    && forall k: nat :: k < |s.channels| && k != ch ==> t.channels[k] == s.channels[k]
  }

  /** m is msg but for its sequence number and time stamp. */
  predicate Stamped(m: Msg, msg: Msg, seqNo: nat, now: nat) {
    m.seqNo == seqNo && m.stamp == now && m.(seqNo := msg.seqNo, stamp := msg.stamp) == msg
  }

  /** One send: the message is at the end of the ring exactly when there was room, whole, with
      the next sequence number, and counted on its channel; otherwise it is counted as
      dropped.  Either way the number is used up. */
  ghost predicate OneSend(s: Ipc, side: Side, ch: nat, msg: Msg, now: nat, t: Ipc, st: Status)
    requires Shape(s) && Shape(t) && ch < MAX_CHANNELS
  {
    && SameElsewhere(s, t, side, ch) && t.nextSeq == s.nextSeq + 1
    && (st == Ok <==> |Queue(s, side)| < CAPACITY)
    && (st == Ok ==>
          && |Queue(t, side)| == |Queue(s, side)| + 1 && Queue(s, side) <= Queue(t, side)
          && Stamped(Queue(t, side)[|Queue(s, side)|], msg, s.nextSeq, now)
          && t.channels[ch] == s.channels[ch].(tx := s.channels[ch].tx + 1))
    && (st != Ok ==>
          && st == ErrOverflow && Queue(t, side) == Queue(s, side)
          && t.channels[ch] == s.channels[ch].(drop := s.channels[ch].drop + 1))
  }

  lemma SendEffect(s: Ipc, side: Side, ch: nat, msg: Msg, now: nat)
    requires Shape(s) && ch < MAX_CHANNELS
    ensures OneSend(s, side, ch, msg, now, SendOn(s, side, ch, msg, now).0, SendOn(s, side, ch, msg, now).1)
  {
  }

  /** One receive: the message handed out, whole, was the first of the ring, which keeps the
      others; it is counted on its channel.  On an empty ring nothing changes. */
  ghost predicate OneReceive(s: Ipc, side: Side, ch: nat, timeout: nat, t: Ipc, st: Status, out: Option<Msg>)
    requires Shape(s) && Shape(t) && ch < MAX_CHANNELS
  {
    && SameElsewhere(s, t, side, ch) && t.nextSeq == s.nextSeq
    && (st == Ok <==> Queue(s, side) != []) && (out.Some? <==> st == Ok)
    && (st == Ok ==>
          && [out.value] + Queue(t, side) == Queue(s, side)
          && t.channels[ch] == s.channels[ch].(rx := s.channels[ch].rx + 1))
    && (st != Ok ==> t == s && st == if timeout == 0 then ErrAgain else ErrTimeout)
  }

  lemma ReceiveEffect(s: Ipc, side: Side, ch: nat, timeout: nat)
    requires Shape(s) && ch < MAX_CHANNELS
    ensures var (t, st, out) := RecvOn(s, side, ch, timeout); OneReceive(s, side, ch, timeout, t, st, out)
  {
    var q := Queue(s, side);
    assert q != [] ==> [q[0]] + q[1..] == q;
  }

  /** A new channel has the next free identifier, starts from the record of that identifier
      and changes no other; a destroyed one is blank.  Neither touches the rings. */
  lemma ChannelEffect(s: Ipc, id: nat)
    requires Shape(s)
    ensures var (t, st, made) := Create(s);
      && (st == Ok <==> s.ready && s.count < MAX_CHANNELS)
      && (st == ErrInval <==> !s.ready) && (st != Ok ==> t == s && (st == ErrInval || st == ErrOverflow))
      && (st == Ok ==>
            && made == s.count && t.count == s.count + 1
            && t.channels[made] == s.channels[made].(id := made, wired := true)
            && SameElsewhere(s.(count := t.count), t, ToHw, made)
            && t.toHw == s.toHw && t.nextSeq == s.nextSeq)
    ensures var (t, st) := Destroy(s, id);
      && (st == Ok <==> s.ready && 0 < id < s.count) && (st != Ok ==> t == s && st == ErrInval)
      && (st == Ok ==>
            && t.channels[id] == Channel(0, false, 0, 0, 0) && SameElsewhere(s, t, ToHw, id)
            && t.toHw == s.toHw && t.nextSeq == s.nextSeq)
  {
  }

  // ---------------------------------------------------------------- runs

  /** One call of the interface.  Send and Receive use a channel; the four directed calls
      use channel 0. */
  datatype Call =
    | Send(ch: nat, msg: Msg, now: nat)
    | SendToHw(msg: Msg, now: nat)
    | SendToSw(msg: Msg, now: nat)
    | Receive(ch: nat, timeout: nat)
    | ReceiveFromSw(timeout: nat)
    | CreateChannel
    | DestroyChannel(id: nat)

  function Apply(s: Ipc, c: Call): (r: Ipc)
    requires Shape(s)
    ensures Shape(r)
  {
    match c
    case Send(ch, msg, now) => if !s.ready || ch >= s.count then s else SendOn(s, ToHw, ch, msg, now).0
    case SendToHw(msg, now) => if !s.ready then s else SendOn(s, ToHw, 0, msg, now).0
    case SendToSw(msg, now) => if !s.ready then s else SendOn(s, ToSw, 0, msg, now).0
    case Receive(ch, timeout) => if !s.ready || ch >= s.count then s else RecvOn(s, ToSw, ch, timeout).0
    case ReceiveFromSw(timeout) => if !s.ready then s else RecvOn(s, ToHw, 0, timeout).0
    case CreateChannel => Create(s).0
    case DestroyChannel(id) => Destroy(s, id).0
  }

  datatype Account = Balance | Attempts

  /** Sent minus received, or attempted sends, of one channel. */
  function Entry(c: Channel, a: Account): int {
    if a.Balance? then c.tx - c.rx else c.tx + c.drop
  }

  function Sum(channels: seq<Channel>, a: Account): int {
    if |channels| == 0 then 0 else Sum(channels[..|channels| - 1], a) + Entry(channels[|channels| - 1], a)
  }

  /** Messages sent and not received, by the channel counters, are the ones in the rings;
      sends attempted, by the channel counters, are the sequence numbers used. */
  ghost predicate Conserved(s: Ipc) {
    && Sum(s.channels, Balance) == |s.toHw| + |s.toSw|
    && Sum(s.channels, Attempts) == s.nextSeq - 1
  }

  lemma {:induction false} SumUpdate(channels: seq<Channel>, a: Account, k: nat, c: Channel)
    requires k < |channels|
    ensures Sum(channels[k := c], a) == Sum(channels, a) - Entry(channels[k], a) + Entry(c, a)
  {
    var n := |channels| - 1;
    if k < n {
      SumUpdate(channels[..n], a, k, c);
      assert channels[k := c][..n] == channels[..n][k := c];
    } else {
      assert channels[k := c][..n] == channels[..n];
    }
  }

  lemma BooksUpdate(channels: seq<Channel>, k: nat, c: Channel)
    requires k < |channels|
    ensures Sum(channels[k := c], Balance)
            == Sum(channels, Balance) - Entry(channels[k], Balance) + Entry(c, Balance)
    ensures Sum(channels[k := c], Attempts)
            == Sum(channels, Attempts) - Entry(channels[k], Attempts) + Entry(c, Attempts)
  {
    hide Sum;
    SumUpdate(channels, Balance, k, c);
    SumUpdate(channels, Attempts, k, c);
  }

  lemma {:induction false} SumClosed(channels: seq<Channel>, a: Account)
    requires forall k: nat :: k < |channels| ==> channels[k] == Closed()
    ensures Sum(channels, a) == 0
  {
    if |channels| != 0 {
      SumClosed(channels[..|channels| - 1], a);
    }
  }

  lemma StartedConserved()
    ensures Conserved(Started())
  {
    hide Sum, AllClosed;
    SumClosed(AllClosed(), Balance);
    SumClosed(AllClosed(), Attempts);
    BooksUpdate(AllClosed(), 0, Opened(0));
  }

  lemma SendConserves(s: Ipc, side: Side, ch: nat, msg: Msg, now: nat)
    requires Shape(s) && ch < MAX_CHANNELS && Conserved(s)
    ensures Conserved(SendOn(s, side, ch, msg, now).0)
  {
    hide Sum;
    var c := s.channels[ch];
    BooksUpdate(s.channels, ch, c.(drop := c.drop + 1));
    BooksUpdate(s.channels, ch, c.(tx := c.tx + 1));
  }

  lemma RecvConserves(s: Ipc, side: Side, ch: nat, timeout: nat)
    requires Shape(s) && ch < MAX_CHANNELS && Conserved(s)
    ensures Conserved(RecvOn(s, side, ch, timeout).0)
  {
    hide Sum;
    var c := s.channels[ch];
    BooksUpdate(s.channels, ch, c.(rx := c.rx + 1));
  }

  lemma CreateConserves(s: Ipc)
    requires Shape(s) && Conserved(s)
    ensures Conserved(Create(s).0)
  {
    hide Sum;
    if s.count < MAX_CHANNELS {
      var c := s.channels[s.count].(id := s.count, wired := true);
      BooksUpdate(s.channels, s.count, c);
    }
  }

  /** Destroying a channel clears its counters, so it keeps the books exactly when the
      channel has counted nothing. */
  lemma DestroyConserves(s: Ipc, id: nat)
    requires Shape(s) && Conserved(s) && Destroy(s, id).1 == Ok
    ensures Conserved(Destroy(s, id).0) <==>
            s.channels[id].tx == s.channels[id].rx == s.channels[id].drop == 0
  {
    hide Sum;
    BooksUpdate(s.channels, id, Closed());
  }

  /** A message sent on a new channel that is then destroyed stays in the ring, but no
      counter knows of it. */
  lemma DestroyedTraffic(msg: Msg, now: nat)
    ensures var s := Exec(Started(), [CreateChannel, Send(1, msg, now), DestroyChannel(1)]);
      |s.toHw| == 1 && s.nextSeq == 2 && s.channels[1] == Closed() && !Conserved(s)
  {
    hide Sum, Conserved, AllClosed;
    var s1 := Create(Started()).0;
    var s2 := SendOn(s1, ToHw, 1, msg, now).0;
    StartedConserved();
    CreateConserves(Started());
    SendConserves(s1, ToHw, 1, msg, now);
    DestroyConserves(s2, 1);
    var calls := [CreateChannel, Send(1, msg, now), DestroyChannel(1)];
    assert calls[1..] == [Send(1, msg, now), DestroyChannel(1)] && calls[1..][1..] == [DestroyChannel(1)];
    assert Exec(s2, [DestroyChannel(1)]) == Exec(Destroy(s2, 1).0, []);
  }

  lemma ApplyConserves(s: Ipc, c: Call)
    requires Shape(s) && Conserved(s) && !c.DestroyChannel?
    ensures Conserved(Apply(s, c))
  {
    hide Sum, Conserved, SendOn, RecvOn;
    match c {
      case Send(ch, msg, now) => if s.ready && ch < s.count { SendConserves(s, ToHw, ch, msg, now); }
      case SendToHw(msg, now) => SendConserves(s, ToHw, 0, msg, now);
      case SendToSw(msg, now) => SendConserves(s, ToSw, 0, msg, now);
      case Receive(ch, timeout) => if s.ready && ch < s.count { RecvConserves(s, ToSw, ch, timeout); }
      case ReceiveFromSw(timeout) => RecvConserves(s, ToHw, 0, timeout);
      case CreateChannel => CreateConserves(s);
      case DestroyChannel(id) =>
    }
  }

  function Exec(s: Ipc, calls: seq<Call>): (r: Ipc)
    requires Shape(s)
    ensures Shape(r)
    decreases |calls|
  {
    if calls == [] then s else Exec(Apply(s, calls[0]), calls[1..])
  }

  // ---------------------------------------------------------------- receiving with a timeout

  /** What another thread may do between two polls of a receive. */
  predicate Directed(c: Call) {
    c.SendToHw? || c.SendToSw?
  }

  /** A receive that polls until a message is there or its time is over; others are the
      calls of the other threads between one poll and the next. */
  function Spin(s: Ipc, side: Side, ch: nat, timeout: nat, others: seq<seq<Call>>): (r: (Ipc, Status, Option<Msg>))
    requires Shape(s) && ch < MAX_CHANNELS
    ensures Shape(r.0)
    decreases |others|
  {
    if Queue(s, side) != [] || timeout == 0 || |others| == 0 then RecvOn(s, side, ch, timeout)
    else Spin(Exec(s, others[0]), side, ch, timeout, others[1..])
  }

  /** A polling receive from one poll to the next. */
  lemma PollDecides(s: Ipc, side: Side, ch: nat, timeout: nat, others: seq<seq<Call>>)
    requires Shape(s) && ch < MAX_CHANNELS
    ensures var (t, _, out) := RecvOn(s, side, ch, 0);
      && (out.Some? ==> Spin(s, side, ch, timeout, others) == (t, Ok, out))
      && (out.None? ==>
            t == s && Spin(s, side, ch, timeout, others)
                      == if timeout == 0 then (s, ErrAgain, None) else if |others| == 0 then (s, ErrTimeout, None)
                         else Spin(Exec(s, others[0]), side, ch, timeout, others[1..]))
  {
  }

  function Flat(others: seq<seq<Call>>): seq<Call> {
    if |others| == 0 then [] else others[0] + Flat(others[1..])
  }

  lemma {:induction false} ExecConcat(s: Ipc, a: seq<Call>, b: seq<Call>)
    requires Shape(s)
    ensures Exec(s, a + b) == Exec(Exec(s, a), b)
    decreases |a|
  {
    hide Apply, Shape;
    if a == [] {
      assert a + b == b;
    } else {
      assert (a + b)[1..] == a[1..] + b;
      ExecConcat(Apply(s, a[0]), a[1..], b);
    }
  }

  /** The state before poll number k. */
  function AtPoll(s: Ipc, others: seq<seq<Call>>, k: nat): (r: Ipc)
    requires Shape(s) && k <= |others|
    ensures Shape(r)
  {
    Exec(s, Flat(others[..k]))
  }

  lemma AtPollStep(s: Ipc, others: seq<seq<Call>>, k: nat)
    requires Shape(s) && |others| > 0 && k < |others|
    ensures AtPoll(Exec(s, others[0]), others[1..], k) == AtPoll(s, others, k + 1)
  {
    hide Shape;
    assert others[..k + 1][1..] == others[1..][..k];
    ExecConcat(s, others[0], Flat(others[1..][..k]));
  }

  /** The outcome of a polling receive: that of one receive at poll k, the first one to find a
      message, or else the last one, or the first one without a timeout. */
  ghost predicate Polled(s: Ipc, side: Side, ch: nat, timeout: nat, others: seq<seq<Call>>, k: nat,
                         t: Ipc, st: Status, out: Option<Msg>)
    requires Shape(s) && Shape(t) && ch < MAX_CHANNELS && k <= |others|
  {
    && OneReceive(AtPoll(s, others, k), side, ch, timeout, t, st, out)
    && (forall j: nat :: j < k ==> Queue(AtPoll(s, others, j), side) == [])
    && (st != Ok ==> k == if timeout == 0 then 0 else |others|)
  }

  /** Whatever arrives meanwhile, a receive is one receive at the first poll that finds the
      ring not empty, and it times out only when no poll did. */
  lemma {:induction false} SpinIsOneReceive(s: Ipc, side: Side, ch: nat, timeout: nat, others: seq<seq<Call>>)
    returns (k: nat)
    requires Shape(s) && ch < MAX_CHANNELS
    ensures k <= |others|
    ensures var (t, st, out) := Spin(s, side, ch, timeout, others); Polled(s, side, ch, timeout, others, k, t, st, out)
    decreases |others|
  {
    hide Exec, Shape, Queue, AtPoll, RecvOn, SameElsewhere;
    k := 0;
    FirstPoll(s, others);
    ReceiveEffect(s, side, ch, timeout);
    if Queue(s, side) == [] && timeout != 0 && |others| != 0 {
      var s' := Exec(s, others[0]);
      var k' := SpinIsOneReceive(s', side, ch, timeout, others[1..]);
      AtPollStep(s, others, k');
      k := k' + 1;
      forall j: nat | j < k ensures Queue(AtPoll(s, others, j), side) == [] {
        if j > 0 {
          AtPollStep(s, others, j - 1);
        }
      }
    }
  }

  lemma FirstPoll(s: Ipc, others: seq<seq<Call>>)
    requires Shape(s)
    ensures AtPoll(s, others, 0) == s
  {
  }

  lemma {:induction false} QuietSpin(s: Ipc, side: Side, ch: nat, timeout: nat, others: seq<seq<Call>>)
    requires Shape(s) && ch < MAX_CHANNELS && forall k: nat :: k < |others| ==> others[k] == []
    ensures Spin(s, side, ch, timeout, others) == RecvOn(s, side, ch, timeout)
    decreases |others|
  {
    if |others| != 0 {
      assert Exec(s, others[0]) == s;
      QuietSpin(s, side, ch, timeout, others[1..]);
    }
  }

  // ---------------------------------------------------------------- runs without a destruction

  /** The channel counters account for every message of every run without a destruction. */
  lemma {:induction false} RunConserves(s: Ipc, calls: seq<Call>)
    requires Shape(s) && Conserved(s) && forall c: Call :: c in calls ==> !c.DestroyChannel?
    ensures Conserved(Exec(s, calls))
    decreases |calls|
  {
    hide Conserved, Apply, Shape;
    if calls != [] {
      ApplyConserves(s, calls[0]);
      RunConserves(Apply(s, calls[0]), calls[1..]);
    }
  }

  // ---------------------------------------------------------------- order of delivery

  function Accepted(s: Ipc, side: Side, msg: Msg, now: nat): seq<Msg> {
    if s.ready && |Queue(s, side)| < CAPACITY then [msg.(seqNo := s.nextSeq, stamp := now)] else []
  }

  /** The messages a call puts into the ring of the given side. */
  function Sent(s: Ipc, c: Call, side: Side): seq<Msg> {
    match c
    case Send(ch, msg, now) => if side.ToHw? && ch < s.count then Accepted(s, side, msg, now) else []
    case SendToHw(msg, now) => if side.ToHw? then Accepted(s, side, msg, now) else []
    case SendToSw(msg, now) => if side.ToSw? then Accepted(s, side, msg, now) else []
    case _ => []
  }

  function Delivered(out: Option<Msg>): seq<Msg> {
    if out.Some? then [out.value] else []
  }

  /** The messages a call returns from the ring of the given side. */
  function Returned(s: Ipc, c: Call, side: Side): seq<Msg>
    requires Shape(s)
  {
    if !s.ready then [] else
    match c
    case Receive(ch, timeout) =>
      if side.ToSw? && ch < s.count then Delivered(RecvOn(s, ToSw, ch, timeout).2) else []
    case ReceiveFromSw(timeout) => if side.ToHw? then Delivered(RecvOn(s, ToHw, 0, timeout).2) else []
    case _ => []
  }

  function SentAll(s: Ipc, calls: seq<Call>, side: Side): seq<Msg>
    requires Shape(s)
    decreases |calls|
  {
    if calls == [] then [] else Sent(s, calls[0], side) + SentAll(Apply(s, calls[0]), calls[1..], side)
  }

  function ReturnedAll(s: Ipc, calls: seq<Call>, side: Side): seq<Msg>
    requires Shape(s)
    decreases |calls|
  {
    if calls == [] then [] else Returned(s, calls[0], side) + ReturnedAll(Apply(s, calls[0]), calls[1..], side)
  }

  lemma StepFifo(s: Ipc, c: Call, side: Side)
    requires Shape(s)
    ensures Returned(s, c, side) + Queue(Apply(s, c), side) == Queue(s, side) + Sent(s, c, side)
  {
    var q := Queue(s, side);
    assert q != [] ==> [q[0]] + q[1..] == q;
  }

  /** The messages that receives have returned from a ring, followed by those still in it, are
      those in it at the start followed by those accepted, whole and in that order. */
  lemma {:induction false} Fifo(s: Ipc, calls: seq<Call>, side: Side)
    requires Shape(s)
    ensures ReturnedAll(s, calls, side) + Queue(Exec(s, calls), side) == Queue(s, side) + SentAll(s, calls, side)
    decreases |calls|
  {
    hide Apply, Shape, Queue, Sent, Returned;
    if calls != [] {
      var s', rest := Apply(s, calls[0]), calls[1..];
      StepFifo(s, calls[0], side);
      Fifo(s', rest, side);
      Regroup(Returned(s, calls[0], side), ReturnedAll(s', rest, side), Queue(Exec(s', rest), side), Queue(s', side),
              SentAll(s', rest, side), Queue(s, side), Sent(s, calls[0], side));
    }
  }

  lemma Regroup<T>(t: seq<T>, ts: seq<T>, end: seq<T>, mid: seq<T>, us: seq<T>, start: seq<T>, u: seq<T>)
    requires t + mid == start + u && ts + end == mid + us
    ensures (t + ts) + end == start + (u + us)
  {
    assert (t + ts) + end == t + (ts + end);
    assert t + (mid + us) == (t + mid) + us;
    assert (start + u) + us == start + (u + us);
  }

  ghost predicate Increasing(s: seq<Msg>, lo: nat, hi: nat) {
    && (forall i: nat :: i < |s| ==> lo <= s[i].seqNo < hi)
    && (forall i: nat, j: nat :: i < j < |s| ==> s[i].seqNo < s[j].seqNo)
  }

  lemma StepNumbers(s: Ipc, c: Call, side: Side)
    requires Shape(s)
    ensures s.nextSeq <= Apply(s, c).nextSeq && Increasing(Sent(s, c, side), s.nextSeq, Apply(s, c).nextSeq)
  {
  }

  /** Sequence numbers increase strictly along each ring, although both rings and all
      channels share one counter and dropped messages use numbers up. */
  lemma {:induction false} SequenceNumbers(s: Ipc, calls: seq<Call>, side: Side)
    requires Shape(s)
    ensures s.nextSeq <= Exec(s, calls).nextSeq
    ensures Increasing(SentAll(s, calls, side), s.nextSeq, Exec(s, calls).nextSeq)
    decreases |calls|
  {
    hide Apply, Shape, Queue, Sent, Increasing;
    if calls != [] {
      StepNumbers(s, calls[0], side);
      SequenceNumbers(Apply(s, calls[0]), calls[1..], side);
      IncreasingConcat(Sent(s, calls[0], side), SentAll(Apply(s, calls[0]), calls[1..], side),
                       s.nextSeq, Apply(s, calls[0]).nextSeq, Exec(s, calls).nextSeq);
    } else {
      IncreasingEmpty(s.nextSeq);
    }
  }

  lemma IncreasingEmpty(n: nat)
    ensures Increasing([], n, n)
  {
  }

  lemma IncreasingConcat(x: seq<Msg>, y: seq<Msg>, a: nat, b: nat, c: nat)
    requires Increasing(x, a, b) && Increasing(y, b, c) && a <= b <= c
    ensures Increasing(x + y, a, c)
  {
    var z := x + y;
    forall i: nat | i < |z| ensures a <= z[i].seqNo < c {
      if i >= |x| { assert z[i] == y[i - |x|]; }
    }
    forall i: nat, j: nat | i < j < |z| ensures z[i].seqNo < z[j].seqNo {
      if j >= |x| { assert z[j] == y[j - |x|]; }
      if i >= |x| { assert z[i] == y[i - |x|]; }
    }
  }
}
