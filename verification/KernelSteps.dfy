/**
  The two main loops as threads: taking a message off a ring and handling it are separate
  steps, and system calls and steps of the other loop come in between.  A poll that finds
  nothing changes nothing.  Each ring acts as a queue, as the steps of one producer and one
  consumer do.
 */
module KernelSteps {
  import opened Types
  import opened Messages
  import opened Slots
  import opened KernelSpec
  import I = IpcSpec
  import P = ProcessTable

  /** The system, and the message each main loop has received and not handled. */
  datatype Threads = Threads(sys: Sys, hw: Option<Msg>, sw: Option<Msg>)

  /** entry is a system call or somebody else's message or channel. */
  datatype Turn =
    | Entry(entry: Event)
    | HwReceive
    | HwReply(now: nat)
    | SwReceive
    | SwCount

  ghost predicate Fits(w: Threads) {
    && Shape(w.sys)
    && (w.hw.Some? ==> w.sys.hwOn && w.sys.ipc.ready)
    && (w.sw.Some? ==> w.sys.swOn)
  }

  predicate Possible(t: Turn) {
    t.Entry? ==> Allowed(t.entry) && (t.entry.Call? || t.entry.Other?)
  }

  function After(w: Threads, t: Turn): (w': Threads)
    requires Shape(w.sys) && Possible(t)
    ensures Shape(w'.sys)
  {
    match t
    case Entry(e) => w.(sys := Step(w.sys, e))
    case HwReceive =>
      if w.hw.Some? || !w.sys.hwOn || !w.sys.ipc.ready then w else
      var (ipc, st, out) := I.RecvOn(w.sys.ipc, I.ToHw, 0, POLL_MS);
      w.(sys := w.sys.(ipc := ipc), hw := out)
    case HwReply(now) =>
      if w.hw.None? then w else w.(sys := HwHandle(w.sys, w.hw.value, now).0, hw := None)
    case SwReceive =>
      if w.sw.Some? || !w.sys.swOn || !w.sys.ipc.ready then w else
      var (ipc, st, out) := I.RecvOn(w.sys.ipc, I.ToSw, 0, POLL_MS);
      w.(sys := w.sys.(ipc := ipc), sw := out)
    case SwCount =>
      if w.sw.None? then w else w.(sys := SwHandle(w.sys, w.sw.value).0, sw := None)
  }

  function Events(w: Threads, t: Turn): History
    requires Shape(w.sys)
  {
    match t
    case Entry(e) => History(Asked(w.sys, e), [], [])
    case HwReply(_) =>
      if w.hw.Some? && w.hw.value.kind == KIND_SYSCALL
      then History([], [Answer(w.hw.value.srcId, |w.sys.ipc.toSw| < CAPACITY)], []) else History([], [], [])
    case SwCount => History([], [], if w.sw.Some? then [w.sw.value.dstId] else [])
    case _ => History([], [], [])
  }

  function Run(w: Threads, turns: seq<Turn>): (w': Threads)
    requires Shape(w.sys) && forall t: Turn :: t in turns ==> Possible(t)
    decreases |turns|
  {
    if turns == [] then w else Run(After(w, turns[0]), turns[1..])
  }

  function Log(w: Threads, turns: seq<Turn>): History
    requires Shape(w.sys) && forall t: Turn :: t in turns ==> Possible(t)
    decreases |turns|
  {
    if turns == [] then History([], [], []) else
    var h, k := Events(w, turns[0]), Log(After(w, turns[0]), turns[1..]);
    History(h.asked + k.asked, h.answered + k.answered, h.received + k.received)
  }

  function InHand(m: Option<Msg>): seq<Msg> {
    if m.Some? then [m.value] else []
  }

  /** The system with the messages in hand put back in front of their rings. */
  ghost function Flow(w: Threads): Sys {
    w.sys.(ipc := w.sys.ipc.(toHw := InHand(w.hw) + w.sys.ipc.toHw, toSw := InHand(w.sw) + w.sys.ipc.toSw))
  }

  lemma EntryTurn(w: Threads, e: Event)
    requires Fits(w) && Possible(Entry(e))
    ensures Fits(After(w, Entry(e))) && Protocol(Flow(w), Events(w, Entry(e)), Flow(After(w, Entry(e))))
  {
    hide Callers, Addressees, Ids, Kept, Step;
    var t := Step(w.sys, e);
    StepProtocol(w.sys, e);
    EntryOnlyAppends(w.sys, e);
    CallersConcat(InHand(w.hw), w.sys.ipc.toHw);
    CallersConcat(InHand(w.hw), t.ipc.toHw);
    Nothing();
    assert Callers(t.ipc.toHw) == [] + Callers(t.ipc.toHw);
    assert Callers(InHand(w.hw)) + (Callers(w.sys.ipc.toHw) + Asked(w.sys, e))
           == (Callers(InHand(w.hw)) + Callers(w.sys.ipc.toHw)) + Asked(w.sys, e);
  }

  lemma EntryOnlyAppends(s: Sys, e: Event)
    requires Shape(s) && Allowed(e) && (e.Call? || e.Other?)
    ensures var t := Step(s, e);
      && t.hwOn == s.hwOn && t.swOn == s.swOn && t.ipc.ready == s.ipc.ready && t.ipc.toSw == s.ipc.toSw
    ensures Answered(s, e) == [] && Received(s, e) == []
  {
    hide P.Create, P.Exit, P.CurrentPid;
  }

  lemma HwReplyTurn(w: Threads, now: nat)
    requires Fits(w) && w.hw.Some?
    ensures var t := HwReply(now);
      Fits(After(w, t)) && Protocol(Flow(w), Events(w, t), Flow(After(w, t)))
  {
    hide Callers, Addressees, Ids, Kept;
    Nothing();
    var m, q, p := w.hw.value, w.sys.ipc.toHw, InHand(w.sw) + w.sys.ipc.toSw;
    CallersConcat([m], q);
    OneCaller(m);
    var reply := Reply(m).(seqNo := w.sys.ipc.nextSeq, stamp := now);
    AddresseesConcat(p, [reply]);
    OneAddressee(reply);
    OneAnswer(Answer(m.srcId, |w.sys.ipc.toSw| < CAPACITY));
    assert InHand(w.sw) + (w.sys.ipc.toSw + [reply]) == p + [reply];
    assert [] + q == q;
  }

  lemma SwCountTurn(w: Threads)
    requires Fits(w) && w.sw.Some?
    ensures Fits(After(w, SwCount)) && Protocol(Flow(w), Events(w, SwCount), Flow(After(w, SwCount)))
  {
    hide Callers, Addressees, Ids, Kept;
    Nothing();
    AddresseesConcat([w.sw.value], w.sys.ipc.toSw);
    OneAddressee(w.sw.value);
    assert [] + w.sys.ipc.toSw == w.sys.ipc.toSw;
  }

  /** A receive moves the front message from the ring into the hand. */
  lemma ReceiveTurn(w: Threads, t: Turn)
    requires Fits(w) && (t.HwReceive? || t.SwReceive?)
    ensures Fits(After(w, t)) && Protocol(Flow(w), History([], [], []), Flow(After(w, t)))
  {
    hide Callers, Addressees, Ids, Kept;
    Nothing();
    var w' := After(w, t);
    assert InHand(w'.hw) + w'.sys.ipc.toHw == InHand(w.hw) + w.sys.ipc.toHw;
    assert InHand(w'.sw) + w'.sys.ipc.toSw == InHand(w.sw) + w.sys.ipc.toSw;
  }

  lemma TurnProtocol(w: Threads, t: Turn)
    requires Fits(w) && Possible(t)
    ensures Fits(After(w, t)) && Protocol(Flow(w), Events(w, t), Flow(After(w, t)))
  {
    hide Protocol, Flow;
    match t {
      case Entry(e) => EntryTurn(w, e);
      case HwReceive => ReceiveTurn(w, t);
      case HwReply(now) => if w.hw.Some? { HwReplyTurn(w, now); } else { NothingHappened(Flow(w)); }
      case SwReceive => ReceiveTurn(w, t);
      case SwCount => if w.sw.Some? { SwCountTurn(w); } else { NothingHappened(Flow(w)); }
    }
  }

  lemma {:induction false} RunOfTurns(w: Threads, turns: seq<Turn>)
    requires Fits(w) && forall t: Turn :: t in turns ==> Possible(t)
    ensures Fits(Run(w, turns)) && Protocol(Flow(w), Log(w, turns), Flow(Run(w, turns)))
    decreases |turns|
  {
    hide Protocol, Flow, After, Possible, Events;
    if turns == [] {
      NothingHappened(Flow(w));
    } else {
      var w' := After(w, turns[0]);
      TurnProtocol(w, turns[0]);
      RunOfTurns(w', turns[1..]);
      ProtocolCompose(Flow(w), Events(w, turns[0]), Flow(w'), Log(w', turns[1..]), Flow(Run(w, turns)));
    }
  }

  /** One turn of a main loop is a receive and the handling, with nothing in between. */
  lemma WholeTurn(w: Threads, now: nat)
    requires Fits(w)
    ensures w.hw == None ==> After(After(w, HwReceive), HwReply(now)) == w.(sys := HwPoll(w.sys, now))
    ensures w.sw == None ==> After(After(w, SwReceive), SwCount) == w.(sys := SwPoll(w.sys))
  {
    hide HwHandle, SwHandle;
  }

  /** Under every interleaving from empty rings: the accepted callers are, in order, the
      answered ones, the one in the hardware kernel's hand and the queued ones; the answered
      callers whose reply found room are, in order, those whose reply the software kernel
      has counted, has in hand or has queued. */
  lemma InterleavedReplyOrder(w: Threads, turns: seq<Turn>)
    requires Fits(w) && w.hw == w.sw == None && w.sys.ipc.toHw == w.sys.ipc.toSw == []
    requires forall t: Turn :: t in turns ==> Possible(t)
    ensures var h, w' := Log(w, turns), Run(w, turns);
      && h.asked == Ids(h.answered) + Callers(InHand(w'.hw) + w'.sys.ipc.toHw)
      && Kept(h.answered) == h.received + Addressees(InHand(w'.sw) + w'.sys.ipc.toSw)
  {
    hide Possible, Log, Run;
    RunOfTurns(w, turns);
    Nothing();
  }

  /** Under every interleaving from empty rings and zero counters, the system calls sent are
      the messages counted, plus those in the rings and in hand, plus the replies dropped. */
  lemma InterleavedConservation(w: Threads, turns: seq<Turn>)
    requires Fits(w) && w.hw == w.sw == None && w.sys.ipc.toHw == w.sys.ipc.toSw == []
    requires w.sys.tx == w.sys.rx == 0 && forall t: Turn :: t in turns ==> Possible(t)
    ensures var h, w' := Log(w, turns), Run(w, turns);
      w'.sys.tx == w'.sys.rx + |Callers(InHand(w'.hw) + w'.sys.ipc.toHw)| + |InHand(w'.sw) + w'.sys.ipc.toSw|
                   + Dropped(h.answered)
  {
    hide Possible, Log, Run, Callers, Addressees, Ids, Kept, Dropped;
    RunOfTurns(w, turns);
    Nothing();
    KeptOrDropped(Log(w, turns).answered);
  }

  // ---------------------------------------------------------------- whole messages

  /** Whole messages: put into the hardware ring, handled by the hardware kernel, put into the
      software ring as replies, and counted by the software kernel. */
  datatype Traffic = Traffic(requests: seq<Msg>, handled: seq<Msg>, replies: seq<Msg>, counted: seq<Msg>)

  function Requests(s: Sys, e: Event): seq<Msg>
    requires Shape(s) && Possible(Entry(e))
  {
    if e.Other? then I.Sent(s.ipc, e.call, I.ToHw)
    else if s.swOn && IsForwarded(e.nr) then
      I.Sent(s.ipc, I.SendToHw(Request(s, e.nr, e.args), e.now), I.ToHw)
    else []
  }

  function Moved(w: Threads, t: Turn): Traffic
    requires Shape(w.sys) && Possible(t)
  {
    match t
    case Entry(e) => Traffic(Requests(w.sys, e), [], [], [])
    case HwReply(now) =>
      if w.hw.None? then Traffic([], [], [], []) else
      var m := w.hw.value;
      var replies := if m.kind == KIND_SYSCALL then I.Sent(w.sys.ipc, I.SendToSw(Reply(m), now), I.ToSw) else [];
      Traffic([], [m], replies, [])
    case SwCount => Traffic([], [], [], InHand(w.sw))
    case _ => Traffic([], [], [], [])
  }

  function AllMoved(w: Threads, turns: seq<Turn>): Traffic
    requires Shape(w.sys) && forall t: Turn :: t in turns ==> Possible(t)
    decreases |turns|
  {
    if turns == [] then Traffic([], [], [], []) else
    var a, b := Moved(w, turns[0]), AllMoved(After(w, turns[0]), turns[1..]);
    Traffic(a.requests + b.requests, a.handled + b.handled, a.replies + b.replies, a.counted + b.counted)
  }

  /** Nothing is lost, changed or reordered on either way. */
  ghost predicate Carried(w: Threads, a: Traffic, w': Threads) {
    && a.handled + Flow(w').ipc.toHw == Flow(w).ipc.toHw + a.requests
    && a.counted + Flow(w').ipc.toSw == Flow(w).ipc.toSw + a.replies
  }

  lemma TurnCarries(w: Threads, t: Turn)
    requires Fits(w) && Possible(t)
    ensures Carried(w, Moved(w, t), After(w, t))
  {
    hide Carried, Moved, After;
    match t {
      case Entry(e) => EntryCarries(w, e);
      case HwReceive => ReceiveCarries(w, t);
      case SwReceive => ReceiveCarries(w, t);
      case HwReply(now) => ReplyCarries(w, now);
      case SwCount => CountCarries(w);
    }
  }

  lemma EntryAppends(s: Sys, e: Event)
    requires Shape(s) && Possible(Entry(e))
    ensures Step(s, e).ipc.toHw == s.ipc.toHw + Requests(s, e) && Step(s, e).ipc.toSw == s.ipc.toSw
  {
    hide P.Create, P.Exit, P.CurrentPid;
  }

  lemma EntryCarries(w: Threads, e: Event)
    requires Fits(w) && Possible(Entry(e))
    ensures Carried(w, Moved(w, Entry(e)), After(w, Entry(e)))
  {
    hide Step, Requests;
    EntryAppends(w.sys, e);
    var q, more := w.sys.ipc.toHw, Requests(w.sys, e);
    assert InHand(w.hw) + (q + more) == (InHand(w.hw) + q) + more;
  }

  lemma ReceiveCarries(w: Threads, t: Turn)
    requires Fits(w) && (t.HwReceive? || t.SwReceive?)
    ensures Carried(w, Moved(w, t), After(w, t))
  {
    var w' := After(w, t);
    assert InHand(w'.hw) + w'.sys.ipc.toHw == InHand(w.hw) + w.sys.ipc.toHw;
    assert InHand(w'.sw) + w'.sys.ipc.toSw == InHand(w.sw) + w.sys.ipc.toSw;
  }

  lemma ReplyCarries(w: Threads, now: nat)
    requires Fits(w)
    ensures Carried(w, Moved(w, HwReply(now)), After(w, HwReply(now)))
  {
  }

  lemma CountCarries(w: Threads)
    requires Fits(w)
    ensures Carried(w, Moved(w, SwCount), After(w, SwCount))
  {
  }

  lemma {:induction false} RunCarries(w: Threads, turns: seq<Turn>)
    requires Fits(w) && forall t: Turn :: t in turns ==> Possible(t)
    ensures Carried(w, AllMoved(w, turns), Run(w, turns))
    decreases |turns|
  {
    hide Flow, After, Possible, Moved;
    if turns != [] {
      var w', end := After(w, turns[0]), Run(w, turns);
      TurnProtocol(w, turns[0]);
      TurnCarries(w, turns[0]);
      RunCarries(w', turns[1..]);
      var a, b := Moved(w, turns[0]), AllMoved(w', turns[1..]);
      I.Regroup(a.handled, b.handled, Flow(end).ipc.toHw, Flow(w').ipc.toHw, b.requests, Flow(w).ipc.toHw, a.requests);
      I.Regroup(a.counted, b.counted, Flow(end).ipc.toSw, Flow(w').ipc.toSw, b.replies, Flow(w).ipc.toSw, a.replies);
    }
  }

  ghost predicate AnswersOneOf(r: Msg, handled: seq<Msg>) {
    exists m: Msg :: m in handled && m.kind == KIND_SYSCALL && Answers(r, m)
  }

  /** Under every interleaving from empty rings, messages arrive whole and in order: those
      handled by the hardware kernel are the first ones sent to it, those counted by the
      software kernel are the first replies, and every reply answers a handled system call. */
  lemma InterleavedDelivery(w: Threads, turns: seq<Turn>)
    requires Fits(w) && w.hw == w.sw == None && w.sys.ipc.toHw == w.sys.ipc.toSw == []
    requires forall t: Turn :: t in turns ==> Possible(t)
    ensures var a, w' := AllMoved(w, turns), Run(w, turns);
      && a.handled + InHand(w'.hw) + w'.sys.ipc.toHw == a.requests
      && a.counted + InHand(w'.sw) + w'.sys.ipc.toSw == a.replies
      && forall r: Msg :: r in a.replies ==> AnswersOneOf(r, a.handled)
  {
    hide Possible, AllMoved, Run, AnswersOneOf;
    RunCarries(w, turns);
    RepliesAnswer(w, turns);
    var a, w' := AllMoved(w, turns), Run(w, turns);
    assert a.handled + (InHand(w'.hw) + w'.sys.ipc.toHw) == a.handled + InHand(w'.hw) + w'.sys.ipc.toHw;
    assert a.counted + (InHand(w'.sw) + w'.sys.ipc.toSw) == a.counted + InHand(w'.sw) + w'.sys.ipc.toSw;
  }

  lemma {:induction false} RepliesAnswer(w: Threads, turns: seq<Turn>)
    requires Shape(w.sys) && forall t: Turn :: t in turns ==> Possible(t)
    ensures forall r: Msg :: r in AllMoved(w, turns).replies ==> AnswersOneOf(r, AllMoved(w, turns).handled)
    decreases |turns|
  {
    hide After, Possible, AnswersOneOf;
    if turns != [] {
      var b, a := AllMoved(After(w, turns[0]), turns[1..]), Moved(w, turns[0]);
      RepliesAnswer(After(w, turns[0]), turns[1..]);
      forall r: Msg | r in a.replies + b.replies ensures AnswersOneOf(r, a.handled + b.handled) {
        if r in a.replies {
          OneOfMore(r, w.hw.value, a.handled + b.handled);
        } else {
          assert r in b.replies;
          MoreToChoose(r, a.handled, b.handled);
        }
      }
    }
  }

  lemma OneOfMore(r: Msg, m: Msg, handled: seq<Msg>)
    requires m in handled && m.kind == KIND_SYSCALL && Answers(r, m)
    ensures AnswersOneOf(r, handled)
  {
  }

  lemma MoreToChoose(r: Msg, before: seq<Msg>, handled: seq<Msg>)
    requires AnswersOneOf(r, handled)
    ensures AnswersOneOf(r, before + handled)
  {
    var m: Msg :| m in handled && m.kind == KIND_SYSCALL && Answers(r, m);
    assert m in before + handled;
  }
}
