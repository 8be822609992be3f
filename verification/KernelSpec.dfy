/**
  System calls, the polling steps of the two kernels, and the reply protocol they follow
  over the IPC layer.
 */
module KernelSpec {
  import opened Types
  import opened Messages
  import opened Slots
  import I = IpcSpec
  import P = ProcessTable

  const SYS_NOP: nat := 0
  const SYS_WRITE: nat := 1
  const SYS_READ: nat := 2
  const SYS_OPEN: nat := 3
  const SYS_CLOSE: nat := 4
  const SYS_SPAWN: nat := 5
  const SYS_EXIT: nat := 6
  const SYS_GETPID: nat := 7
  const SYS_IPC_SEND: nat := 8
  const SYS_MMAP: nat := 10
  const PRIO_NORMAL: nat := 2
  const POLL_MS: nat := 50

  /** The state of both kernels: what each has initialized, and the counters they keep. */
  datatype Sys = Sys(ipc: I.Ipc, table: P.Table, hwOn: bool, swOn: bool, forwarded: nat,
                     syscalls: nat, tx: nat, rx: nat, processCount: int)

  predicate Shape(s: Sys) {
    I.Shape(s.ipc) && P.Shape(s.table)
  }

  predicate IsForwarded(nr: nat) {
    nr == SYS_IPC_SEND || nr == SYS_WRITE || nr == SYS_READ || nr == SYS_OPEN || nr == SYS_CLOSE || nr == SYS_MMAP
  }

  function Request(s: Sys, nr: nat, args: seq<nat>): Msg
    requires Shape(s)
  {
    Msg(KIND_SYSCALL, 0, P.CurrentPid(s.table), 0, 0, 0, 40, [nr] + args)
  }

  function Reply(msg: Msg): Msg {
    Msg(KIND_REPLY, FLAG_REPLY, 0, msg.srcId, 0, 0, 4, [0])
  }

  function Forward(s: Sys, nr: nat, args: seq<nat>, now: nat): (r: (Sys, Status))
    requires Shape(s)
    ensures Shape(r.0)
  {
    if !s.ipc.ready then (s, ErrInval) else
    var (i, st) := I.SendOn(s.ipc, I.ToHw, 0, Request(s, nr, args), now);
    (s.(ipc := i, tx := if st == Ok then s.tx + 1 else s.tx), st)
  }

  /** A system call: the new state, the status and the returned value.  memory: whether the
      record of a spawned process can be allocated. */
  function Syscall(s: Sys, nr: nat, args: seq<nat>, now: nat, memory: bool): (r: (Sys, Status, nat))
    requires Shape(s) && |args| == 4
    ensures Shape(r.0)
  {
    if !s.swOn then (s, ErrState, 0) else
    var s1 := s.(syscalls := s.syscalls + 1);
    if nr == SYS_NOP then (s1, Ok, 0)
    else if nr == SYS_GETPID then (s1, Ok, P.CurrentPid(s.table))
    else if nr == SYS_SPAWN then
      if args[0] == 0 then (s1, ErrInval, 0) else
      var (t, st, pid) := P.Create(s.table, PRIO_NORMAL, memory);
      (s1.(table := t, processCount := t.count), st, if st == Ok then pid else 0)
    else if nr == SYS_EXIT then
      if s.table.current.None? then (s1, ErrState, 0) else
      var (t, st) := P.Exit(s.table, P.CurrentPid(s.table));
      (s1.(table := t), st, 0)
    else if IsForwarded(nr) then
      var (s2, st) := Forward(s1, nr, args, now);
      (s2, st, 0)
    else (s1, ErrNoSys, 0)
  }

  /** What the hardware kernel does with a message; only system calls are answered. */
  function HwHandle(s: Sys, msg: Msg, now: nat): (r: (Sys, Status))
    requires Shape(s)
    ensures Shape(r.0)
  {
    if !s.hwOn then (s, ErrInval)
    else if msg.kind == KIND_SYSCALL then
      (s.(forwarded := s.forwarded + 1, ipc := I.Apply(s.ipc, I.SendToSw(Reply(msg), now))), Ok)
    else if msg.kind == KIND_DRIVER || msg.kind == KIND_POWER then (s, Ok)
    else (s, ErrInval)
  }

  function HwPoll(s: Sys, now: nat): (r: Sys)
    requires Shape(s)
    ensures Shape(r)
  {
    if !s.hwOn || !s.ipc.ready then s else
    var (i, st, out) := I.RecvOn(s.ipc, I.ToHw, 0, POLL_MS);
    if out.Some? then HwHandle(s.(ipc := i), out.value, now).0 else s.(ipc := i)
  }

  function SwHandle(s: Sys, msg: Msg): (r: (Sys, Status)) {
    if !s.swOn then (s, ErrInval) else (s.(rx := s.rx + 1), Ok)
  }

  function SwPoll(s: Sys): (r: Sys)
    requires Shape(s)
    ensures Shape(r)
  {
    if !s.swOn || !s.ipc.ready then s else
    var (i, st, out) := I.RecvOn(s.ipc, I.ToSw, 0, POLL_MS);
    if out.Some? then SwHandle(s.(ipc := i), out.value).0 else s.(ipc := i)
  }

  // ---------------------------------------------------------------- what a system call does

  /** Only the process table, or only the IPC layer, or neither, apart from the call count. */
  ghost predicate OnlyTable(s: Sys, t: Sys) {
    t.(table := s.table, processCount := s.processCount) == s.(syscalls := s.syscalls + 1)
  }

  ghost predicate OnlyIpc(s: Sys, t: Sys) {
    t.(ipc := s.ipc, tx := s.tx) == s.(syscalls := s.syscalls + 1)
  }

  /** A spawn answers with the identifier of a new ready process, child of the current one,
      or says what is missing. */
  lemma SpawnEffect(s: Sys, args: seq<nat>, now: nat, memory: bool)
    requires Shape(s) && P.Inv(s.table) && s.swOn && |args| == 4
    ensures var (t, st, ret) := Syscall(s, SYS_SPAWN, args, now, memory);
      && OnlyTable(s, t) && P.Inv(t.table)
      && (st == ErrInval <==> args[0] == 0 || !s.table.ready)
      && (st == Ok || st == ErrInval || st == ErrNoMem || st == ErrOverflow) && (st != Ok ==> ret == 0)
      && (st == Ok ==>
            && var k := P.Find(t.table, ret);
            && k < P.MAX_PROCESSES && s.table.slots[k] == None && t.processCount == s.table.count + 1
            && t.table.slots[k].value.state == P.Ready && t.table.slots[k].value.priority == PRIO_NORMAL
            && (s.table.current.Some? ==>
                  t.table.slots[k].value.ppid == s.table.slots[s.table.current.value].value.pid))
  {
    hide P.Inv, P.Create, P.Find;
    P.CreatedIsFound(s.table, PRIO_NORMAL, memory);
    P.CreateKeeps(s.table, PRIO_NORMAL, memory);
    CreateStatus(s.table, memory);
  }

  lemma CreateStatus(t: P.Table, memory: bool)
    requires P.Shape(t)
    ensures var (t', st, pid) := P.Create(t, PRIO_NORMAL, memory);
      && (st == ErrInval <==> !t.ready) && (st == Ok || st == ErrInval || st == ErrNoMem || st == ErrOverflow)
      && (st != Ok ==> pid == 0)
  {
  }

  /** A process asks for its identifier: the one in the current slot, or 0. */
  lemma GetpidEffect(s: Sys, args: seq<nat>, now: nat, memory: bool)
    requires Shape(s) && s.swOn && |args| == 4
    ensures var (t, st, ret) := Syscall(s, SYS_GETPID, args, now, memory);
      && st == Ok && t == s.(syscalls := s.syscalls + 1)
      && ret == if s.table.current.Some? then s.table.slots[s.table.current.value].value.pid else 0
  {
  }

  /** The first process spawned becomes current and is told the identifier it was given. */
  lemma SpawnThenGetpid(s: Sys, args: seq<nat>, now: nat, memory: bool)
    requires Shape(s) && P.Inv(s.table) && s.swOn && s.table.current == None && |args| == 4
    ensures var (t, st, ret) := Syscall(s, SYS_SPAWN, args, now, memory);
      st == Ok ==> ret > 0 && Syscall(t, SYS_GETPID, args, now, memory).2 == ret
  {
    hide P.Inv, P.Create, P.Find;
    P.CreatedIsFound(s.table, PRIO_NORMAL, memory);
    var (t, st, ret) := Syscall(s, SYS_SPAWN, args, now, memory);
    if st == Ok {
      P.FindIsExact(t.table, ret);
      PidsPositive(t.table, P.Find(t.table, ret));
      GetpidEffect(t, args, now, memory);
    }
  }

  lemma PidsPositive(t: P.Table, k: nat)
    requires P.Inv(t) && k < P.MAX_PROCESSES
    ensures P.Shape(t) && (t.slots[k].Some? ==> t.slots[k].value.pid > 0)
  {
  }

  /** An exit makes exactly the current process a zombie; afterwards there is none, and the
      identifier of the caller is 0. */
  lemma ExitEffect(s: Sys, args: seq<nat>, now: nat, memory: bool)
    requires Shape(s) && P.Inv(s.table) && s.swOn && |args| == 4
    ensures var (t, st, ret) := Syscall(s, SYS_EXIT, args, now, memory);
      && OnlyTable(s, t) && t.processCount == s.processCount && ret == 0
      && (s.table.current == None ==> st == ErrState && t.table == s.table)
      && (s.table.current.Some? && s.table.ready ==>
            && var c := s.table.current.value;
            && st == Ok && t.table.current == None
            && t.table.slots[c] == Some(s.table.slots[c].value.(state := P.Zombie))
            && (forall k: nat :: k < P.MAX_PROCESSES && k != c ==> t.table.slots[k] == s.table.slots[k])
            && Syscall(t, SYS_GETPID, args, now, memory).2 == 0)
  {
    hide P.Inv, P.Exit, P.Find;
    if s.table.current.Some? {
      var c := s.table.current.value;
      var pid := s.table.slots[c].value.pid;
      P.ExitEffect(s.table, pid);
      P.FindIsExact(s.table, pid);
      assert P.Holds(s.table, c, pid);
    }
  }

  /** The number and the arguments of a forwarded call, in the message that carries it. */
  ghost predicate Carries(m: Msg, nr: nat, args: seq<nat>, caller: nat) {
    && m.kind == KIND_SYSCALL && m.flags == 0 && m.srcId == caller && m.dstId == 0
    && m.dataLen == 40 && |m.data| == 1 + |args|
    && m.data[0] == nr && forall i: nat :: i < |args| ==> m.data[i + 1] == args[i]
  }

  /** A forwarded call is accepted exactly when the hardware ring has room.  Then one message
      that carries the call and its caller is at the end of the ring, and is counted. */
  lemma ForwardEffect(s: Sys, nr: nat, args: seq<nat>, now: nat, memory: bool)
    requires Shape(s) && s.swOn && |args| == 4
    requires nr == SYS_IPC_SEND || nr == SYS_WRITE || nr == SYS_READ || nr == SYS_OPEN || nr == SYS_CLOSE
             || nr == SYS_MMAP
    ensures var (t, st, ret) := Syscall(s, nr, args, now, memory);
      && OnlyIpc(s, t) && ret == 0
      && (st == Ok <==> s.ipc.ready && |s.ipc.toHw| < CAPACITY)
      && (st == ErrInval <==> !s.ipc.ready) && (st == Ok || st == ErrInval || st == ErrOverflow)
      && (st == ErrInval ==> t.ipc == s.ipc)
      && t.tx == s.tx + (if st == Ok then 1 else 0)
      && (st != ErrInval ==>
            && t.ipc.nextSeq == s.ipc.nextSeq + 1 && I.SameElsewhere(s.ipc, t.ipc, I.ToHw, 0)
            && t.ipc.channels[0].tx == s.ipc.channels[0].tx + (if st == Ok then 1 else 0)
            && t.ipc.channels[0].drop == s.ipc.channels[0].drop + (if st == Ok then 0 else 1))
      && (st == ErrOverflow ==> t.ipc.toHw == s.ipc.toHw)
      && (st == Ok ==>
            && |t.ipc.toHw| == |s.ipc.toHw| + 1 && s.ipc.toHw <= t.ipc.toHw
            && t.ipc.toHw[|s.ipc.toHw|].seqNo == s.ipc.nextSeq
            && Carries(t.ipc.toHw[|s.ipc.toHw|], nr, args,
                       if s.table.current.Some? then s.table.slots[s.table.current.value].value.pid else 0))
  {
    if s.ipc.ready {
      I.SendEffect(s.ipc, I.ToHw, 0, Request(s, nr, args), now);
    }
  }

  /** The other calls: the empty one succeeds, unknown ones are refused, and before
      initialization every one is. */
  lemma PlainCalls(s: Sys, nr: nat, args: seq<nat>, now: nat, memory: bool)
    requires Shape(s) && |args| == 4
    ensures !s.swOn ==> Syscall(s, nr, args, now, memory) == (s, ErrState, 0)
    ensures s.swOn && nr == SYS_NOP ==> Syscall(s, nr, args, now, memory) == (s.(syscalls := s.syscalls + 1), Ok, 0)
    ensures s.swOn && (nr == 9 || nr > SYS_MMAP) ==>
              Syscall(s, nr, args, now, memory) == (s.(syscalls := s.syscalls + 1), ErrNoSys, 0)
  {
  }

  /** What a reply to message m looks like. */
  ghost predicate Answers(r: Msg, m: Msg) {
    r.kind == KIND_REPLY && r.flags == FLAG_REPLY && r.srcId == 0 && r.dstId == m.srcId
    && r.dataLen == 4 && r.data == [0]
  }

  /** A system call that reaches the hardware kernel is counted and, when there is room,
      answered to its caller with status 0.  Driver and power messages are accepted without
      effect, anything else is refused. */
  lemma HandleEffect(s: Sys, m: Msg, now: nat)
    requires Shape(s)
    ensures var (t, st) := HwHandle(s, m, now);
      && (st == Ok <==> s.hwOn && (m.kind == KIND_SYSCALL || m.kind == KIND_DRIVER || m.kind == KIND_POWER))
      && (st == Ok || st == ErrInval)
      && (!s.hwOn || m.kind != KIND_SYSCALL ==> t == s)
      && (s.hwOn && m.kind == KIND_SYSCALL ==>
            && t.(ipc := s.ipc) == s.(forwarded := s.forwarded + 1)
            && t.ipc.toHw == s.ipc.toHw && t.ipc.ready == s.ipc.ready
            && (s.ipc.ready && |s.ipc.toSw| < CAPACITY ==>
                  && |t.ipc.toSw| == |s.ipc.toSw| + 1 && s.ipc.toSw <= t.ipc.toSw
                  && Answers(t.ipc.toSw[|s.ipc.toSw|], m))
            && (!s.ipc.ready || |s.ipc.toSw| == CAPACITY ==> t.ipc.toSw == s.ipc.toSw))
  {
    if s.hwOn && m.kind == KIND_SYSCALL && s.ipc.ready {
      I.SendEffect(s.ipc, I.ToSw, 0, Reply(m), now);
    }
  }

  /** One turn of a main loop takes the first message off its ring, exactly when its kernel is
      on and there is one, and otherwise changes nothing.  The software kernel counts it. */
  lemma TurnEffect(s: Sys, now: nat)
    requires Shape(s)
    ensures !s.hwOn || !s.ipc.ready || s.ipc.toHw == [] ==> HwPoll(s, now) == s
    ensures s.hwOn && s.ipc.ready && s.ipc.toHw != [] ==>
              var t := HwPoll(s, now);
              && [s.ipc.toHw[0]] + t.ipc.toHw == s.ipc.toHw && t.ipc.channels[0].rx == s.ipc.channels[0].rx + 1
              && t.forwarded == s.forwarded + (if s.ipc.toHw[0].kind == KIND_SYSCALL then 1 else 0)
    ensures !s.swOn || !s.ipc.ready || s.ipc.toSw == [] ==> SwPoll(s) == s
    ensures s.swOn && s.ipc.ready && s.ipc.toSw != [] ==>
              var t := SwPoll(s);
              && [s.ipc.toSw[0]] + t.ipc.toSw == s.ipc.toSw && t.ipc.channels[0].rx == s.ipc.channels[0].rx + 1
              && t.(ipc := s.ipc) == s.(rx := s.rx + 1) && t.ipc.toHw == s.ipc.toHw
    ensures forall m: Msg :: SwHandle(s, m) == if s.swOn then (s.(rx := s.rx + 1), Ok) else (s, ErrInval)
  {
    var q, p := s.ipc.toHw, s.ipc.toSw;
    assert q != [] ==> [q[0]] + q[1..] == q;
    assert p != [] ==> [p[0]] + p[1..] == p;
  }

  /** A call on an idle system, end to end: one turn of the hardware kernel answers it, one
      turn of the software kernel counts the answer, and both rings are empty again. */
  lemma CallIsAnswered(s: Sys, nr: nat, args: seq<nat>, now: nat, memory: bool, later: nat)
    requires Shape(s) && s.swOn && s.hwOn && s.ipc.ready && s.ipc.toHw == s.ipc.toSw == []
    requires |args| == 4 && IsForwarded(nr)
    ensures var t := Syscall(s, nr, args, now, memory).0;
      && |t.ipc.toHw| == 1 && t.ipc.toSw == []
      && var u := HwPoll(t, later);
      && u.ipc.toHw == [] && |u.ipc.toSw| == 1 && Answers(u.ipc.toSw[0], t.ipc.toHw[0])
      && u.ipc.toSw[0].dstId == (if s.table.current.Some? then s.table.slots[s.table.current.value].value.pid else 0)
      && var v := SwPoll(u);
      && v.ipc.toHw == v.ipc.toSw == [] && v.table == s.table
      && v.tx == s.tx + 1 && v.forwarded == s.forwarded + 1 && v.rx == s.rx + 1
  {
    hide HwHandle, I.SendOn, P.CurrentPid;
    ForwardEffect(s, nr, args, now, memory);
    var t := Syscall(s, nr, args, now, memory).0;
    I.ReceiveEffect(t.ipc, I.ToHw, 0, POLL_MS);
    var i := I.RecvOn(t.ipc, I.ToHw, 0, POLL_MS).0;
    HandleEffect(t.(ipc := i), t.ipc.toHw[0], later);
    var u := HwPoll(t, later);
    I.ReceiveEffect(u.ipc, I.ToSw, 0, POLL_MS);
    var (w, st, out) := I.RecvOn(u.ipc, I.ToSw, 0, POLL_MS);
    assert |[out.value] + w.toSw| == 1;
  }

  // ---------------------------------------------------------------- runs

  /** A step of the running system: a system call, one turn of a main loop, or somebody
      else's message to the hardware kernel or a new channel. */
  datatype Event =
    | Call(nr: nat, args: seq<nat>, now: nat, memory: bool)
    | TurnHw(now: nat)
    | TurnSw
    | Other(call: I.Call)

  /** Only system calls send SYSCALL messages, and only the kernels receive. */
  predicate Allowed(e: Event) {
    match e
    case Call(_, args, _, _) => |args| == 4
    case Other(c) =>
      c.CreateChannel? || (c.Send? && c.msg.kind != KIND_SYSCALL) || (c.SendToHw? && c.msg.kind != KIND_SYSCALL)
    case _ => true
  }

  function Step(s: Sys, e: Event): (r: Sys)
    requires Shape(s) && Allowed(e)
    ensures Shape(r)
  {
    match e
    case Call(nr, args, now, memory) => Syscall(s, nr, args, now, memory).0
    case TurnHw(now) => HwPoll(s, now)
    case TurnSw => SwPoll(s)
    case Other(c) => s.(ipc := I.Apply(s.ipc, c))
  }

  function Exec(s: Sys, events: seq<Event>): (r: Sys)
    requires Shape(s) && forall e: Event :: e in events ==> Allowed(e)
    decreases |events|
  {
    if events == [] then s else Exec(Step(s, events[0]), events[1..])
  }

  /** The process table stays consistent in every run. */
  lemma {:induction false} TableKept(s: Sys, events: seq<Event>)
    requires Shape(s) && P.Inv(s.table) && forall e: Event :: e in events ==> Allowed(e)
    ensures P.Inv(Exec(s, events).table)
    decreases |events|
  {
    hide P.Inv, Allowed, Step, Shape;
    if events != [] {
      StepTable(s, events[0]);
      TableKept(Step(s, events[0]), events[1..]);
    }
  }

  lemma StepTable(s: Sys, e: Event)
    requires Shape(s) && P.Inv(s.table) && Allowed(e)
    ensures P.Inv(Step(s, e).table)
  {
    hide P.Inv, P.Create, P.Exit;
    if e.Call? {
      P.CreateKeeps(s.table, PRIO_NORMAL, e.memory);
      P.ExitKeeps(s.table, P.CurrentPid(s.table));
    }
  }

  /** A handled system call: who asked, and whether the reply found room in the ring. */
  datatype Answer = Answer(id: nat, kept: bool)

  /** What has happened in a run: the callers of the accepted system calls, the answers of
      the hardware kernel, and the addressees of the messages the software kernel took. */
  datatype History = History(asked: seq<nat>, answered: seq<Answer>, received: seq<nat>)

  function Asked(s: Sys, e: Event): seq<nat>
    requires Shape(s)
  {
    if e.Call? && s.swOn && IsForwarded(e.nr) && s.ipc.ready && |s.ipc.toHw| < CAPACITY
    then [P.CurrentPid(s.table)] else []
  }

  function Answered(s: Sys, e: Event): seq<Answer> {
    if e.TurnHw? && s.hwOn && s.ipc.ready && s.ipc.toHw != [] && s.ipc.toHw[0].kind == KIND_SYSCALL
    then [Answer(s.ipc.toHw[0].srcId, |s.ipc.toSw| < CAPACITY)] else []
  }

  function Received(s: Sys, e: Event): seq<nat> {
    if e.TurnSw? && s.swOn && s.ipc.ready && s.ipc.toSw != [] then [s.ipc.toSw[0].dstId] else []
  }

  function Record(s: Sys, events: seq<Event>): History
    requires Shape(s) && forall e: Event :: e in events ==> Allowed(e)
    decreases |events|
  {
    if events == [] then History([], [], []) else
    var h := Record(Step(s, events[0]), events[1..]);
    History(Asked(s, events[0]) + h.asked, Answered(s, events[0]) + h.answered, Received(s, events[0]) + h.received)
  }

  /** The callers of the system calls in a ring. */
  function Callers(q: seq<Msg>): seq<nat> {
    if |q| == 0 then [] else (if q[0].kind == KIND_SYSCALL then [q[0].srcId] else []) + Callers(q[1..])
  }

  function Addressees(q: seq<Msg>): (r: seq<nat>)
    ensures |r| == |q|
  {
    if |q| == 0 then [] else [q[0].dstId] + Addressees(q[1..])
  }

  function Ids(a: seq<Answer>): (r: seq<nat>)
    ensures |r| == |a|
  {
    if |a| == 0 then [] else [a[0].id] + Ids(a[1..])
  }

  /** Those whose reply found room, in order. */
  function Kept(a: seq<Answer>): seq<nat> {
    if |a| == 0 then [] else (if a[0].kept then [a[0].id] else []) + Kept(a[1..])
  }

  function Dropped(a: seq<Answer>): nat {
    if |a| == 0 then 0 else (if a[0].kept then 0 else 1) + Dropped(a[1..])
  }

  lemma {:induction false} CallersConcat(p: seq<Msg>, q: seq<Msg>)
    ensures Callers(p + q) == Callers(p) + Callers(q)
  {
    if |p| == 0 {
      assert p + q == q;
    } else {
      assert (p + q)[1..] == p[1..] + q;
      CallersConcat(p[1..], q);
    }
  }

  lemma {:induction false} AddresseesConcat(p: seq<Msg>, q: seq<Msg>)
    ensures Addressees(p + q) == Addressees(p) + Addressees(q)
  {
    if |p| == 0 {
      assert p + q == q;
    } else {
      assert (p + q)[1..] == p[1..] + q;
      AddresseesConcat(p[1..], q);
    }
  }

  lemma {:induction false} IdsConcat(a: seq<Answer>, b: seq<Answer>)
    ensures Ids(a + b) == Ids(a) + Ids(b)
  {
    if |a| == 0 {
      assert a + b == b;
    } else {
      assert (a + b)[1..] == a[1..] + b;
      IdsConcat(a[1..], b);
    }
  }

  lemma {:induction false} KeptConcat(a: seq<Answer>, b: seq<Answer>)
    ensures Kept(a + b) == Kept(a) + Kept(b)
  {
    if |a| == 0 {
      assert a + b == b;
    } else {
      assert (a + b)[1..] == a[1..] + b;
      KeptConcat(a[1..], b);
    }
  }

  lemma {:induction false} KeptOrDropped(a: seq<Answer>)
    ensures |Kept(a)| + Dropped(a) == |a|
  {
    if |a| != 0 {
      KeptOrDropped(a[1..]);
    }
  }

  // ---------------------------------------------------------------- the reply protocol

  /** From state s to s', with the given history in between: requests are answered in the
      order they were accepted, replies arrive in the order they were kept, and the counters
      count exactly these events. */
  ghost predicate Protocol(s: Sys, h: History, s': Sys) {
    && Ids(h.answered) + Callers(s'.ipc.toHw) == Callers(s.ipc.toHw) + h.asked
    && h.received + Addressees(s'.ipc.toSw) == Addressees(s.ipc.toSw) + Kept(h.answered)
    && s'.tx == s.tx + |h.asked|
    && s'.forwarded == s.forwarded + |h.answered|
    && s'.rx == s.rx + |h.received|
  }

  function Happened(s: Sys, e: Event): History
    requires Shape(s)
  {
    History(Asked(s, e), Answered(s, e), Received(s, e))
  }

  lemma CallStep(s: Sys, e: Event)
    requires Shape(s) && Allowed(e) && e.Call?
    ensures Protocol(s, Happened(s, e), Step(s, e))
  {
    hide Callers, Addressees, P.Create, P.Exit, P.CurrentPid;
    Nothing();
    var m := Request(s, e.nr, e.args).(seqNo := s.ipc.nextSeq, stamp := e.now);
    CallersConcat(s.ipc.toHw, [m]);
    OneCaller(m);
  }

  lemma TurnHwStep(s: Sys, e: Event)
    requires Shape(s) && Allowed(e) && e.TurnHw?
    ensures Protocol(s, Happened(s, e), Step(s, e))
  {
    hide Callers, Addressees, Ids, Kept;
    Nothing();
    var q := s.ipc.toHw;
    if s.hwOn && s.ipc.ready && q != [] {
      assert q == [q[0]] + q[1..];
      CallersConcat([q[0]], q[1..]);
      OneCaller(q[0]);
      var reply := Reply(q[0]).(seqNo := s.ipc.nextSeq, stamp := e.now);
      AddresseesConcat(s.ipc.toSw, [reply]);
      OneAddressee(reply);
      OneAnswer(Answer(q[0].srcId, |s.ipc.toSw| < CAPACITY));
    }
  }

  lemma TurnSwStep(s: Sys, e: Event)
    requires Shape(s) && Allowed(e) && e.TurnSw?
    ensures Protocol(s, Happened(s, e), Step(s, e))
  {
    hide Callers, Addressees, Ids, Kept;
    Nothing();
    var q := s.ipc.toSw;
    if s.swOn && s.ipc.ready && q != [] {
      assert q == [q[0]] + q[1..];
      AddresseesConcat([q[0]], q[1..]);
      OneAddressee(q[0]);
    }
  }

  lemma OtherStep(s: Sys, e: Event)
    requires Shape(s) && Allowed(e) && e.Other?
    ensures Protocol(s, Happened(s, e), Step(s, e))
  {
    hide Callers, Addressees, Ids, Kept;
    Nothing();
    if e.call.Send? || e.call.SendToHw? {
      var m := e.call.msg.(seqNo := s.ipc.nextSeq, stamp := e.call.now);
      CallersConcat(s.ipc.toHw, [m]);
      OneCaller(m);
    }
  }

  lemma Nothing()
    ensures Callers([]) == [] && Addressees([]) == [] && Ids([]) == [] && Kept([]) == []
  {
  }

  lemma OneCaller(m: Msg)
    ensures Callers([m]) == if m.kind == KIND_SYSCALL then [m.srcId] else []
  {
  }

  lemma OneAddressee(m: Msg)
    ensures Addressees([m]) == [m.dstId]
  {
  }

  lemma OneAnswer(a: Answer)
    ensures Ids([a]) == [a.id] && Kept([a]) == if a.kept then [a.id] else []
  {
  }

  lemma StepProtocol(s: Sys, e: Event)
    requires Shape(s) && Allowed(e)
    ensures Protocol(s, Happened(s, e), Step(s, e))
  {
    hide Protocol, Happened, Step;
    match e {
      case Call(_, _, _, _) => CallStep(s, e);
      case TurnHw(_) => TurnHwStep(s, e);
      case TurnSw => TurnSwStep(s, e);
      case Other(_) => OtherStep(s, e);
    }
  }

  lemma ProtocolCompose(s: Sys, h: History, t: Sys, k: History, u: Sys)
    requires Protocol(s, h, t) && Protocol(t, k, u)
    ensures Protocol(s, History(h.asked + k.asked, h.answered + k.answered, h.received + k.received), u)
  {
    hide Callers, Addressees, Ids, Kept;
    IdsConcat(h.answered, k.answered);
    KeptConcat(h.answered, k.answered);
    I.Regroup(Ids(h.answered), Ids(k.answered), Callers(u.ipc.toHw), Callers(t.ipc.toHw), k.asked,
              Callers(s.ipc.toHw), h.asked);
    I.Regroup(h.received, k.received, Addressees(u.ipc.toSw), Addressees(t.ipc.toSw), Kept(k.answered),
              Addressees(s.ipc.toSw), Kept(h.answered));
  }

  lemma {:induction false} RunProtocol(s: Sys, events: seq<Event>)
    requires Shape(s) && forall e: Event :: e in events ==> Allowed(e)
    ensures Protocol(s, Record(s, events), Exec(s, events))
    decreases |events|
  {
    hide Protocol, Step, Shape, Allowed, Asked, Answered, Received;
    if events == [] {
      NothingHappened(s);
    } else {
      StepProtocol(s, events[0]);
      RunProtocol(Step(s, events[0]), events[1..]);
      ProtocolCompose(s, Happened(s, events[0]), Step(s, events[0]),
                      Record(Step(s, events[0]), events[1..]), Exec(s, events));
    }
  }

  lemma NothingHappened(s: Sys)
    ensures Protocol(s, History([], [], []), s)
  {
  }

  /** In every run from empty rings: the callers of the accepted system calls are, in order,
      those already answered followed by those still queued; the addressees of the messages
      received by the software kernel followed by those still queued are exactly the answered
      callers whose reply found room in the ring, in order. */
  lemma ReplyOrder(s: Sys, events: seq<Event>)
    requires Shape(s) && s.ipc.toHw == s.ipc.toSw == []
    requires forall e: Event :: e in events ==> Allowed(e)
    ensures var h, t := Record(s, events), Exec(s, events);
      && h.asked == Ids(h.answered) + Callers(t.ipc.toHw)
      && Kept(h.answered) == h.received + Addressees(t.ipc.toSw)
  {
    hide Shape, Allowed, Record, Exec;
    RunProtocol(s, events);
    Nothing();
  }

  /** In every run from empty rings and zero counters, the system calls sent are the
      messages received, plus those in the rings, plus the replies dropped. */
  lemma MessageConservation(s: Sys, events: seq<Event>)
    requires Shape(s) && s.ipc.toHw == s.ipc.toSw == [] && s.tx == s.rx == 0
    requires forall e: Event :: e in events ==> Allowed(e)
    ensures var h, t := Record(s, events), Exec(s, events);
      t.tx == t.rx + |Callers(t.ipc.toHw)| + |t.ipc.toSw| + Dropped(h.answered)
  {
    hide Shape, Allowed, Record, Exec, Callers, Addressees, Ids, Kept, Dropped;
    RunProtocol(s, events);
    Nothing();
    KeptOrDropped(Record(s, events).answered);
  }

  /** Turns of the hardware kernel at the given times. */
  function HwTurns(times: seq<nat>): (events: seq<Event>)
    ensures |events| == |times| && forall e: Event :: e in events ==> Allowed(e)
    ensures |times| > 0 ==> events[0] == TurnHw(times[0]) && events[1..] == HwTurns(times[1..])
  {
    if |times| == 0 then [] else [TurnHw(times[0])] + HwTurns(times[1..])
  }

  lemma HwPollPops(s: Sys, now: nat)
    requires Shape(s) && s.hwOn && s.ipc.ready && s.ipc.toHw != []
    ensures var t := HwPoll(s, now); t.hwOn && t.ipc.ready && t.ipc.toHw == s.ipc.toHw[1..]
  {
  }

  /** As many turns of the hardware kernel as messages are queued empty its ring and answer
      every system call that was in it, in order. */
  lemma {:induction false} RequestsAreServed(s: Sys, times: seq<nat>)
    requires Shape(s) && s.hwOn && s.ipc.ready && |times| == |s.ipc.toHw|
    ensures Exec(s, HwTurns(times)).ipc.toHw == []
    ensures Record(s, HwTurns(times)).asked == []
    ensures Ids(Record(s, HwTurns(times)).answered) == Callers(s.ipc.toHw)
    decreases |times|
  {
    hide HwPoll, Answered, Received, Callers, Ids, HwTurns, Protocol;
    if |times| != 0 {
      HwPollPops(s, times[0]);
      RequestsAreServed(HwPoll(s, times[0]), times[1..]);
    }
    RunProtocol(s, HwTurns(times));
    Served(s, Record(s, HwTurns(times)), Exec(s, HwTurns(times)));
  }

  lemma Served(s: Sys, h: History, t: Sys)
    requires Protocol(s, h, t) && h.asked == [] && t.ipc.toHw == []
    ensures Ids(h.answered) == Callers(s.ipc.toHw)
  {
    hide Addressees, Ids, Kept;
    Nothing();
    assert Ids(h.answered) + [] == Ids(h.answered);
  }
}
