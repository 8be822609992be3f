/**
  The round-robin scheduler on the list of processes: what a tick, a yield, a creation and a
  kill do, and what holds over every run of them.
 */
module SchedulerSpec {
  import opened Types

  datatype ProcState = Ready | Running | Blocked | Terminated | Zombie

  datatype Proc = Proc(pid: nat, state: ProcState)

  /** The processes in list order, the position of the current one, the next identifier. */
  datatype Sched = Sched(procs: seq<Proc>, current: Option<nat>, nextPid: nat)

  const MAX_PROCESSES: nat := 256

  predicate Runnable(p: Proc) {
    p.state == Ready || p.state == Running
  }

  function Succ(i: nat, n: nat): nat {
    if i + 1 < n then i + 1 else 0
  }

  function Start(s: Sched): nat {
    if s.current.Some? then Succ(s.current.value, |s.procs|) else 0
  }

  /** The first runnable process among the k ones from i on, cyclically. */
  function Scan(procs: seq<Proc>, i: nat, k: nat): (r: Option<nat>)
    requires i < |procs|
    ensures r.Some? ==> r.value < |procs| && Runnable(procs[r.value])
    decreases k
  {
    if k == 0 then None
    else if Runnable(procs[i]) then Some(i)
    else Scan(procs, Succ(i, |procs|), k - 1)
  }

  function SetState(procs: seq<Proc>, i: nat, state: ProcState): (r: seq<Proc>)
    requires i < |procs|
    ensures |r| == |procs|
  {
    procs[i := procs[i].(state := state)]
  }

  predicate Shape(s: Sched) {
    s.current.Some? ==> s.current.value < |s.procs|
  }

  function Switch(s: Sched, i: nat): (r: Sched)
    requires Shape(s) && i < |s.procs|
    ensures Shape(r)
  {
    var procs := if s.current.Some? && s.current.value != i then SetState(s.procs, s.current.value, Ready) else s.procs;
    s.(procs := SetState(procs, i, Running), current := Some(i))
  }

  function Tick(s: Sched): (r: Sched)
    requires Shape(s)
    ensures Shape(r)
  {
    if |s.procs| == 0 then s else
    var next := Scan(s.procs, Start(s), |s.procs|);
    if next.None? then s else Switch(s, next.value)
  }

  /** The state in which a yield ticks: the current process is ready, whatever it was. */
  function Readied(s: Sched): (r: Sched)
    requires Shape(s)
    ensures Shape(r) && |r.procs| == |s.procs| && r.current == s.current
  {
    if s.current.Some? then s.(procs := SetState(s.procs, s.current.value, Ready)) else s
  }

  function Yield(s: Sched): (r: Sched)
    requires Shape(s)
    ensures Shape(r)
  {
    Tick(Readied(s))
  }

  /** memory: whether the stack of the new process can be allocated.  A failed allocation
      has used up the identifier. */
  function Create(s: Sched, memory: bool): (r: Sched)
    requires Shape(s)
    ensures Shape(r)
  {
    if |s.procs| >= MAX_PROCESSES then s
    else if !memory then s.(nextPid := s.nextPid + 1)
    else
      Sched([Proc(s.nextPid, Ready)] + s.procs,
            if s.current.Some? then Some(s.current.value + 1) else None, s.nextPid + 1)
  }

  /** The position of a process, |procs| when there is none. */
  function Find(procs: seq<Proc>, pid: nat): (i: nat)
    ensures i <= |procs| && (i < |procs| ==> procs[i].pid == pid)
    ensures forall j: nat :: j < i ==> procs[j].pid != pid
  {
    if |procs| == 0 || procs[0].pid == pid then 0 else 1 + Find(procs[1..], pid)
  }

  function Kill(s: Sched, pid: nat): (r: Sched)
    requires Shape(s)
    ensures Shape(r)
  {
    var i := Find(s.procs, pid);
    if i == |s.procs| then s else s.(procs := SetState(s.procs, i, Terminated))
  }

  // ---------------------------------------------------------------- invariants

  /** Identifiers are distinct and below the next one, and only the current process can be
      marked as running. */
  ghost predicate Inv(s: Sched) {
    && Shape(s) && |s.procs| <= MAX_PROCESSES
    && (forall i: nat :: i < |s.procs| ==> s.procs[i].pid < s.nextPid)
    && (forall i: nat, j: nat :: i < j < |s.procs| ==> s.procs[i].pid != s.procs[j].pid)
    && (forall i: nat :: i < |s.procs| && s.procs[i].state == Running ==> s.current == Some(i))
  }

  datatype Op = OpTick | OpYield | OpCreate(memory: bool) | OpKill(pid: nat)

  function Apply(s: Sched, op: Op): (r: Sched)
    requires Shape(s)
    ensures Shape(r)
  {
    match op
    case OpTick => Tick(s)
    case OpYield => Yield(s)
    case OpCreate(memory) => Create(s, memory)
    case OpKill(pid) => Kill(s, pid)
  }

  function Exec(s: Sched, ops: seq<Op>): (r: Sched)
    requires Shape(s)
    ensures Shape(r)
    decreases |ops|
  {
    if |ops| == 0 then s else Exec(Apply(s, ops[0]), ops[1..])
  }

  lemma SwitchKeeps(s: Sched, i: nat)
    requires Inv(s) && i < |s.procs|
    ensures Inv(Switch(s, i))
  {
  }

  lemma ApplyKeeps(s: Sched, op: Op)
    requires Inv(s)
    ensures Inv(Apply(s, op))
  {
    hide Scan, Find;
    match op {
      case OpTick => TickKeeps(s);
      case OpYield =>
        TickKeeps(Readied(s));
      case _ =>
    }
  }

  lemma TickKeeps(s: Sched)
    requires Inv(s)
    ensures Inv(Tick(s))
  {
    hide Scan, Inv;
    InvShape(s);
    if |s.procs| > 0 {
      var next := Scan(s.procs, Start(s), |s.procs|);
      if next.Some? {
        SwitchKeeps(s, next.value);
      }
    }
  }

  lemma InvShape(s: Sched)
    requires Inv(s)
    ensures Shape(s) && (s.current.Some? ==> s.current.value < |s.procs|)
  {
  }

  lemma {:induction false} RunKeeps(s: Sched, ops: seq<Op>)
    requires Inv(s)
    ensures Shape(s) && Inv(Exec(s, ops))
    decreases |ops|
  {
    hide Inv, Apply;
    InvShape(s);
    if |ops| != 0 {
      ApplyKeeps(s, ops[0]);
      RunKeeps(Apply(s, ops[0]), ops[1..]);
    }
  }

  // ---------------------------------------------------------------- the scan

  /** How many processes the scan passes until it has looked at i. */
  function Wait(s: Sched, i: nat): (d: nat)
    requires Shape(s) && i < |s.procs|
    ensures 1 <= d <= |s.procs|
  {
    if s.current.None? then i + 1
    else if s.current.value < i then i - s.current.value
    else i + |s.procs| - s.current.value
  }

  /** The position d places after i. */
  function Ahead(i: nat, d: nat, n: nat): (r: nat)
    requires i < n && d < n
    ensures r < n
  {
    if i + d < n then i + d else i + d - n
  }

  lemma {:induction false} ScanFinds(procs: seq<Proc>, i: nat, k: nat, d: nat)
    requires i < |procs| && d < k <= |procs| && Runnable(procs[Ahead(i, d, |procs|)])
    ensures var r := Scan(procs, i, k);
      r.Some? && exists e: nat :: e <= d && r.value == Ahead(i, e, |procs|)
    decreases k
  {
    var n := |procs|;
    if Runnable(procs[i]) {
      assert i == Ahead(i, 0, n);
    } else {
      assert d > 0;
      assert Ahead(Succ(i, n), d - 1, n) == Ahead(i, d, n);
      ScanFinds(procs, Succ(i, n), k - 1, d - 1);
      var r := Scan(procs, i, k);
      var e: nat :| e <= d - 1 && r.value == Ahead(Succ(i, n), e, n);
      assert Ahead(i, e + 1, n) == r.value;
    }
  }

  /** A tick gives the processor to a process that does not come after any runnable one. */
  lemma TickPicks(s: Sched, i: nat)
    requires Shape(s) && i < |s.procs| && Runnable(s.procs[i])
    ensures var t := Tick(s);
      && t.current.Some? && Runnable(s.procs[t.current.value]) && |t.procs| == |s.procs|
      && Wait(s, t.current.value) <= Wait(s, i)
      && (Wait(s, t.current.value) == Wait(s, i) ==> t.current.value == i)
      && (t.current.value != i ==> Wait(t, i) == Wait(s, i) - Wait(s, t.current.value))
  {
    hide Scan;
    var n, d := |s.procs|, Wait(s, i) - 1;
    assert Ahead(Start(s), d, n) == i;
    ScanFinds(s.procs, Start(s), n, d);
    var j := Scan(s.procs, Start(s), n).value;
    var e: nat :| e <= d && j == Ahead(Start(s), e, n);
    assert Wait(s, j) == e + 1;
  }

  // ---------------------------------------------------------------- what one call does

  predicate IsTurn(op: Op) {
    op.OpTick? || op.OpYield?
  }

  /** A tick finds a runnable process; a yield does as soon as there is a current one. */
  ghost predicate HasTurn(s: Sched, op: Op) {
    (op.OpYield? && s.current.Some?) || exists i: nat :: i < |s.procs| && Runnable(s.procs[i])
  }

  /** After a turn exactly one process runs, the current one; the process switched out is
      ready, and no other process changes.  Without a runnable process nothing changes. */
  lemma TurnEffect(s: Sched, op: Op)
    requires Inv(s) && IsTurn(op)
    ensures Shape(s)
    ensures var t := Apply(s, op);
      && |t.procs| == |s.procs| && t.nextPid == s.nextPid
      && (!HasTurn(s, op) ==> t == s)
      && (HasTurn(s, op) ==>
            && t.current.Some?
            && forall i: nat :: i < |s.procs| ==>
                 && t.procs[i].pid == s.procs[i].pid
                 && t.procs[i].state == if t.current == Some(i) then Running
                                        else if s.current == Some(i) then Ready else s.procs[i].state)
  {
    hide Scan;
    var s1 := if op.OpYield? then Readied(s) else s;
    if HasTurn(s, op) {
      var i: nat := if op.OpYield? && s.current.Some? then s.current.value
                    else var i: nat :| i < |s.procs| && Runnable(s.procs[i]); i;
      var j := TickSwitches(s1, i);
      forall i: nat | i < |s.procs|
        ensures Tick(s1).procs[i] == Proc(s.procs[i].pid, if j == i then Running
                                                          else if s.current == Some(i) then Ready else s.procs[i].state)
      {
      }
    } else {
      NothingToScan(s1);
    }
  }

  lemma TickSwitches(s: Sched, i: nat) returns (j: nat)
    requires Shape(s) && i < |s.procs| && Runnable(s.procs[i])
    ensures j < |s.procs| && Tick(s) == Switch(s, j)
  {
    hide Scan;
    var n, d := |s.procs|, Wait(s, i) - 1;
    assert Ahead(Start(s), d, n) == i;
    ScanFinds(s.procs, Start(s), n, d);
    j := Scan(s.procs, Start(s), n).value;
  }

  lemma NothingToScan(s: Sched)
    requires Shape(s) && forall i: nat :: i < |s.procs| ==> !Runnable(s.procs[i])
    ensures Tick(s) == s
  {
  }

  /** A creation puts one ready process with the next identifier in front, with the current
      process and the order of all others as before; without memory only the identifier is
      used up, and in a full table nothing happens. */
  lemma CreateEffect(s: Sched, memory: bool)
    requires Inv(s)
    ensures Shape(s)
    ensures var t, made := Create(s, memory), |s.procs| < MAX_PROCESSES && memory;
      && t.nextPid == s.nextPid + (if |s.procs| < MAX_PROCESSES then 1 else 0)
      && (made ==> |t.procs| == |s.procs| + 1 && t.procs[0] == Proc(s.nextPid, Ready) && t.procs[1..] == s.procs
                   && Find(t.procs, s.nextPid) == 0 && Find(s.procs, s.nextPid) == |s.procs|)
      && (!made ==> t.procs == s.procs)
      && (t.current.Some? <==> s.current.Some?)
      && (s.current.Some? ==> t.procs[t.current.value] == s.procs[s.current.value])
  {
    hide Find;
    if |s.procs| < MAX_PROCESSES && memory {
      var t := Create(s, memory);
      assert t.procs[1..] == s.procs;
      FindFirst(t.procs, s.nextPid);
      assert forall p: Proc :: p in s.procs ==> p.pid != s.nextPid;
    }
  }

  lemma FindFirst(procs: seq<Proc>, pid: nat)
    requires |procs| > 0 && procs[0].pid == pid
    ensures Find(procs, pid) == 0
  {
  }

  /** A kill terminates the process with that identifier and touches nothing else. */
  lemma KillEffect(s: Sched, pid: nat)
    requires Inv(s)
    ensures Shape(s)
    ensures var t := Kill(s, pid);
      && t.current == s.current && t.nextPid == s.nextPid && |t.procs| == |s.procs|
      && (forall i: nat :: i < |s.procs| ==>
            t.procs[i] == if s.procs[i].pid == pid then Proc(pid, Terminated) else s.procs[i])
      && (Find(s.procs, pid) == |s.procs| <==> forall i: nat :: i < |s.procs| ==> s.procs[i].pid != pid)
  {
    hide Find;
  }

  // ---------------------------------------------------------------- bounded waiting

  function Turns(ops: seq<Op>): nat {
    if |ops| == 0 then 0 else (if IsTurn(ops[0]) then 1 else 0) + Turns(ops[1..])
  }

  function Creations(ops: seq<Op>): nat {
    if |ops| == 0 then 0 else (if ops[0].OpCreate? then 1 else 0) + Creations(ops[1..])
  }

  predicate IsCurrent(s: Sched, pid: nat)
    requires Shape(s)
  {
    s.current.Some? && s.procs[s.current.value].pid == pid
  }

  /** The process at position i can run, whether it is current or not. */
  ghost predicate Candidate(s: Sched, pid: nat, i: nat) {
    Inv(s) && i < |s.procs| && s.procs[i].pid == pid && Runnable(s.procs[i])
  }

  /** A tick serves the process or brings it closer to its turn. */
  lemma TickServes(s: Sched, pid: nat, i: nat)
    requires Candidate(s, pid, i)
    ensures Shape(s) && Candidate(Tick(s), pid, i)
    ensures Tick(s).current == Some(i) || Wait(Tick(s), i) < Wait(s, i)
  {
    hide Scan, Wait;
    TickKeeps(s);
    TickPicks(s, i);
    TurnEffect(s, OpTick);
  }

  lemma ReadiedWaits(s: Sched, pid: nat, i: nat)
    requires Candidate(s, pid, i)
    ensures Shape(s) && Candidate(Readied(s), pid, i) && Wait(Readied(s), i) == Wait(s, i)
  {
  }

  /** Every step but its own kill keeps a runnable process runnable, the one switched out
      included; a turn serves it or shortens its wait, and a creation lengthens the wait by at
      most one. */
  lemma StepServes(s: Sched, pid: nat, i: nat, op: Op) returns (j: nat)
    requires Candidate(s, pid, i) && op != OpKill(pid)
    ensures Shape(s)
    ensures var t := Apply(s, op);
      && Candidate(t, pid, j)
      && (IsTurn(op) ==> t.current == Some(j) || Wait(t, j) < Wait(s, i))
      && (!IsTurn(op) ==> Wait(t, j) <= Wait(s, i) + (if op.OpCreate? then 1 else 0))
  {
    hide Scan, Find, Tick, Kill, Readied;
    ApplyKeeps(s, op);
    j := i;
    match op {
      case OpTick => TickServes(s, pid, i);
      case OpYield =>
        ReadiedWaits(s, pid, i);
        TickServes(Readied(s), pid, i);
      case OpCreate(memory) =>
        CreateEffect(s, memory);
        j := if |s.procs| < MAX_PROCESSES && memory then i + 1 else i;
      case OpKill(other) =>
        KillEffect(s, other);
    }
  }

  /** Over every run without its kill, a runnable process stays runnable. */
  lemma {:induction false} StaysRunnable(s: Sched, pid: nat, i: nat, ops: seq<Op>) returns (j: nat)
    requires Candidate(s, pid, i) && OpKill(pid) !in ops
    ensures Shape(s) && Candidate(Exec(s, ops), pid, j)
    decreases |ops|
  {
    hide Candidate, Apply, Wait;
    CandidateShape(s, pid, i);
    j := i;
    if |ops| != 0 {
      j := StepServes(s, pid, i, ops[0]);
      j := StaysRunnable(Apply(s, ops[0]), pid, j, ops[1..]);
    }
  }

  lemma CandidateShape(s: Sched, pid: nat, i: nat)
    requires Candidate(s, pid, i)
    ensures Shape(s) && i < |s.procs| && s.procs[i].pid == pid
  {
  }

  /** A process that can run is served by one of the next turns: at the latest by the one
      whose number is its distance plus the number of processes created meanwhile. */
  lemma {:induction false} BoundedWaiting(s: Sched, pid: nat, i: nat, ops: seq<Op>) returns (k: nat)
    requires Candidate(s, pid, i)
    requires OpKill(pid) !in ops && i < |s.procs| && Shape(s) && Turns(ops) >= Wait(s, i) + Creations(ops)
    ensures 0 < k <= |ops| && IsTurn(ops[k - 1]) && IsCurrent(Exec(s, ops[..k]), pid)
    decreases |ops|
  {
    hide Candidate, Apply, Wait;
    CandidateShape(s, pid, i);
    assert |ops| > 0;
    var op, rest, t := ops[0], ops[1..], Apply(s, ops[0]);
    var j := StepServes(s, pid, i, op);
    CandidateShape(t, pid, j);
    if IsTurn(op) && t.current == Some(j) {
      k := 1;
      assert ops[..1] == [op];
      OneStep(s, op);
    } else {
      k := BoundedWaiting(t, pid, j, rest);
      assert ops[..k + 1][0] == op && ops[..k + 1][1..] == rest[..k];
      k := k + 1;
    }
  }

  lemma OneStep(s: Sched, op: Op)
    requires Shape(s)
    ensures Exec(s, [op]) == Apply(s, op)
  {
    assert [op][1..] == [];
  }

  lemma {:induction false} ExecConcat(s: Sched, a: seq<Op>, b: seq<Op>)
    requires Shape(s)
    ensures Exec(s, a + b) == Exec(Exec(s, a), b)
    decreases |a|
  {
    hide Apply;
    if |a| == 0 {
      assert a + b == b;
    } else {
      assert (a + b)[1..] == a[1..] + b;
      ExecConcat(Apply(s, a[0]), a[1..], b);
    }
  }

  /** No process starves: in a run without its kill, a runnable process is served again and
      again, from every point m of the run within as many turns as the list is long there
      plus the number of processes created meanwhile. */
  lemma ServedAgain(s: Sched, pid: nat, i: nat, ops: seq<Op>, m: nat) returns (k: nat)
    requires Candidate(s, pid, i) && Shape(s) && OpKill(pid) !in ops && m <= |ops|
    requires Turns(ops[m..]) >= |Exec(s, ops[..m]).procs| + Creations(ops[m..])
    ensures m < k <= |ops| && IsTurn(ops[k - 1]) && IsCurrent(Exec(s, ops[..k]), pid)
  {
    hide Candidate, Wait, Exec, Turns, Creations;
    var t := Exec(s, ops[..m]);
    var j := StaysRunnable(s, pid, i, ops[..m]);
    CandidateShape(t, pid, j);
    k := BoundedWaiting(t, pid, j, ops[m..]);
    assert ops[..m + k] == ops[..m] + ops[m..][..k];
    ExecConcat(s, ops[..m], ops[m..][..k]);
    k := m + k;
  }

  // ---------------------------------------------------------------- killed processes

  /** The process has terminated and is not current. */
  ghost predicate Dead(s: Sched, pid: nat) {
    && Shape(s)
    && !IsCurrent(s, pid)
    && exists i: nat :: i < |s.procs| && s.procs[i] == Proc(pid, Terminated)
  }

  lemma TickDead(s: Sched, pid: nat, i: nat)
    requires Inv(s) && i < |s.procs| && s.procs[i] == Proc(pid, Terminated) && s.current != Some(i)
    ensures Shape(s)
    ensures var t := Tick(s); t.current != Some(i) && |t.procs| == |s.procs| && t.procs[i] == s.procs[i]
  {
    hide Scan;
  }

  lemma ReadiedDead(s: Sched, pid: nat, i: nat)
    requires Inv(s) && i < |s.procs| && s.procs[i] == Proc(pid, Terminated) && s.current != Some(i)
    ensures Shape(s) && Inv(Readied(s)) && Readied(s).procs[i] == s.procs[i]
  {
  }

  lemma DeadStep(s: Sched, pid: nat, op: Op)
    requires Inv(s) && Dead(s, pid)
    ensures Dead(Apply(s, op), pid)
  {
    hide Scan, Find, Tick, Kill, Readied;
    ApplyKeeps(s, op);
    var i: nat :| i < |s.procs| && s.procs[i] == Proc(pid, Terminated);
    match op {
      case OpTick => TickDead(s, pid, i);
      case OpYield =>
        ReadiedDead(s, pid, i);
        TickDead(Readied(s), pid, i);
      case OpCreate(memory) =>
        if |s.procs| < MAX_PROCESSES && memory {
          assert Create(s, memory).procs[i + 1] == Proc(pid, Terminated);
        }
      case OpKill(other) =>
        KillEffect(s, other);
    }
  }

  lemma {:induction false} DeadStays(s: Sched, pid: nat, ops: seq<Op>)
    requires Inv(s) && Dead(s, pid)
    ensures Dead(Exec(s, ops), pid)
    decreases |ops|
  {
    hide Inv, Dead, Apply;
    InvShape(s);
    if |ops| != 0 {
      ApplyKeeps(s, ops[0]);
      DeadStep(s, pid, ops[0]);
      DeadStays(Apply(s, ops[0]), pid, ops[1..]);
    }
  }

  ghost predicate TerminatedIn(s: Sched, pid: nat) {
    exists i: nat :: i < |s.procs| && s.procs[i] == Proc(pid, Terminated)
  }

  /** A kill is final, whatever happens afterwards, exactly when the killed process is not
      the current one: a tick or a yield marks the previous process ready again without
      looking at its state. */
  lemma KillIsFinal(s: Sched, i: nat)
    requires Inv(s) && i < |s.procs|
    ensures Shape(s)
    ensures (forall ops: seq<Op> :: TerminatedIn(Exec(Kill(s, s.procs[i].pid), ops), s.procs[i].pid))
            <==> s.current != Some(i)
  {
    hide Scan, Exec;
    var pid := s.procs[i].pid;
    var killed := Kill(s, pid);
    assert Find(s.procs, pid) == i;
    ApplyKeeps(s, OpKill(pid));
    assert killed.procs[i] == Proc(pid, Terminated);
    if s.current != Some(i) {
      forall ops: seq<Op> ensures TerminatedIn(Exec(killed, ops), pid) {
        DeadStays(killed, pid, ops);
      }
    } else {
      YieldRevives(killed, pid, i);
      OneStep(killed, OpYield);
    }
  }

  lemma YieldRevives(s: Sched, pid: nat, i: nat)
    requires Inv(s) && i < |s.procs| && s.procs[i].pid == pid && s.current == Some(i)
    ensures Shape(s) && !TerminatedIn(Yield(s), pid)
  {
    hide Scan;
    ApplyKeeps(s, OpYield);
    assert Yield(s).procs[i].pid == pid && Yield(s).procs[i].state != Terminated;
  }

  /** The processes that initialization leaves: init, which is current, and idle. */
  function AfterInit(): Sched {
    Sched([Proc(2, Ready), Proc(1, Ready)], Some(0), 3)
  }

  /** Killed while it is current, init is ready again after one yield and runs after two. */
  lemma KilledInitRuns()
    ensures Inv(AfterInit()) && TerminatedIn(Kill(AfterInit(), 2), 2)
    ensures Exec(Kill(AfterInit(), 2), [OpYield]) == Sched([Proc(2, Ready), Proc(1, Running)], Some(1), 3)
    ensures !TerminatedIn(Exec(Kill(AfterInit(), 2), [OpYield]), 2)
    ensures IsCurrent(Exec(Kill(AfterInit(), 2), [OpYield, OpYield]), 2)
  {
    var s0 := AfterInit();
    var s1 := Kill(s0, 2);
    assert s1 == Sched([Proc(2, Terminated), Proc(1, Ready)], Some(0), 3);
    assert s1.procs[0] == Proc(2, Terminated);
    var s2 := Yield(s1);
    var s3 := Yield(s2);
    assert s2 == Sched([Proc(2, Ready), Proc(1, Running)], Some(1), 3);
    assert s3.current == Some(0) && s3.procs[0].pid == 2;
    OneStep(s1, OpYield);
    assert [OpYield, OpYield][1..] == [OpYield];
    OneStep(s2, OpYield);
  }
}
