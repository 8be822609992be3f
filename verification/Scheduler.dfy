/**
  The scheduler in place: a pool of process slots, a linked list through them and the
  current process.  Slots are handed out in order and never returned, so the list runs from
  the newest slot down to slot 0.
 */
module Scheduler {
  import opened Types
  import opened S = SchedulerSpec

  datatype Slot = Slot(pid: nat, state: ProcState, next: Option<nat>)

  /** The processes in list order: newest slot first. */
  ghost function View(pool: seq<Slot>, count: nat): (procs: seq<Proc>)
    requires count <= |pool|
    ensures |procs| == count
    ensures forall i: nat :: i < count ==> procs[i] == Proc(pool[count - 1 - i].pid, pool[count - 1 - i].state)
  {
    seq(count, i requires 0 <= i < count => Proc(pool[count - 1 - i].pid, pool[count - 1 - i].state))
  }

  ghost function Below(k: nat): Option<nat> {
    if k == 0 then None else Some(k - 1)
  }

  lemma ViewSetState(pool: seq<Slot>, count: nat, k: nat, state: ProcState)
    requires k < count <= |pool|
    ensures View(pool[k := pool[k].(state := state)], count) == SetState(View(pool, count), count - 1 - k, state)
  {
  }

  lemma ViewCreate(pool: seq<Slot>, count: nat, slot: Slot)
    requires count < |pool|
    ensures View(pool[count := slot], count + 1) == [Proc(slot.pid, slot.state)] + View(pool, count)
  {
  }

  /** Distinct identifiers: the slot found in the pool is the process found in the list. */
  lemma SameProcess(s: Sched, i: nat)
    requires Inv(s) && i < |s.procs|
    ensures Find(s.procs, s.procs[i].pid) == i
  {
  }

  lemma AheadSucc(start: nat, k: nat, n: nat)
    requires start < n && k < n
    ensures Ahead(start, 0, n) == start
    ensures k + 1 < n ==> Ahead(start, k + 1, n) == Succ(Ahead(start, k, n), n) != start
    ensures k + 1 == n ==> Succ(Ahead(start, k, n), n) == start
  {
  }

  lemma TwoProcesses()
    ensures Inv(Sched([Proc(2, Ready), Proc(1, Ready)], Some(0), 3))
    ensures S.Find([Proc(2, Ready), Proc(1, Ready)], 2) == 0
    ensures [Proc(2, Ready)] + ([Proc(1, Ready)] + []) == [Proc(2, Ready), Proc(1, Ready)]
  {
  }

  lemma ViewOther(pool: seq<Slot>, pool': seq<Slot>, count: nat)
    requires count <= |pool| == |pool'| && forall k: nat :: k < count ==> pool[k] == pool'[k]
    ensures View(pool, count) == View(pool', count)
  {
  }

  lemma ViewAt(pool: seq<Slot>, count: nat, k: nat)
    requires k < count <= |pool|
    ensures View(pool, count)[count - 1 - k] == Proc(pool[k].pid, pool[k].state)
  {
  }

  lemma ScanStep(procs: seq<Proc>, i: nat, k: nat)
    requires i < |procs|
    ensures S.Scan(procs, i, 0) == None
    ensures k > 0 && Runnable(procs[i]) ==> S.Scan(procs, i, k) == Some(i)
    ensures k > 0 && !Runnable(procs[i]) ==> S.Scan(procs, i, k) == S.Scan(procs, Succ(i, |procs|), k - 1)
    ensures k == 1 ==> S.Scan(procs, Succ(i, |procs|), 0) == None
  {
  }

  class Scheduler {
    const pool: array<Slot>
    const used: array<bool>
    var list: Option<nat>
    var current: Option<nat>
    var count: nat
    var nextPid: nat

    ghost predicate Wired()
      reads this, pool, used
    {
      && pool.Length == used.Length == MAX_PROCESSES && count <= MAX_PROCESSES
      && (forall k: nat :: k < MAX_PROCESSES ==> (used[k] <==> k < count))
      && list == Below(count)
      && (forall k: nat :: k < count ==> pool[k].next == Below(k))
      && (current.Some? ==> current.value < count)
    }

    ghost predicate Valid()
      reads this, pool, used
    {
      Wired() && Inv(Abs())
    }

    ghost function Abs(): Sched
      requires Wired()
      reads this, pool, used
    {
      Sched(View(pool[..], count), if current.Some? then Some(count - 1 - current.value) else None, nextPid)
    }

    constructor ()
      ensures Valid() && fresh(pool) && fresh(used) && Abs() == Sched([], None, 1)
    {
      pool := new Slot[MAX_PROCESSES](_ => Slot(0, Ready, None));
      used := new bool[MAX_PROCESSES](_ => false);
      list, current, count, nextPid := None, None, 0, 1;
    }

    /** Forgets all processes. */
    method Clear()
      requires pool.Length == used.Length == MAX_PROCESSES
      modifies this, used
      ensures Valid() && Abs() == Sched([], None, 1)
    {
      list, current, count, nextPid := None, None, 0, 1;
      for k := 0 to MAX_PROCESSES
        modifies used
        invariant forall j: nat :: j < k ==> !used[j]
      {
        used[k] := false;
      }
    }

    /** From whatever state: forgets all processes, creates the idle process and then the
        init process, which becomes current. */
    method KernelInit()
      requires pool.Length == used.Length == MAX_PROCESSES
      modifies this, pool, used
      ensures Valid() && Abs() == AfterInit()
    {
      hide Inv, View;
      Clear();
      var idle := Create(true);
      var init := Create(true);
      var slot := Get(init.1);
      current := if slot == MAX_PROCESSES then None else Some(slot);
      TwoProcesses();
    }

    method SetStateAt(k: nat, state: ProcState)
      requires Wired() && k < count
      modifies pool
      ensures Wired() && Abs() == old(Abs()).(procs := S.SetState(old(Abs()).procs, count - 1 - k, state))
    {
      hide View;
      ViewSetState(pool[..], count, k, state);
      pool[k] := pool[k].(state := state);
      assert pool[..] == old(pool[..])[k := old(pool[k]).(state := state)];
    }

    /** The slot after the current one in the list, or the head of the list. */
    method FirstCandidate() returns (start: nat)
      requires Wired() && count > 0
      ensures start < count && count - 1 - start == S.Start(Abs())
    {
      hide View;
      var next := if current.Some? then pool[current.value].next else list;
      start := if next.Some? then next.value else list.value;
    }

    /** The slot of the first runnable process after the current one, cyclically. */
    method NextRunnable() returns (r: Option<nat>)
      requires Wired() && count > 0
      ensures r.Some? ==> r.value < count
      ensures S.Scan(Abs().procs, S.Start(Abs()), count) == if r.Some? then Some(count - 1 - r.value) else None
    {
      hide View, S.Scan, Ahead, S.Start;
      var start := FirstCandidate();
      ghost var procs, n, first, k := Abs().procs, count, count - 1 - start, 0;
      var p := start;
      AheadSucc(first, 0, n);
      while true
        invariant k < n && p < n && n - 1 - p == Ahead(first, k, n)
        invariant S.Scan(procs, first, n) == S.Scan(procs, n - 1 - p, n - k)
        decreases n - k
      {
        ScanStep(procs, n - 1 - p, n - k);
        ViewAt(pool[..], n, p);
        if pool[p].state == Ready || pool[p].state == Running {
          return Some(p);
        }
        p := if pool[p].next.Some? then pool[p].next.value else list.value;
        AheadSucc(first, k, n);
        if p == start {
          return None;
        }
        k := k + 1;
      }
    }

    method TickStep()
      requires Wired()
      modifies this, pool
      ensures Wired() && Abs() == S.Tick(old(Abs()))
    {
      hide View, S.Scan;
      if list.None? {
        return;
      }
      var next := NextRunnable();
      if next.Some? {
        SwitchTo(next.value);
      }
    }

    /** Makes the process in slot p the current one. */
    method SwitchTo(p: nat)
      requires Wired() && p < count
      modifies this, pool
      ensures Wired() && count == old(count) && Abs() == S.Switch(old(Abs()), old(count) - 1 - p)
    {
      hide View;
      if current.Some? && current.value != p {
        SetStateAt(current.value, Ready);
      }
      current := Some(p);
      SetStateAt(p, Running);
    }

    method Tick()
      requires Valid()
      modifies this, pool
      ensures Valid() && Abs() == S.Tick(old(Abs()))
    {
      hide Inv, Wired, S.Tick;
      ApplyKeeps(Abs(), OpTick);
      InvShape(Abs());
      TickStep();
    }

    method Yield()
      requires Valid()
      modifies this, pool
      ensures Valid() && Abs() == S.Yield(old(Abs()))
    {
      hide Inv, S.Tick, View;
      ApplyKeeps(Abs(), OpYield);
      InvShape(Abs());
      if current.Some? {
        SetStateAt(current.value, Ready);
      }
      TickStep();
    }

    /** memory: whether the stack can be allocated. */
    method Create(memory: bool) returns (r: (Status, nat))
      requires Valid()
      modifies this, pool, used
      ensures Valid() && Abs() == S.Create(old(Abs()), memory)
      ensures r == if old(count) == MAX_PROCESSES || !memory then (ErrNoMem, 0) else (Ok, old(nextPid))
    {
      hide Inv, View;
      ApplyKeeps(Abs(), OpCreate(memory));
      InvShape(Abs());
      var slot := 0;
      while slot < MAX_PROCESSES && used[slot]
        invariant slot <= count
      {
        slot := slot + 1;
      }
      if slot == MAX_PROCESSES {
        return (ErrNoMem, 0);
      }
      ghost var before := pool[..];
      pool[slot] := Slot(nextPid, Ready, None);
      nextPid := nextPid + 1;
      if !memory {
        ViewOther(before, pool[..], count);
        return (ErrNoMem, 0);
      }
      used[slot] := true;
      pool[slot] := pool[slot].(next := list);
      ViewCreate(before, count, pool[slot]);
      assert pool[..] == before[slot := pool[slot]];
      list := Some(slot);
      count := count + 1;
      return (Ok, pool[slot].pid);
    }

    /** The slot of a process, MAX_PROCESSES when there is none. */
    method Get(pid: nat) returns (k: nat)
      requires Valid()
      ensures k <= MAX_PROCESSES
      ensures k == MAX_PROCESSES <==> S.Find(Abs().procs, pid) == |Abs().procs|
      ensures k < MAX_PROCESSES ==> k < count && S.Find(Abs().procs, pid) == count - 1 - k
    {
      hide Inv, S.Find;
      ghost var procs := Abs().procs;
      k := 0;
      while k < MAX_PROCESSES
        invariant k <= MAX_PROCESSES
        invariant forall j: nat :: j < k && j < count ==> pool[j].pid != pid
      {
        if used[k] && pool[k].pid == pid {
          SameProcess(Abs(), count - 1 - k);
          return;
        }
        k := k + 1;
      }
      assert forall i: nat :: i < |procs| ==> procs[i].pid == pool[count - 1 - i].pid;
    }

    method Kill(pid: nat) returns (st: Status)
      requires Valid()
      modifies pool
      ensures Valid() && Abs() == S.Kill(old(Abs()), pid)
      ensures st == if S.Find(old(Abs()).procs, pid) == old(count) then ErrNotFound else Ok
    {
      hide Inv, S.Find, View;
      ApplyKeeps(Abs(), OpKill(pid));
      InvShape(Abs());
      var k := Get(pid);
      if k == MAX_PROCESSES {
        return ErrNotFound;
      }
      SetStateAt(k, Terminated);
      return Ok;
    }
  }
}
