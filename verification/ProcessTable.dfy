/**
  The process table of the software microkernel: 256 slots, the current process and the
  process identifiers.  `Table` and its functions say what each call does; the class does it
  in place.
 */
module ProcessTable {
  import opened Types

  const MAX_PROCESSES: nat := 256

  datatype ProcState = Created | Ready | Running | Blocked | Zombie | Dead

  datatype Process = Process(pid: nat, ppid: nat, state: ProcState, priority: nat)

  /** current is the slot of the current process. */
  datatype Table = Table(ready: bool, slots: seq<Option<Process>>, current: Option<nat>, count: int, nextPid: nat)

  function EmptySlots(n: nat): (r: seq<Option<Process>>)
    ensures |r| == n && forall k: nat :: k < n ==> r[k] == None
  {
    seq(n, _ => None)
  }

  // ---------------------------------------------------------------- specification

  /** The first free slot from i on, MAX_PROCESSES when there is none. */
  function FreeSlot(slots: seq<Option<Process>>, i: nat): (k: nat)
    requires i <= |slots| == MAX_PROCESSES
    ensures i <= k <= MAX_PROCESSES && (k < MAX_PROCESSES ==> slots[k] == None)
    ensures forall j: nat :: i <= j < k ==> slots[j].Some?
    decreases MAX_PROCESSES - i
  {
    if i == MAX_PROCESSES || slots[i].None? then i else FreeSlot(slots, i + 1)
  }

  /** The first slot from i on that holds the process, MAX_PROCESSES when there is none. */
  function SlotOf(slots: seq<Option<Process>>, pid: nat, i: nat): (k: nat)
    requires i <= |slots| == MAX_PROCESSES
    ensures i <= k <= MAX_PROCESSES && (k < MAX_PROCESSES ==> slots[k].Some? && slots[k].value.pid == pid)
    ensures forall j: nat :: i <= j < k ==> slots[j].None? || slots[j].value.pid != pid
    decreases MAX_PROCESSES - i
  {
    if i == MAX_PROCESSES || (slots[i].Some? && slots[i].value.pid == pid) then i else SlotOf(slots, pid, i + 1)
  }

  predicate Shape(t: Table) {
    && |t.slots| == MAX_PROCESSES
    && (t.current.Some? ==> t.current.value < MAX_PROCESSES && t.slots[t.current.value].Some?)
  }

  function CurrentPid(t: Table): nat
    requires Shape(t)
  {
    if t.current.Some? then t.slots[t.current.value].value.pid else 0
  }

  function Started(): Table {
    Table(true, EmptySlots(MAX_PROCESSES), None, 0, 1)
  }

  /** memory: whether the record of the new process can be allocated. */
  function Create(t: Table, priority: nat, memory: bool): (r: (Table, Status, nat))
    requires Shape(t)
  {
    if !t.ready then (t, ErrInval, 0) else
    var k := FreeSlot(t.slots, 0);
    if k == MAX_PROCESSES then (t, ErrOverflow, 0)
    else if !memory then (t, ErrNoMem, 0) else
    var p := Process(t.nextPid, CurrentPid(t), Ready, priority);
    (t.(slots := t.slots[k := Some(p)], count := t.count + 1, nextPid := t.nextPid + 1,
        current := if t.current.None? then Some(k) else t.current), Ok, t.nextPid)
  }

  function Find(t: Table, pid: nat): (k: nat)
    requires Shape(t)
    ensures k <= MAX_PROCESSES
  {
    if !t.ready || pid == 0 then MAX_PROCESSES else SlotOf(t.slots, pid, 0)
  }

  function Exit(t: Table, pid: nat): (r: (Table, Status))
    requires Shape(t)
  {
    var k := Find(t, pid);
    if k == MAX_PROCESSES then (t, ErrNotFound) else
    (t.(slots := t.slots[k := Some(t.slots[k].value.(state := Zombie))],
        current := if t.current == Some(k) then None else t.current), Ok)
  }

  function Kill(t: Table, pid: nat): (r: (Table, Status))
    requires Shape(t)
  {
    var k := Find(t, pid);
    if k == MAX_PROCESSES then (t, ErrNotFound) else
    (t.(slots := t.slots[k := None], count := t.count - 1,
        current := if t.current == Some(k) then None else t.current), Ok)
  }

  // ---------------------------------------------------------------- what every run keeps

  function Occupied(slots: seq<Option<Process>>): nat {
    if slots == [] then 0 else Occupied(slots[..|slots| - 1]) + if slots[|slots| - 1].Some? then 1 else 0
  }

  ghost predicate Inv(t: Table) {
    && Shape(t) && t.nextPid >= 1
    && t.count == Occupied(t.slots)
    && (forall k: nat :: k < MAX_PROCESSES && t.slots[k].Some? ==>
          t.slots[k].value.ppid < t.slots[k].value.pid < t.nextPid)
    && (forall k: nat, j: nat :: k < j < MAX_PROCESSES && t.slots[k].Some? && t.slots[j].Some? ==>
          t.slots[k].value.pid != t.slots[j].value.pid)
    && (t.current.Some? ==> t.slots[t.current.value].value.state == Ready)
  }

  lemma {:induction false} OccupiedUpdate(slots: seq<Option<Process>>, k: nat, p: Option<Process>)
    requires k < |slots|
    ensures Occupied(slots[k := p]) + (if slots[k].Some? then 1 else 0) ==
            Occupied(slots) + if p.Some? then 1 else 0
  {
    var n := |slots| - 1;
    if k < n {
      OccupiedUpdate(slots[..n], k, p);
      assert slots[k := p][..n] == slots[..n][k := p];
    } else {
      assert slots[k := p][..n] == slots[..n];
    }
  }

  lemma {:induction false} NoneOccupied(n: nat)
    ensures Occupied(EmptySlots(n)) == 0
  {
    if n != 0 {
      NoneOccupied(n - 1);
      assert EmptySlots(n)[..n - 1] == EmptySlots(n - 1);
    }
  }

  lemma StartedInv()
    ensures Inv(Started())
  {
    NoneOccupied(MAX_PROCESSES);
  }

  /** A created process gets an identifier no process had before, below its ancestors'
      successors: its parent's identifier is smaller. */
  lemma CreateKeeps(t: Table, priority: nat, memory: bool)
    requires Inv(t)
    ensures var (t', st, pid) := Create(t, priority, memory);
      && Inv(t')
      && (st == Ok <==> t.ready && t.count < MAX_PROCESSES && memory)
      && (st == ErrNoMem <==> t.ready && t.count < MAX_PROCESSES && !memory)
      && (st == Ok ==> pid == t.nextPid < t'.nextPid && t'.count == t.count + 1)
      && (st != Ok ==> t' == t)
  {
    FullOrNot(t.slots);
    if t.ready && FreeSlot(t.slots, 0) < MAX_PROCESSES && memory {
      var k := FreeSlot(t.slots, 0);
      OccupiedUpdate(t.slots, k, Some(Process(t.nextPid, CurrentPid(t), Ready, priority)));
    }
  }

  lemma FullOrNot(slots: seq<Option<Process>>)
    requires |slots| == MAX_PROCESSES
    ensures FreeSlot(slots, 0) == MAX_PROCESSES <==> Occupied(slots) >= MAX_PROCESSES
  {
    OccupiedBound(slots);
  }

  lemma {:induction false} OccupiedBound(slots: seq<Option<Process>>)
    ensures Occupied(slots) <= |slots|
    ensures Occupied(slots) == |slots| <==> forall k: nat :: k < |slots| ==> slots[k].Some?
  {
    if slots != [] {
      var n := |slots| - 1;
      OccupiedBound(slots[..n]);
      if forall k: nat :: k < n ==> slots[..n][k].Some? {
        forall k: nat | k < n ensures slots[k].Some? { assert slots[..n][k].Some?; }
      }
    }
  }

  lemma ExitKeeps(t: Table, pid: nat)
    requires Inv(t)
    ensures Inv(Exit(t, pid).0)
  {
    var k := Find(t, pid);
    if k < MAX_PROCESSES {
      OccupiedUpdate(t.slots, k, Some(t.slots[k].value.(state := Zombie)));
    }
  }

  lemma KillKeeps(t: Table, pid: nat)
    requires Inv(t)
    ensures Inv(Kill(t, pid).0) && Find(Kill(t, pid).0, pid) == MAX_PROCESSES
  {
    var k := Find(t, pid);
    if k < MAX_PROCESSES {
      OccupiedUpdate(t.slots, k, None);
    }
  }

  // ---------------------------------------------------------------- what each call does

  ghost predicate Holds(t: Table, k: nat, pid: nat)
    requires Shape(t)
  {
    k < MAX_PROCESSES && t.slots[k].Some? && t.slots[k].value.pid == pid
  }

  /** Looking up a process finds it in whatever slot it is, and nothing else. */
  lemma FindIsExact(t: Table, pid: nat)
    requires Inv(t)
    ensures Shape(t)
    ensures forall k: nat :: Holds(t, k, pid) && t.ready ==> Find(t, pid) == k
    ensures Find(t, pid) < MAX_PROCESSES ==> t.ready && Holds(t, Find(t, pid), pid)
  {
  }

  /** A successful creation: the identifier is new, and looking it up leads to a ready process
      with the given priority and the current process as its parent.  It is the current
      process when there was none.  All other slots are as before. */
  lemma CreatedIsFound(t: Table, priority: nat, memory: bool)
    requires Inv(t)
    ensures var (t', st, pid) := Create(t, priority, memory);
      && Inv(t') && Shape(t)
      && (st == Ok ==>
            && var k := Find(t', pid);
            && k < MAX_PROCESSES && t.slots[k] == None && !(exists j: nat :: Holds(t, j, pid))
            && t'.slots[k] == Some(Process(pid, if t.current.Some? then t.slots[t.current.value].value.pid else 0,
                                           Ready, priority))
            && t'.current == (if t.current.None? then Some(k) else t.current)
            && (forall j: nat :: j < MAX_PROCESSES && j != k ==> t'.slots[j] == t.slots[j]))
  {
    CreateKeeps(t, priority, memory);
    var (t', st, pid) := Create(t, priority, memory);
    if st == Ok {
      FindIsExact(t', pid);
      assert Holds(t', FreeSlot(t.slots, 0), pid);
    }
  }

  /** An exit succeeds exactly for a process in the table.  It leaves that process a zombie in
      its slot, every other slot as it was, and no current process exactly when it was the
      current one. */
  lemma ExitEffect(t: Table, pid: nat)
    requires Inv(t)
    ensures var (t', st) := Exit(t, pid);
      && Shape(t) && (st == Ok <==> t.ready && exists k: nat :: Holds(t, k, pid))
      && (st != Ok ==> t' == t && st == ErrNotFound)
      && (st == Ok ==> forall k: nat :: k < MAX_PROCESSES ==>
            t'.slots[k] == if Holds(t, k, pid) then Some(t.slots[k].value.(state := Zombie)) else t.slots[k])
      && (st == Ok ==> t'.current == if t.current.Some? && Holds(t, t.current.value, pid) then None else t.current)
      && t'.count == t.count && t'.nextPid == t.nextPid && t'.ready == t.ready
  {
    hide SlotOf;
    FindIsExact(t, pid);
  }

  /** A kill likewise, but it frees the slot. */
  lemma KillEffect(t: Table, pid: nat)
    requires Inv(t)
    ensures var (t', st) := Kill(t, pid);
      && Shape(t) && (st == Ok <==> t.ready && exists k: nat :: Holds(t, k, pid))
      && (st != Ok ==> t' == t && st == ErrNotFound)
      && (st == Ok ==> forall k: nat :: k < MAX_PROCESSES ==>
            t'.slots[k] == if Holds(t, k, pid) then None else t.slots[k])
      && (st == Ok ==> t'.current == if t.current.Some? && Holds(t, t.current.value, pid) then None else t.current)
      && t'.count == t.count - (if st == Ok then 1 else 0) && t'.nextPid == t.nextPid && t'.ready == t.ready
  {
    hide SlotOf;
    FindIsExact(t, pid);
  }

  // ---------------------------------------------------------------- runs

  datatype Call = CallCreate(priority: nat, memory: bool) | CallExit(pid: nat) | CallKill(pid: nat)

  /** The table after a call, and the identifiers it handed out. */
  function Apply(t: Table, c: Call): (r: (Table, seq<nat>))
    requires Shape(t)
    ensures Shape(r.0)
  {
    match c
    case CallCreate(priority, memory) =>
      var (t', st, pid) := Create(t, priority, memory);
      (t', if st == Ok then [pid] else [])
    case CallExit(pid) => (Exit(t, pid).0, [])
    case CallKill(pid) => (Kill(t, pid).0, [])
  }

  function Exec(t: Table, calls: seq<Call>): (r: (Table, seq<nat>))
    requires Shape(t)
    decreases |calls|
  {
    if calls == [] then (t, []) else
    var (next, pids) := Apply(t, calls[0]);
    var (last, more) := Exec(next, calls[1..]);
    (last, pids + more)
  }

  /** Over every run of calls the table stays consistent, and no identifier is handed out
      twice. */
  lemma {:induction false} FreshPids(t: Table, calls: seq<Call>)
    requires Inv(t)
    ensures Shape(t) && Inv(Exec(t, calls).0)
    ensures forall pid: nat :: pid in Exec(t, calls).1 ==> t.nextPid <= pid < Exec(t, calls).0.nextPid
    ensures forall i: nat, j: nat :: i < j < |Exec(t, calls).1| ==> Exec(t, calls).1[i] < Exec(t, calls).1[j]
    ensures t.nextPid <= Exec(t, calls).0.nextPid
    decreases |calls|
  {
    hide Inv, Apply;
    InvShape(t);
    if calls != [] {
      StepPids(t, calls[0]);
      FreshPids(Apply(t, calls[0]).0, calls[1..]);
      var pids, more, all := Apply(t, calls[0]).1, Exec(Apply(t, calls[0]).0, calls[1..]).1, Exec(t, calls).1;
      assert all == pids + more;
      forall i: nat, j: nat | i < j < |all| ensures all[i] < all[j] {
        assert all[j] == more[j - |pids|];
        assert i >= |pids| ==> all[i] == more[i - |pids|];
        assert more[j - |pids|] in more;
      }
    }
  }

  lemma StepPids(t: Table, c: Call)
    requires Inv(t)
    ensures Shape(t)
    ensures var (next, pids) := Apply(t, c);
      && Inv(next) && t.nextPid <= next.nextPid
      && (pids == [] || (pids == [t.nextPid] && t.nextPid < next.nextPid))
  {
    hide Inv, Create;
    InvShape(t);
    match c {
      case CallCreate(priority, memory) => CreateKeeps(t, priority, memory);
      case CallExit(pid) => ExitKeeps(t, pid);
      case CallKill(pid) => KillKeeps(t, pid);
    }
  }

  lemma CountIsNat(t: Table)
    requires Inv(t)
    ensures t.count >= 0
  {
  }

  lemma InvShape(t: Table)
    requires Inv(t)
    ensures Shape(t)
  {
  }

  // ---------------------------------------------------------------- the table in place

  class ProcessManager {
    const slots: array<Option<Process>>
    var current: Option<nat>
    var count: int
    var nextPid: nat
    var ready: bool

    ghost predicate Valid()
      reads this, slots
    {
      slots.Length == MAX_PROCESSES && Inv(Abs())
    }

    ghost function Abs(): Table
      reads this, slots
    {
      Table(ready, slots[..], current, count, nextPid)
    }

    constructor ()
      ensures Valid() && fresh(slots) && Abs() == Started().(ready := false)
    {
      slots := new Option<Process>[MAX_PROCESSES](_ => None);
      current, count, nextPid, ready := None, 0, 1, false;
      new;
      assert slots[..] == EmptySlots(MAX_PROCESSES);
      StartedInv();
    }

    method Init() returns (st: Status)
      requires Valid()
      modifies this, slots
      ensures Valid()
      ensures (Abs(), st) == if old(ready) then (old(Abs()), ErrState) else (Started(), Ok)
      ensures st == Ok ==>
          && ready && current == None && count == 0 && nextPid == 1
          && forall k: nat :: k < MAX_PROCESSES ==> slots[k] == None
    {
      if ready {
        return ErrState;
      }
      ClearSlots();
      current, count, nextPid, ready := None, 0, 1, true;
      StartedInv();
      return Ok;
    }

    method ClearSlots()
      requires slots.Length == MAX_PROCESSES
      modifies slots
      ensures slots[..] == EmptySlots(MAX_PROCESSES)
    {
      for i := 0 to MAX_PROCESSES
        invariant forall j: nat :: j < i ==> slots[j] == None
      {
        slots[i] := None;
      }
    }

    method FindSlot() returns (k: nat)
      requires slots.Length == MAX_PROCESSES
      ensures k == FreeSlot(slots[..], 0)
    {
      k := 0;
      while k < MAX_PROCESSES
        invariant k <= MAX_PROCESSES && FreeSlot(slots[..], 0) == FreeSlot(slots[..], k)
      {
        if slots[k].None? {
          return k;
        }
        k := k + 1;
      }
    }

    method Get(pid: nat) returns (k: nat)
      requires Valid()
      ensures k == Find(Abs(), pid)
      ensures k < MAX_PROCESSES ==> ready && slots[k].Some? && slots[k].value.pid == pid
      ensures forall j: nat :: j < MAX_PROCESSES && ready && slots[j].Some? && slots[j].value.pid == pid ==> j == k
    {
      hide Inv;
      InvShape(Abs());
      FindIsExact(Abs(), pid);
      assert forall j: nat :: j < MAX_PROCESSES && slots[j].Some? && slots[j].value.pid == pid ==> Holds(Abs(), j, pid);
      if !ready || pid == 0 {
        return MAX_PROCESSES;
      }
      k := 0;
      while k < MAX_PROCESSES
        invariant k <= MAX_PROCESSES && SlotOf(slots[..], pid, 0) == SlotOf(slots[..], pid, k)
      {
        if slots[k].Some? && slots[k].value.pid == pid {
          return k;
        }
        k := k + 1;
      }
    }

    method ProcCreate(priority: nat, memory: bool) returns (st: Status, pid: nat)
      requires Valid()
      modifies this, slots
      ensures Valid() && (Abs(), st, pid) == Create(old(Abs()), priority, memory)
    {
      hide Inv;
      CreateKeeps(Abs(), priority, memory);
      InvShape(Abs());
      if !ready {
        return ErrInval, 0;
      }
      var k := FindSlot();
      if k == MAX_PROCESSES {
        return ErrOverflow, 0;
      }
      if !memory {
        return ErrNoMem, 0;
      }
      var ppid := if current.Some? then slots[current.value].value.pid else 0;
      pid := nextPid;
      nextPid := nextPid + 1;
      slots[k] := Some(Process(pid, ppid, Created, priority));
      count := count + 1;
      if current.None? {
        current := Some(k);
      }
      slots[k] := Some(slots[k].value.(state := Ready));
      st := Ok;
      assert slots[..] == old(slots[..])[k := Some(Process(pid, ppid, Ready, priority))];
    }

    method ProcExit(pid: nat) returns (st: Status)
      requires Valid()
      modifies this, slots
      ensures Valid() && (Abs(), st) == Exit(old(Abs()), pid)
    {
      hide Inv;
      ExitKeeps(Abs(), pid);
      InvShape(Abs());
      var k := Get(pid);
      if k == MAX_PROCESSES {
        return ErrNotFound;
      }
      slots[k] := Some(slots[k].value.(state := Zombie));
      if current == Some(k) {
        current := None;
      }
      st := Ok;
    }

    method ProcKill(pid: nat) returns (st: Status)
      requires Valid()
      modifies this, slots
      ensures Valid() && count >= 0 && (Abs(), st) == Kill(old(Abs()), pid)
    {
      hide Inv, SlotOf;
      InvShape(Abs());
      KillKeeps(Abs(), pid);
      CountIsNat(Kill(Abs(), pid).0);
      var k := Get(pid);
      if k == MAX_PROCESSES {
        return ErrNotFound;
      }
      slots[k] := Some(slots[k].value.(state := Dead));
      if current == Some(k) {
        current := None;
      }
      slots[k] := None;
      count := count - 1;
      st := Ok;
      assert slots[..] == old(slots[..])[k := None];
    }
  }
}
