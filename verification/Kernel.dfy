/**
  The two kernels in place: the system call entry, the message handlers and one turn of
  each main loop, over one IPC layer and one process table.
 */
module Kernel {
  import opened Types
  import opened Messages
  import opened K = KernelSpec
  import L = Ipc
  import I = IpcSpec
  import P = ProcessTable

  class DualKernel {
    const ipc: L.IpcLayer
    const procs: P.ProcessManager
    var hwOn: bool
    var swOn: bool
    var forwarded: nat
    var syscalls: nat
    var tx: nat
    var rx: nat
    var processCount: int

    ghost const Repr: set<object>

    ghost predicate Valid()
      reads this, Repr
      ensures Valid() ==> this in Repr
    {
      && ipc in Repr && ipc.Repr <= Repr && procs in Repr && procs.slots in Repr
      && Repr == {this, procs, procs.slots} + ipc.Repr
      && this !in ipc.Repr && procs !in ipc.Repr && procs.slots !in ipc.Repr
      && ipc.Valid() && procs.Valid()
    }

    ghost function Abs(): (s: Sys)
      requires Valid()
      reads this, Repr
      ensures K.Shape(s)
    {
      P.InvShape(procs.Abs());
      Sys(ipc.Abs(), procs.Abs(), hwOn, swOn, forwarded, syscalls, tx, rx, processCount)
    }

    constructor (layer: L.IpcLayer, manager: P.ProcessManager)
      requires layer.Valid() && manager.Valid()
      requires manager !in layer.Repr && manager.slots !in layer.Repr
      ensures Valid() && ipc == layer && procs == manager && Repr == {this, manager, manager.slots} + layer.Repr
      ensures !hwOn && !swOn && forwarded == syscalls == tx == rx == 0
    {
      ipc, procs := layer, manager;
      hwOn, swOn, forwarded, syscalls, tx, rx, processCount := false, false, 0, 0, 0, 0, 0;
      Repr := {this, manager, manager.slots} + layer.Repr;
    }

    /** Sends a system call on to the hardware kernel. */
    method Forward(nr: nat, args: seq<nat>, now: nat) returns (st: Status)
      requires Valid()
      modifies Repr
      ensures Valid() && (Abs(), st) == K.Forward(old(Abs()), nr, args, now)
    {
      hide P.Inv, I.SendOn;
      var current := CurrentPid();
      var msg := BLANK.(kind := KIND_SYSCALL, srcId := current, dataLen := 40, data := [nr] + args);
      st := ipc.SendToHw(msg, now);
      if st == Ok {
        tx := tx + 1;
      }
    }

    method CurrentPid() returns (pid: nat)
      requires Valid()
      ensures pid == P.CurrentPid(Abs().table)
    {
      P.InvShape(procs.Abs());
      if procs.current.Some? {
        return procs.slots[procs.current.value].value.pid;
      }
      return 0;
    }

    method Syscall(nr: nat, args: seq<nat>, now: nat, memory: bool) returns (st: Status, ret: nat)
      requires Valid() && |args| == 4
      modifies Repr
      ensures Valid() && (Abs(), st, ret) == K.Syscall(old(Abs()), nr, args, now, memory)
    {
      hide P.Inv, K.Forward, P.Create, P.Exit, P.Shape;
      if !swOn {
        return ErrState, 0;
      }
      syscalls := syscalls + 1;
      ret := 0;
      if nr == SYS_NOP {
        st := Ok;
      } else if nr == SYS_GETPID {
        ret := CurrentPid();
        st := Ok;
      } else if nr == SYS_SPAWN {
        if args[0] == 0 {
          return ErrInval, 0;
        }
        var pid;
        st, pid := procs.ProcCreate(PRIO_NORMAL, memory);
        if st == Ok {
          ret := pid;
        }
        processCount := procs.count;
      } else if nr == SYS_EXIT {
        if procs.current.None? {
          return ErrState, 0;
        }
        var current := CurrentPid();
        st := procs.ProcExit(current);
      } else if IsForwarded(nr) {
        st := Forward(nr, args, now);
      } else {
        st := ErrNoSys;
      }
    }

    method HwHandle(msg: Msg, now: nat) returns (st: Status)
      requires Valid()
      modifies Repr
      ensures Valid() && (Abs(), st) == K.HwHandle(old(Abs()), msg, now)
    {
      hide P.Inv, I.Apply, P.Shape;
      if !hwOn {
        return ErrInval;
      }
      if msg.kind == KIND_SYSCALL {
        forwarded := forwarded + 1;
        var reply := BLANK.(kind := KIND_REPLY, flags := FLAG_REPLY, srcId := 0, dstId := msg.srcId,
                            dataLen := 4, data := [0]);
        var sent := ipc.SendToSw(reply, now);
      } else if msg.kind != KIND_DRIVER && msg.kind != KIND_POWER {
        return ErrInval;
      }
      return Ok;
    }

    /** One turn of the hardware kernel's main loop. */
    method HwTurn(now: nat, spins: nat)
      requires Valid()
      modifies Repr
      ensures Valid() && Abs() == K.HwPoll(old(Abs()), now)
    {
      hide P.Inv, I.RecvOn, K.HwHandle, P.Shape, I.Spin;
      if !hwOn {
        return;
      }
      var quiet: seq<seq<I.Call>> := seq(spins, _ => []);
      I.QuietSpin(ipc.Abs(), I.ToHw, 0, POLL_MS, quiet);
      var st, msg := ipc.RecvFromSw(POLL_MS, quiet);
      if msg.Some? {
        var handled := HwHandle(msg.value, now);
      }
    }

    method SwHandle(msg: Msg) returns (st: Status)
      requires Valid()
      modifies Repr
      ensures Valid() && (Abs(), st) == K.SwHandle(old(Abs()), msg)
    {
      hide P.Inv, P.Shape;
      if !swOn {
        return ErrInval;
      }
      rx := rx + 1;
      return Ok;
    }

    /** One turn of the software kernel's main loop. */
    method SwTurn(spins: nat)
      requires Valid()
      modifies Repr
      ensures Valid() && Abs() == K.SwPoll(old(Abs()))
    {
      hide P.Inv, I.RecvOn, K.SwHandle, P.Shape, I.Spin;
      if !swOn {
        return;
      }
      var quiet: seq<seq<I.Call>> := seq(spins, _ => []);
      I.QuietSpin(ipc.Abs(), I.ToSw, 0, POLL_MS, quiet);
      var st, msg := ipc.RecvFromHw(POLL_MS, quiet);
      if msg.Some? {
        var handled := SwHandle(msg.value);
      }
    }
  }
}
