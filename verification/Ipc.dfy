/**
  The IPC layer in place: two rings, the channel table and the shared sequence counter.
  Every method does what the function of the same name in `IpcSpec` says.
 */
module Ipc {
  import opened Types
  import opened Messages
  import opened Slots
  import R = Ring
  import S = IpcSpec

  class IpcLayer {
    const toHw: R.Ring
    const toSw: R.Ring
    const channels: array<S.Channel>
    var count: nat
    var nextSeq: nat
    var ready: bool

    ghost const Repr: set<object>

    ghost predicate Valid()
      reads this, Repr
      ensures Valid() ==> this in Repr
    {
      && Repr == {this, toHw, toHw.slots, toSw, toSw.slots, channels}
      && toHw != toSw && toHw.slots != toSw.slots
      && toHw.Valid() && toSw.Valid()
      && channels.Length == S.MAX_CHANNELS && count <= S.MAX_CHANNELS
      && (ready ==> count >= 1 && channels[0].wired)
    }

    ghost function Abs(): (s: S.Ipc)
      requires Valid()
      reads this, Repr
      ensures S.Shape(s)
    {
      S.Ipc(ready, toHw.Contents(), toSw.Contents(), channels[..], count, nextSeq)
    }

    constructor ()
      ensures Valid() && fresh(Repr) && !ready
    {
      var down := new R.Ring();
      var up := new R.Ring();
      var table := new S.Channel[S.MAX_CHANNELS](_ => S.Closed());
      toHw, toSw, channels := down, up, table;
      count, nextSeq, ready := 0, 1, false;
      Repr := {this, down, down.slots, up, up.slots, table};
    }

    method ClearChannels()
      requires channels.Length == S.MAX_CHANNELS
      modifies channels
      ensures channels[..] == S.AllClosed()
    {
      for i := 0 to S.MAX_CHANNELS
        invariant forall j: nat :: j < i ==> channels[j] == S.Closed()
      {
        channels[i] := S.Closed();
      }
    }

    method Init() returns (st: Status)
      requires Valid()
      modifies Repr
      ensures Valid()
      ensures (Abs(), st) == if old(ready) then (old(Abs()), ErrState) else (S.Started(), Ok)
      ensures st == Ok ==>
          && ready && count == 1 && nextSeq == 1 && Abs().toHw == Abs().toSw == []
          && forall k: nat :: k < S.MAX_CHANNELS ==> channels[k] == S.Channel(0, k == 0, 0, 0, 0)
    {
      if ready {
        return ErrState;
      }
      toHw.Init();
      toSw.Init();
      ClearChannels();
      channels[0] := S.Opened(0);
      count, nextSeq, ready := 1, 1, true;
      return Ok;
    }

    method Shutdown()
      requires Valid()
      modifies Repr
      ensures Valid()
      ensures Abs() == if old(ready) then old(Abs()).(ready := false, channels := S.AllClosed(), count := 0)
                       else old(Abs())
    {
      if !ready {
        return;
      }
      ready := false;
      ClearChannels();
      count := 0;
    }

    method CreateChannel() returns (st: Status, id: nat)
      requires Valid()
      modifies Repr
      ensures Valid() && (Abs(), st, id) == S.Create(old(Abs()))
    {
      if !ready {
        return ErrInval, 0;
      }
      if count >= S.MAX_CHANNELS {
        return ErrOverflow, 0;
      }
      id := count;
      count := count + 1;
      channels[id] := channels[id].(id := id, wired := true);
      st := Ok;
    }

    method DestroyChannel(id: nat) returns (st: Status)
      requires Valid()
      modifies Repr
      ensures Valid() && (Abs(), st) == S.Destroy(old(Abs()), id)
    {
      if !ready || id == 0 || id >= count {
        return ErrInval;
      }
      channels[id] := S.Closed();
      return Ok;
    }

    method SendOn(side: S.Side, ch: nat, msg: Msg, now: nat) returns (st: Status)
      requires Valid() && ch < S.MAX_CHANNELS
      modifies Repr
      ensures Valid() && (Abs(), st) == S.SendOn(old(Abs()), side, ch, msg, now)
      ensures S.OneSend(old(Abs()), side, ch, msg, now, Abs(), st)
    {
      hide R.QueueOf, S.OneSend;
      S.SendEffect(Abs(), side, ch, msg, now);
      var stamped := msg.(seqNo := nextSeq, stamp := now);
      nextSeq := nextSeq + 1;
      if side.ToHw? {
        st := toHw.Push(stamped);
      } else {
        st := toSw.Push(stamped);
      }
      if st == Ok {
        channels[ch] := channels[ch].(tx := channels[ch].tx + 1);
      } else {
        channels[ch] := channels[ch].(drop := channels[ch].drop + 1);
      }
    }

    /** The calls of other threads. */
    method Others(calls: seq<S.Call>)
      requires Valid() && forall c: S.Call :: c in calls ==> S.Directed(c)
      modifies Repr
      ensures Valid() && ready == old(ready) && Abs() == S.Exec(old(Abs()), calls)
      decreases |calls|
    {
      hide S.Apply;
      if calls == [] {
        return;
      }
      assert calls[0] in calls;
      if calls[0].SendToHw? {
        var st := SendToHw(calls[0].msg, calls[0].now);
      } else {
        var st := SendToSw(calls[0].msg, calls[0].now);
      }
      Others(calls[1..]);
    }

    /** One poll: takes the oldest message off the ring, if there is one. */
    method Poll(side: S.Side, ch: nat) returns (out: Option<Msg>)
      requires Valid() && ch < S.MAX_CHANNELS
      modifies Repr
      ensures Valid() && ready == old(ready)
      ensures (Abs(), out) == (S.RecvOn(old(Abs()), side, ch, 0).0, S.RecvOn(old(Abs()), side, ch, 0).2)
    {
      hide R.QueueOf;
      var st, msg;
      if side.ToHw? {
        st, msg := toHw.Pop();
      } else {
        st, msg := toSw.Pop();
      }
      if st != Ok {
        return None;
      }
      channels[ch] := channels[ch].(rx := channels[ch].rx + 1);
      return Some(msg);
    }

    /** A receive spins until a message is there or the deadline has passed: others are what
        other threads do between one poll and the next, as often as the deadline allows. */
    method RecvOn(side: S.Side, ch: nat, timeout: nat, others: seq<seq<S.Call>>)
      returns (st: Status, out: Option<Msg>)
      requires Valid() && ch < S.MAX_CHANNELS
      requires forall k: nat, c: S.Call :: k < |others| && c in others[k] ==> S.Directed(c)
      modifies Repr
      ensures Valid() && ready == old(ready)
      ensures (Abs(), st, out) == S.Spin(old(Abs()), side, ch, timeout, others)
      ensures exists k: nat :: k <= |others| && S.Polled(old(Abs()), side, ch, timeout, others, k, Abs(), st, out)
    {
      hide S.Exec, S.Polled, S.Spin, S.RecvOn;
      ghost var poll := S.SpinIsOneReceive(Abs(), side, ch, timeout, others);
      var k := 0;
      while true
        invariant Valid() && ready == old(ready) && k <= |others|
        invariant S.Spin(Abs(), side, ch, timeout, others[k..]) == S.Spin(old(Abs()), side, ch, timeout, others)
        decreases |others| - k
      {
        S.PollDecides(Abs(), side, ch, timeout, others[k..]);
        assert k < |others| ==> others[k..][1..] == others[k + 1..];
        out := Poll(side, ch);
        if out.Some? {
          return Ok, out;
        }
        if timeout == 0 {
          return ErrAgain, None;
        }
        if k == |others| {
          return ErrTimeout, None;
        }
        Others(others[k]);
        k := k + 1;
      }
    }

    /** A destroyed channel has no rings, so the caller must not use it. */
    method Send(ch: nat, msg: Msg, now: nat) returns (st: Status)
      requires Valid() && (ready && ch < count ==> channels[ch].wired)
      modifies Repr
      ensures Valid() && ready == old(ready) && Abs() == S.Apply(old(Abs()), S.Send(ch, msg, now))
      ensures !ready || ch >= old(count) ==> st == ErrInval && Abs() == old(Abs())
      ensures ready && ch < old(count) ==> S.OneSend(old(Abs()), S.ToHw, ch, msg, now, Abs(), st)
    {
      if !ready || ch >= count {
        return ErrInval;
      }
      st := SendOn(S.ToHw, ch, msg, now);
    }

    method Recv(ch: nat, timeout: nat, others: seq<seq<S.Call>>) returns (st: Status, out: Option<Msg>)
      requires Valid() && (ready && ch < count ==> channels[ch].wired)
      requires forall k: nat, c: S.Call :: k < |others| && c in others[k] ==> S.Directed(c)
      modifies Repr
      ensures Valid() && ready == old(ready)
      ensures (Abs(), st, out) == if !ready || ch >= old(count) then (old(Abs()), ErrInval, None)
                                  else S.Spin(old(Abs()), S.ToSw, ch, timeout, others)
      ensures ready && ch < old(count) ==>
          exists k: nat :: k <= |others| && S.Polled(old(Abs()), S.ToSw, ch, timeout, others, k, Abs(), st, out)
    {
      if !ready || ch >= count {
        return ErrInval, None;
      }
      st, out := RecvOn(S.ToSw, ch, timeout, others);
    }

    method SendToHw(msg: Msg, now: nat) returns (st: Status)
      requires Valid()
      modifies Repr
      ensures Valid() && ready == old(ready) && Abs() == S.Apply(old(Abs()), S.SendToHw(msg, now))
      ensures st == if !ready then ErrInval else S.SendOn(old(Abs()), S.ToHw, 0, msg, now).1
      ensures ready ==> S.OneSend(old(Abs()), S.ToHw, 0, msg, now, Abs(), st)
    {
      if !ready {
        return ErrInval;
      }
      st := SendOn(S.ToHw, 0, msg, now);
    }

    method SendToSw(msg: Msg, now: nat) returns (st: Status)
      requires Valid()
      modifies Repr
      ensures Valid() && ready == old(ready) && Abs() == S.Apply(old(Abs()), S.SendToSw(msg, now))
      ensures st == if !ready then ErrInval else S.SendOn(old(Abs()), S.ToSw, 0, msg, now).1
      ensures ready ==> S.OneSend(old(Abs()), S.ToSw, 0, msg, now, Abs(), st)
    {
      if !ready {
        return ErrInval;
      }
      st := SendOn(S.ToSw, 0, msg, now);
    }

    method RecvFromHw(timeout: nat, others: seq<seq<S.Call>>) returns (st: Status, out: Option<Msg>)
      requires Valid()
      requires forall k: nat, c: S.Call :: k < |others| && c in others[k] ==> S.Directed(c)
      modifies Repr
      ensures Valid() && ready == old(ready)
      ensures (Abs(), st, out) == if !ready then (old(Abs()), ErrInval, None)
                                  else S.Spin(old(Abs()), S.ToSw, 0, timeout, others)
      ensures ready ==>
          exists k: nat :: k <= |others| && S.Polled(old(Abs()), S.ToSw, 0, timeout, others, k, Abs(), st, out)
    {
      hide S.Spin, S.Polled;
      st, out := Recv(0, timeout, others);
    }

    method RecvFromSw(timeout: nat, others: seq<seq<S.Call>>) returns (st: Status, out: Option<Msg>)
      requires Valid()
      requires forall k: nat, c: S.Call :: k < |others| && c in others[k] ==> S.Directed(c)
      modifies Repr
      ensures Valid() && ready == old(ready)
      ensures (Abs(), st, out) == if !ready then (old(Abs()), ErrInval, None)
                                  else S.Spin(old(Abs()), S.ToHw, 0, timeout, others)
      ensures ready ==>
          exists k: nat :: k <= |others| && S.Polled(old(Abs()), S.ToHw, 0, timeout, others, k, Abs(), st, out)
    {
      hide S.Spin, S.Polled;
      if !ready {
        return ErrInval, None;
      }
      st, out := RecvOn(S.ToHw, 0, timeout, others);
    }
  }
}
