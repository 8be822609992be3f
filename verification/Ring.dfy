/**
  A ring buffer of 32 slots that holds at most 31 messages, updated in place.
 */
module Ring {
  import opened Types
  import opened Messages
  import opened Slots

  /** The n messages from the tail on. */
  ghost function Queued(slots: seq<Msg>, tail: nat, n: nat): (s: seq<Msg>)
    requires |slots| == SLOT_COUNT && tail < SLOT_COUNT && n <= SLOT_COUNT
    ensures |s| == n && forall k: nat :: k < n ==> s[k] == slots[Slot(tail, k)]
  {
    seq(n, k requires 0 <= k < n => slots[Slot(tail, k)])
  }

  ghost function QueueOf(slots: seq<Msg>, tail: nat, head: nat): (s: seq<Msg>)
    requires |slots| == SLOT_COUNT && tail < SLOT_COUNT && head < SLOT_COUNT
    ensures |s| == Distance(tail, head)
  {
    Queued(slots, tail, Distance(tail, head))
  }

  lemma AfterPush(slots: seq<Msg>, tail: nat, head: nat, msg: Msg)
    requires |slots| == SLOT_COUNT && tail < SLOT_COUNT && head < SLOT_COUNT && Next(head) != tail
    ensures QueueOf(slots[head := msg], tail, Next(head)) == QueueOf(slots, tail, head) + [msg]
  {
    hide Slot, Next, Distance, Queued;
    DistanceFacts(tail, head);
  }

  lemma AfterPop(slots: seq<Msg>, tail: nat, head: nat)
    requires |slots| == SLOT_COUNT && tail < SLOT_COUNT && head < SLOT_COUNT && head != tail
    ensures [slots[tail]] + QueueOf(slots, Next(tail), head) == QueueOf(slots, tail, head)
  {
    hide Slot, Next, Distance, Queued;
    DistanceFacts(tail, head);
    var q, r := QueueOf(slots, tail, head), [slots[tail]] + QueueOf(slots, Next(tail), head);
    forall k: nat | k < |q| ensures r[k] == q[k] {
      if k > 0 {
        SlotShift(tail, k - 1);
      }
    }
  }

  class Ring {
    const slots: array<Msg>
    var head: nat
    var tail: nat

    ghost predicate Valid()
      reads this, slots
    {
      slots.Length == SLOT_COUNT && head < SLOT_COUNT && tail < SLOT_COUNT
    }

    /** The queued messages, oldest first. */
    ghost function Contents(): (s: seq<Msg>)
      requires Valid()
      reads this, slots
      ensures |s| <= CAPACITY
    {
      QueueOf(slots[..], tail, head)
    }

    constructor ()
      ensures Valid() && fresh(slots) && Contents() == []
    {
      slots := new Msg[SLOT_COUNT](_ => BLANK);
      head, tail := 0, 0;
    }

    method Init()
      requires Valid()
      modifies this, slots
      ensures Valid() && Contents() == []
    {
      for i := 0 to SLOT_COUNT {
        slots[i] := BLANK;
      }
      head, tail := 0, 0;
    }

    predicate Full()
      reads this
    {
      Next(head) == tail
    }

    predicate Empty()
      reads this
    {
      head == tail
    }

    method Push(msg: Msg) returns (st: Status)
      requires Valid()
      modifies this, slots
      ensures Valid()
      ensures st == if |old(Contents())| == CAPACITY then ErrOverflow else Ok
      ensures Contents() == if st == Ok then old(Contents()) + [msg] else old(Contents())
    {
      hide Slot, Next, Distance, QueueOf;
      DistanceFacts(tail, head);
      if Full() {
        return ErrOverflow;
      }
      AfterPush(slots[..], tail, head, msg);
      slots[head] := msg;
      head := Next(head);
      return Ok;
    }

    method Pop() returns (st: Status, out: Msg)
      requires Valid()
      modifies this
      ensures Valid()
      ensures st == if old(Contents()) == [] then ErrUnderflow else Ok
      ensures st == Ok ==> [out] + Contents() == old(Contents())
      ensures st != Ok ==> Contents() == old(Contents())
    {
      hide Slot, Next, Distance, QueueOf;
      DistanceFacts(tail, head);
      if Empty() {
        return ErrUnderflow, BLANK;
      }
      AfterPop(slots[..], tail, head);
      out := slots[tail];
      tail := Next(tail);
      st := Ok;
    }
  }
}
