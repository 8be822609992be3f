/**
  Index arithmetic of a ring of 32 slots.
 */
module Slots {

  const SLOT_COUNT: nat := 32
  const CAPACITY: nat := SLOT_COUNT - 1

  function Next(x: nat): (y: nat)
    ensures y < SLOT_COUNT
  {
    (x + 1) % SLOT_COUNT
  }

  /** The slot k places after the tail. */
  function Slot(tail: nat, k: nat): (r: nat)
    requires tail < SLOT_COUNT && k <= SLOT_COUNT
    ensures r < SLOT_COUNT
  {
    if tail + k < SLOT_COUNT then tail + k else tail + k - SLOT_COUNT
  }

  lemma SlotShift(tail: nat, k: nat)
    requires tail < SLOT_COUNT && k < SLOT_COUNT
    ensures Slot(Next(tail), k) == Slot(tail, k + 1)
  {
  }

  lemma NextSlot(tail: nat, n: nat)
    requires tail < SLOT_COUNT && n <= CAPACITY
    ensures Next(Slot(tail, n)) == Slot(tail, n + 1)
    ensures Next(Slot(tail, n)) == tail <==> n == CAPACITY
    ensures forall k: nat :: k < n ==> Slot(tail, k) != Slot(tail, n)
  {
  }

  /** The number of slots from tail up to head. */
  function Distance(tail: nat, head: nat): (n: nat)
    requires tail < SLOT_COUNT && head < SLOT_COUNT
    ensures n <= CAPACITY
  {
    if tail <= head then head - tail else head + SLOT_COUNT - tail
  }

  lemma DistanceFacts(tail: nat, head: nat)
    requires tail < SLOT_COUNT && head < SLOT_COUNT
    ensures Slot(tail, Distance(tail, head)) == head
    ensures Distance(tail, head) == CAPACITY <==> Next(head) == tail
    ensures Distance(tail, head) == 0 <==> head == tail
    ensures Next(head) != tail ==> Distance(tail, Next(head)) == Distance(tail, head) + 1
    ensures head != tail ==> Distance(Next(tail), head) + 1 == Distance(tail, head)
    ensures Slot(tail, 0) == tail
    ensures forall k: nat :: k < Distance(tail, head) ==> Slot(tail, k) != head
  {
  }
}
