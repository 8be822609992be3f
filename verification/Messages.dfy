/**
  IPC messages.
 */
module Messages {

  const KIND_SYSCALL: nat := 1
  const KIND_DRIVER: nat := 4
  const KIND_POWER: nat := 5
  const KIND_REPLY: nat := 6
  const FLAG_REPLY: nat := 4

  /** The payload is kept as a sequence of values, not as packed bytes. */
  datatype Msg = Msg(kind: nat, flags: nat, srcId: nat, dstId: nat, seqNo: nat, stamp: nat,
                     dataLen: nat, data: seq<nat>)

  const BLANK: Msg := Msg(0, 0, 0, 0, 0, 0, 0, [])
}
