/** The message header shared by every queue. */
module Messages {
  import opened Word64

  const TWO32: nat := 0x1_0000_0000

  type u32 = n: nat | n < TWO32

  datatype Option<+T> = None | Some(value: T)

  datatype MsgHeader = MsgHeader(seqId: u64, funcId: u32, payloadLen: u32)

  datatype Priority = Low | High

  /** `static_cast<uint32_t>`: keeps the low 32 bits. */
  function Low32(n: nat): (u: u32) {
    n % TWO32
  }
}
