/** The fixed-width values that travel in messages, and the records made of them. */
module WireTypes {
  type Byte = x: int | 0 <= x < 256
  type U16 = x: int | 0 <= x < 0x1_0000
  type U32 = x: int | 0 <= x < 0x1_0000_0000
  type U64 = x: int | 0 <= x < 0x1_0000_0000_0000_0000

  type MbId = U16

  // char[50]
  const GPAL_VAL_SIZE := 50
  type Text = s: seq<Byte> | |s| == 50 witness seq(50, i => 0)

  datatype GPal = GPal(varId: U16, val: Text)
  datatype SPal = SPal(varId: U16, seqNum: U32)
}
