/**
 * Value types shared by the register store, the codecs and the Modbus engine:
 * bytes, 16-bit register words, an Option for "not found" / "no reply",
 * and the big-endian 16-bit read that Node's Buffer.readUInt16BE performs.
 */
module Words {

  /** An octet of a Modbus TCP frame. */
  type byte = x: int | 0 <= x < 0x100

  /** A 16-bit unsigned holding-register value. */
  type word = x: int | 0 <= x < 0x1_0000

  datatype Option<+T> = None | Some(value: T)

  /** True when `x` fits a holding register (what writeUInt16BE accepts). */
  predicate IsWord(x: int) {
    0 <= x < 0x1_0000
  }

  /** Every entry of a register store is a 16-bit word. */
  predicate AllWords(s: seq<int>) {
    forall i :: 0 <= i < |s| ==> IsWord(s[i])
  }

  /** Big-endian 16-bit value at byte offset `i` (Buffer.readUInt16BE). */
  function U16At(s: seq<byte>, i: nat): (v: word)
    requires i + 1 < |s|
  {
    (s[i] as int) * 0x100 + s[i + 1]
  }

  /** The high byte and the low byte of a word, in wire order. */
  function BytesOf(v: word): (r: seq<byte>)
    ensures |r| == 2 && U16At(r, 0) == v
  {
    [v / 0x100, v % 0x100]
  }
}
