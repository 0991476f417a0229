/**
 * The multi-word value codecs of the simulator.
 *
 *  - FLOAT32 / 4Q_FP_PF: "swapped" order, low word first, high word second.
 *    The IEEE-754 encoding itself (Buffer.writeFloatBE) is not modelled: a
 *    float is handled as its opaque 32-bit pattern.
 *  - INT64: two's complement, four words, most significant word first.
 *  - DATETIME: Unix seconds, high word first; the JavaScript shift and mask
 *    operators work on 32-bit signed integers, and that wrap is written out.
 */
module Codec {
  import opened Words

  const TwoTo16: int := 0x1_0000
  const TwoTo31: int := 0x8000_0000
  const TwoTo32: int := 0x1_0000_0000
  const TwoTo63: int := 0x8000_0000_0000_0000
  const TwoTo64: int := 0x1_0000_0000_0000_0000

  /** The bit pattern of an IEEE-754 single-precision float. */
  type uint32 = x: int | 0 <= x < 0x1_0000_0000

  /** A signed 64-bit integer (the range BigInt writeBigInt64BE accepts). */
  type int64 = x: int | -0x8000_0000_0000_0000 <= x < 0x8000_0000_0000_0000

  /** Division by 2^16 of a value built from a quotient and a word. */
  lemma DivModWord(hi: int, lo: word)
    ensures (hi * TwoTo16 + lo) / TwoTo16 == hi
    ensures (hi * TwoTo16 + lo) % TwoTo16 == lo
  {
  }

  // ---------------------------------------------------------------------------
  // FLOAT32: low word first

  /** floatToRegisters: the low word of the pattern, then the high word. */
  function FloatToRegisters(bits: uint32): (r: seq<word>)
    ensures |r| == 2
    ensures r[1] * TwoTo16 + r[0] == bits
  {
    [bits % TwoTo16, bits / TwoTo16]
  }

  /** registersToFloat: reassembles the pattern with the high word on top. */
  function RegistersToFloat(lowWord: word, highWord: word): (bits: uint32)
    ensures FloatToRegisters(bits) == [lowWord, highWord]
  {
    DivModWord(highWord, lowWord);
    highWord * TwoTo16 + lowWord
  }

  lemma FloatRoundTrip(bits: uint32)
    ensures RegistersToFloat(FloatToRegisters(bits)[0], FloatToRegisters(bits)[1]) == bits
  {
  }

  // ---------------------------------------------------------------------------
  // INT64: most significant word first

  /** The 64-bit two's-complement pattern of a signed value. */
  function Unsigned64(v: int64): (u: nat)
    ensures u < TwoTo64
    ensures v >= 0 ==> u == v
    ensures v < 0 ==> u == v + TwoTo64
  {
    if v < 0 then v + TwoTo64 else v
  }

  /** The signed value of a 64-bit pattern (readBigInt64BE). */
  function Signed64(u: nat): (v: int64)
    requires u < TwoTo64
    ensures Unsigned64(v) == u
  {
    if u < TwoTo63 then u else u - TwoTo64
  }

  /** The value of four words read most significant first. */
  function Combine4(w0: word, w1: word, w2: word, w3: word): int
  {
    ((w0 * TwoTo16 + w1) * TwoTo16 + w2) * TwoTo16 + w3
  }

  /**
   * int64ToRegisters: the eight big-endian bytes of the value, read back as
   * four words in natural order.
   */
  function Int64ToRegisters(value: int64): (r: seq<word>)
    ensures |r| == 4
    ensures Combine4(r[0], r[1], r[2], r[3]) == Unsigned64(value)
    ensures value < 0 <==> r[0] >= 0x8000
  {
    var u := Unsigned64(value);
    var u1 := u / TwoTo16;
    var u2 := u1 / TwoTo16;
    var u3 := u2 / TwoTo16;
    [u3, u2 % TwoTo16, u1 % TwoTo16, u % TwoTo16]
  }

  /**
   * registersToInt64: the BigInt the four words denote. The source then
   * converts it to a JavaScript Number; that rounding is not modelled.
   */
  function RegistersToInt64(reg0: word, reg1: word, reg2: word, reg3: word): (value: int64)
    ensures value < 0 <==> reg0 >= 0x8000
    ensures Int64ToRegisters(value) == [reg0, reg1, reg2, reg3]
  {
    var u := Combine4(reg0, reg1, reg2, reg3);
    DivModWord((reg0 * TwoTo16 + reg1) * TwoTo16 + reg2, reg3);
    DivModWord(reg0 * TwoTo16 + reg1, reg2);
    DivModWord(reg0, reg1);
    Signed64(u)
  }

  lemma Int64RoundTrip(value: int64)
    ensures var r := Int64ToRegisters(value);
            RegistersToInt64(r[0], r[1], r[2], r[3]) == value
  {
    var r := Int64ToRegisters(value);
    var v := RegistersToInt64(r[0], r[1], r[2], r[3]);
    assert Unsigned64(v) == Combine4(r[0], r[1], r[2], r[3]);
  }

  // ---------------------------------------------------------------------------
  // DATETIME: high word first

  /** JavaScript's ToInt32: the value modulo 2^32, read as signed. */
  function ToInt32(x: int): (r: int)
    ensures -TwoTo31 <= r < TwoTo31
    ensures r % TwoTo32 == x % TwoTo32
  {
    var m := x % TwoTo32;
    if m < TwoTo31 then m else m - TwoTo32
  }

  /** Math.floor(Date.now() / 1000) for a clock reading in milliseconds. */
  function UnixSeconds(nowMs: nat): (s: nat)
    ensures s * 1000 <= nowMs < s * 1000 + 1000
  {
    nowMs / 1000
  }

  /**
   * timestampToRegisters: `[(now >> 16) & 0xFFFF, now & 0xFFFF]`. Both
   * operators first take ToInt32 of `now`; `>>` is an arithmetic shift
   * (floor division by 2^16) and `& 0xFFFF` keeps the low 16 bits.
   */
  function TimestampToRegisters(nowMs: nat): (r: seq<word>)
    ensures |r| == 2
    ensures r[0] * TwoTo16 + r[1] == UnixSeconds(nowMs) % TwoTo32
  {
    var now := ToInt32(UnixSeconds(nowMs));
    var high := (now / TwoTo16) % TwoTo16;
    var low := now % TwoTo16;
    SplitLow32(now, high, low);
    [high, low]
  }

  /** The high/low split of an int32 gives its low 32 bits as an unsigned value. */
  lemma SplitLow32(w: int, high: int, low: int)
    requires -TwoTo31 <= w < TwoTo31
    requires high == (w / TwoTo16) % TwoTo16 && low == w % TwoTo16
    ensures 0 <= high * TwoTo16 + low < TwoTo32
    ensures high * TwoTo16 + low == w % TwoTo32
  {
    var q := w / TwoTo16;
    assert w == q * TwoTo16 + low;
    assert -0x8000 <= q < 0x8000;
    var k := if q < 0 then -1 else 0;
    assert q == k * TwoTo16 + high;
    assert w == (high * TwoTo16 + low) + k * TwoTo32;
  }

  /**
   * The reassembly used by the display path: `(high << 16) | low`. The
   * shifted high word lies below 2^32, its low 16 bits are clear, and `|`
   * yields a signed 32-bit result, so the value is ToInt32(high * 2^16 + low).
   */
  function RegistersToTimestamp(high: word, low: word): (seconds: int)
    ensures high < 0x8000 ==> seconds == high * TwoTo16 + low
    ensures high >= 0x8000 ==> seconds == high * TwoTo16 + low - TwoTo32
  {
    ToInt32(high * TwoTo16 + low)
  }

  lemma ToInt32Congruent(x: int, y: int)
    requires x % TwoTo32 == y % TwoTo32
    ensures ToInt32(x) == ToInt32(y)
  {
  }

  /**
   * Splitting the clock and reassembling it recovers the seconds as a signed
   * 32-bit value; before 2^31 seconds (January 2038) that is the seconds.
   */
  lemma {:induction false} TimestampRoundTrip(nowMs: nat)
    ensures var r := TimestampToRegisters(nowMs);
            RegistersToTimestamp(r[0], r[1]) == ToInt32(UnixSeconds(nowMs))
    ensures UnixSeconds(nowMs) < TwoTo31 ==>
            var r := TimestampToRegisters(nowMs);
            RegistersToTimestamp(r[0], r[1]) == UnixSeconds(nowMs)
  {
    var r := TimestampToRegisters(nowMs);
    var t := UnixSeconds(nowMs);
    ToInt32Congruent(r[0] * TwoTo16 + r[1], t);
  }
}
