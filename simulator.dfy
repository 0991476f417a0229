/**
 * The simulator's shared state: the descriptor table, the register layout
 * built from it once at startup, the configured unit id, and the store of
 * holding registers. Four things write the store: startup initialisation, the
 * control setters (pumps, water level), a round of the value generator, and
 * Modbus requests. The store invariant is that every slot holds a 16-bit
 * word, and each of these writers keeps it.
 */
module Simulator {
  import opened Words
  import opened Codec
  import opened Layout
  import Modbus

  /** A field of a JSON request body, as far as the pump setter distinguishes it. */
  datatype JsonValue = JsonBool(b: bool) | JsonString(s: string) | JsonNumber(n: real) | JsonNull | JsonOther

  /** The pump setter's test: 'true', true and 1 switch a pump on, anything else off. */
  function PumpWord(v: JsonValue): (w: word)
    ensures w == 1 <==> v == JsonString("true") || v == JsonBool(true) || v == JsonNumber(1.0)
    ensures w <= 1
  {
    if v == JsonString("true") || v == JsonBool(true) || v == JsonNumber(1.0) then 1 else 0
  }

  /**
   * What the value source produced for one descriptor in one generation
   * round. `value` is generateValue's number. `floatBits` is its IEEE-754
   * single-precision pattern, which Buffer.writeFloatBE computes and which
   * is not modelled. `nowMs` is the clock reading that timestampToRegisters
   * takes for a DATETIME register.
   */
  datatype Sample = Sample(value: real, floatBits: uint32, nowMs: nat)

  /** BigInt(value) and writeBigInt64BE accept only integral values in the 64-bit range. */
  predicate IsInt64Value(x: real) {
    x == x.Floor as real && -TwoTo63 <= x.Floor < TwoTo63
  }

  /** Math.max(0, Math.min(65535, x)). */
  function ClampWord(x: int): (w: word)
    ensures 0 <= x < TwoTo16 ==> w == x
    ensures x < 0 ==> w == 0
    ensures x >= TwoTo16 ==> w == 0xFFFF
  {
    if x > 0xFFFF then 0xFFFF else if x < 0 then 0 else x
  }

  /**
   * The words generateRandomData stores for one descriptor, by data type.
   * There is always exactly one word per slot the layout allocated.
   */
  function EncodeSample(t: DataType, s: Sample): (regs: seq<word>)
    requires t == Int64 ==> IsInt64Value(s.value)
    ensures |regs| == Width(t)
  {
    match t
    case Float32 | FourQuadrantPowerFactor | Unrecognized => FloatToRegisters(s.floatBits)
    case Int64 => Int64ToRegisters(s.value.Floor)
    case DateTime => TimestampToRegisters(s.nowMs)
    case Int16 | Int16U => [ClampWord(s.value.Floor)]
  }

  class Simulator {
    const descriptors: seq<Descriptor>
    const registerMap: map<int, nat>
    const reverseRegisterMap: map<nat, int>
    const holdingRegisters: array<int>
    const deviceId: int

    /**
     * The layout is the one built from the descriptor table. The store has
     * one slot per layout index. The control registers are the last three
     * slots. Every slot holds a 16-bit word.
     */
    ghost predicate Valid()
      reads holdingRegisters
    {
      && holdingRegisters.Length == |Slots(descriptors)|
      && registerMap == ForwardOf(Slots(descriptors))
      && reverseRegisterMap == ReverseOf(Slots(descriptors))
      && Modbus.IndicesIn(registerMap, holdingRegisters.Length)
      && Pump1Address in registerMap && registerMap[Pump1Address] == holdingRegisters.Length - 3
      && Pump2Address in registerMap && registerMap[Pump2Address] == holdingRegisters.Length - 2
      && WaterLevelAddress in registerMap && registerMap[WaterLevelAddress] == holdingRegisters.Length - 1
      && AllWords(holdingRegisters[..])
    }

    /** Pump 1's register (device address 4000). */
    function Pump1(): int
      requires Valid()
      reads holdingRegisters
    {
      holdingRegisters[registerMap[Pump1Address]]
    }

    /** Pump 2's register (device address 4001). */
    function Pump2(): int
      requires Valid()
      reads holdingRegisters
    {
      holdingRegisters[registerMap[Pump2Address]]
    }

    /** The water-level register (device address 4002). */
    function WaterLevel(): int
      requires Valid()
      reads holdingRegisters
    {
      holdingRegisters[registerMap[WaterLevelAddress]]
    }

    /**
     * Startup: build the layout from the table, then allocate the store
     * zero-filled, one slot per register.
     */
    constructor (descriptors: seq<Descriptor>, deviceId: int)
      ensures Valid() && fresh(holdingRegisters)
      ensures this.descriptors == descriptors && this.deviceId == deviceId
      ensures holdingRegisters.Length == SumWidths(descriptors) + 3
      ensures forall i :: 0 <= i < holdingRegisters.Length ==> holdingRegisters[i] == 0
    {
      var forward, reverse, total := BuildRegisterMap(descriptors);
      ForwardIndicesIn(Slots(descriptors));
      this.descriptors := descriptors;
      registerMap := forward;
      reverseRegisterMap := reverse;
      holdingRegisters := new int[total](_ => 0);
      this.deviceId := deviceId;
    }

    /**
     * init's store reset: every register 0, then pumps off and the water
     * level at 50.
     */
    method Init()
      requires Valid()
      modifies holdingRegisters
      ensures Valid()
      ensures Pump1() == 0 && Pump2() == 0 && WaterLevel() == 50
      ensures forall i :: 0 <= i < holdingRegisters.Length - 3 ==> holdingRegisters[i] == 0
    {
      for i := 0 to holdingRegisters.Length
        invariant forall k :: 0 <= k < i ==> holdingRegisters[k] == 0
        invariant forall k :: i <= k < holdingRegisters.Length ==> holdingRegisters[k] == old(holdingRegisters[k])
      {
        holdingRegisters[i] := 0;
      }
      holdingRegisters[registerMap[Pump1Address]] := 0;
      holdingRegisters[registerMap[Pump2Address]] := 0;
      holdingRegisters[registerMap[WaterLevelAddress]] := 50;
    }

    /**
     * The pump setter: a pump whose field is present is set to 1 or 0;
     * a missing field leaves that pump alone. Nothing else changes.
     */
    method SetPumps(pump1: Option<JsonValue>, pump2: Option<JsonValue>)
      requires Valid()
      modifies holdingRegisters
      ensures Valid()
      ensures Pump1() == if pump1.Some? then PumpWord(pump1.value) else old(Pump1())
      ensures Pump2() == if pump2.Some? then PumpWord(pump2.value) else old(Pump2())
      ensures forall i :: 0 <= i < holdingRegisters.Length - 3 || i == holdingRegisters.Length - 1 ==>
                holdingRegisters[i] == old(holdingRegisters[i])
    {
      var pump1Register := registerMap[Pump1Address];
      var pump2Register := registerMap[Pump2Address];
      if pump1.Some? {
        holdingRegisters[pump1Register] := PumpWord(pump1.value);
      }
      if pump2.Some? {
        holdingRegisters[pump2Register] := PumpWord(pump2.value);
      }
    }

    /**
     * The water-level setter. `level` is the body field after parseInt:
     * None when the field is absent or parseInt gives NaN. Only 0..100 is
     * stored; anything else leaves the level as it was. Nothing else changes.
     */
    method SetWaterLevel(level: Option<int>)
      requires Valid()
      modifies holdingRegisters
      ensures Valid()
      ensures WaterLevel() == if level.Some? && 0 <= level.value <= 100 then level.value else old(WaterLevel())
      ensures forall i :: 0 <= i < holdingRegisters.Length - 1 ==> holdingRegisters[i] == old(holdingRegisters[i])
    {
      var waterLevelRegister := registerMap[WaterLevelAddress];
      if level.Some? {
        var waterLevel := level.value;
        if 0 <= waterLevel <= 100 {
          holdingRegisters[waterLevelRegister] := waterLevel;
        }
      }
    }

    /**
     * One descriptor's step of generateRandomData. It looks up the store
     * index of the descriptor's address and writes the encoded words there.
     */
    method WriteGenerated(j: nat, sample: Sample)
      requires Valid() && DistinctRanges(descriptors)
      requires j < |descriptors|
      requires descriptors[j].dataType == Int64 ==> IsInt64Value(sample.value)
      modifies holdingRegisters
      ensures Valid()
      ensures BaseIndex(descriptors, j) + Width(descriptors[j].dataType) <= holdingRegisters.Length
      ensures holdingRegisters[..] == Overwrite(old(holdingRegisters[..]), BaseIndex(descriptors, j),
                                                EncodeSample(descriptors[j].dataType, sample))
    {
      var reg := descriptors[j];
      var regs := EncodeSample(reg.dataType, sample);
      DescriptorMapped(descriptors, j, 0);
      BaseIndexContiguous(descriptors, j);
      var modbusIndex := registerMap[reg.address];
      assert regs[..0] == [];
      for k := 0 to |regs|
        invariant holdingRegisters[..] == Overwrite(old(holdingRegisters[..]), modbusIndex, regs[..k])
      {
        OverwriteSnoc(old(holdingRegisters[..]), modbusIndex, regs, k);
        holdingRegisters[modbusIndex + k] := regs[k];
      }
      assert regs[..|regs|] == regs;
    }

    /**
     * generateRandomData: every descriptor, in table order, gets the
     * encoding of its sample in its own slots. The round's result is
     * GenerateRound; RoundHolds and RoundKeepsControls say what that means.
     */
    method GenerateData(samples: seq<Sample>)
      requires Valid() && DistinctRanges(descriptors)
      requires SamplesFit(descriptors, samples)
      modifies holdingRegisters
      ensures Valid()
      ensures holdingRegisters[..] == GenerateRound(old(holdingRegisters[..]), descriptors, samples, |descriptors|)
    {
      for j := 0 to |descriptors|
        invariant Valid()
        invariant holdingRegisters[..] == GenerateRound(old(holdingRegisters[..]), descriptors, samples, j)
      {
        WriteGenerated(j, samples[j]);
      }
    }

    /**
     * handleModbusRequest against this simulator's layout, unit id and
     * store. The store stays a store of 16-bit words.
     */
    method HandleModbusRequest(data: seq<byte>) returns (response: Option<seq<byte>>)
      requires Valid()
      modifies holdingRegisters
      ensures Valid()
      ensures Modbus.Reply(data, deviceId, registerMap, old(holdingRegisters[..]), response)
      ensures holdingRegisters[..] == Modbus.StoreAfter(data, deviceId, registerMap, old(holdingRegisters[..]))
    {
      response := Modbus.HandleModbusRequest(data, deviceId, registerMap, holdingRegisters);
    }
  }

  /** One sample per descriptor, and an INT64 descriptor's sample is a 64-bit integer. */
  predicate SamplesFit(ds: seq<Descriptor>, samples: seq<Sample>) {
    && |samples| == |ds|
    && forall j :: 0 <= j < |ds| && ds[j].dataType == Int64 ==> IsInt64Value(samples[j].value)
  }

  /** `s` with the words `regs` written from index `b` on. */
  function Overwrite(s: seq<int>, b: nat, regs: seq<int>): (r: seq<int>)
    requires b + |regs| <= |s|
    ensures |r| == |s|
    ensures forall i :: 0 <= i < |s| ==> r[i] == if b <= i < b + |regs| then regs[i - b] else s[i]
  {
    s[..b] + regs + s[b + |regs|..]
  }

  /** Writing one more word of `regs` extends the overwritten run by one. */
  lemma OverwriteSnoc(s: seq<int>, b: nat, regs: seq<int>, k: nat)
    requires k < |regs| && b + |regs| <= |s|
    ensures Overwrite(s, b, regs[..k])[b + k := regs[k]] == Overwrite(s, b, regs[..k + 1])
  {
    var l, r := Overwrite(s, b, regs[..k])[b + k := regs[k]], Overwrite(s, b, regs[..k + 1]);
    forall i | 0 <= i < |s| ensures l[i] == r[i] {}
  }

  /** The store after the first `n` descriptors of a generation round have been written. */
  function GenerateRound(store: seq<int>, ds: seq<Descriptor>, samples: seq<Sample>, n: nat): (r: seq<int>)
    requires SamplesFit(ds, samples) && n <= |ds| && SumWidths(ds) <= |store|
    ensures |r| == |store|
  {
    if n == 0 then store
    else
      BaseIndexContiguous(ds, n - 1);
      Overwrite(GenerateRound(store, ds, samples, n - 1), BaseIndex(ds, n - 1),
                EncodeSample(ds[n - 1].dataType, samples[n - 1]))
  }

  /** Descriptor `j`'s slots in `store` hold the encoding of `sample`. */
  ghost predicate HoldsSample(store: seq<int>, ds: seq<Descriptor>, j: nat, sample: Sample)
    requires j < |ds|
    requires ds[j].dataType == Int64 ==> IsInt64Value(sample.value)
  {
    var b := BaseIndex(ds, j);
    b + Width(ds[j].dataType) <= |store| &&
    store[b..b + Width(ds[j].dataType)] == EncodeSample(ds[j].dataType, sample)
  }

  /** A write at or after descriptor `j`'s base index leaves earlier descriptors' words alone. */
  lemma LaterWriteKeeps(ds: seq<Descriptor>, before: seq<int>, after: seq<int>, j: nat, j': nat, sample: Sample)
    requires j' < j < |ds| && |before| == |after|
    requires ds[j'].dataType == Int64 ==> IsInt64Value(sample.value)
    requires forall i :: 0 <= i < BaseIndex(ds, j) && i < |before| ==> after[i] == before[i]
    requires HoldsSample(before, ds, j', sample)
    ensures HoldsSample(after, ds, j', sample)
  {
    BaseIndexMonotone(ds, j' + 1, j);
    BaseIndexContiguous(ds, j');
    var b := BaseIndex(ds, j');
    assert after[b..b + Width(ds[j'].dataType)] == before[b..b + Width(ds[j'].dataType)];
  }

  /**
   * After the first `n` descriptors are written, each of them holds the
   * encoding of its own sample. A later write never clobbers an earlier one.
   */
  lemma {:induction false} RoundHolds(store: seq<int>, ds: seq<Descriptor>, samples: seq<Sample>, n: nat)
    requires SamplesFit(ds, samples) && n <= |ds| && SumWidths(ds) <= |store|
    ensures forall j :: 0 <= j < n ==> HoldsSample(GenerateRound(store, ds, samples, n), ds, j, samples[j])
  {
    if n > 0 {
      RoundHolds(store, ds, samples, n - 1);
      var prev, cur := GenerateRound(store, ds, samples, n - 1), GenerateRound(store, ds, samples, n);
      BaseIndexContiguous(ds, n - 1);
      var b, regs := BaseIndex(ds, n - 1), EncodeSample(ds[n - 1].dataType, samples[n - 1]);
      assert cur == Overwrite(prev, b, regs);
      assert cur[b..b + |regs|] == regs;
      forall j | 0 <= j < n - 1 ensures HoldsSample(cur, ds, j, samples[j]) {
        LaterWriteKeeps(ds, prev, cur, n - 1, j, samples[j]);
      }
    }
  }

  /** Everything from descriptor `n`'s base index on is as it was before the round. */
  lemma {:induction false} RoundKeepsTail(store: seq<int>, ds: seq<Descriptor>, samples: seq<Sample>, n: nat)
    requires SamplesFit(ds, samples) && n <= |ds| && SumWidths(ds) <= |store|
    ensures forall i :: BaseIndex(ds, n) <= i < |store| ==> GenerateRound(store, ds, samples, n)[i] == store[i]
  {
    if n > 0 {
      RoundKeepsTail(store, ds, samples, n - 1);
      BaseIndexContiguous(ds, n - 1);
    }
  }

  /**
   * A whole round writes only the descriptors' slots: every index from
   * SumWidths(ds) on, where the control registers live, keeps its value.
   */
  lemma RoundKeepsControls(store: seq<int>, ds: seq<Descriptor>, samples: seq<Sample>)
    requires SamplesFit(ds, samples) && SumWidths(ds) <= |store|
    ensures forall i :: SumWidths(ds) <= i < |store| ==> GenerateRound(store, ds, samples, |ds|)[i] == store[i]
  {
    RoundKeepsTail(store, ds, samples, |ds|);
    assert ds[..|ds|] == ds;
  }

  /**
   * The dashboard's reading of a DATETIME pair: the word at the descriptor's
   * index is taken as the low half and the next word as the high half.
   */
  function DisplayedTimestamp(atIndex: word, atNext: word): (seconds: int)
    ensures -TwoTo31 <= seconds < TwoTo31
    ensures seconds % TwoTo32 == atNext * TwoTo16 + atIndex
  {
    RegistersToTimestamp(atNext, atIndex)
  }

  /**
   * The generator stores the high half first, so the dashboard's reading
   * swaps the halves: at 1 700 000 000 000 ms since the epoch, it does not
   * show 1 700 000 000 s.
   */
  lemma DisplayedTimestampSwapped()
    ensures UnixSeconds(1_700_000_000_000) == 1_700_000_000
    ensures var regs := TimestampToRegisters(1_700_000_000_000);
            DisplayedTimestamp(regs[0], regs[1]) != 1_700_000_000
  {
    var regs := TimestampToRegisters(1_700_000_000_000);
    assert ToInt32(1_700_000_000) == 1_700_000_000;
    assert regs == [0x6553, 0xF100];
    assert DisplayedTimestamp(regs[0], regs[1]) == 0xF100_6553 - TwoTo32;
  }

  /**
   * Read back in the order the generator wrote it (high half at the
   * descriptor's index), a DATETIME register holds the round's Unix seconds,
   * for any time before 2^31 seconds.
   */
  lemma StoredTimestampReadsBack(store: seq<int>, ds: seq<Descriptor>, samples: seq<Sample>, j: nat)
    requires SamplesFit(ds, samples) && SumWidths(ds) <= |store|
    requires j < |ds| && ds[j].dataType == DateTime
    requires UnixSeconds(samples[j].nowMs) < TwoTo31
    ensures var r, b := GenerateRound(store, ds, samples, |ds|), BaseIndex(ds, j);
            b + 1 < |r| && IsWord(r[b]) && IsWord(r[b + 1])
    ensures var r, b := GenerateRound(store, ds, samples, |ds|), BaseIndex(ds, j);
            RegistersToTimestamp(r[b] as word, r[b + 1] as word) == UnixSeconds(samples[j].nowMs)
  {
    var r, b := GenerateRound(store, ds, samples, |ds|), BaseIndex(ds, j);
    RoundHolds(store, ds, samples, |ds|);
    assert HoldsSample(r, ds, j, samples[j]);
    var regs := TimestampToRegisters(samples[j].nowMs);
    assert r[b] == r[b..b + 2][0] == regs[0];
    assert r[b + 1] == r[b..b + 2][1] == regs[1];
    TimestampRoundTrip(samples[j].nowMs);
  }

  /**
   * A client that reads Modbus address N - 1 for a descriptor at device
   * address N, with the descriptor's width as quantity, gets exactly the
   * descriptor's slots in the store. For example, FLOAT32 at 3000 read at
   * 2999 with quantity 2 gives its two words.
   */
  lemma ReadDescriptor(ds: seq<Descriptor>, store: seq<int>, j: nat)
    requires DistinctRanges(ds) && |store| == |Slots(ds)| && j < |ds|
    ensures Modbus.IndicesIn(ForwardOf(Slots(ds)), |store|)
    ensures BaseIndex(ds, j) + Width(ds[j].dataType) <= |store|
    ensures Modbus.ReadWords(ForwardOf(Slots(ds)), store, ds[j].address - 1, Width(ds[j].dataType))
            == store[BaseIndex(ds, j)..BaseIndex(ds, j) + Width(ds[j].dataType)]
  {
    var m := ForwardOf(Slots(ds));
    ForwardIndicesIn(Slots(ds));
    BaseIndexContiguous(ds, j);
    var w, b, address := Width(ds[j].dataType), BaseIndex(ds, j), ds[j].address;
    var words := Modbus.ReadWords(m, store, address - 1, w);
    forall k | 0 <= k < w ensures words[k] == store[b + k] {
      DescriptorMapped(ds, j, k);
      assert words[k] == Modbus.LookupWord(m, store, address + k);
    }
  }

  /** Every index the forward map gives is a slot of the layout. */
  lemma ForwardIndicesIn(s: seq<int>)
    ensures Modbus.IndicesIn(ForwardOf(s), |s|)
  {
    ForwardOfLast(s);
  }
}
