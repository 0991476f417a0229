/**
 * The register layout: the descriptor table is walked once, in table order.
 * Each descriptor gets 1, 2 or 4 consecutive store slots, chosen by its data
 * type. Then the three control registers (pump 1, pump 2, water level) are
 * appended at device addresses 4000, 4001 and 4002.
 *
 * The specification view is `Slots(ds)`. It lists the device address that
 * each store index stands for, in index order. The reverse map is that
 * sequence read as a map. The forward map is what a run of `Map.set` calls
 * over it leaves behind, so when two slots claim the same device address,
 * the later one wins.
 */
module Layout {

  /** The data types of the descriptor table; any other name is `Unrecognized`. */
  datatype DataType = Float32 | FourQuadrantPowerFactor | DateTime | Int64 | Int16 | Int16U | Unrecognized

  /** One row of the descriptor table, reduced to what the layout and the generator use. */
  datatype Descriptor = Descriptor(address: int, dataType: DataType)

  const Pump1Address: int := 4000
  const Pump2Address: int := 4001
  const WaterLevelAddress: int := 4002

  /** Number of store slots a data type occupies. */
  function Width(t: DataType): (w: nat)
    ensures 1 <= w <= 4
  {
    match t
    case Int16 | Int16U => 1
    case Int64 => 4
    case _ => 2  // FLOAT32, 4Q_FP_PF, DATETIME and any unrecognized type
  }

  /** The `n` consecutive device addresses from `address`. */
  function Run(address: int, n: nat): seq<int>
  {
    seq(n, k => address + k)
  }

  /** The sum of the widths of the descriptors. */
  function SumWidths(ds: seq<Descriptor>): nat
  {
    if ds == [] then 0 else SumWidths(ds[..|ds| - 1]) + Width(ds[|ds| - 1].dataType)
  }

  /** The device addresses of the descriptor slots, in store-index order. */
  function DescriptorSlots(ds: seq<Descriptor>): (s: seq<int>)
    ensures |s| == SumWidths(ds)
  {
    if ds == [] then []
    else
      var last := ds[|ds| - 1];
      DescriptorSlots(ds[..|ds| - 1]) + Run(last.address, Width(last.dataType))
  }

  /** The device address of every store slot, control registers last. */
  function Slots(ds: seq<Descriptor>): seq<int>
  {
    DescriptorSlots(ds) + [Pump1Address, Pump2Address, WaterLevelAddress]
  }

  /** The store index of the first slot of descriptor `j`. */
  function BaseIndex(ds: seq<Descriptor>, j: nat): nat
    requires j <= |ds|
  {
    SumWidths(ds[..j])
  }

  /** No two store slots claim the same device address. */
  predicate DistinctRanges(ds: seq<Descriptor>) {
    var s := Slots(ds);
    forall i, k :: 0 <= i < k < |s| ==> s[i] != s[k]
  }

  /**
   * The map left by `registerMap.set(s[i], i)` for i = 0, 1, ..., |s|-1.
   * Every address in `s` is a key, and it maps to the last index holding it.
   */
  function ForwardOf(s: seq<int>): map<int, nat>
  {
    if s == [] then map[]
    else ForwardOf(s[..|s| - 1])[s[|s| - 1] := |s| - 1]
  }

  /** The forward map holds exactly the addresses of `s`, each at its last index. */
  lemma {:induction false} ForwardOfLast(s: seq<int>)
    ensures forall a :: a in ForwardOf(s) <==> a in s
    ensures forall a :: a in ForwardOf(s) ==> ForwardOf(s)[a] < |s| && s[ForwardOf(s)[a]] == a
    ensures forall i :: 0 <= i < |s| ==> s[i] in ForwardOf(s) && i <= ForwardOf(s)[s[i]]
  {
    if s != [] {
      var init := s[..|s| - 1];
      ForwardOfLast(init);
      assert s == init + [s[|s| - 1]];
    }
  }

  /** The map left by `reverseRegisterMap.set(i, s[i])` for every index. */
  function ReverseOf(s: seq<int>): map<nat, int>
  {
    map i: nat | i < |s| :: s[i]
  }

  lemma ReverseOfSnoc(s: seq<int>, a: int)
    ensures ReverseOf(s + [a]) == ReverseOf(s)[|s| := a]
  {
    var l, r := ReverseOf(s + [a]), ReverseOf(s)[|s| := a];
    assert l.Keys == r.Keys;
    forall i | i in l ensures l[i] == r[i] {}
  }

  lemma ForwardOfSnoc(s: seq<int>, a: int)
    ensures ForwardOf(s + [a]) == ForwardOf(s)[a := |s|]
  {
    assert (s + [a])[..|s|] == s;
  }

  /**
   * buildRegisterMap: one pass over the table, handing out store indices in
   * order and recording both directions of the mapping, then the three
   * control slots. Returns the total number of registers.
   */
  method BuildRegisterMap(descriptors: seq<Descriptor>)
      returns (registerMap: map<int, nat>, reverseRegisterMap: map<nat, int>, total: nat)
    ensures total == SumWidths(descriptors) + 3 == |Slots(descriptors)|
    ensures registerMap == ForwardOf(Slots(descriptors))
    ensures reverseRegisterMap == ReverseOf(Slots(descriptors))
    ensures Pump1Address in registerMap && registerMap[Pump1Address] == total - 3
    ensures Pump2Address in registerMap && registerMap[Pump2Address] == total - 2
    ensures WaterLevelAddress in registerMap && registerMap[WaterLevelAddress] == total - 1
  {
    registerMap, reverseRegisterMap := map[], map[];
    var modbusIndex := 0;
    for j := 0 to |descriptors|
      invariant modbusIndex == SumWidths(descriptors[..j]) == |DescriptorSlots(descriptors[..j])|
      invariant registerMap == ForwardOf(DescriptorSlots(descriptors[..j]))
      invariant reverseRegisterMap == ReverseOf(DescriptorSlots(descriptors[..j]))
    {
      // The source's switch allocates 2 slots (FLOAT32, 4Q_FP_PF, DATETIME,
      // default), 4 (INT64) or 1 (INT16, INT16U), setting both maps per slot.
      registerMap, reverseRegisterMap := AllocateSlots(registerMap, reverseRegisterMap,
        DescriptorSlots(descriptors[..j]), descriptors[j].address, modbusIndex, Width(descriptors[j].dataType));
      assert descriptors[..j + 1][..j] == descriptors[..j];
      modbusIndex := modbusIndex + Width(descriptors[j].dataType);
    }
    assert descriptors[..|descriptors|] == descriptors;
    registerMap, reverseRegisterMap, total :=
      AllocateControlSlots(registerMap, reverseRegisterMap, DescriptorSlots(descriptors), modbusIndex);
    ControlSlots(descriptors);
  }

  /** The three control registers take the next three store indices, in order. */
  method AllocateControlSlots(registerMap: map<int, nat>, reverseRegisterMap: map<nat, int>, ghost done: seq<int>,
                              modbusIndex: nat)
      returns (registerMap': map<int, nat>, reverseRegisterMap': map<nat, int>, total: nat)
    requires modbusIndex == |done|
    requires registerMap == ForwardOf(done) && reverseRegisterMap == ReverseOf(done)
    ensures registerMap' == ForwardOf(done + [Pump1Address, Pump2Address, WaterLevelAddress])
    ensures reverseRegisterMap' == ReverseOf(done + [Pump1Address, Pump2Address, WaterLevelAddress])
    ensures total == modbusIndex + 3
  {
    ControlAppend(done);
    var index := modbusIndex;
    registerMap' := registerMap[Pump1Address := index];
    reverseRegisterMap' := reverseRegisterMap[index := Pump1Address];
    index := index + 1;
    registerMap' := registerMap'[Pump2Address := index];
    reverseRegisterMap' := reverseRegisterMap'[index := Pump2Address];
    index := index + 1;
    registerMap' := registerMap'[WaterLevelAddress := index];
    reverseRegisterMap' := reverseRegisterMap'[index := WaterLevelAddress];
    index := index + 1;
    total := index;
  }

  /**
   * The reverse map covers every index; the forward map is a left inverse of
   * it, and a right inverse too when no address repeats.
   */
  lemma MapsInverse(s: seq<int>)
    ensures forall i: nat :: i in ReverseOf(s) <==> i < |s|
    ensures forall i: nat :: i < |s| ==> ReverseOf(s)[i] in ForwardOf(s)
    ensures forall a :: a in ForwardOf(s) ==>
              ForwardOf(s)[a] in ReverseOf(s) && ReverseOf(s)[ForwardOf(s)[a]] == a
    ensures (forall i, k :: 0 <= i < k < |s| ==> s[i] != s[k]) ==>
              forall i: nat :: i < |s| ==> ForwardOf(s)[ReverseOf(s)[i]] == i
  {
    var m := ForwardOf(s);
    ForwardOfLast(s);
    if forall i, k :: 0 <= i < k < |s| ==> s[i] != s[k] {
      forall i: nat | i < |s| ensures m[s[i]] == i {
        assert s[m[s[i]]] == s[i];
      }
    }
  }

  /**
   * Records `width` consecutive slots for one descriptor: device address
   * `address + k` at store index `modbusIndex + k`, in both maps.
   */
  method AllocateSlots(registerMap: map<int, nat>, reverseRegisterMap: map<nat, int>, ghost done: seq<int>,
                       address: int, modbusIndex: nat, width: nat)
      returns (registerMap': map<int, nat>, reverseRegisterMap': map<nat, int>)
    requires modbusIndex == |done|
    requires registerMap == ForwardOf(done) && reverseRegisterMap == ReverseOf(done)
    ensures registerMap' == ForwardOf(done + Run(address, width))
    ensures reverseRegisterMap' == ReverseOf(done + Run(address, width))
  {
    registerMap', reverseRegisterMap' := registerMap, reverseRegisterMap;
    assert done + Run(address, 0) == done;
    for k := 0 to width
      invariant registerMap' == ForwardOf(done + Run(address, k))
      invariant reverseRegisterMap' == ReverseOf(done + Run(address, k))
    {
      ghost var prefix := done + Run(address, k);
      RunSnoc(done, address, k);
      ForwardOfSnoc(prefix, address + k);
      ReverseOfSnoc(prefix, address + k);
      registerMap' := registerMap'[address + k := modbusIndex + k];
      reverseRegisterMap' := reverseRegisterMap'[modbusIndex + k := address + k];
    }
  }

  /** One more slot of a run is one more element at the end. */
  lemma RunSnoc(done: seq<int>, address: int, k: nat)
    ensures |done + Run(address, k)| == |done| + k
    ensures done + Run(address, k + 1) == (done + Run(address, k)) + [address + k]
  {
    assert Run(address, k + 1) == Run(address, k) + [address + k];
  }

  /** Appending the control slots is three more `set` calls on each map. */
  lemma ControlAppend(ds: seq<int>)
    ensures var n := |ds|;
      && ForwardOf(ds + [Pump1Address, Pump2Address, WaterLevelAddress])
         == ForwardOf(ds)[Pump1Address := n][Pump2Address := n + 1][WaterLevelAddress := n + 2]
      && ReverseOf(ds + [Pump1Address, Pump2Address, WaterLevelAddress])
         == ReverseOf(ds)[n := Pump1Address][n + 1 := Pump2Address][n + 2 := WaterLevelAddress]
  {
    var s1, s2 := ds + [Pump1Address], ds + [Pump1Address, Pump2Address];
    assert s1 + [Pump2Address] == s2;
    assert s2 + [WaterLevelAddress] == ds + [Pump1Address, Pump2Address, WaterLevelAddress];
    ForwardOfSnoc(ds, Pump1Address);
    ForwardOfSnoc(s1, Pump2Address);
    ForwardOfSnoc(s2, WaterLevelAddress);
    ReverseOfSnoc(ds, Pump1Address);
    ReverseOfSnoc(s1, Pump2Address);
    ReverseOfSnoc(s2, WaterLevelAddress);
  }

  /** The control addresses map to the last three store indices, in order. */
  lemma ControlSlots(ds: seq<Descriptor>)
    ensures Pump1Address in ForwardOf(Slots(ds)) && Pump2Address in ForwardOf(Slots(ds))
    ensures WaterLevelAddress in ForwardOf(Slots(ds))
    ensures var n := |Slots(ds)|;
            && ForwardOf(Slots(ds))[Pump1Address] == n - 3
            && ForwardOf(Slots(ds))[Pump2Address] == n - 2
            && ForwardOf(Slots(ds))[WaterLevelAddress] == n - 1
  {
    var s, n := Slots(ds), |Slots(ds)|;
    ForwardOfLast(s);
    assert s[n - 3] == Pump1Address && s[n - 2] == Pump2Address && s[n - 1] == WaterLevelAddress;
  }

  /** Base indices are handed out contiguously, in table order, from 0. */
  lemma {:induction false} BaseIndexContiguous(ds: seq<Descriptor>, j: nat)
    requires j < |ds|
    ensures BaseIndex(ds, 0) == 0
    ensures BaseIndex(ds, j + 1) == BaseIndex(ds, j) + Width(ds[j].dataType)
    ensures BaseIndex(ds, j + 1) <= SumWidths(ds)
  {
    assert ds[..0] == [];
    assert ds[..j + 1][..j] == ds[..j];
    SumWidthsPrefix(ds, j + 1);
  }

  /** Base indices never decrease along the table. */
  lemma {:induction false} BaseIndexMonotone(ds: seq<Descriptor>, a: nat, b: nat)
    requires a <= b <= |ds|
    ensures BaseIndex(ds, a) <= BaseIndex(ds, b)
  {
    SumWidthsPrefix(ds[..b], a);
    assert ds[..b][..a] == ds[..a];
  }

  /** A prefix of the table never needs more slots than the whole table. */
  lemma {:induction false} SumWidthsPrefix(ds: seq<Descriptor>, j: nat)
    requires j <= |ds|
    ensures SumWidths(ds[..j]) <= SumWidths(ds)
    ensures DescriptorSlots(ds[..j]) == DescriptorSlots(ds)[..SumWidths(ds[..j])]
  {
    if j < |ds| {
      var init := ds[..|ds| - 1];
      assert init[..j] == ds[..j];
      assert ds[..|ds|] == ds;
      SumWidthsPrefix(init, j);
    } else {
      assert ds[..j] == ds;
    }
  }

  /**
   * Slot `k` of descriptor `j` lies at index BaseIndex(ds, j) + k and stands
   * for device address `address + k`.
   */
  lemma DescriptorSlotAt(ds: seq<Descriptor>, j: nat, k: nat)
    requires j < |ds| && k < Width(ds[j].dataType)
    ensures BaseIndex(ds, j) + k < SumWidths(ds)
    ensures Slots(ds)[BaseIndex(ds, j) + k] == ds[j].address + k
  {
    BaseIndexContiguous(ds, j);
    SumWidthsPrefix(ds, j + 1);
    assert ds[..j + 1][..j] == ds[..j];
    assert DescriptorSlots(ds[..j + 1])[BaseIndex(ds, j) + k] == ds[j].address + k;
  }

  /**
   * With distinct ranges the layout is a bijection on each descriptor's run:
   * forward(address + k) == base + k and reverse(base + k) == address + k.
   */
  lemma DescriptorMapped(ds: seq<Descriptor>, j: nat, k: nat)
    requires DistinctRanges(ds)
    requires j < |ds| && k < Width(ds[j].dataType)
    ensures ds[j].address + k in ForwardOf(Slots(ds))
    ensures ForwardOf(Slots(ds))[ds[j].address + k] == BaseIndex(ds, j) + k
    ensures BaseIndex(ds, j) + k in ReverseOf(Slots(ds))
    ensures ReverseOf(Slots(ds))[BaseIndex(ds, j) + k] == ds[j].address + k
  {
    DescriptorSlotAt(ds, j, k);
    ForwardOfDistinct(Slots(ds), BaseIndex(ds, j) + k);
  }

  /** Without repeated addresses, the forward map sends each slot's address back to that slot. */
  lemma ForwardOfDistinct(s: seq<int>, i: nat)
    requires forall i, k :: 0 <= i < k < |s| ==> s[i] != s[k]
    requires i < |s|
    ensures s[i] in ForwardOf(s) && ForwardOf(s)[s[i]] == i
  {
    var m := ForwardOf(s);
    ForwardOfLast(s);
    assert s[i] in m && i <= m[s[i]] && s[m[s[i]]] == s[i];
  }
}
