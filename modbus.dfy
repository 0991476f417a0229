/**
 * The Modbus TCP request handler of the simulator.
 *
 * A frame starts with the MBAP header (section 3.1.3 of the Modbus Messaging
 * on TCP/IP Implementation Guide V1.0b): transaction id (bytes 0-1),
 * protocol id (2-3), length (4-5, ignored on input) and unit id (6). The
 * function code is byte 7. Two functions are served: Read Holding Registers
 * (code 3, section 6.3 of the Modbus Application Protocol Specification
 * V1.1b3) and Write Single Register (code 6, section 6.6). Every other code
 * gets an Illegal Function exception (section 7).
 *
 * The handler departs from the standard in three ways, and the model keeps
 * all three:
 *  - the device address looked up is the PDU address plus one;
 *  - malformed or out-of-range requests get no reply at all;
 *  - a write is confirmed by echoing the request frame.
 */
module Modbus {
  import opened Words

  const ReadHoldingRegistersCode: byte := 3
  const WriteSingleRegisterCode: byte := 6
  const IllegalFunction: byte := 0x01
  const ServerDeviceFailure: byte := 0x04
  const MaxReadQuantity: int := 125

  /** Every index the register map hands out lies inside a store of `n` slots. */
  predicate IndicesIn(registerMap: map<int, nat>, n: nat) {
    forall a :: a in registerMap ==> registerMap[a] < n
  }

  /**
   * The header checks: at least 8 bytes, protocol id 0, and a unit id that is
   * the configured device id or one of the broadcast ids 0 and 255.
   */
  predicate Accepted(data: seq<byte>, deviceId: int) {
    && |data| >= 8
    && U16At(data, 2) == 0
    && (data[6] == deviceId || data[6] == 0 || data[6] == 255)
  }

  /** The value a read returns for one device address: the store word, or 0 if unmapped. */
  function LookupWord(registerMap: map<int, nat>, store: seq<int>, address: int): int
    requires IndicesIn(registerMap, |store|)
  {
    if address in registerMap then store[registerMap[address]] else 0
  }

  /** The words a read of `quantity` registers from PDU address `startAddr` collects. */
  function ReadWords(registerMap: map<int, nat>, store: seq<int>, startAddr: int, quantity: nat): (words: seq<int>)
    requires IndicesIn(registerMap, |store|)
  {
    seq(quantity, i => LookupWord(registerMap, store, startAddr + i + 1))
  }

  /**
   * The index of the first value that writeUInt16BE would refuse (outside
   * 0..65535), or the length of `words` when every value fits.
   */
  function FirstNonWord(words: seq<int>): (n: nat)
    ensures n <= |words|
    ensures forall k :: 0 <= k < n ==> IsWord(words[k])
    ensures n < |words| ==> !IsWord(words[n])
  {
    if words == [] || !IsWord(words[0]) then 0 else 1 + FirstNonWord(words[1..])
  }

  /** Register `i` of a read reply's data, at bytes 9 + 2i and 10 + 2i. */
  function WordAt(r: seq<byte>, i: nat): word
    requires 10 + 2 * i < |r|
  {
    U16At(r, 9 + 2 * i)
  }

  /**
   * The reply to a read of `words`. It is always 9 + 2q bytes long, echoes
   * the transaction and unit ids, and carries protocol id 0. When every word
   * fits 16 bits it is the normal reply: length field 3 + 2q, function code 3,
   * byte count 2q, then the words big-endian. When a word does not fit, the
   * write of that word throws. The catch then patches the half-filled buffer
   * into a Server Device Failure exception: length field 3, function code
   * 0x83, code 4. The words before the failing one stay in the buffer; the
   * rest are zero.
   */
  predicate IsReadReply(r: seq<byte>, transactionId: word, unitId: byte, words: seq<int>) {
    var q := |words|;
    var ok := FirstNonWord(words);
    && |r| == 9 + 2 * q
    && U16At(r, 0) == transactionId && U16At(r, 2) == 0 && r[6] == unitId
    && (ok == q ==> U16At(r, 4) == 3 + 2 * q && r[7] == ReadHoldingRegistersCode && r[8] == 2 * q)
    && (ok < q ==> U16At(r, 4) == 3 && r[7] == ReadHoldingRegistersCode + 0x80 && r[8] == ServerDeviceFailure)
    && forall i :: 0 <= i < q ==> WordAt(r, i) == if i < ok then words[i] else 0
  }

  /** Buffer.writeUInt16BE for a value already known to fit. */
  method PutUInt16BE(buf: array<byte>, offset: nat, value: word)
    requires offset + 1 < buf.Length
    modifies buf
    ensures U16At(buf[..], offset) == value
    ensures buf[..] == old(buf[..])[offset := value / 0x100][offset + 1 := value % 0x100]
  {
    buf[offset] := value / 0x100;
    buf[offset + 1] := value % 0x100;
  }

  /** The first loop of function code 3: one word per requested address. */
  method CollectWords(startAddr: word, quantity: nat, registerMap: map<int, nat>, holdingRegisters: array<int>)
      returns (responseData: seq<int>)
    requires IndicesIn(registerMap, holdingRegisters.Length)
    ensures responseData == ReadWords(registerMap, holdingRegisters[..], startAddr, quantity)
  {
    ghost var words := ReadWords(registerMap, holdingRegisters[..], startAddr, quantity);
    responseData := [];
    for i := 0 to quantity
      invariant responseData == words[..i]
    {
      var lookupAddr: int := startAddr as int + i + 1;
      assert words[i] == LookupWord(registerMap, holdingRegisters[..], lookupAddr);
      assert words[..i + 1] == words[..i] + [words[i]];
      if lookupAddr in registerMap {
        responseData := responseData + [holdingRegisters[registerMap[lookupAddr]]];
      } else {
        responseData := responseData + [0];  // unmapped address: padded with 0
      }
    }
    assert words[..quantity] == words;
  }

  /**
   * Function code 3 after the header and quantity checks. It collects the
   * words, then builds the reply in a zero-filled buffer.
   */
  method ReadHoldingRegisters(transactionId: word, unitId: byte, startAddr: word, quantity: nat,
                              registerMap: map<int, nat>, holdingRegisters: array<int>)
      returns (response: seq<byte>)
    requires 1 <= quantity <= MaxReadQuantity
    requires IndicesIn(registerMap, holdingRegisters.Length)
    ensures IsReadReply(response, transactionId, unitId,
                        ReadWords(registerMap, holdingRegisters[..], startAddr, quantity))
  {
    var responseData := CollectWords(startAddr, quantity, registerMap, holdingRegisters);
    ghost var words := responseData;
    var byteCount := |responseData| * 2;
    var buf := NewReadReplyBuffer(transactionId, unitId, byteCount, words);
    var i := 0;
    while i < |responseData|
      invariant 0 <= i <= quantity
      invariant Filled(buf[..], transactionId, unitId, words, i)
      invariant U16At(buf[..], 4) == 3 + byteCount && buf[7] == ReadHoldingRegistersCode && buf[8] == byteCount
    {
      if !IsWord(responseData[i]) {
        // writeUInt16BE throws; the catch block patches the same buffer
        ghost var filled := buf[..];
        PatchException(buf, ReadHoldingRegistersCode, ServerDeviceFailure);
        response := buf[..];
        FailureReply(filled, transactionId, unitId, words, i);
        return;
      }
      FilledStep(buf[..], transactionId, unitId, words, i);
      PutUInt16BE(buf, 9 + 2 * i, responseData[i]);
      i := i + 1;
    }
    response := buf[..];
    ReadReplyFrom(response, transactionId, unitId, words, i);
  }

  /**
   * The catch block's patch of a reply buffer: length field 3, the function
   * code with its top bit set, then the exception code.
   */
  method PatchException(buf: array<byte>, functionCode: byte, exceptionCode: byte)
    requires 9 <= buf.Length && functionCode < 0x80
    modifies buf
    ensures buf[..] == old(buf[..])[4 := 0][5 := 3][7 := functionCode + 0x80][8 := exceptionCode]
  {
    PutUInt16BE(buf, 4, 3);
    buf[7] := functionCode + 0x80;
    buf[8] := exceptionCode;
  }

  /** A buffer patched after `n` words, when word `n` did not fit, is the 0x04 read reply. */
  lemma FailureReply(r: seq<byte>, transactionId: word, unitId: byte, words: seq<int>, n: nat)
    requires Filled(r, transactionId, unitId, words, n) && n < |words| && !IsWord(words[n])
    ensures IsReadReply(r[4 := 0][5 := 3][7 := ReadHoldingRegistersCode + 0x80][8 := ServerDeviceFailure],
                        transactionId, unitId, words)
  {
    var r' := r[4 := 0][5 := 3][7 := ReadHoldingRegistersCode + 0x80][8 := ServerDeviceFailure];
    forall k | 0 <= k < n ensures WordAt(r', k) == words[k] {
      assert WordAt(r, k) == words[k];
    }
    ReadReplyFrom(r', transactionId, unitId, words, n);
  }

  /**
   * Buffer.alloc(9 + byteCount), zero-filled, with the normal read-reply
   * header written: transaction id, protocol id 0, length 3 + byteCount,
   * unit id, function code 3, byte count.
   */
  method NewReadReplyBuffer(transactionId: word, unitId: byte, byteCount: nat, ghost words: seq<int>)
      returns (buf: array<byte>)
    requires byteCount == 2 * |words| && byteCount <= 2 * MaxReadQuantity
    ensures fresh(buf)
    ensures Filled(buf[..], transactionId, unitId, words, 0)
    ensures U16At(buf[..], 4) == 3 + byteCount && buf[7] == ReadHoldingRegistersCode && buf[8] == byteCount
  {
    buf := new byte[9 + byteCount](_ => 0);
    PutUInt16BE(buf, 0, transactionId);
    PutUInt16BE(buf, 2, 0);
    PutUInt16BE(buf, 4, 3 + byteCount);
    buf[6] := unitId;
    buf[7] := ReadHoldingRegistersCode;
    buf[8] := byteCount;
  }

  /**
   * The data part of a read reply buffer after `n` words have been written:
   * the ids in place, words 0..n-1 fit 16 bits and sit big-endian from
   * byte 9, and every later byte is still zero.
   */
  ghost predicate Filled(r: seq<byte>, transactionId: word, unitId: byte, words: seq<int>, n: nat) {
    && n <= |words| && |r| == 9 + 2 * |words|
    && U16At(r, 0) == transactionId && U16At(r, 2) == 0 && r[6] == unitId
    && (forall k :: 0 <= k < n ==> IsWord(words[k]) && WordAt(r, k) == words[k])
    && (forall p :: 9 + 2 * n <= p < |r| ==> r[p] == 0)
  }

  lemma FilledStep(r: seq<byte>, transactionId: word, unitId: byte, words: seq<int>, n: nat)
    requires Filled(r, transactionId, unitId, words, n) && n < |words| && IsWord(words[n])
    ensures var v: word := words[n];
            Filled(r[9 + 2 * n := v / 0x100][10 + 2 * n := v % 0x100], transactionId, unitId, words, n + 1)
  {
    var v: word := words[n];
    var r' := r[9 + 2 * n := v / 0x100][10 + 2 * n := v % 0x100];
    forall k | 0 <= k < n + 1 ensures WordAt(r', k) == words[k] {
      if k < n {
        assert WordAt(r', k) == WordAt(r, k);
      }
    }
  }

  /**
   * A buffer whose data holds the first `n` words, zeros after them, and the
   * header for "all written" (n == |words|) or "word n refused" is a read reply.
   */
  lemma ReadReplyFrom(r: seq<byte>, transactionId: word, unitId: byte, words: seq<int>, n: nat)
    requires Filled(r, transactionId, unitId, words, n)
    requires n == |words| ==>
      U16At(r, 4) == 3 + 2 * |words| && r[7] == ReadHoldingRegistersCode && r[8] == 2 * |words|
    requires n < |words| ==>
      !IsWord(words[n]) && U16At(r, 4) == 3 && r[7] == ReadHoldingRegistersCode + 0x80 && r[8] == ServerDeviceFailure
    ensures IsReadReply(r, transactionId, unitId, words)
  {
    assert FirstNonWord(words) == n;
    forall k | n <= k < |words| ensures WordAt(r, k) == 0 {
      assert r[9 + 2 * k] == 0 && r[10 + 2 * k] == 0;
    }
  }

  /**
   * A 9-byte exception reply (section 7): the header with length 3, the
   * function code with its top bit set, then the exception code.
   */
  function ExceptionReply(transactionId: word, unitId: byte, functionCode: byte, exceptionCode: byte): (r: seq<byte>)
    requires functionCode < 0x80
    ensures |r| == 9 && U16At(r, 4) == |r| - 6
    ensures U16At(r, 0) == transactionId && U16At(r, 2) == 0 && r[6] == unitId
    ensures r[7] >= 0x80 && r[7] - 0x80 == functionCode && r[8] == exceptionCode
  {
    BytesOf(transactionId) + [0, 0, 0, 3, unitId, functionCode + 0x80, exceptionCode]
  }

  /** A Write Single Register request that passes every check and hits a mapped address. */
  predicate IsAcceptedWrite(data: seq<byte>, deviceId: int, registerMap: map<int, nat>) {
    && Accepted(data, deviceId)
    && data[7] == WriteSingleRegisterCode
    && |data| >= 12
    && U16At(data, 8) + 1 in registerMap
  }

  /**
   * What handleModbusRequest answers to `data` against `store`. None means no
   * reply. That is the case for a short frame, a wrong protocol or unit id,
   * a bad read quantity, an unmapped write address, and a function code of
   * 0x80 or more, whose exception byte overflows writeUInt8.
   */
  predicate Reply(data: seq<byte>, deviceId: int, registerMap: map<int, nat>, store: seq<int>,
                  response: Option<seq<byte>>)
    requires IndicesIn(registerMap, |store|)
  {
    if !Accepted(data, deviceId) then response == None
    else if data[7] == ReadHoldingRegistersCode then
      if |data| < 12 || U16At(data, 10) == 0 || U16At(data, 10) > MaxReadQuantity then response == None
      else
        && response.Some?
        && IsReadReply(response.value, U16At(data, 0), data[6],
                       ReadWords(registerMap, store, U16At(data, 8), U16At(data, 10)))
    else if data[7] == WriteSingleRegisterCode then
      response == if IsAcceptedWrite(data, deviceId, registerMap) then Some(data) else None
    else if data[7] < 0x80 then
      response == Some(ExceptionReply(U16At(data, 0), data[6], data[7], IllegalFunction))
    else response == None
  }

  /** The store after handling `data`: only an accepted write changes it, in one slot. */
  function StoreAfter(data: seq<byte>, deviceId: int, registerMap: map<int, nat>, store: seq<int>): (s: seq<int>)
    requires IndicesIn(registerMap, |store|)
    ensures |s| == |store|
    ensures AllWords(store) ==> AllWords(s)
    ensures forall i :: 0 <= i < |s| && s[i] != store[i] ==>
              IsAcceptedWrite(data, deviceId, registerMap) && i == registerMap[U16At(data, 8) + 1]
    ensures IsAcceptedWrite(data, deviceId, registerMap) ==> s[registerMap[U16At(data, 8) + 1]] == U16At(data, 10)
  {
    if IsAcceptedWrite(data, deviceId, registerMap)
    then store[registerMap[U16At(data, 8) + 1] := U16At(data, 10)]
    else store
  }

  /** handleModbusRequest: parse one frame, touch the store, build the reply. */
  method HandleModbusRequest(data: seq<byte>, deviceId: int, registerMap: map<int, nat>,
                             holdingRegisters: array<int>)
      returns (response: Option<seq<byte>>)
    requires IndicesIn(registerMap, holdingRegisters.Length)
    modifies holdingRegisters
    ensures Reply(data, deviceId, registerMap, old(holdingRegisters[..]), response)
    ensures holdingRegisters[..] == StoreAfter(data, deviceId, registerMap, old(holdingRegisters[..]))
  {
    if |data| < 8 {
      return None;
    }
    var transactionId := U16At(data, 0);
    var protocolId := U16At(data, 2);
    var unitId := data[6];
    var functionCode := data[7];
    if protocolId != 0 {
      return None;
    }
    if unitId != deviceId && unitId != 0 && unitId != 255 {
      return None;
    }
    if functionCode == ReadHoldingRegistersCode {
      if |data| < 12 {
        return None;
      }
      var startAddr := U16At(data, 8);
      var quantity := U16At(data, 10);
      if quantity == 0 || quantity > MaxReadQuantity {
        return None;
      }
      var r := ReadHoldingRegisters(transactionId, unitId, startAddr, quantity, registerMap, holdingRegisters);
      return Some(r);
    } else if functionCode == WriteSingleRegisterCode {
      if |data| < 12 {
        return None;
      }
      var addr := U16At(data, 8);
      var value := U16At(data, 10);
      var lookupAddr: int := addr as int + 1;
      if lookupAddr !in registerMap {
        return None;
      }
      holdingRegisters[registerMap[lookupAddr]] := value;
      return Some(data);  // the request itself is the confirmation
    } else if functionCode >= 0x80 {
      // writeUInt8(functionCode + 0x80) overflows and throws, and so does the
      // same write in the catch block: no reply leaves the handler
      return None;
    } else {
      return Some(ExceptionReply(transactionId, unitId, functionCode, IllegalFunction));
    }
  }

  // ---------------------------------------------------------------------------
  // Properties of the replies

  /** Over a store of 16-bit words, every looked-up word fits 16 bits. */
  lemma ReadWordsAreWords(registerMap: map<int, nat>, store: seq<int>, startAddr: int, quantity: nat)
    requires IndicesIn(registerMap, |store|) && AllWords(store)
    ensures AllWords(ReadWords(registerMap, store, startAddr, quantity))
    ensures FirstNonWord(ReadWords(registerMap, store, startAddr, quantity)) == quantity
  {
    var words := ReadWords(registerMap, store, startAddr, quantity);
    forall i | 0 <= i < quantity ensures IsWord(words[i]) {
      assert words[i] == LookupWord(registerMap, store, startAddr + i + 1);
    }
  }

  /**
   * Every reply the handler builds itself (all but the write echo) over a
   * store of 16-bit words is a well-formed MBAP frame. It echoes the
   * transaction and unit ids, has protocol id 0, and its length field counts
   * exactly the bytes after it. A read reply carries the looked-up words in
   * order.
   */
  lemma BuiltRepliesAreFramed(data: seq<byte>, deviceId: int, registerMap: map<int, nat>, store: seq<int>,
                              r: seq<byte>)
    requires IndicesIn(registerMap, |store|) && AllWords(store)
    requires Reply(data, deviceId, registerMap, store, Some(r))
    requires data[7] != WriteSingleRegisterCode
    ensures |r| >= 9 && U16At(r, 4) == |r| - 6
    ensures U16At(r, 0) == U16At(data, 0) && U16At(r, 2) == 0 && r[6] == data[6]
    ensures data[7] == ReadHoldingRegistersCode ==>
              && r[7] == ReadHoldingRegistersCode
              && r[8] == 2 * U16At(data, 10)
              && forall i :: 0 <= i < U16At(data, 10) ==>
                   WordAt(r, i) == LookupWord(registerMap, store, U16At(data, 8) + i + 1)
    ensures data[7] != ReadHoldingRegistersCode ==> r[7] == data[7] + 0x80 && r[8] == IllegalFunction
  {
    if data[7] == ReadHoldingRegistersCode {
      ReadWordsAreWords(registerMap, store, U16At(data, 8), U16At(data, 10));
    }
  }

  /**
   * A Write Single Register followed by a Read Holding Registers of the same
   * PDU address returns the value just written as the first register.
   */
  lemma WriteThenRead(write: seq<byte>, read: seq<byte>, deviceId: int, registerMap: map<int, nat>,
                      store: seq<int>, r: seq<byte>)
    requires IndicesIn(registerMap, |store|) && AllWords(store)
    requires IsAcceptedWrite(write, deviceId, registerMap)
    requires Accepted(read, deviceId) && read[7] == ReadHoldingRegistersCode && |read| >= 12
    requires U16At(read, 8) == U16At(write, 8) && 1 <= U16At(read, 10) <= MaxReadQuantity
    requires Reply(read, deviceId, registerMap, StoreAfter(write, deviceId, registerMap, store), Some(r))
    ensures WordAt(r, 0) == U16At(write, 10)
  {
    var s := StoreAfter(write, deviceId, registerMap, store);
    var address: int, quantity := U16At(read, 8), U16At(read, 10);
    var words := ReadWords(registerMap, s, address, quantity);
    ReadWordsAreWords(registerMap, s, address, quantity);
    assert IsReadReply(r, U16At(read, 0), read[6], words);
    assert words[0] == LookupWord(registerMap, s, address + 1) == U16At(write, 10);
  }
}
