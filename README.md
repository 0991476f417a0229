# Modbus TCP station simulator — verified model

`app.js` runs a virtual PM2120-style power meter. It exposes one flat store of
16-bit holding registers over Modbus TCP. This project models the core of that
program in Dafny:

- **Register layout** (`Layout`). `buildRegisterMap` makes one pass over the
  descriptor table. It gives every descriptor 1, 2 or 4 consecutive store
  slots by data type, recording a forward map (device address to store
  index) and a reverse map (store index to device address). It then appends
  the three control registers: pump 1 at 4000, pump 2 at 4001, water level
  at 4002. The model states the layout as a sequence `Slots(ds)`, giving the
  device address of every store index. The forward map is the result of the
  source's `Map.set` calls, where the last call wins (`ForwardOf`). The
  reverse map is `ReverseOf`.
- **Value codecs** (`Codec`).
  - INT64 is split into four big-endian words, most significant first, and
    read back.
  - FLOAT32 uses the "swapped" order, low word first. The float is handled
    as its 32-bit pattern.
  - DATETIME uses the Unix-seconds split, high word first, with JavaScript's
    32-bit `>>` and `&` written out. The dashboard's `(high << 16) | low`
    reassembly is modelled too.
- **Frame handler** (`Modbus`). `handleModbusRequest` parses the MBAP header
  of the Modbus Messaging on TCP/IP Implementation Guide. It implements:
  - Read Holding Registers (function 3). The response buffer is filled word
    by word. The catch path is modelled too: it patches a half-filled buffer
    into exception 0x04.
  - Write Single Register (function 6), confirmed by echoing the request.
  - The illegal-function exception reply.

  The simulator's own conventions are kept: device address = PDU address + 1;
  malformed, foreign or out-of-range frames get no reply; function codes of
  0x80 and above get no reply, because `writeUInt8(fc + 0x80)` throws. The
  reply is stated once as a predicate (`Reply`), and the new store as a
  function (`StoreAfter`). The imperative handler, which writes the store
  array in place, is proved against both.
- **Store writers** (`Simulator`). A `Simulator` object holds the layout, the
  configured unit id and the store array. Its invariant `Valid` says the maps
  are the layout's, the control registers are the last three slots, and
  every slot holds a 16-bit word. Its methods are:
  - startup allocation (the constructor);
  - `init`'s reset;
  - the pump setter and the water-level setter;
  - one descriptor's generator write and a full generation round, with the
    generated value passed in;
  - the Modbus handler.

Left as parameters: the value `generateValue` draws (`Sample.value`), the IEEE
pattern `writeFloatBE` produces for it (`Sample.floatBits`), the clock reading
`Date.now()` (`Sample.nowMs`), the JSON request-body fields of the setters, and
the descriptor table (data-type strings become the `DataType` constructors; an
unrecognised string is `Unrecognized`).

## Model

| member | source | states |
|---|---|---|
| Codec.FloatToRegisters | app.js:106-111 | two words, low word first: high * 2^16 + low is the 32-bit pattern |
| Codec.RegistersToFloat | app.js:114-119 | the pattern whose swapped split is exactly the given low and high words |
| Codec.FloatRoundTrip | app.js:106-119 | splitting a pattern and reassembling it gives the same pattern |
| Codec.Unsigned64 | app.js:135 | the 64-bit two's-complement pattern of a signed value, below 2^64 |
| Codec.Signed64 | app.js:128 | readBigInt64BE: the signed value whose pattern is the given one |
| Codec.Int64ToRegisters | app.js:133-142 | four words, most significant first, whose big-endian value is the two's-complement pattern; negative exactly when the top word is 0x8000 or more |
| Codec.RegistersToInt64 | app.js:122-129 | the value is negative exactly when reg0 >= 0x8000, and encoding it gives back the four words |
| Codec.Int64RoundTrip | app.js:122-142 | registersToInt64(int64ToRegisters(v)) == v for every signed 64-bit v |
| Codec.ToInt32 | app.js:147 | JavaScript ToInt32: a signed 32-bit value congruent to the input modulo 2^32 |
| Codec.UnixSeconds | app.js:146 | Math.floor(Date.now() / 1000): the whole seconds s with s * 1000 <= ms < s * 1000 + 1000 |
| Codec.TimestampToRegisters | app.js:145-148 | two words, high first, whose value high * 2^16 + low is the Unix seconds modulo 2^32 |
| Codec.SplitLow32 | app.js:147 | `(w >> 16) & 0xFFFF` and `w & 0xFFFF` of a 32-bit signed w assemble to w's unsigned pattern |
| Codec.RegistersToTimestamp | app.js:585 | `(high << 16) \| low`: high * 2^16 + low, less 2^32 when the high word's top bit is set |
| Codec.ToInt32Congruent | app.js:147 | ToInt32 depends only on the value modulo 2^32 |
| Codec.TimestampRoundTrip | app.js:145-148 | reassembling the split gives ToInt32 of the seconds, and gives the seconds themselves before 2^31 s |
| Layout.Width | app.js:39-68 | each data type takes 1 to 4 slots |
| Layout.DescriptorSlots | app.js:36-69 | the descriptors' slot addresses number SumWidths, the sum of their widths |
| Layout.ForwardOfLast | app.js:43-80 | the forward map's keys are the allocated addresses; each maps to a slot holding it, the last such slot |
| Layout.ReverseOfSnoc | app.js:45 | one more reverse `set` call adds exactly the new index |
| Layout.ForwardOfSnoc | app.js:43 | one more forward `set` call overrides the address with the new index |
| Layout.BuildRegisterMap | app.js:33-84 | returns total = sum of widths + 3; the maps are the forward and reverse maps of the layout; 4000, 4001, 4002 map to total-3, total-2, total-1 |
| Layout.AllocateSlots | app.js:39-68 | one descriptor's run: the maps gain address+k -> index+k and index+k -> address+k for each k below the width, in order |
| Layout.AllocateControlSlots | app.js:71-83 | the three control addresses get the next three indices in order, and the total is three more |
| Layout.RunSnoc | app.js:50-53 | a run one slot longer ends in address + k |
| Layout.ControlAppend | app.js:71-81 | the three control `set` pairs are the maps of the layout with the control addresses appended |
| Layout.MapsInverse | app.js:33-84 | the reverse map covers exactly [0, total); every reverse value is a forward key; forward then reverse is the identity; with no repeated address, reverse then forward is the identity too |
| Layout.ControlSlots | app.js:71-81 | 4000, 4001 and 4002 are always mapped, to the last three indices, whatever the table |
| Layout.BaseIndexContiguous | app.js:34-69 | indices are handed out from 0, contiguously in table order: base(j+1) = base(j) + width(j), within the total |
| Layout.BaseIndexMonotone | app.js:34-69 | base indices never decrease along the table |
| Layout.SumWidthsPrefix | app.js:34-69 | a table prefix's slots are a prefix of the table's slots |
| Layout.DescriptorSlotAt | app.js:36-68 | slot base(j) + k of the layout is address(j) + k, for k below the width |
| Layout.DescriptorMapped | app.js:43-66 | with distinct ranges, forward(address + k) = base + k and reverse(base + k) = address + k |
| Layout.ForwardOfDistinct | app.js:43-80 | with no repeated address, the forward map sends each slot's address back to that slot |
| Modbus.FirstNonWord | app.js:354-356 | the index of the first value writeUInt16BE would refuse, or the count when all fit |
| Modbus.PutUInt16BE | app.js:355 | writeUInt16BE: the two bytes at the offset become the value big-endian, nothing else changes |
| Modbus.CollectWords | app.js:333-343 | the collected words are store[forward(start + i + 1)], or 0 for an unmapped address |
| Modbus.ReadHoldingRegisters | app.js:321-357 | the reply is 9+2q bytes with ids echoed and protocol id 0; when every word fits: length 3+2q, byte 7 = 3, byte 8 = 2q, word i = the i-th collected word; otherwise the 0x83/0x04 patch over the words written so far |
| Modbus.PatchException | app.js:380-385 | the catch block's patch: length field 3, function code + 0x80 at byte 7, exception code at byte 8, nothing else changes |
| Modbus.FailureReply | app.js:354-385 | a buffer patched after the first unfit word is the exception-0x04 read reply |
| Modbus.NewReadReplyBuffer | app.js:345-351 | a fresh zero-filled buffer of 9 + byteCount bytes with the normal read-reply header |
| Modbus.FilledStep | app.js:354-356 | writing word n big-endian at byte 9+2n extends the filled prefix by one word |
| Modbus.ReadReplyFrom | app.js:345-357 | a filled buffer with the matching header is a read reply |
| Modbus.ExceptionReply | app.js:374-378 | 9 bytes: ids echoed, protocol id 0, length field 3, byte 7 = fc + 0x80, byte 8 = the exception code |
| Modbus.StoreAfter | app.js:359-372 | the store keeps its length and its all-words property; only an accepted write changes it, at forward(addr + 1) only, to the written value |
| Modbus.HandleModbusRequest | app.js:297-387 | the reply is the one `Reply` prescribes for every case (short, wrong protocol, foreign unit, bad quantity, unmapped write, illegal function, fc >= 0x80), and the new store is `StoreAfter` |
| Modbus.ReadWordsAreWords | app.js:333-356 | over a store of words the read never reaches the 0x04 path |
| Modbus.BuiltRepliesAreFramed | app.js:297-387 | every built reply has length field = bytes after it and echoed ids; a read reply carries the looked-up words; an exception reply carries fc + 0x80 and code 1 |
| Modbus.WriteThenRead | app.js:321-372 | a read of the address just written returns the written value as its first word |
| Simulator.PumpWord | app.js:481-482 | 1 exactly for 'true', true or 1; 0 otherwise |
| Simulator.ClampWord | app.js:204 | Math.max(0, Math.min(65535, x)): x itself inside 0..65535, 0 below, 65535 above |
| Simulator.EncodeSample | app.js:179-210 | the generator writes exactly as many words as the layout allocated for the data type |
| Simulator.Simulator.constructor | app.js:86-90 | the layout is built from the table, and the store has one zero word per slot |
| Simulator.Simulator.Init | app.js:638-646 | every register 0, then pumps 0 and water level 50; the invariant holds |
| Simulator.Simulator.SetPumps | app.js:476-482 | a present field sets its pump to PumpWord, a missing one leaves it; every other register unchanged |
| Simulator.Simulator.SetWaterLevel | app.js:502-511 | a level in 0..100 is stored, anything else (absent, NaN, out of range) leaves it; every other register unchanged |
| Simulator.Simulator.WriteGenerated | app.js:176-211 | one descriptor's words are written at its base index and nothing else changes |
| Simulator.Simulator.GenerateData | app.js:173-211 | the store after a round is GenerateRound of the store before it; the invariant holds |
| Simulator.Simulator.HandleModbusRequest | app.js:297-387 | the handler on this simulator's layout, unit id and store; the store stays a store of words |
| Simulator.Overwrite | app.js:182-209 | writing a run of words changes that run only |
| Simulator.OverwriteSnoc | app.js:182-209 | writing one more word extends the written run |
| Simulator.GenerateRound | app.js:176-211 | a round keeps the store's length |
| Simulator.LaterWriteKeeps | app.js:176-211 | a write at or past descriptor j's base keeps every earlier descriptor's words |
| Simulator.RoundHolds | app.js:176-211 | after a round every descriptor's slots hold the encoding of its own sample |
| Simulator.RoundKeepsTail | app.js:176-211 | before descriptor n is written, everything from its base on is untouched |
| Simulator.RoundKeepsControls | app.js:176-211 | a round never touches the control registers (or anything past the descriptors' slots) |
| Simulator.DisplayedTimestamp | app.js:583-585 | the dashboard's `(timeHigh << 16) \| timeLow` with the word at the index as the low half: the signed 32-bit value whose pattern is next * 2^16 + atIndex |
| Simulator.DisplayedTimestampSwapped | app.js:583-585 | the dashboard's low-first read of a high-first DATETIME pair shows the wrong time |
| Simulator.StoredTimestampReadsBack | app.js:145-148 | read high first, a generated DATETIME register gives the round's Unix seconds before 2^31 s |
| Simulator.ReadDescriptor | app.js:324-343 | a read at address - 1 with the descriptor's width returns exactly the descriptor's slots |
| Simulator.ForwardIndicesIn | app.js:33-84 | every index the forward map gives is a store slot |

## Left out

- HTTP routes, middleware and JSON responses are not modelled; they are transport wiring. Only the pump and water-level setter bodies are.
- The `net` server, socket events, the 30-second idle timeout and listener restarts are left out as I/O. So are `setInterval` scheduling and the SIGINT handler, which are timer and process plumbing.
- Frames that arrive concatenated in one TCP chunk are left out: the socket layer hands one buffer to the handler, and the model takes that buffer as is.
- `Math.random` and `generateValue` are not modelled; the generated number is a parameter.
- Generated values are finite numbers (`Sample.value` is a real). A malformed generation rule makes `generateValue` return NaN or ±Infinity, and that case is not modelled: for INT16/INT16U the source then stores NaN (`Math.floor(NaN)` survives the clamp), which breaks the all-words store invariant that `Valid` states.
- `Date.now` is a parameter.
- The IEEE-754 single-precision encoding of `writeFloatBE`/`readFloatBE` is not modelled; a float is its 32-bit pattern, and only the word order is modelled.
- Codec.RegistersToInt64: returns the exact BigInt value; the `Number(...)` conversion, which rounds above 2^53, is not modelled.
- `toFixed` and `toLocaleString` display formatting is not modelled.
- Loading the descriptor table from its JSON file is file I/O; the table is a parameter.
- Changing the unit id or interval through the configuration route is left out; `deviceId` is a field set at construction.
- Simulator.Simulator.SetWaterLevel: takes the result of `parseInt` (None for an absent field or NaN); `parseInt`'s string scanning is not modelled.
- Simulator.Simulator.WriteGenerated: requires that descriptor ranges do not collide (DistinctRanges). With colliding ranges, `registerMap.get` returns the last slot claiming an address, and the source could write past the array or into the control registers. It also requires an integral INT64 value in range, because `BigInt` throws otherwise.
- Simulator.Simulator.GenerateData: the same two requirements as WriteGenerated, for every descriptor. It also does not model the pump and water-level logging that follows the writes.
- The DATETIME round trip through the dashboard's display path is not claimed; see Findings.

## Findings

| source | as written | input that shows it | evidently intended | confidence | as-written member | corrected member |
|---|---|---|---|---|---|---|
| app.js:583-585 | the dashboard reads a DATETIME pair as low word at the descriptor's index, high word after it, while the generator (app.js:198-199) stores the high word first | clock 1 700 000 000 000 ms: stored words 0x6553, 0xF100; the dashboard assembles 0xF1006553 as a negative int32 instead of 1 700 000 000 | read the pair in the order it was written, high word at the index | medium, not executed | Simulator.DisplayedTimestampSwapped | Simulator.StoredTimestampReadsBack |
