# SAVE VTR register map, in Dafny

This project models the Python driver `pysystemair_save_vtr` for Systemair
SAVE VTR ventilation units and proves properties of the model. The driver
talks to a unit over Modbus. It keeps two module-level register
dictionaries: the "input" bank and the "holding" bank. Each maps a register
name to its address and to the words last read from it. A unit object
refreshes both banks, decodes 18 typed fields from them (temperatures, fan
levels, user mode, actuator flags, filter hours), serves those fields
through getters, and writes holding registers through setters.

Files and modules:

- `wrappers.dfy` (`Wrappers`): `Option` and `Result`.
- `modbus.dfy` (`Modbus`): 16-bit words and the two requests the driver
  sends. Read Holding Registers is function code 0x03 (section 6.3 of the
  Modbus Application Protocol Specification V1.1b3). Write Single Register
  is function code 0x06 (section 6.6). The client connection is a class
  that answers reads from a script of replies and logs every request.
- `catalogue.dfy` (`Catalogue`): the two dictionaries. Each has its keys in
  insertion order, its fixed addresses, and each descriptor's `'value'`.
  That value is the integer 0 the module starts with, or a word list. A
  dictionary is a `RegisterMap` object, so it can be shared.
- `decoding.dfy` (`Decoding`): the pure rules. These are the driver's
  two's-complement helper, the user-mode table, tenths of a degree and
  `round`, and the field each register feeds. It also holds the decode
  pass of `update()`, which stops at the first field it cannot decode.
- `refresh.dfy` (`Refresh`): `update()` as a function on values. It reads
  the input bank and then the holding bank, stops at the first failed
  read, and then runs the decode pass. The lemmas about it live here.
- `save_vtr.dfy` (`SaveVtr`): the class `SaveVtrUnit`. Its constructor
  aliases the two shared maps. `Update` runs the two read loops in place
  and is proved equal to `Refresh.UpdateStep`. There are also the getters,
  the raw register accessors and the setters.

How the model follows the code:

- A read whose response has no `registers` ends both loops. In Python
  that is the `AttributeError`. An exhausted reply script counts as such a
  failed read. The descriptors read before the failure keep their new
  words. The failed one and every later one keep their old value, so a
  failed input read leaves the whole holding bank with its old words.
- The decode pass always runs after the loops. Subscripting the integer 0
  raises `TypeError` (`Fault.NeverRead`). An empty word list raises
  `IndexError` (`Fault.NoWords`). Either fault propagates out of
  `update()` and out of the getters. The fields assigned before the fault
  keep their new values.
- The decoded fields are a `map<Field, FieldValue>`. A missing key is
  Python's `None`. The 18 `get_*` properties are one method, `Get(field)`.
- Temperatures are exact reals (`raw / 10`). Filter hours is
  `w / 60 / 60` as true division, so 7199 seconds give a fraction below 2.
  `round` is round-half-to-even on exact reals.
- `get_user_mode_switch` follows its table: 9 is CDI1, 11 is CDI2, 12 is
  PressureGuard, and 10 has no entry, so it reads as "nothing". This gap is
  the table's own. It contradicts the comment on REG_USERMODE_MODE in the
  register map, which numbers the modes 9 CDI1, 10 CDI2, 11 CDI3 and 12
  PressureGuard.
- `get_twos_comp` is kept exactly as written: `-(65535 - x)` above 32767.
  `Decoding.TwosCompAgainstSigned16` proves that it is one more than true
  16-bit two's complement there: 32768 gives -32767 and 65535 gives 0.
- A failed read never leaves `update()` returning `False` from the
  catalogue as the module creates it. A failed read leaves at least the
  last holding register as the integer 0, so decoding raises at
  `SetpointTemp` (when its register was not read) or at the latest at
  `SetpointTempMax` (`Refresh.FirstUpdateNeverReturnsFalse`).

## Model

| member | source | states |
|---|---|---|
| Modbus.FunctionCode | pysystemair_save_vtr/__init__.py:79-83 | a request is sent as function 0x03 exactly when it is a read, and as 0x06 exactly when it is a write |
| Modbus.ModbusClient.ReadHoldingRegisters | pysystemair_save_vtr/__init__.py:79-83 | one read logs one request with the slave, address and count, and takes the next reply from the script (None once it runs out) |
| Modbus.ModbusClient.WriteRegister | pysystemair_save_vtr/__init__.py:174-177 | one write logs one request with the slave, address and value, and consumes no reply |
| Catalogue.Initial | pysystemair_save_vtr/__init__.py:4-28 | a freshly created bank keeps its layout and every descriptor's value is the integer 0 |
| Catalogue.RegisterMap.constructor | pysystemair_save_vtr/__init__.py:4-28 | a new map holds the initial descriptors of its layout |
| Catalogue.Position | pysystemair_save_vtr/__init__.py:4-28 | every key has a position in the bank it belongs to, and the key is stored there |
| Catalogue.BankPositions | pysystemair_save_vtr/__init__.py:4-28 | each key of a bank belongs to that bank at its own position, so no bank lists a key twice |
| Catalogue.LayoutsWellFormed | pysystemair_save_vtr/__init__.py:4-28 | both banks have unique keys, and every address fits in a 16-bit register address |
| Catalogue.Lookup | pysystemair_save_vtr/__init__.py:164 | a dictionary subscript returns the descriptor stored under the key, or raises KeyError exactly when no descriptor has that key |
| Catalogue.LookupFollowsLayout | pysystemair_save_vtr/__init__.py:172-177 | a lookup succeeds exactly when the layout holds the key, and reports the layout's address for it |
| Catalogue.LookupAt | pysystemair_save_vtr/__init__.py:166-170 | in a bank with unique keys, looking up the i-th key finds the i-th descriptor |
| Catalogue.LookupKey | pysystemair_save_vtr/__init__.py:179-184 | in a bank laid out as the catalogue says, a key's lookup finds the descriptor at the key's position, with the catalogue's address |
| Catalogue.AddrOfAt | pysystemair_save_vtr/__init__.py:4-28 | in a layout with unique keys, the i-th key's address is the i-th address |
| Decoding.TwosComp | pysystemair_save_vtr/__init__.py:136-140 | every 16-bit word maps into [-32767, 32767] |
| Decoding.TwosCompAgainstSigned16 | pysystemair_save_vtr/__init__.py:136-140 | the helper equals true 16-bit two's complement up to 32767 and is one more above it; 32768 gives -32767, and 65535 and 0 both give 0 |
| Decoding.UserModeName | pysystemair_save_vtr/__init__.py:143-158 | the table is total, and a code reads as "nothing" exactly when it is outside 0..12 or is 10 |
| Decoding.UserModeRoundTrip | pysystemair_save_vtr/__init__.py:143-158 | the table is one-to-one in both directions (name to code to name, code to name to code); 0 is Auto, 5 is Away, 9 is CDI1, 11 is CDI2, and 10 and 99 read as "nothing" |
| Decoding.UserModeCodeOfName | pysystemair_save_vtr/__init__.py:143-158 | every listed code maps back to itself through its name |
| Decoding.RoundHalfEven | pysystemair_save_vtr/__init__.py:214-218 | the result is within one half of the argument, and a tie goes to the even neighbour |
| Decoding.DecodeTenths | pysystemair_save_vtr/__init__.py:96-97 | a register in tenths reads as the temperature that is one tenth of it; TenthsRoundTrip pairs it with EncodeTenths |
| Decoding.EncodeTenths | pysystemair_save_vtr/__init__.py:214-218 | round(temp * 10.0) lies within one half of ten times the temperature; TenthsRoundTrip pairs it with DecodeTenths |
| Decoding.TenthsRoundTrip | pysystemair_save_vtr/__init__.py:227-231 | encoding a temperature and decoding it again lands within 0.05 of it, decoding a register and encoding it again gives the register back, and 21.5 becomes 215 |
| Decoding.SourceOf | pysystemair_save_vtr/__init__.py:96-131 | the register each field is decoded from lies in the bank it is read from; SourceInverse, SourceInCatalogue and SourcesDistinct state the rest |
| Decoding.Decode | pysystemair_save_vtr/__init__.py:96-131 | each field decodes to its own kind of value: degrees for the six temperatures, a flag for the four actuator outputs, a name for the user mode, hours for the filter time, and the raw word for the rest; DecodeValues states the values and DecodeRanges their ranges |
| Decoding.DecodeValues | pysystemair_save_vtr/__init__.py:96-131 | the five setpoint and sensor temperatures decode to one tenth of the word, the outdoor temperature to one tenth of its two's-complement reading, the user mode to the table's name for the word, filter hours to the word divided by 3600, and each actuator flag to whether the word is non-zero |
| Decoding.DecodeRanges | pysystemair_save_vtr/__init__.py:96-131 | the outdoor temperature lies within ±3276.7, other temperatures within 0..6553.5, filter hours times 3600 is the word (7200 gives 2.0, 7199 gives less), 32768 decodes to -3276.7, 65535 to 0.0, and a flag is set exactly when its word is non-zero |
| Decoding.FieldIndex | pysystemair_save_vtr/__init__.py:96-131 | every field has a place in the order the decode pass assigns fields |
| Decoding.SourceInverse | pysystemair_save_vtr/__init__.py:96-131 | each field is the only field that reads its register, and the decode pass assigns every field |
| Decoding.SourceInCatalogue | pysystemair_save_vtr/__init__.py:96-131 | every field's register is a key of the bank it is read from |
| Decoding.SourcesDistinct | pysystemair_save_vtr/__init__.py:96-131 | no two fields share a register, and no field reads the setpoint register REG_TC_SP |
| Decoding.FirstWord | pysystemair_save_vtr/__init__.py:97 | subscripting `['value'][0]` yields the descriptor's first word exactly when the key is present and its descriptor holds a non-empty word list; a missing key raises KeyError, the integer 0 raises TypeError and an empty list raises IndexError |
| Decoding.Readable | pysystemair_save_vtr/__init__.py:96-131 | the count of fields from the front whose register yields a word; the next field, if any, yields none |
| Decoding.DecodeFields | pysystemair_save_vtr/__init__.py:96-131 | the decode pass never unsets a field and assigns only fields of its order; DecodeFieldsAt, DecodeAll and DecodeFieldsIdempotent state what it assigns and when it raises |
| Decoding.DecodeFieldsAt | pysystemair_save_vtr/__init__.py:96-131 | the decode pass raises exactly when it stops early, with the first unreadable field's fault; the readable prefix holds decoded words; every other field keeps its value; no other key is added |
| Decoding.DecodeFieldsFault | pysystemair_save_vtr/__init__.py:96-131 | the decode pass reports no fault exactly when every field was readable, and otherwise reports the first unreadable field's fault |
| Decoding.DecodeFieldsKeys | pysystemair_save_vtr/__init__.py:96-131 | the decode pass assigns exactly the readable prefix on top of the fields already set |
| Decoding.DecodeFieldsValues | pysystemair_save_vtr/__init__.py:96-131 | each field of the readable prefix holds the decoding of its register's first word, and every other field keeps its value |
| Decoding.DecodeFieldNew | pysystemair_save_vtr/__init__.py:96-131 | a field of the readable prefix holds the decoding of its register's first word |
| Decoding.DecodeFieldKept | pysystemair_save_vtr/__init__.py:96-131 | a field outside the readable prefix keeps its old value |
| Decoding.DecodeAll | pysystemair_save_vtr/__init__.py:96-131 | the full decode pass raises exactly when some field's register yields no word; when it does not raise, every field holds the decoding of its own register's first word |
| Decoding.DecodeFieldsIdempotent | pysystemair_save_vtr/__init__.py:96-131 | decoding again over the same banks changes nothing |
| Decoding.DecodeFieldsAgain | pysystemair_save_vtr/__init__.py:96-131 | decoding again over the same banks leaves exactly the fields the first pass left |
| Decoding.DecodeFieldAgain | pysystemair_save_vtr/__init__.py:96-131 | decoding again over the same banks leaves each decoded field as the first pass left it |
| Refresh.ReadLoop | pysystemair_save_vtr/__init__.py:77-90 | the loop keeps the number of descriptors and sends at most one read each, and it reports success only after reading them all |
| Refresh.Succeeded | pysystemair_save_vtr/__init__.py:77-94 | the number of reads that succeed before the first failure, and the failing read, if any |
| Refresh.ReadLoopAt | pysystemair_save_vtr/__init__.py:77-94 | if read k is the first to fail, descriptors before k hold the new words and the rest keep their old values; k + 1 reads are sent; the loop reports success exactly when no read failed |
| Refresh.ReadLoopFromSteps | pysystemair_save_vtr/__init__.py:77-83 | a loop that stored the first i replies and then ran out of descriptors or met a failed read has computed the read loop |
| Refresh.ReadLoopSplitOk | pysystemair_save_vtr/__init__.py:77-90 | reading two banks in one pass, when the first succeeds throughout, is reading the first and then the second with the replies that are left |
| Refresh.ReadLoopSplitFail | pysystemair_save_vtr/__init__.py:77-91 | a failed read in the first bank leaves the second bank unread and unchanged |
| Refresh.ReadLoopKeepsLayout | pysystemair_save_vtr/__init__.py:77-90 | reading changes no key and no address |
| Refresh.ReadLoopIdempotent | pysystemair_save_vtr/__init__.py:77-90 | reading again with the same replies leaves what the first pass left |
| Refresh.ReadRequestsPrefix | pysystemair_save_vtr/__init__.py:77-90 | the requests for the input bank followed by part of the holding bank are the input bank's requests, then the holding bank's |
| Refresh.ReadPhase | pysystemair_save_vtr/__init__.py:77-94 | the two read loops keep both banks' sizes, only append to the request log, and never raise; ReadPhaseInput, ReadPhaseHolding and ReadPhaseInputFails state the banks afterwards |
| Refresh.ReadPhaseBothBanks | pysystemair_save_vtr/__init__.py:77-90 | when the input loop succeeds throughout, the holding bank is read with the replies left over, and the loops report the holding loop's result |
| Refresh.ReadPhaseBothBanksReplies | pysystemair_save_vtr/__init__.py:77-90 | the loops consume the input bank's replies and then those the holding loop takes |
| Refresh.ReadPhaseBothBanksRequests | pysystemair_save_vtr/__init__.py:77-90 | the loops send one request per input descriptor and then the holding loop's requests |
| Refresh.ReadPhaseInputFails | pysystemair_save_vtr/__init__.py:77-94 | a failed input read ends both loops: the holding bank is neither read nor changed, and the result is False |
| Refresh.SucceededAfter | pysystemair_save_vtr/__init__.py:77-90 | when the first n reads succeed, the count over the combined order is n plus the count over the holding bank's replies |
| Refresh.UpdateStepReads | pysystemair_save_vtr/__init__.py:96-133 | the decode pass changes only the fields, and update() returns the loops' result when it does not raise |
| Refresh.ReadPhaseInput | pysystemair_save_vtr/__init__.py:77-83 | input descriptor j holds reply j's words exactly when j comes before the first failed read; otherwise it keeps its old value |
| Refresh.ReadPhaseHolding | pysystemair_save_vtr/__init__.py:84-90 | holding descriptor j is read number n + j of the combined order and holds that reply's words exactly when it comes before the first failed read |
| Refresh.ReadPhaseHoldingRead | pysystemair_save_vtr/__init__.py:84-90 | the same, when every read of the input bank succeeded |
| Refresh.UpdateStep | pysystemair_save_vtr/__init__.py:71-133 | update() keeps both banks' sizes and never unsets a field; UpdatePartial, UpdateRequests, UpdateDecodes and UpdateIdempotent state the rest |
| Refresh.UpdatePartial | pysystemair_save_vtr/__init__.py:75-94 | partial update: if read k of the combined order fails, the entries before k hold the new words, entry k and every later one keep their old words (the whole holding bank when k is in the input bank), and update() returns True exactly when every read succeeded |
| Refresh.UpdateKeepsLayout | pysystemair_save_vtr/__init__.py:77-90 | update() keeps both banks' keys, order and addresses |
| Refresh.UpdateRequests | pysystemair_save_vtr/__init__.py:77-90 | update() sends one function-0x03 request of one register per descriptor it tries, in catalogue order and for the input bank too, and consumes one reply each |
| Refresh.UpdateDecodes | pysystemair_save_vtr/__init__.py:96-131 | update() raises exactly when some field's register holds no word, and when it returns, every field is the decoding of its own register's first word |
| Refresh.UpdateIdempotent | pysystemair_save_vtr/__init__.py:71-133 | two update() calls that receive the same replies leave the same banks, fields and result, and send the same requests again |
| Refresh.ReadPhaseAgain | pysystemair_save_vtr/__init__.py:77-94 | the loops of a second update() with the same replies leave the banks and the result of the first and send the same requests again |
| Refresh.SetpointMaxUnread | pysystemair_save_vtr/__init__.py:98-99 | an unread REG_TC_CASCADE_SP_MAX makes decoding SetpointTempMax raise TypeError |
| Refresh.FirstUpdateNeverReturnsFalse | pysystemair_save_vtr/__init__.py:71-133 | starting from the catalogue as the module creates it, update() raises or returns True, never False |
| SaveVtr.SaveVtrUnit.constructor | pysystemair_save_vtr/__init__.py:46-69 | the unit aliases the two shared maps instead of copying them, keeps the connection, slave number and eager flag (false unless given), and every field starts as None |
| SaveVtr.SaveVtrUnit.ReadBank | pysystemair_save_vtr/__init__.py:77-83 | one of update()'s two loops, in place: the map, the replies and the request log end as the read-loop function says |
| SaveVtr.SaveVtrUnit.Update | pysystemair_save_vtr/__init__.py:71-133 | update() in place on the shared maps: the new state and the result or fault are those of Refresh.UpdateStep |
| SaveVtr.SaveVtrUnit.Get | pysystemair_save_vtr/__init__.py:186-335 | a getter runs update() first only when the unit refreshes on read, ignores its result but lets its fault propagate, and otherwise returns the cached field and sends nothing |
| SaveVtr.SaveVtrUnit.GetRawInputRegister | pysystemair_save_vtr/__init__.py:160-164 | returns the input descriptor under the key, with its catalogue address, after an eager update when that is set; an unknown key raises |
| SaveVtr.SaveVtrUnit.GetRawHoldingRegister | pysystemair_save_vtr/__init__.py:166-170 | the same on the holding map |
| SaveVtr.SaveVtrUnit.SetRawHoldingRegister | pysystemair_save_vtr/__init__.py:172-177 | one write of the value, unchanged, to the key's holding address; an unknown key raises KeyError before anything is sent; nothing else changes |
| SaveVtr.SaveVtrUnit.SetFanSpeedSupply | pysystemair_save_vtr/__init__.py:179-184 | one write of the level, unchanged, to address 1130; the maps and fields do not change |
| SaveVtr.SaveVtrUnit.SetFanSpeedExtract | pysystemair_save_vtr/__init__.py:193-198 | one write of the level, unchanged, to address 1131; the maps and fields do not change |
| SaveVtr.SaveVtrUnit.SetSetpointTemp | pysystemair_save_vtr/__init__.py:214-218 | one write of round(temp * 10) to address 2000 (REG_TC_SP); the maps and fields do not change |
| SaveVtr.SaveVtrUnit.SetSetpointTempMax | pysystemair_save_vtr/__init__.py:227-231 | one write of round(temp * 10) to address 2021; the maps and fields do not change |
| SaveVtr.SaveVtrUnit.SetSetpointTempMin | pysystemair_save_vtr/__init__.py:240-244 | one write of round(temp * 10) to address 2020; the maps and fields do not change |

## Left out

- The pymodbus transport (connection handling, framing, the response object) is not modelled. The connection is an oracle. A read answers `Some(words)` or `None` from a script, and a write logs its request and returns nothing, because the driver ignores the answer.
- The `print` call in the failure branch of `update()` is output only and is not modelled.
- IEEE-754 doubles are not modelled. `/ 10.0`, `/ 60 / 60` and `round` work on exact reals, so binary rounding of doubles (for example `round(2.675 * 10.0)`) is not captured.
- SaveVtr.SaveVtrUnit.GetRawInputRegister: returns a copy of the descriptor. The source returns the live shared dictionary entry, which a caller could mutate.
- SaveVtr.SaveVtrUnit.GetRawHoldingRegister: returns a copy of the descriptor, as for the input map.
- Register names are the 19 catalogue keys, as an enumeration. Other strings passed to the raw accessors are not modelled. A key of the other bank is covered, and it raises KeyError as in the source.
- Writes take any integer. The driver does not check the 16-bit range, and neither does the model. What the transport does with an out-of-range value is not modelled.
- The device is not modelled, so no write-then-read round trip is stated. `set_setpoint_temp` writes REG_TC_SP, and no field reads that register (`Decoding.SourcesDistinct`). For the min/max temperatures, `Decoding.TenthsRoundTrip` states the encode/decode round trip.
- The driver runs in a single thread.
- `example.py` (a demo script) and `setup.py` (packaging) are not part of this model.
