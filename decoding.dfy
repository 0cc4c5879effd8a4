/**
 * The decode and encode rules of the driver: the sign rule for the outdoor
 * sensor, the user-mode table, the tenths-of-a-degree scaling and its
 * rounding inverse, and the snapshot that the refresh fills, one field per
 * register, in the order the driver assigns them.
 */
module Decoding {
  import opened Wrappers
  import opened Modbus
  import opened Catalogue

  // ---------------------------------------------------------------------
  // Sign rule

  /** The driver's sign rule: a word above 32767 is read as negative,
      measured from 65535. */
  function TwosComp(x: int): (r: int)
    ensures 0 <= x < 0x1_0000 ==> -32767 <= r <= 32767
  {
    if x > 32767 then -(65535 - x) else x
  }

  /** Standard 16-bit two's complement, as a reference. */
  function Signed16(w: Word): (r: int)
    ensures -0x8000 <= r < 0x8000
  {
    if w >= 0x8000 then w - 0x1_0000 else w
  }

  /** The driver's rule agrees with true two's complement on non-negative
      readings and is one above it on every negative one: 32768 gives -32767
      and 65535 gives 0, the same as the word 0. */
  lemma TwosCompAgainstSigned16(w: Word)
    ensures w <= 32767 ==> TwosComp(w) == Signed16(w) == w
    ensures w > 32767 ==> TwosComp(w) == Signed16(w) + 1
    ensures TwosComp(32768) == -32767 && TwosComp(65535) == 0 == TwosComp(0)
  {
  }

  // ---------------------------------------------------------------------
  // User mode

  /** The user-mode table; every code outside it reads as "nothing". */
  function UserModeName(code: int): (name: string)
    ensures name == "nothing" <==> !(0 <= code <= 12 && code != 10)
  {
    match code
    case 0 => "Auto"
    case 1 => "Manual"
    case 2 => "Crowded"
    case 3 => "Refresh"
    case 4 => "Fireplace"
    case 5 => "Away"
    case 6 => "Holiday"
    case 7 => "Cooker Hood"
    case 8 => "Vacuum Cleaner"
    case 9 => "CDI1"
    case 11 => "CDI2"
    case 12 => "PressureGuard"
    case _ => "nothing"
  }

  /** The code of a user-mode name, as the table lists it. */
  function UserModeCode(name: string): (code: Option<int>)
  {
    if name == "Auto" then Some(0)
    else if name == "Manual" then Some(1)
    else if name == "Crowded" then Some(2)
    else if name == "Refresh" then Some(3)
    else if name == "Fireplace" then Some(4)
    else if name == "Away" then Some(5)
    else if name == "Holiday" then Some(6)
    else if name == "Cooker Hood" then Some(7)
    else if name == "Vacuum Cleaner" then Some(8)
    else if name == "CDI1" then Some(9)
    else if name == "CDI2" then Some(11)
    else if name == "PressureGuard" then Some(12)
    else None
  }

  /** The table is one-to-one: every listed code names a mode that maps back
      to it, and every mode name comes from exactly its code. */
  lemma UserModeRoundTrip(code: int, name: string)
    ensures UserModeName(code) != "nothing" ==> UserModeCode(UserModeName(code)) == Some(code)
    ensures UserModeCode(name).Some? ==> UserModeName(UserModeCode(name).value) == name
    ensures UserModeName(0) == "Auto" && UserModeName(5) == "Away"
    ensures UserModeName(9) == "CDI1" && UserModeName(11) == "CDI2"
    ensures UserModeName(10) == "nothing" && UserModeName(99) == "nothing"
  {
    UserModeCodeOfName(code);
    UserModeNameOfCode(name);
  }

  /** Every listed code maps back to itself through its name. */
  lemma UserModeCodeOfName(code: int)
    ensures UserModeName(code) != "nothing" ==> UserModeCode(UserModeName(code)) == Some(code)
  {
    if 0 <= code <= 12 && code != 10 {
      match code {
        case 0 => case 1 => case 2 => case 3 => case 4 => case 5 => case 6 =>
        case 7 => case 8 => case 9 => case 11 => case 12 =>
      }
    }
  }

  /** Every name the table lists is the name of the code it maps to. */
  lemma UserModeNameOfCode(name: string)
    ensures UserModeCode(name).Some? ==> UserModeName(UserModeCode(name).value) == name
  {
  }

  // ---------------------------------------------------------------------
  // Tenths of a degree

  /** Python's round on an exact value: to the nearest integer, ties to the
      even one. */
  function RoundHalfEven(x: real): (n: int)
    ensures x - 0.5 <= n as real <= x + 0.5
    ensures (n as real - x == 0.5 || x - n as real == 0.5) ==> n % 2 == 0
  {
    var f := x.Floor;
    var d := x - f as real;
    if d < 0.5 then f
    else if d > 0.5 then f + 1
    else if f % 2 == 0 then f
    else f + 1
  }

  /** A register in tenths of a degree, read as degrees. */
  function DecodeTenths(raw: int): (temp: real)
    ensures temp * 10.0 == raw as real
  {
    raw as real / 10.0
  }

  /** Degrees written as a register in tenths: round(temp * 10.0). */
  function EncodeTenths(temp: real): (raw: int)
    ensures temp * 10.0 - 0.5 <= raw as real <= temp * 10.0 + 0.5
  {
    RoundHalfEven(temp * 10.0)
  }

  /** Encoding then decoding a temperature lands within 0.05 degrees of it,
      and decoding then encoding a register gives the register back: 21.5
      becomes 215 and 215 becomes 21.5. */
  lemma TenthsRoundTrip(temp: real, raw: int)
    ensures temp - 0.05 <= DecodeTenths(EncodeTenths(temp)) <= temp + 0.05
    ensures EncodeTenths(DecodeTenths(raw)) == raw
    ensures EncodeTenths(21.5) == 215 && DecodeTenths(215) == 21.5
  {
    var n := EncodeTenths(DecodeTenths(raw));
    assert DecodeTenths(raw) * 10.0 == raw as real;
    assert raw as real - 0.5 <= n as real <= raw as real + 0.5;
    assert EncodeTenths(21.5) == 215 by {
      assert 21.5 * 10.0 == 215 as real;
    }
  }

  // ---------------------------------------------------------------------
  // The snapshot

  /** The decoded fields of a unit, in the order the driver assigns them. */
  datatype Field =
    | SetpointTemp | SetpointTempMax | SetpointTempMin | CurrentHumidity
    | SupplyTemp | ExtractTemp | OutdoorTemp | UserMode | FilterWarning
    | FilterRemainingHours | Heater | HeaterState | HeatExchanger
    | HeatExchangerState | Cooler | CoolerState | FanSpeedSupply | FanSpeedExtract

  const FieldOrder: seq<Field> := [
    SetpointTemp, SetpointTempMax, SetpointTempMin, CurrentHumidity,
    SupplyTemp, ExtractTemp, OutdoorTemp, UserMode, FilterWarning,
    FilterRemainingHours, Heater, HeaterState, HeatExchanger,
    HeatExchangerState, Cooler, CoolerState, FanSpeedSupply, FanSpeedExtract
  ]

  /** The value a field holds once decoded. */
  datatype FieldValue =
    | Temperature(celsius: real)
    | Count(n: int)
    | Flag(on: bool)
    | Mode(name: string)
    | Hours(hours: real)

  /** Where a field comes from: one bank and one key. */
  datatype Source = Source(bank: Bank, name: RegName)

  /** The register a field is decoded from; it is a key of that bank. */
  function SourceOf(f: Field): (src: Source)
    ensures BankOf(src.name) == src.bank
  {
    match f
    case SetpointTemp => Source(InputBank, REG_TC_SP_SATC)
    case SetpointTempMax => Source(HoldingBank, REG_TC_CASCADE_SP_MAX)
    case SetpointTempMin => Source(HoldingBank, REG_TC_CASCADE_SP_MIN)
    case CurrentHumidity => Source(HoldingBank, REG_SENSOR_RHS_PDM)
    case SupplyTemp => Source(HoldingBank, REG_SENSOR_SAT)
    case ExtractTemp => Source(HoldingBank, REG_SENSOR_PDM_EAT_VALUE)
    case OutdoorTemp => Source(HoldingBank, REG_SENSOR_OAT)
    case UserMode => Source(InputBank, REG_USERMODE_MODE)
    case FilterWarning => Source(InputBank, REG_FILTER_ALARM_WAS_DETECTED)
    case FilterRemainingHours => Source(InputBank, REG_FILTER_REMAINING_TIME_L)
    case Heater => Source(InputBank, REG_OUTPUT_Y1_DIGITAL)
    case HeaterState => Source(InputBank, REG_OUTPUT_Y1_ANALOG)
    case HeatExchanger => Source(InputBank, REG_OUTPUT_Y2_DIGITAL)
    case HeatExchangerState => Source(InputBank, REG_OUTPUT_Y2_ANALOG)
    case Cooler => Source(InputBank, REG_OUTPUT_Y3_DIGITAL)
    case CoolerState => Source(InputBank, REG_OUTPUT_Y3_ANALOG)
    case FanSpeedSupply => Source(HoldingBank, REG_USERMODE_MANUAL_AIRFLOW_LEVEL_SAF)
    case FanSpeedExtract => Source(HoldingBank, REG_USERMODE_MANUAL_AIRFLOW_LEVEL_EAF)
  }

  /** The rule that turns the first word of a field's register into the
      field's value. */
  function Decode(f: Field, w: Word): (v: FieldValue)
    ensures v.Temperature? <==> f in {SetpointTemp, SetpointTempMax, SetpointTempMin, SupplyTemp, ExtractTemp, OutdoorTemp}
    ensures v.Flag? <==> f in {FilterWarning, Heater, HeatExchanger, Cooler}
    ensures v.Mode? <==> f == UserMode
    ensures v.Hours? <==> f == FilterRemainingHours
    ensures v.Count? ==> v.n == w
  {
    match f
    case SetpointTemp | SetpointTempMax | SetpointTempMin | SupplyTemp | ExtractTemp =>
      Temperature(DecodeTenths(w))
    case OutdoorTemp => Temperature(DecodeTenths(TwosComp(w)))
    case CurrentHumidity | HeaterState | HeatExchangerState | CoolerState
       | FanSpeedSupply | FanSpeedExtract => Count(w)
    case UserMode => Mode(UserModeName(w))
    case FilterWarning | Heater | HeatExchanger | Cooler => Flag(w != 0)
    case FilterRemainingHours => Hours(w as real / 60.0 / 60.0)
  }

  /** The value each decode rule gives a word: tenths of a degree for the
      temperatures (through the sign rule for the outdoor sensor), the
      table's name for the user mode, seconds as hours for the filter time,
      and "non-zero" for the actuator flags. */
  lemma DecodeValues(f: Field, w: Word)
    ensures var v := Decode(f, w);
            && (f in {SetpointTemp, SetpointTempMax, SetpointTempMin, SupplyTemp, ExtractTemp} ==>
                  v.celsius * 10.0 == w as real)
            && (f == OutdoorTemp ==> v.celsius * 10.0 == TwosComp(w) as real)
            && (f == UserMode ==> v.name == UserModeName(w))
            && (f == FilterRemainingHours ==> v.hours * 3600.0 == w as real)
            && (v.Flag? ==> (v.on <==> w != 0))
  {
  }

  /** What the decode rules promise about the values they produce. */
  lemma DecodeRanges(w: Word)
    ensures -3276.7 <= Decode(OutdoorTemp, w).celsius <= 3276.7
    ensures forall f :: f in {SetpointTemp, SetpointTempMax, SetpointTempMin, SupplyTemp, ExtractTemp} ==>
              0.0 <= Decode(f, w).celsius <= 6553.5
    ensures Decode(FilterRemainingHours, w).hours * 3600.0 == w as real
    ensures Decode(FilterRemainingHours, 7200).hours == 2.0
    ensures 1.0 < Decode(FilterRemainingHours, 7199).hours < 2.0
    ensures Decode(OutdoorTemp, 32768).celsius == -3276.7
    ensures Decode(OutdoorTemp, 65535).celsius == 0.0
    ensures forall f :: f in {FilterWarning, Heater, HeatExchanger, Cooler} ==> (Decode(f, w).on <==> w != 0)
  {
  }

  /** The field that reads a register, if any: the inverse of SourceOf. */
  function FieldReading(src: Source): Option<Field>
  {
    if src.bank != BankOf(src.name) then None
    else
      match src.name
      case REG_TC_SP_SATC => Some(SetpointTemp)
      case REG_USERMODE_MODE => Some(UserMode)
      case REG_FILTER_ALARM_WAS_DETECTED => Some(FilterWarning)
      case REG_FILTER_REMAINING_TIME_L => Some(FilterRemainingHours)
      case REG_OUTPUT_Y1_DIGITAL => Some(Heater)
      case REG_OUTPUT_Y1_ANALOG => Some(HeaterState)
      case REG_OUTPUT_Y2_DIGITAL => Some(HeatExchanger)
      case REG_OUTPUT_Y2_ANALOG => Some(HeatExchangerState)
      case REG_OUTPUT_Y3_DIGITAL => Some(Cooler)
      case REG_OUTPUT_Y3_ANALOG => Some(CoolerState)
      case REG_TC_CASCADE_SP_MAX => Some(SetpointTempMax)
      case REG_TC_CASCADE_SP_MIN => Some(SetpointTempMin)
      case REG_SENSOR_RHS_PDM => Some(CurrentHumidity)
      case REG_SENSOR_SAT => Some(SupplyTemp)
      case REG_SENSOR_PDM_EAT_VALUE => Some(ExtractTemp)
      case REG_SENSOR_OAT => Some(OutdoorTemp)
      case REG_USERMODE_MANUAL_AIRFLOW_LEVEL_SAF => Some(FanSpeedSupply)
      case REG_USERMODE_MANUAL_AIRFLOW_LEVEL_EAF => Some(FanSpeedExtract)
      case REG_TC_SP => None
  }

  /** Every field is the one field that reads its register, and the decode
      pass assigns it. */
  lemma SourceInverse(f: Field)
    ensures FieldReading(SourceOf(f)) == Some(f)
    ensures f in FieldOrder
  {
    var i := FieldIndex(f);
    match f {
      case SetpointTemp =>
      case SetpointTempMax =>
      case SetpointTempMin =>
      case CurrentHumidity =>
      case SupplyTemp =>
      case ExtractTemp =>
      case OutdoorTemp =>
      case UserMode =>
      case FilterWarning =>
      case FilterRemainingHours =>
      case Heater =>
      case HeaterState =>
      case HeatExchanger =>
      case HeatExchangerState =>
      case Cooler =>
      case CoolerState =>
      case FanSpeedSupply =>
      case FanSpeedExtract =>
    }
  }

  /** Where a field sits in the order the decode pass assigns them. */
  function FieldIndex(f: Field): (i: nat)
    ensures i < |FieldOrder| && FieldOrder[i] == f
  {
    match f
    case SetpointTemp => 0
    case SetpointTempMax => 1
    case SetpointTempMin => 2
    case CurrentHumidity => 3
    case SupplyTemp => 4
    case ExtractTemp => 5
    case OutdoorTemp => 6
    case UserMode => 7
    case FilterWarning => 8
    case FilterRemainingHours => 9
    case Heater => 10
    case HeaterState => 11
    case HeatExchanger => 12
    case HeatExchangerState => 13
    case Cooler => 14
    case CoolerState => 15
    case FanSpeedSupply => 16
    case FanSpeedExtract => 17
  }

  /** Every field's register is a key of its bank. */
  lemma SourceInCatalogue(f: Field)
    ensures AddrOf(BankLayout(SourceOf(f).bank), SourceOf(f).name).Some?
  {
    var src := SourceOf(f);
    SourceInverse(f);
    BankPositions(src.bank);
    AddrOfAt(BankLayout(src.bank), Position(src.name));
  }

  /** No two fields share a register, and the setpoint register REG_TC_SP is
      read by no field. */
  lemma SourcesDistinct(f: Field, g: Field)
    ensures f != g ==> SourceOf(f) != SourceOf(g)
    ensures SourceOf(f) != Source(HoldingBank, REG_TC_SP)
  {
    SourceInverse(f);
    SourceInverse(g);
  }

  /** The first word of a descriptor, or the fault that subscripting
      `['value'][0]` raises. */
  function FirstWord(regs: seq<Register>, name: RegName): (r: Result<Word, Fault>)
    ensures r.Ok? <==> exists i :: 0 <= i < |regs| && regs[i].name == name && Lookup(regs, name) == Ok(regs[i])
                                     && regs[i].value.Words? && |regs[i].value.words| > 0
    ensures r.Ok? ==> Lookup(regs, name).Ok? && Lookup(regs, name).value.value.Words?
                      && r.value == Lookup(regs, name).value.value.words[0]
    ensures Lookup(regs, name).Err? ==> r == Err(UnknownName(name))
    ensures Lookup(regs, name).Ok? && Lookup(regs, name).value.value == Unread ==> r == Err(NeverRead(name))
    ensures Lookup(regs, name).Ok? && Lookup(regs, name).value.value == Words([]) ==> r == Err(NoWords(name))
  {
    match Lookup(regs, name)
    case Err(e) => Err(e)
    case Ok(reg) =>
      match reg.value
      case Unread => Err(NeverRead(name))
      case Words(ws) => if ws == [] then Err(NoWords(name)) else Ok(ws[0])
  }

  /** The first word of a field's register. */
  function SourceWord(f: Field, input: seq<Register>, holding: seq<Register>): Result<Word, Fault>
  {
    var src := SourceOf(f);
    FirstWord(if src.bank == InputBank then input else holding, src.name)
  }

  /** The value of a field, or Python's None when it was never assigned. */
  function FieldOf(fields: map<Field, FieldValue>, f: Field): (v: Option<FieldValue>)
  {
    if f in fields then Some(fields[f]) else None
  }

  /** The outcome of the decode pass: the fields, and the fault that cut it
      short, if any. */
  datatype Decoded = Decoded(fields: map<Field, FieldValue>, fault: Option<Fault>)

  /** The decode pass: assigns the fields of `order` one after another and
      stops at the first whose register has no word, keeping the fields
      assigned before it. */
  function DecodeFields(order: seq<Field>, fields: map<Field, FieldValue>,
                        input: seq<Register>, holding: seq<Register>): (d: Decoded)
    ensures forall f :: f in fields ==> f in d.fields
    ensures forall f :: f in d.fields ==> f in fields || f in order
  {
    if order == [] then Decoded(fields, None)
    else
      match SourceWord(order[0], input, holding)
      case Err(e) => Decoded(fields, Some(e))
      case Ok(w) => DecodeFields(order[1..], fields[order[0] := Decode(order[0], w)], input, holding)
  }

  /** How many fields of `order`, from the front, have a word to decode. */
  function Readable(order: seq<Field>, input: seq<Register>, holding: seq<Register>): (k: nat)
    ensures k <= |order|
    ensures forall j :: 0 <= j < k ==> SourceWord(order[j], input, holding).Ok?
    ensures k < |order| ==> SourceWord(order[k], input, holding).Err?
  {
    if order == [] || SourceWord(order[0], input, holding).Err? then 0
    else 1 + Readable(order[1..], input, holding)
  }

  /**
   * The decode pass, field by field: the first Readable fields take the value
   * their register's first word decodes to, every other field keeps what it
   * held, and the pass reports a fault exactly when it stopped early, namely
   * the fault of the first field it could not decode.
   */
  lemma {:induction false} DecodeFieldsAt(order: seq<Field>, fields: map<Field, FieldValue>,
                                          input: seq<Register>, holding: seq<Register>)
    ensures var d := DecodeFields(order, fields, input, holding);
            var k := Readable(order, input, holding);
            && (d.fault.None? <==> k == |order|)
            && (k < |order| ==> d.fault == Some(SourceWord(order[k], input, holding).error))
            && (forall f :: f in d.fields <==> f in fields || f in order[..k])
            && (forall f :: f in order[..k] ==>
                  SourceWord(f, input, holding).Ok? &&
                  d.fields[f] == Decode(f, SourceWord(f, input, holding).value))
            && (forall f :: f in fields && f !in order[..k] ==> d.fields[f] == fields[f])
  {
    DecodeFieldsFault(order, fields, input, holding);
    DecodeFieldsKeys(order, fields, input, holding);
    DecodeFieldsValues(order, fields, input, holding);
  }

  /** The fault the decode pass reports is that of the first unreadable field. */
  lemma {:induction false} DecodeFieldsFault(order: seq<Field>, fields: map<Field, FieldValue>,
                                             input: seq<Register>, holding: seq<Register>)
    ensures var d := DecodeFields(order, fields, input, holding);
            var k := Readable(order, input, holding);
            && (d.fault.None? <==> k == |order|)
            && (k < |order| ==> d.fault == Some(SourceWord(order[k], input, holding).error))
  {
    if order != [] && SourceWord(order[0], input, holding).Ok? {
      var f0 := order[0];
      var w := SourceWord(f0, input, holding).value;
      var m := fields[f0 := Decode(f0, w)];
      DecodeFieldsFault(order[1..], m, input, holding);
      assert DecodeFields(order, fields, input, holding) == DecodeFields(order[1..], m, input, holding);
      assert Readable(order, input, holding) == 1 + Readable(order[1..], input, holding);
      assert order[1..][Readable(order[1..], input, holding)..] == order[Readable(order, input, holding)..];
    }
  }

  /** The decode pass assigns exactly the readable prefix of `order`. */
  lemma {:induction false} DecodeFieldsKeys(order: seq<Field>, fields: map<Field, FieldValue>,
                                            input: seq<Register>, holding: seq<Register>)
    ensures var d := DecodeFields(order, fields, input, holding);
            var k := Readable(order, input, holding);
            forall f :: f in d.fields <==> f in fields || f in order[..k]
  {
    if order != [] && SourceWord(order[0], input, holding).Ok? {
      var f0 := order[0];
      var w := SourceWord(f0, input, holding).value;
      var m := fields[f0 := Decode(f0, w)];
      DecodeFieldsKeys(order[1..], m, input, holding);
      var k := Readable(order, input, holding);
      var d := DecodeFields(order[1..], m, input, holding);
      assert DecodeFields(order, fields, input, holding) == d;
      assert k == 1 + Readable(order[1..], input, holding);
      PrefixSplit(order, k);
      forall f ensures f in d.fields <==> f in fields || f in order[..k] {
        assert f in m <==> f in fields || f == f0;
        assert f in order[..k] <==> f == f0 || f in order[1..][..k - 1];
      }
    }
  }

  /** Each field of the readable prefix holds its decoded word; every other
      field keeps its value. */
  lemma DecodeFieldsValues(order: seq<Field>, fields: map<Field, FieldValue>,
                           input: seq<Register>, holding: seq<Register>)
    ensures var d := DecodeFields(order, fields, input, holding);
            var k := Readable(order, input, holding);
            && (forall f :: f in order[..k] ==>
                  SourceWord(f, input, holding).Ok? &&
                  f in d.fields && d.fields[f] == Decode(f, SourceWord(f, input, holding).value))
            && (forall f :: f in fields && f !in order[..k] ==> f in d.fields && d.fields[f] == fields[f])
  {
    var k := Readable(order, input, holding);
    forall f | f in order[..k] {
      DecodeFieldNew(order, fields, input, holding, f);
    }
    forall f | f in fields && f !in order[..k] {
      DecodeFieldKept(order, fields, input, holding, f);
    }
  }

  /** A field of the readable prefix holds its decoded word. */
  lemma {:induction false} DecodeFieldNew(order: seq<Field>, fields: map<Field, FieldValue>,
                                          input: seq<Register>, holding: seq<Register>, f: Field)
    requires f in order[..Readable(order, input, holding)]
    ensures SourceWord(f, input, holding).Ok?
    ensures var d := DecodeFields(order, fields, input, holding);
            f in d.fields && d.fields[f] == Decode(f, SourceWord(f, input, holding).value)
  {
    var f0 := order[0];
    var w := SourceWord(f0, input, holding).value;
    var m := fields[f0 := Decode(f0, w)];
    var k := Readable(order, input, holding);
    assert k == 1 + Readable(order[1..], input, holding);
    PrefixSplit(order, k);
    if f in order[1..][..k - 1] {
      DecodeFieldNew(order[1..], m, input, holding, f);
    } else {
      DecodeFieldKept(order[1..], m, input, holding, f);
    }
  }

  /** A field outside the readable prefix keeps its value. */
  lemma {:induction false} DecodeFieldKept(order: seq<Field>, fields: map<Field, FieldValue>,
                                           input: seq<Register>, holding: seq<Register>, f: Field)
    requires f in fields && f !in order[..Readable(order, input, holding)]
    ensures var d := DecodeFields(order, fields, input, holding);
            f in d.fields && d.fields[f] == fields[f]
  {
    if order != [] && SourceWord(order[0], input, holding).Ok? {
      var f0 := order[0];
      var w := SourceWord(f0, input, holding).value;
      var m := fields[f0 := Decode(f0, w)];
      var k := Readable(order, input, holding);
      assert k == 1 + Readable(order[1..], input, holding);
      PrefixSplit(order, k);
      DecodeFieldKept(order[1..], m, input, holding, f);
    }
  }

  /** The decode pass over all fields: it reports no fault exactly when
      every field's register has a word, and then every field holds the
      decoding of that word. */
  lemma DecodeAll(fields: map<Field, FieldValue>, input: seq<Register>, holding: seq<Register>)
    ensures var d := DecodeFields(FieldOrder, fields, input, holding);
            && (d.fault.None? <==> forall f :: f in FieldOrder ==> SourceWord(f, input, holding).Ok?)
            && (d.fault.None? ==> forall f: Field ::
                  f in d.fields && SourceWord(f, input, holding).Ok? &&
                  d.fields[f] == Decode(f, SourceWord(f, input, holding).value))
  {
    var k := Readable(FieldOrder, input, holding);
    DecodeFieldsFault(FieldOrder, fields, input, holding);
    if k < |FieldOrder| {
      assert FieldOrder[k] in FieldOrder;
    } else {
      assert FieldOrder[..k] == FieldOrder;
      forall f: Field
        ensures f in FieldOrder[..k]
      {
        var i := FieldIndex(f);
      }
      DecodeFieldsValues(FieldOrder, fields, input, holding);
    }
  }

  /** A non-empty prefix is its first element before the rest's prefix. */
  lemma PrefixSplit(s: seq<Field>, k: nat)
    requires 1 <= k <= |s|
    ensures s[..k] == [s[0]] + s[1..][..k - 1]
  {
  }

  /** Decoding twice over the same banks gives what decoding once gives. */
  lemma DecodeFieldsIdempotent(order: seq<Field>, fields: map<Field, FieldValue>,
                               input: seq<Register>, holding: seq<Register>)
    ensures var d := DecodeFields(order, fields, input, holding);
            DecodeFields(order, d.fields, input, holding) == d
  {
    var d := DecodeFields(order, fields, input, holding);
    assert DecodeFields(order, d.fields, input, holding).fault == d.fault by {
      DecodeFieldsFault(order, fields, input, holding);
      DecodeFieldsFault(order, d.fields, input, holding);
    }
    DecodeFieldsAgain(order, fields, input, holding);
  }

  /** The fields of DecodeFieldsIdempotent: decoding again assigns no new
      field and leaves every field as the first pass left it. */
  lemma DecodeFieldsAgain(order: seq<Field>, fields: map<Field, FieldValue>,
                          input: seq<Register>, holding: seq<Register>)
    ensures var d := DecodeFields(order, fields, input, holding);
            DecodeFields(order, d.fields, input, holding).fields == d.fields
  {
    var d := DecodeFields(order, fields, input, holding);
    var d2 := DecodeFields(order, d.fields, input, holding);
    assert d2.fields.Keys == d.fields.Keys by {
      DecodeFieldsKeys(order, fields, input, holding);
      DecodeFieldsKeys(order, d.fields, input, holding);
    }
    forall f | f in d.fields ensures f in d2.fields && d2.fields[f] == d.fields[f] {
      DecodeFieldAgain(order, fields, input, holding, f);
    }
  }

  /** One field of DecodeFieldsIdempotent: decoding again leaves it as the
      first pass left it. */
  lemma DecodeFieldAgain(order: seq<Field>, fields: map<Field, FieldValue>,
                         input: seq<Register>, holding: seq<Register>, f: Field)
    requires f in DecodeFields(order, fields, input, holding).fields
    ensures var d := DecodeFields(order, fields, input, holding);
            var d2 := DecodeFields(order, d.fields, input, holding);
            f in d2.fields && d2.fields[f] == d.fields[f]
  {
    var d := DecodeFields(order, fields, input, holding);
    var k := Readable(order, input, holding);
    if f in order[..k] {
      DecodeFieldNew(order, fields, input, holding, f);
      DecodeFieldNew(order, d.fields, input, holding, f);
    } else {
      DecodeFieldKept(order, d.fields, input, holding, f);
    }
  }
}
