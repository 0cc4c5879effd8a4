/**
 * The register catalogue: the two module-level dictionaries of the driver,
 * one for the input bank and one for the holding bank, each mapping a
 * register name to its address and to the words last read from it.
 */
module Catalogue {
  import opened Wrappers
  import opened Modbus

  /** The keys of the two dictionaries: ten in the input bank, nine in the
      holding bank. */
  datatype RegName =
    | REG_FILTER_REMAINING_TIME_L | REG_OUTPUT_Y3_DIGITAL | REG_OUTPUT_Y3_ANALOG
    | REG_OUTPUT_Y2_DIGITAL | REG_OUTPUT_Y2_ANALOG | REG_OUTPUT_Y1_DIGITAL
    | REG_OUTPUT_Y1_ANALOG | REG_FILTER_ALARM_WAS_DETECTED | REG_TC_SP_SATC
    | REG_USERMODE_MODE
    | REG_USERMODE_MANUAL_AIRFLOW_LEVEL_SAF | REG_USERMODE_MANUAL_AIRFLOW_LEVEL_EAF
    | REG_TC_SP | REG_SENSOR_RHS_PDM | REG_SENSOR_PDM_EAT_VALUE | REG_SENSOR_SAT
    | REG_SENSOR_OAT | REG_TC_CASCADE_SP_MIN | REG_TC_CASCADE_SP_MAX

  /** A catalogue key with its fixed address. */
  datatype Slot = Slot(name: RegName, addr: nat)

  /** A descriptor's 'value': the integer 0 every descriptor starts with, or
      the word list of the last successful read. */
  datatype RegValue = Unread | Words(words: seq<Word>)

  /** One descriptor: its key, its 'addr' and its 'value'. */
  datatype Register = Register(name: RegName, addr: nat, value: RegValue)

  /** Why a dictionary access of the driver raises: a missing key (KeyError),
      a subscript of the initial integer 0 (TypeError), or a subscript of an
      empty word list (IndexError). */
  datatype Fault = UnknownName(name: RegName) | NeverRead(name: RegName) | NoWords(name: RegName)

  /** The keys and addresses of the input bank, in insertion order. */
  const InputLayout: seq<Slot> := [
    Slot(REG_FILTER_REMAINING_TIME_L, 7004),
    Slot(REG_OUTPUT_Y3_DIGITAL, 14201),
    Slot(REG_OUTPUT_Y3_ANALOG, 14200),
    Slot(REG_OUTPUT_Y2_DIGITAL, 14103),
    Slot(REG_OUTPUT_Y2_ANALOG, 14102),
    Slot(REG_OUTPUT_Y1_DIGITAL, 14101),
    Slot(REG_OUTPUT_Y1_ANALOG, 14100),
    Slot(REG_FILTER_ALARM_WAS_DETECTED, 7006),
    Slot(REG_TC_SP_SATC, 2053),
    Slot(REG_USERMODE_MODE, 1160)
  ]

  /** The keys and addresses of the holding bank, in insertion order. */
  const HoldingLayout: seq<Slot> := [
    Slot(REG_USERMODE_MANUAL_AIRFLOW_LEVEL_SAF, 1130),
    Slot(REG_USERMODE_MANUAL_AIRFLOW_LEVEL_EAF, 1131),
    Slot(REG_TC_SP, 2000),
    Slot(REG_SENSOR_RHS_PDM, 12135),
    Slot(REG_SENSOR_PDM_EAT_VALUE, 12543),
    Slot(REG_SENSOR_SAT, 12102),
    Slot(REG_SENSOR_OAT, 12101),
    Slot(REG_TC_CASCADE_SP_MIN, 2020),
    Slot(REG_TC_CASCADE_SP_MAX, 2021)
  ]

  /** The two banks: the input registers and the holding registers. */
  datatype Bank = InputBank | HoldingBank

  /** The bank whose dictionary holds a key. */
  function BankOf(name: RegName): Bank
  {
    match name
    case REG_FILTER_REMAINING_TIME_L | REG_OUTPUT_Y3_DIGITAL | REG_OUTPUT_Y3_ANALOG
       | REG_OUTPUT_Y2_DIGITAL | REG_OUTPUT_Y2_ANALOG | REG_OUTPUT_Y1_DIGITAL
       | REG_OUTPUT_Y1_ANALOG | REG_FILTER_ALARM_WAS_DETECTED | REG_TC_SP_SATC
       | REG_USERMODE_MODE => InputBank
    case _ => HoldingBank
  }

  /** The keys and addresses of a bank. */
  function BankLayout(bank: Bank): seq<Slot>
  {
    if bank == InputBank then InputLayout else HoldingLayout
  }

  /** Where a key sits in its own bank: every key is in the bank BankOf
      names for it. */
  function Position(name: RegName): (i: nat)
    ensures i < |BankLayout(BankOf(name))| && BankLayout(BankOf(name))[i].name == name
  {
    match name
    case REG_FILTER_REMAINING_TIME_L => 0
    case REG_OUTPUT_Y3_DIGITAL => 1
    case REG_OUTPUT_Y3_ANALOG => 2
    case REG_OUTPUT_Y2_DIGITAL => 3
    case REG_OUTPUT_Y2_ANALOG => 4
    case REG_OUTPUT_Y1_DIGITAL => 5
    case REG_OUTPUT_Y1_ANALOG => 6
    case REG_FILTER_ALARM_WAS_DETECTED => 7
    case REG_TC_SP_SATC => 8
    case REG_USERMODE_MODE => 9
    case REG_USERMODE_MANUAL_AIRFLOW_LEVEL_SAF => 0
    case REG_USERMODE_MANUAL_AIRFLOW_LEVEL_EAF => 1
    case REG_TC_SP => 2
    case REG_SENSOR_RHS_PDM => 3
    case REG_SENSOR_PDM_EAT_VALUE => 4
    case REG_SENSOR_SAT => 5
    case REG_SENSOR_OAT => 6
    case REG_TC_CASCADE_SP_MIN => 7
    case REG_TC_CASCADE_SP_MAX => 8
  }

  /** The keys and addresses of a bank, forgetting the values. */
  function Layout(regs: seq<Register>): seq<Slot>
  {
    seq(|regs|, i requires 0 <= i < |regs| => Slot(regs[i].name, regs[i].addr))
  }

  /** A bank as the module creates it: every 'value' is the integer 0. */
  function Initial(layout: seq<Slot>): (regs: seq<Register>)
    ensures Layout(regs) == layout
    ensures forall i :: 0 <= i < |regs| ==> regs[i].value == Unread
  {
    seq(|layout|, i requires 0 <= i < |layout| => Register(layout[i].name, layout[i].addr, Unread))
  }

  predicate UniqueNames(layout: seq<Slot>)
  {
    forall i, j :: 0 <= i < j < |layout| ==> layout[i].name != layout[j].name
  }

  /** The address a layout gives a key, if the key is there. */
  function AddrOf(layout: seq<Slot>, name: RegName): Option<nat>
  {
    if layout == [] then None
    else if layout[0].name == name then Some(layout[0].addr)
    else AddrOf(layout[1..], name)
  }

  /** Dictionary subscript by key: the descriptor stored under `name`, or
      KeyError. */
  function Lookup(regs: seq<Register>, name: RegName): (r: Result<Register, Fault>)
    ensures r.Ok? ==> r.value in regs && r.value.name == name
    ensures r.Err? ==> r.error == UnknownName(name) && forall i :: 0 <= i < |regs| ==> regs[i].name != name
  {
    if regs == [] then Err(UnknownName(name))
    else if regs[0].name == name then Ok(regs[0])
    else Lookup(regs[1..], name)
  }

  /** A lookup in a bank finds a key exactly when its layout holds that key,
      and then reports the layout's address for it. */
  lemma {:induction false} LookupFollowsLayout(regs: seq<Register>, name: RegName)
    ensures Lookup(regs, name).Ok? <==> AddrOf(Layout(regs), name).Some?
    ensures Lookup(regs, name).Ok? ==> Lookup(regs, name).value.addr == AddrOf(Layout(regs), name).value
  {
    if regs != [] {
      LookupFollowsLayout(regs[1..], name);
      assert Layout(regs[1..]) == Layout(regs)[1..];
    }
  }

  /** In a bank whose keys are unique, the lookup of the i-th key finds the
      i-th descriptor. */
  lemma {:induction false} LookupAt(regs: seq<Register>, i: nat)
    requires UniqueNames(Layout(regs))
    requires i < |regs|
    ensures Lookup(regs, regs[i].name) == Ok(regs[i])
  {
    if i > 0 {
      assert regs[0].name != regs[i].name by {
        assert Layout(regs)[0].name == regs[0].name && Layout(regs)[i].name == regs[i].name;
      }
      assert UniqueNames(Layout(regs[1..])) by {
        assert Layout(regs[1..]) == Layout(regs)[1..];
      }
      LookupAt(regs[1..], i - 1);
    }
  }

  /** No key appears twice in either bank, and every address fits in one
      16-bit register address. */
  lemma LayoutsWellFormed()
    ensures UniqueNames(InputLayout) && UniqueNames(HoldingLayout)
    ensures forall s :: s in InputLayout + HoldingLayout ==> s.addr < 0x1_0000
  {
    BankPositions(InputBank);
    BankPositions(HoldingBank);
  }

  /** Each key of a bank belongs to that bank and sits at its own position,
      so no key is listed twice. */
  lemma BankPositions(bank: Bank)
    ensures forall i :: 0 <= i < |BankLayout(bank)| ==>
              BankOf(BankLayout(bank)[i].name) == bank && Position(BankLayout(bank)[i].name) == i
    ensures UniqueNames(BankLayout(bank))
  {
    var layout := BankLayout(bank);
    forall i | 0 <= i < |layout|
      ensures BankOf(layout[i].name) == bank && Position(layout[i].name) == i
    {
      if bank == InputBank {
        assert layout[i] == InputLayout[i];
      } else {
        assert layout[i] == HoldingLayout[i];
      }
    }
  }

  /** In a bank laid out as the catalogue says, a key's lookup finds the
      descriptor at the key's position, with the catalogue's address. */
  lemma LookupKey(regs: seq<Register>, name: RegName)
    requires Layout(regs) == BankLayout(BankOf(name))
    ensures Position(name) < |regs|
    ensures Lookup(regs, name) == Ok(regs[Position(name)])
    ensures regs[Position(name)].addr == BankLayout(BankOf(name))[Position(name)].addr
  {
    var i := Position(name);
    BankPositions(BankOf(name));
    assert regs[i].name == Layout(regs)[i].name == name;
    assert regs[i].addr == Layout(regs)[i].addr;
    LookupAt(regs, i);
  }

  /** In a layout whose keys are unique, the i-th key's address is the i-th
      address. */
  lemma {:induction false} AddrOfAt(layout: seq<Slot>, i: nat)
    requires UniqueNames(layout)
    requires i < |layout|
    ensures AddrOf(layout, layout[i].name) == Some(layout[i].addr)
  {
    if i > 0 {
      AddrOfAt(layout[1..], i - 1);
    }
  }

  /**
   * A module-level dictionary. It is one object, shared by every unit that
   * is built from it; only the 'value' of its descriptors ever changes.
   */
  class RegisterMap {
    var entries: seq<Register>

    constructor (layout: seq<Slot>)
      ensures entries == Initial(layout)
    {
      entries := Initial(layout);
    }
  }
}
