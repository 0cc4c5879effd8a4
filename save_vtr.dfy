/**
 * The driver's unit object: it holds the client connection, the slave
 * number, the eager-refresh flag, the two module-level register maps
 * (shared, not copied) and the decoded fields; it refreshes them, reads them
 * lazily or eagerly, and writes holding registers.
 */
module SaveVtr {
  import opened Wrappers
  import opened Modbus
  import opened Catalogue
  import opened Decoding
  import opened Refresh

  class SaveVtrUnit {
    const conn: ModbusClient
    const slave: int
    const updateOnRead: bool
    const inputRegs: RegisterMap
    const holdingRegs: RegisterMap
    /** The decoded fields; a field absent from the map is still None. */
    var fields: map<Field, FieldValue>

    /** The two maps are distinct objects holding the catalogue's keys and
        addresses in insertion order. */
    ghost predicate Valid()
      reads this, inputRegs, holdingRegs
    {
      && inputRegs != holdingRegs
      && Layout(inputRegs.entries) == InputLayout
      && Layout(holdingRegs.entries) == HoldingLayout
    }

    /** The unit, its maps and its connection, as one value. */
    ghost function State(): UnitState
      reads this, inputRegs, holdingRegs, conn
    {
      UnitState(inputRegs.entries, holdingRegs.entries, fields, conn.replies, conn.requests)
    }

    /** Binds a unit to a connection and to the module's two maps, which it
        aliases; every field starts as None. */
    constructor (conn: ModbusClient, slave: int, inputRegs: RegisterMap, holdingRegs: RegisterMap,
                 updateOnRead: bool := false)
      requires inputRegs != holdingRegs
      requires Layout(inputRegs.entries) == InputLayout
      requires Layout(holdingRegs.entries) == HoldingLayout
      ensures Valid()
      ensures this.conn == conn && this.slave == slave && this.updateOnRead == updateOnRead
      ensures this.inputRegs == inputRegs && this.holdingRegs == holdingRegs
      ensures fields == map[]
    {
      this.conn := conn;
      this.slave := slave;
      this.inputRegs := inputRegs;
      this.holdingRegs := holdingRegs;
      this.updateOnRead := updateOnRead;
      this.fields := map[];
    }

    /** One of update()'s two loops: reads every descriptor of `bank` in
        order and stops at the first read that brings no words. */
    method ReadBank(bank: RegisterMap) returns (ok: bool)
      modifies bank, conn
      ensures var p := ReadLoop(old(bank.entries), old(conn.replies));
              && bank.entries == p.regs && ok == p.ok
              && conn.replies == Drop(old(conn.replies), p.attempts)
              && conn.requests == old(conn.requests) + ReadRequests(slave, old(bank.entries)[..p.attempts])
    {
      ghost var regs := bank.entries;
      ghost var replies := conn.replies;
      ghost var requests := conn.requests;
      var n := |bank.entries|;
      ok := true;
      var i := 0;
      while ok && i < n
        invariant 0 <= i <= n == |bank.entries| == |regs|
        invariant forall j :: 0 <= j < i ==> ReplyAt(replies, j).Some?
        invariant !ok ==> i < n && ReplyAt(replies, i).None?
        invariant forall j :: 0 <= j < n ==>
                    bank.entries[j] == if j < i then Store(regs[j], ReplyAt(replies, j)) else regs[j]
        invariant conn.replies == Drop(replies, if ok then i else i + 1)
        invariant conn.requests == requests + ReadRequests(slave, regs[..if ok then i else i + 1])
      {
        assert bank.entries[i] == regs[i];
        assert ReadRequests(slave, regs[..i + 1])
            == ReadRequests(slave, regs[..i]) + [ReadHoldingRegisters(slave, regs[i].addr, 1)];
        var reply := conn.ReadHoldingRegisters(slave, bank.entries[i].addr, 1);
        RestOfDrop(replies, i);
        match reply {
          case None =>
            ok := false;
          case Some(ws) =>
            bank.entries := bank.entries[i := bank.entries[i].(value := Words(ws))];
            i := i + 1;
        }
      }
      ReadLoopFromSteps(regs, replies, bank.entries, i, ok);
    }

    /**
     * update(): reads every descriptor, the input map first and then the
     * holding map, and stops at the first read that brings no words; then
     * decodes every field from the words the maps hold, raising the fault of
     * the first field whose register has no word. Returns whether every read
     * succeeded.
     */
    method Update() returns (r: Result<bool, Fault>)
      requires Valid()
      modifies this, inputRegs, holdingRegs, conn
      ensures Valid()
      ensures var step := UpdateStep(slave, old(State()));
              State() == step.state && r == step.outcome
    {
      ghost var s := State();
      var ok := ReadBank(inputRegs);
      if ok {
        assert s.input[..|s.input|] == s.input;
        ok := ReadBank(holdingRegs);
        ReadPhaseBothBanks(slave, s);
        ReadPhaseBothBanksReplies(slave, s);
        ReadPhaseBothBanksRequests(slave, s);
      } else {
        ReadPhaseInputFails(slave, s);
      }
      assert State() == ReadPhase(slave, s).state && Ok(ok) == ReadPhase(slave, s).outcome;
      UpdateKeepsLayout(slave, s);
      var d := DecodeFields(FieldOrder, fields, inputRegs.entries, holdingRegs.entries);
      fields := d.fields;
      r := if d.fault.Some? then Err(d.fault.value) else Ok(ok);
    }

    /**
     * The typed properties (get_supply_temp, get_user_mode, ...): when the
     * unit refreshes on read, update() runs first and its result is ignored,
     * though a fault it raises propagates; otherwise the cached field is
     * returned and nothing is sent.
     */
    method Get(f: Field) returns (r: Result<Option<FieldValue>, Fault>)
      requires Valid()
      modifies this, inputRegs, holdingRegs, conn
      ensures Valid()
      ensures !updateOnRead ==> State() == old(State()) && r == Ok(FieldOf(fields, f))
      ensures updateOnRead ==>
                var step := UpdateStep(slave, old(State()));
                && State() == step.state
                && r == if step.outcome.Err? then Err(step.outcome.error) else Ok(FieldOf(step.state.fields, f))
    {
      if updateOnRead {
        var u := Update();
        if u.Err? {
          return Err(u.error);
        }
      }
      r := Ok(FieldOf(fields, f));
    }

    /** get_raw_input_register: the descriptor stored under `name` in the
        input map, after an eager update() when the unit refreshes on read. */
    method GetRawInputRegister(name: RegName) returns (r: Result<Register, Fault>)
      requires Valid()
      modifies this, inputRegs, holdingRegs, conn
      ensures Valid()
      ensures !updateOnRead ==> State() == old(State()) && r == Lookup(inputRegs.entries, name)
      ensures updateOnRead ==>
                var step := UpdateStep(slave, old(State()));
                && State() == step.state
                && r == if step.outcome.Err? then Err(step.outcome.error) else Lookup(step.state.input, name)
      ensures r.Ok? ==> r.value.name == name && AddrOf(InputLayout, name) == Some(r.value.addr)
      ensures AddrOf(InputLayout, name).None? ==> r.Err?
    {
      if updateOnRead {
        var u := Update();
        if u.Err? {
          return Err(u.error);
        }
      }
      r := Lookup(inputRegs.entries, name);
      LookupFollowsLayout(inputRegs.entries, name);
    }

    /** get_raw_holding_register: the same, on the holding map. */
    method GetRawHoldingRegister(name: RegName) returns (r: Result<Register, Fault>)
      requires Valid()
      modifies this, inputRegs, holdingRegs, conn
      ensures Valid()
      ensures !updateOnRead ==> State() == old(State()) && r == Lookup(holdingRegs.entries, name)
      ensures updateOnRead ==>
                var step := UpdateStep(slave, old(State()));
                && State() == step.state
                && r == if step.outcome.Err? then Err(step.outcome.error) else Lookup(step.state.holding, name)
      ensures r.Ok? ==> r.value.name == name && AddrOf(HoldingLayout, name) == Some(r.value.addr)
      ensures AddrOf(HoldingLayout, name).None? ==> r.Err?
    {
      if updateOnRead {
        var u := Update();
        if u.Err? {
          return Err(u.error);
        }
      }
      r := Lookup(holdingRegs.entries, name);
      LookupFollowsLayout(holdingRegs.entries, name);
    }

    /** set_raw_holding_register: one write of `value`, unencoded, to the
        address of the holding key `name`; an unknown key raises before
        anything is sent. */
    method SetRawHoldingRegister(name: RegName, value: int) returns (raised: Option<Fault>)
      requires Valid()
      modifies conn
      ensures match AddrOf(HoldingLayout, name)
              case None => raised == Some(UnknownName(name)) && State() == old(State())
              case Some(a) =>
                raised == None &&
                State() == old(State()).(requests := old(conn.requests) + [WriteRegister(slave, a, value)])
    {
      var reg := Lookup(holdingRegs.entries, name);
      LookupFollowsLayout(holdingRegs.entries, name);
      match reg
      case Err(e) =>
        raised := Some(e);
      case Ok(d) =>
        conn.WriteRegister(slave, d.addr, value);
        raised := None;
    }

    /** set_fan_speed_supply: one write of the level, unencoded, to
        REG_USERMODE_MANUAL_AIRFLOW_LEVEL_SAF (address 1130). */
    method SetFanSpeedSupply(fan: int)
      requires Valid()
      modifies conn
      ensures State() == old(State()).(requests := old(conn.requests) + [WriteRegister(slave, 1130, fan)])
    {
      var reg := Lookup(holdingRegs.entries, REG_USERMODE_MANUAL_AIRFLOW_LEVEL_SAF);
      LookupKey(holdingRegs.entries, REG_USERMODE_MANUAL_AIRFLOW_LEVEL_SAF);
      conn.WriteRegister(slave, reg.value.addr, fan);
    }

    /** set_fan_speed_extract: one write of the level, unencoded, to
        REG_USERMODE_MANUAL_AIRFLOW_LEVEL_EAF (address 1131). */
    method SetFanSpeedExtract(fan: int)
      requires Valid()
      modifies conn
      ensures State() == old(State()).(requests := old(conn.requests) + [WriteRegister(slave, 1131, fan)])
    {
      var reg := Lookup(holdingRegs.entries, REG_USERMODE_MANUAL_AIRFLOW_LEVEL_EAF);
      LookupKey(holdingRegs.entries, REG_USERMODE_MANUAL_AIRFLOW_LEVEL_EAF);
      conn.WriteRegister(slave, reg.value.addr, fan);
    }

    /** set_setpoint_temp: one write of round(temp * 10.0) to REG_TC_SP
        (address 2000). */
    method SetSetpointTemp(temp: real)
      requires Valid()
      modifies conn
      ensures State() == old(State()).(requests := old(conn.requests) + [WriteRegister(slave, 2000, EncodeTenths(temp))])
    {
      var reg := Lookup(holdingRegs.entries, REG_TC_SP);
      LookupKey(holdingRegs.entries, REG_TC_SP);
      conn.WriteRegister(slave, reg.value.addr, EncodeTenths(temp));
    }

    /** set_setpoint_temp_max: one write of round(temp * 10.0) to
        REG_TC_CASCADE_SP_MAX (address 2021). */
    method SetSetpointTempMax(temp: real)
      requires Valid()
      modifies conn
      ensures State() == old(State()).(requests := old(conn.requests) + [WriteRegister(slave, 2021, EncodeTenths(temp))])
    {
      var reg := Lookup(holdingRegs.entries, REG_TC_CASCADE_SP_MAX);
      LookupKey(holdingRegs.entries, REG_TC_CASCADE_SP_MAX);
      conn.WriteRegister(slave, reg.value.addr, EncodeTenths(temp));
    }

    /** set_setpoint_temp_min: one write of round(temp * 10.0) to
        REG_TC_CASCADE_SP_MIN (address 2020). */
    method SetSetpointTempMin(temp: real)
      requires Valid()
      modifies conn
      ensures State() == old(State()).(requests := old(conn.requests) + [WriteRegister(slave, 2020, EncodeTenths(temp))])
    {
      var reg := Lookup(holdingRegs.entries, REG_TC_CASCADE_SP_MIN);
      LookupKey(holdingRegs.entries, REG_TC_CASCADE_SP_MIN);
      conn.WriteRegister(slave, reg.value.addr, EncodeTenths(temp));
    }
  }
}
