/**
 The X-series control table as the driver uses it: register addresses, the nineteen registers a
 joint parameter may set, and the window one sync read covers.
 */
module ControlTable {
  const OPERATING_MODE := 11
  const HOMING_OFFSET := 20
  const TORQUE_ENABLE := 64
  const HARDWARE_ERROR_STATUS := 70
  const GOAL_POSITION := 116
  const MOVING := 122
  const PRESENT_PWM := 124
  const PRESENT_VELOCITY := 128
  const PRESENT_POSITION := 132
  const PRESENT_INPUT_VOLTAGE := 144
  const PRESENT_TEMPERATURE := 146
  const SYNC_READ_START := MOVING
  const SYNC_READ_LENGTH := 25
  const GOAL_POSITION_LENGTH := 4
  const EEPROM_END := 64

  type Address = a: nat | a < 0x1_0000

  datatype RegisterSpec = RegisterSpec(param: string, address: Address, size: nat, eeprom: bool)

  const WRITABLE_REGISTERS: seq<RegisterSpec> := [
    RegisterSpec("drive_mode", 10, 1, true),
    RegisterSpec("homing_offset", 20, 4, true),
    RegisterSpec("temperature_limit", 31, 1, true),
    RegisterSpec("max_voltage_limit", 32, 2, true),
    RegisterSpec("min_voltage_limit", 34, 2, true),
    RegisterSpec("pwm_limit", 36, 2, true),
    RegisterSpec("current_limit", 38, 2, true),
    RegisterSpec("velocity_limit", 44, 4, true),
    RegisterSpec("max_position_limit", 48, 4, true),
    RegisterSpec("min_position_limit", 52, 4, true),
    RegisterSpec("shutdown", 63, 1, true),
    RegisterSpec("velocity_i_gain", 76, 2, false),
    RegisterSpec("velocity_p_gain", 78, 2, false),
    RegisterSpec("position_d_gain", 80, 2, false),
    RegisterSpec("position_i_gain", 82, 2, false),
    RegisterSpec("position_p_gain", 84, 2, false),
    RegisterSpec("goal_current", 102, 2, false),
    RegisterSpec("profile_acceleration", 108, 4, false),
    RegisterSpec("profile_velocity", 112, 4, false)]

  function OperatingModeValue(mode: string): nat {
    if mode == "current" then 0
    else if mode == "velocity" then 1
    else if mode == "position" then 3
    else if mode == "extended_position" then 4
    else if mode == "current_based_position" then 5
    else if mode == "pwm" then 16
    else 3
  }

  predicate Disjoint(a: nat, n: nat, b: nat, m: nat) {
    a + n <= b || b + m <= a
  }

  predicate SupportedSize(size: nat) {
    size == 1 || size == 2 || size == 4
  }

  /** Ranges in ascending order, each ending before the next begins. */
  predicate Ascending(specs: seq<RegisterSpec>) {
    forall i :: 0 <= i < |specs| - 1 ==> specs[i].address + specs[i].size <= specs[i + 1].address
  }

  lemma {:induction false} AscendingApart(specs: seq<RegisterSpec>, i: nat, j: nat)
    requires Ascending(specs) && i < j < |specs|
    ensures specs[i].address + specs[i].size <= specs[j].address
    decreases j
  {
    if i + 1 < j {
      AscendingApart(specs, i, j - 1);
    }
  }

  /** No register of the table overlaps the operating mode, the torque byte or the goal position. */
  lemma RegisterLayout(i: nat)
    requires i < |WRITABLE_REGISTERS|
    ensures var r := WRITABLE_REGISTERS[i];
            && SupportedSize(r.size) && r.address + r.size <= GOAL_POSITION
            && Disjoint(r.address, r.size, OPERATING_MODE, 1)
            && Disjoint(r.address, r.size, TORQUE_ENABLE, 1)
            && r.eeprom == (r.address < EEPROM_END)
            && (r.eeprom ==> r.address + r.size <= EEPROM_END)
  {
  }

  /** No two registers of the table share a byte. */
  lemma RegistersDisjoint(i: nat, j: nat)
    requires i < |WRITABLE_REGISTERS| && j < |WRITABLE_REGISTERS| && i != j
    ensures var r, s := WRITABLE_REGISTERS[i], WRITABLE_REGISTERS[j];
            Disjoint(r.address, r.size, s.address, s.size)
  {
    TableAscends();
    AscendingApart(WRITABLE_REGISTERS, if i < j then i else j, if i < j then j else i);
  }

  lemma TableAscends()
    ensures Ascending(WRITABLE_REGISTERS)
  {
  }
}
