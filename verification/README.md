# A verified model of the DYNAMIXEL driver and its teleoperation tools

This Dafny project models the parts of omx_arm that move hardware: the serial-bus driver for
DYNAMIXEL X-series motors, the ros2_control component on top of it, the leader/follower mirror and
the interactive jog tool. `dafny verify dfyconfig.toml` checks all of it.

## How the model is built

- **Motors and line** (`Wire.dfy`). A motor is a control table of bytes and a shaft position; what a
  host reads as present position is the shaft's plus the homing offset. The EEPROM area (addresses
  below 64) is writable only with torque off. Each transaction consumes one entry of a *script* that
  says whether the request and the reply get through, whether the motor declines the write for a
  reason of its own and which motors miss a group packet. All theorems hold for every script, so for
  every pattern of communication failure. Every packet is recorded in a trace, with whether the host
  saw it succeed and whether the motor carried it out. Id 254 is the protocol's broadcast id: a write to
  it reaches every motor and no reply is awaited; no motor has it.
- **Assumed of the motors and the line.** A reboot leaves torque off, keeps the EEPROM and reloads the
  other bytes; a motor never switches its own torque on. Both carry the theorems about read-only joints.
  A motor replies to a write that it declines. A sync read may succeed for any group, also an empty one.
- **Bus driver** (`BusModel.dfy`, `Bus.dfy`). `Bus.DynamixelBus` has the program's fields and loops.
  Each method's contract gives the whole new state and world as a function of module `BusModel`, and
  the `*Proofs` modules prove what the driver promises about those functions. Every public bus method
  of the program holds the port mutex throughout, so a bus call is one atomic step.
- **Hardware component** (`DriverModel.dfy`, `Driver.dfy`). The lifecycle callbacks, the read and
  write cycles and the service handlers. `DriverProofs.Run` interleaves them, with activation,
  deactivation and broadcast services taken apart into single bus steps and with the motors moving on
  their own in between. `RunProofs` and `ReportProofs` say over such runs what is cached, reported and
  commanded, and `OutcomeProofs` when a callback or service succeeds and what it has sent by then.
- **Units** (`Units.dfy`, `Rounding.dfy`). Tick and radian arithmetic over exact reals with the exact
  value of the double M_PI, and again with a relative error of at most 2^-53, the unit roundoff, in
  every operation (section 4.3.1 of IEEE 754-2019). An angle that a message, a command or a parameter
  of the mirror carries is a number or NaN, which spreads through arithmetic and makes every
  comparison false.
- **Port ownership** (`Ports.dfy`). Any number of bus objects in any number of processes, one system
  call a step, including processes that die.
- **Mirror and jog tool** (`Mirror.dfy`, `Jog.dfy`, and their proofs). Classes with the programs'
  fields, folded over arbitrary sequences of messages or keys.

Parsing a parameter string is an arbitrary partial function, one for `std::stoll` and another for
`std::stoi`, whose exceptions are its undefined results.

Where the code and its documentation disagree, the model follows the code:

- INTERFACE.md:44 documents a `torque_enable` joint parameter; the code never reads it, and activation
  switches torque on regardless (`ActivationProofs.TorqueEnableParameterIgnored`).
- INTERFACE.md:104 says that `set_zero` writes the present position as the homing offset; the code
  writes its negative (`ZeroProofs.SetZeroOutcome`). The pose so defined reads tick 0, which the driver
  reports as -pi rad (`ZeroProofs.ZeroPoseIsMinusPi`).
- set_zero on a motor with torque on reports success, stores nothing and overwrites the cached offset
  (`ZeroProofs.SetZeroZeroes`, `ZeroProofs.SetZeroCaches`; `ZeroProofs.SetZeroOnEveryScript` for every
  pattern of failure).
- The mirror promises to stay disarmed until every joint is near. With a joint name listed twice, or with
  NaN for the first joint, it does not (`MirrorProofs.RepeatedNameDefeatsAlignment`,
  `MirrorProofs.NaNDefeatsAlignment`), and a joint whose gap is NaN is not checked;
  `MirrorProofs.AlignedExactly` gives the exact condition, and
  `MirrorProofs.FirstMirroredCommandIsNear` the promise for distinct names and finite readings.
- The mirror says that opening the gripper holds every arm joint where it is. A joint that the first
  follower message lacks is sent to 0 rad (`MirrorProofs.GripperCommandHolds`).
- A write that the motor declines is reported as a success. `FeedbackProofs.DeclinedWriteReportsSuccess`
  says exactly when a successful write was carried out, and `FeedbackProofs.ReadBackTells` how a caller
  finds out.
- set_zero of the broadcast id, which the services pass on, clears the offset of every motor with torque
  off and then fails without touching the cache (`ZeroProofs.BroadcastSetZero`).
- The jog tool has a smallest and a largest step. It stays between them exactly when the starting step
  does and is not negative (`JogProofs.StepStaysInBounds`); the argument parser asks for neither.

## Model

| member | source | states |
|---|---|---|
| Bytes.RegisterRoundTrip | src/dynamixel_hardware/src/dynamixel_bus.cpp:390-466 | for every integer and register size, the bytes read back as the unique signed value congruent to what was written, which is the value itself iff it is in the signed range |
| Bytes.EncodeCongruent | src/dynamixel_hardware/src/dynamixel_bus.cpp:439-449 | the narrowing casts of a register write leave equal bytes exactly for congruent values |
| Bytes.GoalBytesRoundTrip | src/dynamixel_hardware/src/dynamixel_bus.cpp:269-273 | the word and byte macros of a goal position produce the register encoding, and an int32 tick decodes to itself |
| Units.LRoundIsHalfAway | src/dynamixel_hardware/src/dynamixel_bus.cpp:26-30 | lround returns n iff n is a nearest integer and, in a tie, the one farther from zero |
| Units.RadToTickMonotone | src/dynamixel_hardware/src/dynamixel_bus.cpp:26-30 | a larger in-range angle never gives a smaller tick |
| Units.TickRoundTrip | src/dynamixel_hardware/src/dynamixel_bus.cpp:21-30 | a tick survives the way through radians iff it is an int32 |
| Units.QuantisationError | src/dynamixel_hardware/src/dynamixel_bus.cpp:21-30 | every in-range angle is moved by at most pi/4096 |
| Units.CentreAndZero | INTERFACE.md:78-87 | tick 2048 is 0 rad, and tick 0 is -pi rad |
| Rounding.TickToRadNear | src/dynamixel_hardware/src/dynamixel_bus.cpp:21-24 | a reported angle is within a relative four unit roundoffs of the exact one |
| Rounding.RadToTickNear | src/dynamixel_hardware/src/dynamixel_bus.cpp:26-30 | an angle within eight unit roundoffs of a tick's exact angle is converted to that tick, with rounding in every operation |
| Rounding.MappedWithin | src/omx_teleop/omx_teleop/leader_follower_mirror.py:78-80 | with rounding the mirrored command is within a few unit roundoffs of its terms of sign * position + offset, for any sign and offset |
| Rounding.TickRoundTripRounded | src/dynamixel_hardware/src/dynamixel_bus.cpp:21-30 | every int32 tick survives the way through double radians |
| ControlTable.RegisterLayout | src/dynamixel_hardware/include/dynamixel_hardware/control_table.hpp:43-65 | no parameter register overlaps the operating mode, the torque byte or the goal position, and the EEPROM flag says on which side of address 64 it lies |
| ControlTable.RegistersDisjoint | src/dynamixel_hardware/include/dynamixel_hardware/control_table.hpp:43-65 | no two of the nineteen parameter registers share a byte |
| Bus.DynamixelBus.Open | src/dynamixel_hardware/src/dynamixel_bus.cpp:37-75 | the lock and port fields after every combination of system answers |
| Bus.DynamixelBus.Close | src/dynamixel_hardware/src/dynamixel_bus.cpp:77-99 | port, lock and both sync groups are gone, all else is kept |
| Bus.DynamixelBus.Configure | src/dynamixel_hardware/src/dynamixel_bus.cpp:101-143 | result, fields and world equal the staged specification, also when it stops part-way |
| Bus.DynamixelBus.ApplyParameters | src/dynamixel_hardware/src/dynamixel_bus.cpp:145-171 | writes exactly the supplied table registers in table order and stops at the first bad value or failed write |
| Bus.DynamixelBus.CacheHoming | src/dynamixel_hardware/src/dynamixel_bus.cpp:130-139 | the cache and the reads sent are those of the specification, zero where a read failed |
| Bus.DynamixelBus.SetUpSync | src/dynamixel_hardware/src/dynamixel_bus.cpp:173-189 | succeeds iff the ids are distinct, and then the group read from is the joints' ids in order |
| Bus.DynamixelBus.ReadAll | src/dynamixel_hardware/src/dynamixel_bus.cpp:191-256 | feedback, polled error, cursor and packets equal the specification |
| Bus.DynamixelBus.WritePositions | src/dynamixel_hardware/src/dynamixel_bus.cpp:258-283 | the group sent is a function of the joints and this call's commands alone |
| Bus.DynamixelBus.SetTorque | src/dynamixel_hardware/src/dynamixel_bus.cpp:291-295 | one torque byte is written, nothing cached changes |
| Bus.DynamixelBus.SetZero | src/dynamixel_hardware/src/dynamixel_bus.cpp:317-336 | result, cache and world equal the specification, also when it stops part-way |
| Bus.DynamixelBus.Reboot | src/dynamixel_hardware/src/dynamixel_bus.cpp:338-350 | one reboot packet, success iff it was answered |
| Bus.DynamixelBus.ReadRegister | src/dynamixel_hardware/src/dynamixel_bus.cpp:352-356 | the value is the reply widened as a signed integer, and zero on failure |
| Bus.DynamixelBus.WriteRegister | src/dynamixel_hardware/src/dynamixel_bus.cpp:358-362 | a supported size sends the value's low bytes, any other size sends nothing and fails |
| Bus.DynamixelBus.ReadRegisterUnlocked | src/dynamixel_hardware/src/dynamixel_bus.cpp:390-431 | the three sizes and the error path of a register read |
| Bus.DynamixelBus.WriteRegisterUnlocked | src/dynamixel_hardware/src/dynamixel_bus.cpp:433-466 | the three sizes and the error path of a register write |
| ConfigureProofs.EepromWritesFollowTorqueOff | src/dynamixel_hardware/src/dynamixel_bus.cpp:112-128 | in every configure run, also a failing one, each EEPROM write comes after an acknowledged torque-off to every joint, and no packet enables torque |
| ConfigureProofs.NeverLockedAfterTorqueOff | src/dynamixel_hardware/src/dynamixel_bus.cpp:119-128 | once a motor has accepted torque-off it declines no later write of the run for having torque on, and ends the run with torque off |
| ConfigureProofs.NoTorqueOnWhileConfiguring | src/dynamixel_hardware/src/dynamixel_bus.cpp:101-171 | a configure run sends no torque-on, no group write and no write that reaches the goal position |
| ConfigureProofs.ConfigureSplit | src/dynamixel_hardware/src/dynamixel_bus.cpp:112-139 | the packets of a run are pings, then a prefix of the torque-off, mode and parameter writes with all but the last acknowledged, then reads |
| ConfigureProofs.SameOrders | src/dynamixel_hardware/src/dynamixel_bus.cpp:116-127 | recording the detected model number among the parameters changes no write |
| ProgramProofs.ConfigureProgramsMotors | src/dynamixel_hardware/src/dynamixel_bus.cpp:101-171 | after a successful configure with every write accepted, ids are distinct and each motor is as before except for torque 0, its mode and every supplied parameter's low bytes |
| ProgramProofs.ParameterReachesRegister | src/dynamixel_hardware/include/dynamixel_hardware/control_table.hpp:43-123 | by name: after the same run the register that a parameter's name stands for in the table of readable registers holds the number supplied, and the mode register the number of the mode's name |
| ProgramProofs.ConfigureSparesOthers | src/dynamixel_hardware/src/dynamixel_bus.cpp:101-171 | no configure run, failing or not, changes a motor that is no joint's |
| ProgramProofs.RegisterOrderIrrelevant | src/dynamixel_hardware/src/dynamixel_bus.cpp:145-171 | writing the parameter registers in any other order gives the same table |
| BusModel.JoinAllDistinct | src/dynamixel_hardware/src/dynamixel_bus.cpp:180-187 | building the read group succeeds iff the ids are distinct |
| ProgramProofs.EveryJointAnswered | src/dynamixel_hardware/src/dynamixel_bus.cpp:112-117 | a successful configure has found every joint's motor |
| OutcomeProofs.ConfigureSucceeds | src/dynamixel_hardware/src/dynamixel_bus.cpp:101-189 | for every script and whatever the driver held before, configuring succeeds iff the port is open, ids are distinct, every joint's motor is on the line, every supplied table parameter is a number and all pings and setup writes are answered |
| OutcomeProofs.FailedConfigureKeeps | src/dynamixel_hardware/src/dynamixel_bus.cpp:101-128 | with distinct ids a failed configure changes nothing of the driver but its list of joints, and not even that with the port closed |
| OutcomeProofs.ConfigureRecordsModels | src/dynamixel_hardware/src/dynamixel_bus.cpp:112-117 | a successful configure adds the decimal number of each motor's model to its joint's parameters and changes nothing else of the joint |
| FeedbackProofs.SyncReadRefinesRegisterReads | src/dynamixel_hardware/src/dynamixel_bus.cpp:204-242 | each field a joint reports equals the register read: position, velocity and PWM always, voltage, temperature and moving iff below half their unsigned range; a joint is valid iff it was heard |
| FeedbackProofs.RegisterReadBack | src/dynamixel_hardware/src/dynamixel_bus.cpp:390-466 | reading a register after an accepted write gives the written value iff it fits, else its signed representative |
| FeedbackProofs.FailedReadIsZero | src/dynamixel_hardware/src/dynamixel_bus.cpp:390-431 | a read succeeds iff its size is supported and it is answered, and gives 0 otherwise |
| FeedbackProofs.DeclinedWriteReportsSuccess | src/dynamixel_hardware/src/dynamixel_bus.cpp:455-465 | for every line and every motor on it: a write returns true iff it is answered; it is carried out iff it arrives, is not declined and the motor is not locked, and else nothing changes; so where the motor has no reason of its own to decline, success means stored iff torque is off or the address lies outside the EEPROM |
| FeedbackProofs.ReadBackTells | src/dynamixel_hardware/src/dynamixel_bus.cpp:390-466 | after any answered write, declined or not, an answered read gives the value iff it was stored and fits, or was there before |
| FeedbackProofs.ReportedErrorStatus | src/dynamixel_hardware/src/dynamixel_bus.cpp:246-251 | the next report after an answered poll gives the status byte the motor held at the poll iff that is below 128, else 256 less |
| FeedbackProofs.CursorCountsSuccesses | src/dynamixel_hardware/src/dynamixel_bus.cpp:244-253 | after any calls under any conditions the cursor has moved one place per successful call |
| FeedbackProofs.PollsInTurn | src/dynamixel_hardware/src/dynamixel_bus.cpp:244-253 | the k-th successful call since configuring sends the status read of joint k mod n |
| FeedbackProofs.StatusReadsInTurn | src/dynamixel_hardware/src/dynamixel_bus.cpp:244-253 | the status reads in the trace of any run of calls go round the joints in order from the cursor, one a successful call |
| FeedbackProofs.EachJointOncePerRound | src/dynamixel_hardware/src/dynamixel_bus.cpp:244-253 | in every run of calls any n consecutive status reads of the trace, one a successful call, go to each of the n joints exactly once |
| FeedbackProofs.ErrorsAreRecent | src/dynamixel_hardware/src/dynamixel_bus.cpp:237-253 | if the polls succeed, the error held for a joint is the value of its latest poll, at most n successful calls old |
| FeedbackProofs.PollingSinceConfigure | src/dynamixel_hardware/src/dynamixel_bus.cpp:130-142 | configure starts the round at joint 0 with errors 0, so both facts hold from then on |
| FeedbackProofs.FilterMapEntries | src/dynamixel_hardware/src/dynamixel_bus.cpp:264-274 | an entry is sent for a joint iff it is commandable and its command is a number, and carries that command's tick |
| FeedbackProofs.PacketsAreFilterMaps | src/dynamixel_hardware/src/dynamixel_bus.cpp:258-283 | over every command history the k-th packet is the in-order filter-map of the k-th vector, one entry per id, whatever came before |
| ZeroProofs.SetZeroOutcome | src/dynamixel_hardware/src/dynamixel_bus.cpp:317-336 | for every script: the call returns true iff its three transactions are answered, accepted or not; what each of the two writes left in the motor, what angle the cache then holds, and that no other motor changes |
| ZeroProofs.SetZeroOnEveryScript | src/dynamixel_hardware/src/dynamixel_bus.cpp:317-336 | for every script, exactly when the position then reads tick 0 and exactly when the cached offset agrees with the register |
| ZeroProofs.SetZeroZeroes | src/dynamixel_hardware/src/dynamixel_bus.cpp:317-336 | an answered call succeeds, and the position then reads tick 0 iff torque was off or it did before; with torque on no motor changes, with torque off repeating the call changes nothing |
| ZeroProofs.SetZeroCaches | src/dynamixel_hardware/src/dynamixel_bus.cpp:328-334 | after an answered call the cached offset of every joint with the id agrees with the register iff, with torque off, the shaft's count does not wrap to the least int32, or, with torque on, the register held the negated position already |
| ZeroProofs.FailedSetZero | src/dynamixel_hardware/src/dynamixel_bus.cpp:321-326 | for any target a call fails iff the target is no motor or a transaction is not answered; it keeps the cache, which is right iff it holds what the register then does: for the target itself the negated position if only the third reply was lost, zero after a first stored write, else its old value, and zero for a motor that stored the first write of a broadcast |
| ZeroProofs.BroadcastSetZero | src/dynamixel_hardware/src/dynamixel_bus.cpp:317-336 | set_zero of id 254 always fails and keeps the caches, and clears the offset of exactly the motors with torque off that hear its first write |
| ZeroProofs.RawWriteBypassesCache | src/dynamixel_hardware/src/dynamixel_bus.cpp:358-362 | for every target, address and size: a right cache stays right iff the motor stores nothing or only bytes its offset register already holds, and in any case it is then right iff it holds what the stored bytes make of the register |
| ZeroProofs.ConfigureCachesOffsets | src/dynamixel_hardware/src/dynamixel_bus.cpp:130-139 | a successful configure ends with one offset read a joint and caches the register's ticks, each a 4096th of a turn, or 0 where the read was not answered |
| ZeroProofs.PositionLessOffset | src/dynamixel_hardware/src/dynamixel_bus.cpp:130-139 | while the cache is right, the reported position less the reported offset is the angle of the shaft alone iff shaft and offset add up without wrapping |
| ZeroProofs.ZeroPoseIsMinusPi | src/dynamixel_hardware/src/dynamixel_bus.cpp:317-336 | after an answered set_zero with torque off the next read that hears the joint reports -pi rad |
| Ports.RunKeepsLockMatch | src/dynamixel_hardware/src/dynamixel_bus.cpp:37-99 | over every interleaving of system calls and process deaths the lock belongs to exactly the object whose phase holds it |
| Ports.OnlyOnePortOpen | src/dynamixel_hardware/src/dynamixel_bus.cpp:37-99 | at most one bus object has a device's port open, and it holds the lock |
| Ports.OpenFollowsThePath | src/dynamixel_hardware/src/dynamixel_bus.cpp:37-99 | from closed, open follows those steps and holds the lock iff the port is open iff it returns true; close ends closed |
| Ports.ReopenLosesTheLock | src/dynamixel_hardware/src/dynamixel_bus.cpp:41-54 | lock held iff port open survives every answer of the system iff open was called on a closed object |
| Driver.DynamixelSystem.OnInit | src/dynamixel_hardware/src/dynamixel_system.cpp:30-100 | succeeds iff every joint has a numeric device_id, and then holds their specs, names and NaN commands; the first bad joint decides between the error for a missing id and the exception for one that is no number |
| Driver.DynamixelSystem.OnConfigure | src/dynamixel_hardware/src/dynamixel_system.cpp:102-135 | result and whole state equal the specification on every path |
| Driver.DynamixelSystem.OnActivate | src/dynamixel_hardware/src/dynamixel_system.cpp:137-167 | result and whole state equal the specification, including when each command was set |
| Driver.DynamixelSystem.OnDeactivate | src/dynamixel_hardware/src/dynamixel_system.cpp:169-178 | the state equals the specification, which goes on past failures |
| Driver.DynamixelSystem.OnCleanup | src/dynamixel_hardware/src/dynamixel_system.cpp:180-186 | only the bus closes |
| Driver.DynamixelSystem.PullStates | src/dynamixel_hardware/src/dynamixel_system.cpp:188-206 | feedback and interface values equal the specification |
| Driver.DynamixelSystem.Read | src/dynamixel_hardware/src/dynamixel_system.cpp:208-218 | a read cycle is a pull whose failure keeps the last states |
| Driver.DynamixelSystem.Write | src/dynamixel_hardware/src/dynamixel_system.cpp:220-236 | the command vector and the packet equal the specification |
| Driver.DynamixelSystem.TorqueService | src/dynamixel_hardware/src/dynamixel_system.cpp:261-278 | one torque write per resolved id, up to the first failure |
| Driver.DynamixelSystem.RebootService | src/dynamixel_hardware/src/dynamixel_system.cpp:280-297 | one reboot per resolved id, up to the first failure |
| Driver.DynamixelSystem.ZeroService | src/dynamixel_hardware/src/dynamixel_system.cpp:299-316 | one set_zero per resolved id, up to the first failure |
| Driver.DynamixelSystem.WriteService | src/dynamixel_hardware/src/dynamixel_system.cpp:330-346 | one register write per resolved id, up to the first failure |
| DriverProofs.ReadOnlyJointsStayLimp | src/dynamixel_hardware/src/dynamixel_system.cpp:102-236 | in every run without a torque-on service or a raw write to torque or goal for it or for the broadcast id, a read-only joint is sent no torque-on and no goal, and torque that was off stays off |
| DriverProofs.TorqueStaysOffAfterConfigure | src/dynamixel_hardware/src/dynamixel_system.cpp:102-178 | after a configure whose torque-off its motor accepted, a read-only joint's torque byte is 0 after every such run |
| DriverProofs.FailedConfigureCloses | src/dynamixel_hardware/src/dynamixel_system.cpp:102-116 | on_configure from closed ends running on success and closed, without the lock, on every failure |
| OutcomeProofs.InitSucceeds | src/dynamixel_hardware/src/dynamixel_system.cpp:52-79 | on_init builds specs iff every joint has a numeric device_id, each with its own name, id modulo 256, mode or "position", command interface and parameters; else the first joint without one decides between error and exception |
| OutcomeProofs.OnConfigureSucceeds | src/dynamixel_hardware/src/dynamixel_system.cpp:102-135 | on_configure succeeds iff lock, port and baud rate are granted and configuring succeeds |
| DriverProofs.InitialInv | src/dynamixel_hardware/src/dynamixel_system.cpp:30-100 | a component fresh from on_init satisfies the invariant of runs |
| DriverProofs.ConfigureReady | src/dynamixel_hardware/src/dynamixel_bus.cpp:101-189 | a successful configure leaves the read group of exactly the joints' ids, distinct and none of them the broadcast id |
| DriverProofs.StepInv | src/dynamixel_hardware/src/dynamixel_system.cpp:102-236 | every event keeps: port open iff configured, and then distinct ids, none of them the broadcast id, the read group of exactly those ids, and the specified joints |
| RunProofs.CacheFollowsTheMotor | src/dynamixel_hardware/src/dynamixel_bus.cpp:101-362 | over every run the cached offset of a joint is its motor's whenever the component is configured, iff every configure has read it, every raw write stored to it agrees with it, every failed set_zero left it as it was and every successful one stored a negative that fits |
| RunProofs.CarefulKeepsCache | src/dynamixel_hardware/src/dynamixel_bus.cpp:317-362 | those conditions hold of raw writes clear of the offset and of answered set_zero calls on a motor with torque off whose shaft count does not wrap to the least int32 |
| RunProofs.RunPollsAsCalls | src/dynamixel_hardware/src/dynamixel_bus.cpp:191-256 | until cleanup, the status reads, cursor and held errors of a run are those of its read cycles alone, whatever services, write cycles and activations come between |
| RunProofs.EveryRunPollsInTurn | src/dynamixel_hardware/src/dynamixel_bus.cpp:244-253 | in every run any n consecutive status reads of the read cycles go to each of the n joints exactly once |
| RunProofs.EveryRunHoldsRecentErrors | src/dynamixel_hardware/src/dynamixel_bus.cpp:237-253 | in every run since configuring whose polls are answered, the error held for a joint is at most n successful read cycles old |
| ActivationProofs.BumplessActivation | src/dynamixel_hardware/src/dynamixel_system.cpp:137-236 | the first goal sent to a commandable joint after activation, with no command in between, carries the bytes of, and decodes to, exactly the present-position tick activation read |
| ActivationProofs.BumplessActivationRounded | src/dynamixel_hardware/src/dynamixel_system.cpp:137-236 | the same bytes come out of the tick's way through radians with rounding in every operation |
| ActivationProofs.TorqueComesAfterHolds | src/dynamixel_hardware/src/dynamixel_system.cpp:146-163 | torque-on packets go only to commandable joints and only after every commandable joint's command was set; a failing activation stops at the packet that was not acknowledged |
| ActivationProofs.TorqueAfterCallbacks | src/dynamixel_hardware/src/dynamixel_system.cpp:137-178 | after activation, also a failing one, a motor's torque is on iff it was on or the motor carried out a torque-on packet of the callback; after deactivation, iff it was on and the motor carried out no torque-off |
| ActivationProofs.UnheardJointIsSentItsLastState | src/dynamixel_hardware/src/dynamixel_system.cpp:147-151 | a joint the group read had no data for is held at its last known state instead |
| ActivationProofs.ConfigureResetsStates | src/dynamixel_hardware/src/dynamixel_system.cpp:126-131 | configuring resets each position state to 0 rad, the angle of tick 2048 |
| ActivationProofs.PublishedStates | src/dynamixel_hardware/src/dynamixel_system.cpp:192-204 | a pull gives all nine interfaces of a joint with valid feedback their field and leaves the others |
| ReportProofs.UnansweredPullKeepsAll | src/dynamixel_hardware/src/dynamixel_system.cpp:188-218 | a pull whose group read is not answered changes no interface, command, joint, cached value or motor, and stops activation |
| ReportProofs.StatesAreLatest | src/dynamixel_hardware/src/dynamixel_system.cpp:102-218 | over every run each of a joint's nine interfaces is what its motor showed, by address and unit, to the latest read that heard it, position, velocity and effort 0 if configuring came later |
| ReportProofs.RequestsAreLatest | src/dynamixel_hardware/src/dynamixel_system.cpp:137-236 | over every run a joint's command is the latest of what a controller gave and the state activation held it at, and NaN before |
| ReportProofs.GoalsAreLatest | src/dynamixel_hardware/src/dynamixel_system.cpp:220-236 | in every run a write cycle sends a joint's motor a goal iff the joint is commandable and its latest command is a number, and then that command's tick |
| ReportProofs.GoalReachesMotor | src/dynamixel_hardware/src/dynamixel_bus.cpp:258-283 | when that packet gets through to the motor, addresses 116 to 119 hold the tick of the latest command and nothing else of the motor differs |
| ReportProofs.UncommandedJointIsSentNothing | src/dynamixel_hardware/src/dynamixel_system.cpp:220-236 | in every run a joint that neither a controller nor activation has commanded is sent no goal |
| ActivationProofs.DeactivateReachesAll | src/dynamixel_hardware/src/dynamixel_system.cpp:172-175 | deactivation sends torque-off to every joint, whichever fail |
| ActivationProofs.ActivateIsARun | src/dynamixel_hardware/src/dynamixel_system.cpp:137-167 | activation is a run of single steps, so the theorems about interleaved runs cover it |
| ActivationProofs.DeactivateIsARun | src/dynamixel_hardware/src/dynamixel_system.cpp:169-178 | deactivation is a run of single steps too |
| ActivationProofs.TorqueServiceIsARun | src/dynamixel_hardware/src/dynamixel_system.cpp:268-276 | a torque service is a run of single steps for the resolved ids |
| ActivationProofs.RebootServiceIsARun | src/dynamixel_hardware/src/dynamixel_system.cpp:287-295 | a reboot service is a run of single steps for the resolved ids |
| ActivationProofs.ZeroServiceIsARun | src/dynamixel_hardware/src/dynamixel_system.cpp:306-314 | a set_zero service is a run of single steps for the resolved ids |
| ActivationProofs.WriteServiceIsARun | src/dynamixel_hardware/src/dynamixel_system.cpp:337-345 | a write_register service is a run of single steps for the resolved ids |
| OutcomeProofs.TorqueServiceTrace | src/dynamixel_hardware/src/dynamixel_system.cpp:238-278 | id 0 addresses every joint in order, another id itself: one torque write each up to the first not acknowledged, and success iff all were made and acknowledged |
| OutcomeProofs.RebootServiceTrace | src/dynamixel_hardware/src/dynamixel_system.cpp:238-297 | the same for one reboot each |
| OutcomeProofs.ZeroServiceTrace | src/dynamixel_hardware/src/dynamixel_system.cpp:238-316 | the same for the three transactions of a set_zero each |
| OutcomeProofs.WriteServiceTrace | src/dynamixel_hardware/src/dynamixel_system.cpp:238-346 | the same for one write of the value's low bytes each; an unsupported size sends nothing and fails |
| ActivationProofs.TorqueEnableParameterIgnored | src/dynamixel_hardware/src/dynamixel_system.cpp:52-163 | a successful activation sends torque-on to a joint with torque_enable "false" iff it has a position command interface |
| Mirror.LeaderFollowerMirror.Create | src/omx_teleop/omx_teleop/leader_follower_mirror.py:38-59 | a node exists iff signs and offsets match the resolved joints, with ones and zeros as defaults |
| Mirror.LeaderFollowerMirror.HandleFollower | src/omx_teleop/omx_teleop/leader_follower_mirror.py:94-97 | the state after a follower message |
| Mirror.LeaderFollowerMirror.HandleLeader | src/omx_teleop/omx_teleop/leader_follower_mirror.py:99-125 | the state after a leader message on every path, including the exception for an empty joint list |
| MirrorProofs.EveryRunIsOrderly | src/omx_teleop/omx_teleop/leader_follower_mirror.py:82-125 | in every run nothing is published before a follower message, then at most one gripper command and only mirrored ones after it, those exactly when armed; armed and published are never taken back, and only an empty joint list ends the node |
| MirrorProofs.PublishedExactly | src/omx_teleop/omx_teleop/leader_follower_mirror.py:78-125 | everything any run publishes, content and order: the gripper command of the first follower message if the gripper is a joint, then the mapped command of every leader message naming all joints, from the first that passes the check on |
| MirrorProofs.MirroredValues | src/omx_teleop/omx_teleop/leader_follower_mirror.py:78-125 | each mirrored command of every run is sign * position + offset on each joint, for the positions of a leader message, and NaN where one of the three is |
| MirrorProofs.WarnedExactly | src/omx_teleop/omx_teleop/leader_follower_mirror.py:104-109 | over every run the node has warned iff a leader message heard after a follower's lacked a joint |
| MirrorProofs.GripperCommandHolds | src/omx_teleop/omx_teleop/leader_follower_mirror.py:82-92 | the first thing published is the gripper opening at the gripper's place and the first follower position elsewhere, and holds every other joint where it is iff each such joint is in that message or at 0 |
| MirrorProofs.FirstMirroredCommandIsNear | src/omx_teleop/omx_teleop/leader_follower_mirror.py:99-125 | with distinct names a leader message naming every joint arms the mirror iff the first joint's gap to the latest follower position is NaN or no joint's exceeds the tolerance, so, with finite readings, iff the command is within tolerance on every joint; that command is published, and nothing else arms it |
| MirrorProofs.AlignedExactly | src/omx_teleop/omx_teleop/leader_follower_mirror.py:113-118 | for any joint list the check passes iff the first name's last gap is NaN or no name's last gap exceeds the tolerance |
| MirrorProofs.RepeatedNameDefeatsAlignment | src/omx_teleop/omx_teleop/leader_follower_mirror.py:113-118 | a run with a repeated name that arms and publishes a command 10 rad off |
| MirrorProofs.NaNDefeatsAlignment | src/omx_teleop/omx_teleop/leader_follower_mirror.py:113-118 | a run with NaN for the first joint that arms and publishes a command 10 rad off on another |
| MirrorProofs.OrderInMessagesIrrelevant | src/omx_teleop/omx_teleop/leader_follower_mirror.py:78-125 | permuting the pairs of every message of a run changes no state and nothing published |
| TeleopProofs.MirroredTick | src/omx_teleop/omx_teleop/leader_follower_mirror.py:78-80 | over exact reals and with an offset of k ticks the mirrored goal tick is t + k or 4096 - t + k iff that is an int32 |
| TeleopProofs.MirroredTickRounded | src/omx_teleop/omx_teleop/leader_follower_mirror.py:78-80 | the same for offset 0 with an error of up to the unit roundoff in every double operation |
| TeleopProofs.RoundedTickReachesRegister | src/omx_teleop/omx_teleop/leader_follower_mirror.py:78-80 | from the leader's position register to the goal bytes in rounded arithmetic: the bytes are the reflected tick iff that is an int32 |
| TeleopProofs.LeaderTickReachesFollower | src/omx_teleop/omx_teleop/leader_follower_mirror.py:99-125 | over two serial lines with their own failures, the goal packet of the follower has one entry for the joint's motor, and it is the tick the leader's motor held when pulled, reflected for a reversed joint, plus the offset in ticks, iff that is an int32 |
| Jog.Tool.SetProfileTo | src/dynamixel_tools/dynamixel_tools/dxl_debug.py:153-169 | the profile writes issued or skipped and the mode remembered |
| Jog.Tool.RunTui | src/dynamixel_tools/dynamixel_tools/dxl_debug.py:215-289 | the loop over keys until one ends it |
| JogProofs.EveryKeySequenceIsSafe | src/dynamixel_tools/dynamixel_tools/dxl_debug.py:220-289 | for every key sequence and all arguments the selection stays in range, no jog or return is sent with torque off, torque is switched on only right after a pose was sent to hold, and each motion comes after requests for its own profile; the step stays in its bounds if it starts there and is not negative |
| JogProofs.StepStaysInBounds | src/dynamixel_tools/dynamixel_tools/dxl_debug.py:261-264 | the step stays within its bounds under every key sequence iff the starting step lies within them and is not negative |
| JogProofs.EachKeyActs | src/dynamixel_tools/dynamixel_tools/dxl_debug.py:250-289 | after any keys, a right or left key adds exactly one command moving the joint that the earlier keys selected by plus or minus the step that they set, an h the starting pose, a t torque-off or the positions known at that key and then torque-on, with a profile switch only before a motion of the other kind; nothing else adds anything, nor anything with torque off or after quitting |
| JogProofs.CacheOnlySkipsProfiles | src/dynamixel_tools/dynamixel_tools/dxl_debug.py:153-169 | for every key sequence the tool sends the same commands and torque requests as one that writes the profile every time |

## Left out

- ROS nodes, executors, topics, service transport and logging: callbacks are steps on message values.
- The SDK's framing, checksums and timeouts: a transaction is a request, a reply and a script entry; a group write without entries is recorded as an empty packet.
- The SDK refuses a ping or a read of the broadcast id before sending it: here it is on the trace, unanswered.
- Motor dynamics, single-turn wrap and firmware limits on offsets: the shaft may move arbitrarily.
- What a motor does at addresses past its control table: the address space is total.
- Angles whose tick exceeds 64 bits and infinite commands, for which lround is unspecified.
- Infinite readings and parameters in the mirror and the jog tool. The difference of two infinities is NaN, so infinite positions of the first joint in both messages arm the mirror as NaN does.
- Error texts, the string forms of the parsed numbers, and the port name and baud rate parameters.
- The raw accessors of joints and error text, and services called before configure or after cleanup: the code promises nothing there, so bus methods that use the port require it.
- The public ping, set_led, set_operating_mode and set_profile of the bus, the velocity conversion beyond its use in feedback, and the read_register service handler, which appears only as a step of runs: easy members.
- Controller-side command limits, launch files, robot descriptions, dxl_cli, dxl_offline, the monitor and the drawing of the jog screen.
- Discovery of controller, component and joint order in the mirror and the jog tool: parameters of the model.
- Driver.DynamixelSystem.OnInit: does not say what the partly filled name list holds after an error, because the component is not used then.
- JogProofs.EachKeyActs: torque requests and profile writes are what the tool asks for, because it goes on alike whether the service answers.
- JogProofs.EveryKeySequenceIsSafe: a profile counts as set once it was requested, because the tool remembers the mode whether the service answers or not.
- Rounding of jog targets and of the mirror's gaps: both are exact reals, while the programs add and subtract doubles.
