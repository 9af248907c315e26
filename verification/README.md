# Verification of the serial bridge

A Dafny model of the robot's serial bridge node and its gimbal helpers, with proofs. Five
parts, each following the source's own form: methods on arrays and classes where the source
updates things in place, functions where it only computes.

* **Checksums** (`Gf2`, `Words`, `CrcTables`, `CrcTheory`, `Checksums`, `ErrorDetection`,
  `Periods`, `Orders`, `DoubleErrors`). The table-driven CRC8 and CRC16 loops are proved to be
  polynomial long division, one bit at a time, by x^8+x^5+x^4+1 and by x^16+x^12+x^5+1 (the polynomial of
  Appendix C of RFC 1662). What a receiver accepts is then exactly the multiples of the
  generator, which yields the detection guarantees: bursts, odd errors, and exactly which pairs of
  flipped bits, from the orders of x modulo the generators, 127 and 32767.
* **Framing** (`Framing`, `FrameErrors`, `Receiver`, `Packets`, `Senders`, `CommandLayout`,
  `GimbalSender`, `FirePermission`, `SharedLine`). The receive thread hunts for a start byte, checks a header, reassembles a payload from reads the driver
  splits as it likes, and publishes. It is proved equal to a function from the byte stream to
  frames; printing and parsing are inverse on streams; both senders only ever emit frames that
  survive. Which packet each frame becomes, and which byte of a frame holds what, is stated in
  literal ids, lengths and positions.
* **Velocity outlet** (`Clock`, `Numbers`, `Gate`, `Outlet`, `History`, `OutletSafety`,
  `OutletHistory`, `OutletEffects`, `OutletAge`, `OutletRuns`, `OutletStops`, `OutletLimits`,
  `Wire`). A run is any sequence of steps, one for each section that runs under the send lock, with
  the exchange of the link flag as a step of its own. The flags the gate keeps, the stop flag and
  the velocity shown are proved to be statements about the whole history; velocities in snapshots
  are proved safe, recent, never replayed and never made faster by extra stops; `Wire` carries this
  to the bytes of the frame.
* **Gimbal yaw acknowledgement** (`GimbalYaw`, `GimbalYawHistory`). The evaluator's fields
  against the whole history of requests and readings, and a bound on the drift while locked.
* **Gimbal axes** (`Axis`, `AxisSweep`, `AxisRun`). Wrapping positions and the endless sweep, and what
  both axes have been doing since the last new message.

Clock readings are integers in nanoseconds. Velocities, angles and rates are real numbers. In
packets a floating-point number is four uninterpreted bytes.

## What the code does not do

Some comments and guarantees are not met by the code. The model follows the code, and these
members say exactly when it falls short:

* A lease below one millisecond, or a watchdog parameter that is not positive, switches the
  watchdog off, and then nothing bounds the age of a command (`OutletAge.WatchdogStaysOnIff`,
  `OutletAge.AgeIsBoundedIff`).
* The comments at include/standard_robot_pp_ros2/cmd_vel_authorization.hpp:14 and
  src/standard_robot_pp_ros2.cpp:1206-1208 say that clearing an emergency stop never resumes
  motion. It does if an EXECUTE was accepted while the emergency stop was on
  (`OutletLimits.ReleaseOpensIff`, `OutletLimits.ReleaseAloneCanResume`), and, where no
  authorization is required, always when nothing else forbids motion.
* A rejected sample zeroes the command at once, as src/standard_robot_pp_ros2.cpp:1154 says, and it
  stays zero until the next command, but the gate does not remember it: if that is a zero command,
  it brings the old velocity back exactly if the hold may still bridge it and nothing has halted
  motion in between (`OutletLimits.RejectionIsForgottenIff`). A replayed or stale STOP is among
  these samples, although include/standard_robot_pp_ros2/cmd_vel_authorization.hpp:7-9 wants no
  STOP to be swallowed by the hold (`OutletLimits.ReplayedStopIsForgotten`).
* The flag the threads consult and the gate's link state agree exactly if the last exchange of the
  flag and the last locked section went the same way (`OutletLimits.LinkStatesAgreeIff`). They do
  if changes of the link state do not overlap; if they do overlap, the flag can be true while the
  gate's link stays down (`OutletLimits.OverlapDisagrees`). Nothing then moves until the link is
  brought up again, which the protection thread does not attempt while the flag is true
  (`OutletLimits.NothingMovesWithoutLink`).
* The lease is exceeded by up to a millisecond, and a sample stamped in the future counts as new
  (`Outlet.FreshIff`).
* A frame is read from its beginning exactly if the bytes before it leave the receiver waiting for
  a start byte (`Framing.StartsAfterIff`, `Framing.FramesStartIff`). Bytes without a start byte do
  (`Framing.NoiseSettles`). Bytes that do, with one more start byte after them, do not, and the
  frame that follows is lost (`Framing.StrayStartByteLosesFrame`).
* The length limit cuts off every debug packet (`Receiver.DebugPacketsAreCut`).
* Readings that repeat a time stamp keep the old yaw rate in force, so the gimbal may be reported
  locked although it has turned. The drift bound holds exactly if no reading of the present still
  run repeats a time stamp with another yaw (`GimbalYawHistory.LockedMeansStill`,
  `GimbalYawHistory.RepeatedTimeHidesMotion`).
* include/standard_robot_pp_ros2/gimbal_yaw_status_logic.hpp:15-16 wants the measured rate within the
  bound for the whole dwell. The readings cover the dwell exactly if the lock was already due when
  the last of them arrived (`GimbalYawHistory.ReadingsCoverDwellIff`); otherwise the rest of it, up
  to the time for which a reading stays fresh, is silence (`GimbalYawHistory.SilenceLocks`).
* The node casts the authority of a request without looking at it, and any byte but that of
  BODY_YAW_FOLLOW is acknowledged (`GimbalYawHistory.AnyByteIsAcknowledged`).
* After an emergency stop at most one more frame orders firing, and one can, because the flag is read
  before the frame is sent (`FirePermission.AtMostOneFireAfterStop`,
  `FirePermission.OneFireInFlight`).

## Model

| member | source | states |
|---|---|---|
| `CrcTheory.TableEntry8` | src/crc8_crc16.cpp:9-26 | every entry of the CRC8 table is the remainder of its index's eight bits |
| `CrcTheory.TableEntry16` | src/crc8_crc16.cpp:82-104 | every entry of the CRC16 table is the remainder of its index's eight bits |
| `CrcTheory.ByteStepDivides8` | src/crc8_crc16.cpp:39-40 | one table lookup divides eight more bits, for every register and byte |
| `CrcTheory.ByteStepDivides16` | src/crc8_crc16.cpp:120-122 | one shift and table lookup divides eight more bits, for every register and byte |
| `Checksums.GetCrc8CheckSum` | src/crc8_crc16.cpp:35-43 | the loop returns the remainder of bit-at-a-time division by the CRC8 polynomial, for every message and starting value |
| `Checksums.GetCrc16CheckSum` | src/crc8_crc16.cpp:113-125 | the loop returns the remainder of bit-at-a-time division by the CRC16 polynomial, for every message and starting value; a null pointer gives 0xFFFF |
| `Checksums.VerifyCrc8CheckSum` | src/crc8_crc16.cpp:51-59 | accepts exactly the buffers longer than two bytes whose whole content, checksum included, leaves remainder 0 |
| `Checksums.AppendCrc8CheckSum` | src/crc8_crc16.cpp:67-75 | makes the buffer acceptable and changes only its last byte; leaves short buffers alone |
| `Checksums.VerifyCrc16CheckSum` | src/crc8_crc16.cpp:133-143 | accepts exactly the buffers longer than two bytes whose whole content, trailer included, leaves remainder 0 |
| `Checksums.AppendCrc16CheckSum` | src/crc8_crc16.cpp:151-160 | makes the buffer acceptable and changes only its last two bytes; leaves short buffers alone |
| `Checksums.VerifyCrc16Vector` | src/crc8_crc16.cpp:168-180 | the overload for vectors accepts exactly the same contents |
| `Checksums.Trailer8` | src/crc8_crc16.cpp:51-75 | exactly one checksum byte is accepted after a payload: the remainder of the payload |
| `Checksums.Trailer16` | src/crc8_crc16.cpp:133-160 | exactly one trailer is accepted after a payload: the remainder of the payload, low byte first |
| `Gf2.RemLinear` | src/crc8_crc16.cpp:35-43 | the remainder of a sum of messages is the sum of the remainders |
| `Gf2.RegisterIsRemainder` | src/crc8_crc16.cpp:113-125 | the checksum register is the remainder of polynomial division: the message followed by zeros, with the initial register added to its leading bits, is a multiple of the generator plus the register |
| `ErrorDetection.AcceptedIsMultiple16` | src/crc8_crc16.cpp:133-143 | the accepted messages are exactly the multiples of the generator once the initial register is added to the leading bits |
| `ErrorDetection.AcceptedIsMultiple8` | src/crc8_crc16.cpp:51-59 | the same for headers |
| `ErrorDetection.BurstDetected16` | src/crc8_crc16.cpp:113-143 | flipping any nonempty set of bits within 16 consecutive bits of an accepted message, of any length, is rejected |
| `ErrorDetection.BurstDetected8` | src/crc8_crc16.cpp:35-59 | flipping any nonempty set of bits within 8 consecutive bits of an accepted header is rejected |
| `ErrorDetection.AcceptedIsEven16` | src/crc8_crc16.cpp:113-143 | every message CRC16 accepts has an even number of one bits |
| `ErrorDetection.AcceptedIsEven8` | src/crc8_crc16.cpp:35-59 | every message CRC8 accepts has an even number of one bits |
| `ErrorDetection.OddErrorDetected16` | src/crc8_crc16.cpp:113-143 | an odd number of flipped bits is rejected at any length |
| `ErrorDetection.OddErrorDetected8` | src/crc8_crc16.cpp:35-59 | an odd number of flipped bits is rejected at any length |
| `ErrorDetection.ZeroTailKeepsVerdict16` | src/crc8_crc16.cpp:168-180 | trailing zero bytes change the verdict in neither direction |
| `ErrorDetection.TrailerUnique16` | src/crc8_crc16.cpp:151-160 | two accepted trailers for one payload are the same |
| `ErrorDetection.TrailerUnique8` | src/crc8_crc16.cpp:67-75 | two accepted checksum bytes for one payload are the same |
| `Orders.OrderOfX16` | src/crc8_crc16.cpp:119-123 | what a set bit leaves in the CRC16 register returns exactly after the multiples of 32767 zero bits |
| `Orders.OrderOfX8` | src/crc8_crc16.cpp:38-41 | what a set bit leaves in the CRC8 register returns exactly after the multiples of 127 zero bits |
| `Periods.TwoBitsDivisibleIff` | src/crc8_crc16.cpp:113-143 | two set bits are divisible by a generator exactly if the register that one of them leaves has returned to itself by the other |
| `DoubleErrors.TwoErrorsUndetectedIff16` | src/crc8_crc16.cpp:113-143 | two flipped bits in an accepted message, of any length, go undetected exactly if they are a multiple of 32767 places apart |
| `DoubleErrors.TwoErrorsUndetectedIff8` | src/crc8_crc16.cpp:35-59 | two flipped bits in an accepted header, or anything longer, go undetected by CRC8 exactly if they are a multiple of 127 places apart |
| `DoubleErrors.UpToThreeErrorsDetected16` | src/crc8_crc16.cpp:113-143 | flipping one, two or three bits anywhere in an accepted message of up to 4095 bytes is rejected |
| `DoubleErrors.UpToThreeErrorsDetected8` | src/crc8_crc16.cpp:35-59 | flipping one, two or three bits anywhere in a header is rejected by CRC8, and so is it in anything of up to 15 bytes |
| `FrameErrors.BurstIsNotDelivered` | src/standard_robot_pp_ros2.cpp:524-594 | a copy of a frame with a burst of up to 16 flipped bits is not delivered from any stream |
| `FrameErrors.FewErrorsAreNotDelivered` | src/standard_robot_pp_ros2.cpp:524-594 | nor is a copy with two or with an odd number of flipped bits |
| `Framing.OnePass` | src/standard_robot_pp_ros2.cpp:531-594 | a pass that does not wait uses up at least one byte and no more than there are, and delivers at least six |
| `Framing.ReadInInstalments` | src/standard_robot_pp_ros2.cpp:524-594 | wherever the stream is cut in two, reading it in instalments delivers the same frames and leaves the same bytes waiting |
| `Framing.DeliveriesAreFinal` | src/standard_robot_pp_ros2.cpp:524-594 | frames delivered so far are a prefix of those delivered when more bytes arrive |
| `Framing.FramesSurviveTheLine` | src/standard_robot_pp_ros2.cpp:524-594 | any frames, each preceded by noise without a start byte, are received as exactly those frames in order, debug frames only in debug mode, whatever their payloads |
| `Framing.FramesAreSlices` | src/standard_robot_pp_ros2.cpp:524-594 | on any stream, the frames delivered and the bytes dropped, put together in order, are the stream |
| `Framing.DeliveredIsWellFormed` | src/standard_robot_pp_ros2.cpp:550-594 | everything delivered from any stream has a valid header and trailer, the length its header says, and at most 64 bytes |
| `Framing.QuietResynchronises` | src/standard_robot_pp_ros2.cpp:533-564 | after any bytes whatever, 63 bytes without a start byte bring the receiver back into step |
| `Framing.SixtyTwoAreTooFew` | src/standard_robot_pp_ros2.cpp:533-569 | 62 do not always: after a start byte, a header of the greatest length leaves them all waiting |
| `Framing.StartsAfterIff` | src/standard_robot_pp_ros2.cpp:524-594 | whatever bytes come before and after, what follows is read from its beginning exactly if the bytes before leave the receiver waiting for a start byte |
| `Framing.FramesStartIff` | src/standard_robot_pp_ros2.cpp:524-594 | in any stream of frames and arbitrary gaps, every frame is read from its beginning exactly if every gap before a frame does so |
| `Framing.FramesBetweenGaps` | src/standard_robot_pp_ros2.cpp:524-594 | what is received then is exactly the frames sent, between the frames the gaps contain |
| `Framing.NoiseSettles` | src/standard_robot_pp_ros2.cpp:533-536 | gaps without a start byte leave the receiver waiting for one |
| `Framing.StrayStartByteLosesFrame` | src/standard_robot_pp_ros2.cpp:533-564 | after bytes that leave the receiver waiting for a start byte, a stray one directly before a frame always loses that frame, whatever follows, and reading goes on inside it |
| `Framing.RefusedHeaderCostsFourBytes` | src/standard_robot_pp_ros2.cpp:546-564 | a header that is damaged or announces more than 58 bytes costs its four bytes and nothing else |
| `Framing.DamagedFrameCostsItself` | src/standard_robot_pp_ros2.cpp:566-594 | a frame damaged behind its header costs itself and nothing else |
| `Receiver.FromVector` | include/standard_robot_pp_ros2/packet_typedef.hpp:434-441 | the structure holds the bytes given, surplus ones dropped and missing ones zero |
| `Receiver.PaddingIsInvisible` | include/standard_robot_pp_ros2/packet_typedef.hpp:434-441 | zero bytes behind a frame change no packet read from it |
| `Receiver.DebugPacketsAreCut` | src/standard_robot_pp_ros2.cpp:558-601 | every debug packet published comes from a delivered frame with the debug id and is zero from its 65th byte on |
| `Packets.PublishedHasFrame` | src/standard_robot_pp_ros2.cpp:596-680 | every packet published from any stream comes from a delivered frame with the id byte of its kind, joint and gimbal states also from one of the right length and with the configuration that admits it; the packet is as long as the fields of its structure together and holds the bytes of the frame, cut off or filled up with zeros |
| `Packets.FramePublishes` | src/standard_robot_pp_ros2.cpp:596-680 | a well-formed frame with a given id byte publishes exactly one packet of the kind that id stands for, or nothing, with the conditions on length and configuration of the joint and gimbal states |
| `Packets.PublishedInInstalments` | src/standard_robot_pp_ros2.cpp:524-680 | wherever the stream is cut in two, the packets are those of the first instalment followed by those of the bytes left waiting and the second |
| `Packets.PublishedInContext` | src/standard_robot_pp_ros2.cpp:524-680 | a frame after bytes that leave the receiver waiting for a start byte publishes, in its place, what it publishes alone |
| `Receiver.SerialPort.Receive` | src/standard_robot_pp_ros2.cpp:569-577 | a read puts between one byte and all it was asked for at the front of a zeroed buffer, the next bytes of the stream |
| `Receiver.ReadPayload` | src/standard_robot_pp_ros2.cpp:566-580 | for every way the driver splits the reads, the loop ends with the next len+2 bytes of the stream followed only by zeros |
| `Receiver.HeaderPasses` | src/standard_robot_pp_ros2.cpp:546-556 | a header passes exactly if CRC8 accepts its four bytes |
| `Receiver.CheckAndPublish` | src/standard_robot_pp_ros2.cpp:590-680 | verdict and packet of a padded buffer are those of the frame alone |
| `Receiver.ReceivePass` | src/standard_robot_pp_ros2.cpp:524-680 | one pass of the loop blocks, drops and publishes exactly as one pass of the framing function, however the reads are split |
| `Receiver.ReceiveData` | src/standard_robot_pp_ros2.cpp:514-685 | on any stream and any splitting of the reads, the packets published are those of the frames in the stream, in order |
| `Senders.RobotCmdSender.Start` | src/standard_robot_pp_ros2.cpp:1051-1064 | sets up a valid header, zeroes the velocities and the mode and touches nothing else |
| `Senders.RobotCmdSender.Apply` | src/standard_robot_pp_ros2.cpp:1224-1309 | a callback writes its own field only and keeps the header valid |
| `Senders.RobotCmdSender.GimbalJoints` | src/standard_robot_pp_ros2.cpp:1245-1262 | the named joints are written in order, messages of unequal lengths are ignored, the header stays valid |
| `Senders.RobotCmdSender.Send` | src/standard_robot_pp_ros2.cpp:1094-1105 | the frame is the image with a time stamp and a trailer that CRC16 accepts |
| `Senders.HeaderIsUnique` | src/standard_robot_pp_ros2.cpp:1053-1063 | the start byte, length, id and CRC8 leave exactly one possible header |
| `Senders.FrameBytesUndisturbed` | src/standard_robot_pp_ros2.cpp:1224-1309 | no sequence of callbacks disturbs the header, the time stamp or the trailer |
| `Senders.LastWriteWins` | src/standard_robot_pp_ros2.cpp:1224-1309 | every field holds what was last written to it, whatever was written to the others |
| `Senders.RobotFramesAreWellFormed` | src/standard_robot_pp_ros2.cpp:1051-1105 | after any writes since the start, the frame sent passes both verifiers and its length byte is its size minus six |
| `Senders.RobotFrameShowsLastWrite` | src/standard_robot_pp_ros2.cpp:1094-1105 | the frame sent carries in every field what was last written to it |
| `CommandLayout.CallbackBytes` | src/standard_robot_pp_ros2.cpp:1224-1309 | the whole effect of every callback on the 54 bytes of the command: velocities and stop flag in bytes 8 to 20, the mode from 21, move for any unknown one, pitch from 41, yaw from 45, the shot in 49 and the friction wheels on in 50 |
| `CommandLayout.JointBytes` | src/standard_robot_pp_ros2.cpp:1245-1262 | after a joint message with arrays of one length, bytes 41 to 44 hold the last position given for gimbal_pitch_joint, 45 to 48 the last one for gimbal_yaw_joint, a joint not named keeps its bytes, and nothing else changes |
| `CommandLayout.FrameHoldsLastWrite` | include/standard_robot_pp_ros2/packet_typedef.hpp:375-428 | in the frame sent, what each callback wrote last is at its place in the packed structure |
| `CommandLayout.UnwrittenBytesStay` | include/standard_robot_pp_ros2/packet_typedef.hpp:375-428 | bytes that belong to no callback that was called are as they were |
| `CommandLayout.FrameHead` | src/standard_robot_pp_ros2.cpp:1051-1105 | every frame sent has 54 bytes, start byte 0x5A, payload length 48, id 0x01 and the time stamp, passes both verifiers, and chassis and tracking are never written |
| `GimbalSender.Downgraded` | include/standard_robot_pp_ros2/gimbal_bridge_addon.hpp:142-149 | only modes 0 to 2 are sent, and mode 2 exactly if it was asked for and firing is permitted |
| `GimbalSender.GimbalCmdSender.OnGimbalCmd` | include/standard_robot_pp_ros2/gimbal_bridge_addon.hpp:69-75 | keeps the latest message and its arrival |
| `GimbalSender.GimbalCmdSender.SendTick` | include/standard_robot_pp_ros2/gimbal_bridge_addon.hpp:115-160 | sends one frame, with the command's content and both checksums, exactly for a complete, finite command less than 100 ms old |
| `GimbalSender.GimbalFramesAreWellFormed` | include/standard_robot_pp_ros2/gimbal_bridge_addon.hpp:109-160 | every frame sent passes both verifiers and its length byte is its size minus six |
| `GimbalSender.GimbalFrameBytes` | include/standard_robot_pp_ros2/gimbal_bridge_addon.hpp:109-160 | the frame byte by byte: 35 bytes, start byte 0x5A, payload length 29, id 0x02, time stamp, downgraded mode, and the six numbers in the order in which the message carries them |
| `FirePermission.PhaseIsHistory` | include/standard_robot_pp_ros2/gimbal_bridge_addon.hpp:115-149 | what the thread is about to do tells which steps it has taken, on which command, and what the flags were when it read them |
| `FirePermission.FireOnlyWhenAskedAndPermitted` | include/standard_robot_pp_ros2/gimbal_bridge_addon.hpp:115-160 | in any interleaving with the threads that store the flags, a frame that orders firing is for the last command to arrive before it was taken, which asked for it less than 100 ms before; after that the link flag was read as up and then, if firing is inhibited, the stop flag as down |
| `FirePermission.StopInhibitsFire` | src/standard_robot_pp_ros2.cpp:118-121 | from an emergency stop to its release, only a round that had read the flag before the stop can order firing |
| `FirePermission.AtMostOneFireAfterStop` | src/standard_robot_pp_ros2.cpp:1187-1189 | so at most one frame does |
| `FirePermission.OneFireInFlight` | src/standard_robot_pp_ros2.cpp:1187-1189 | a run in which one does |
| `FirePermission.RoundFiresIff` | include/standard_robot_pp_ros2/gimbal_bridge_addon.hpp:115-149 | whatever the other threads do in between, a round with a command that asks for fire orders it exactly if the link flag was up when read and, if firing is inhibited, the stop flag down when read after that |
| `FirePermission.NoFireWithoutLink` | include/standard_robot_pp_ros2/gimbal_bridge_addon.hpp:142-149 | with the link flag read as down the command is still sent, downgraded |
| `FirePermission.PlainCommandIsDecided` | include/standard_robot_pp_ros2/gimbal_bridge_addon.hpp:142-149 | a command that does not ask for fire is sent without either flag being read |
| `FirePermission.FlagsAreLastStored` | src/standard_robot_pp_ros2.cpp:1187-1189 | each flag is what was last stored in it |
| `SharedLine.EverythingSentIsReceived` | src/standard_robot_pp_ros2.cpp:1212-1222 | however the two senders take turns on the line, a receiver of this format gets back exactly the frames sent, in order, debug ids only in debug mode |
| `Gate.CmdVelAuthorizationGate.OnExecutionCommand` | include/standard_robot_pp_ros2/cmd_vel_authorization.hpp:96-121 | accepts exactly fresh samples with a larger sequence number, and its whole new state |
| `Gate.CmdVelAuthorizationGate.OnEmergencyStop` | include/standard_robot_pp_ros2/cmd_vel_authorization.hpp:124-131 | its whole new state |
| `Gate.CmdVelAuthorizationGate.OnSerialLinkDown` | include/standard_robot_pp_ros2/cmd_vel_authorization.hpp:134-140 | its whole new state |
| `Gate.CmdVelAuthorizationGate.OnSerialLinkUp` | include/standard_robot_pp_ros2/cmd_vel_authorization.hpp:143 | restores the link and nothing else |
| `Gate.CmdVelAuthorizationGate.OnCmdVel` | include/standard_robot_pp_ros2/cmd_vel_authorization.hpp:152-211 | its output and whole new state in every branch |
| `Gate.CmdVelAuthorizationGate.Tick` | include/standard_robot_pp_ros2/cmd_vel_authorization.hpp:214-238 | fires exactly if the gate is closed or the watchdog has expired, and its whole new state |
| `Outlet.VelocityOutlet.CmdVelCallback` | src/standard_robot_pp_ros2.cpp:1114-1120 | the section under the lock is one step of a run |
| `Outlet.AgeOf` | src/standard_robot_pp_ros2.cpp:1144-1146 | the age in whole milliseconds cut off, 0 for a stamp in the future |
| `Outlet.FreshIff` | src/standard_robot_pp_ros2.cpp:1144-1152 | a sample is fresh exactly if its age is less than the lease plus a millisecond |
| `Outlet.VelocityOutlet.ExecutionCommandCallback` | src/standard_robot_pp_ros2.cpp:1137-1162 | measures the age on the wall clock; the section under the lock is one step of a run |
| `Outlet.VelocityOutlet.EmergencyStopCallback` | src/standard_robot_pp_ros2.cpp:1187-1200 | the section under the lock is one step of a run |
| `Outlet.VelocityOutlet.ExchangeLinkState` | src/standard_robot_pp_ros2.cpp:490-492 | the atomic exchange is one step of a run |
| `Outlet.VelocityOutlet.ApplyLinkState` | src/standard_robot_pp_ros2.cpp:493-504 | the section under the lock is one step of a run |
| `Outlet.VelocityOutlet.Snapshot` | src/standard_robot_pp_ros2.cpp:1077-1095 | consulting the gate and copying the command is one step of a run, and the snapshot is the cached command |
| `OutletSafety.SnapshotIsSafe` | src/standard_robot_pp_ros2.cpp:1077-1095 | in every interleaving, a nonzero cached velocity is the last accepted command and implies link up, no emergency or execution stop, and the required authorization; in a snapshot also an unexpired watchdog; a snapshot that must stop is zero with the stop flag |
| `OutletEffects.CommandIsObeyed` | include/standard_robot_pp_ros2/cmd_vel_authorization.hpp:152-211 | in every run: a command at a closed gate zeroes the velocity and sets the stop flag; at an open gate the flag is cleared and the command shown if a component is beyond its epsilon, otherwise the remembered command if the hold, counted in nanoseconds, allows it, otherwise zero |
| `OutletEffects.ForwardedIff` | include/standard_robot_pp_ros2/cmd_vel_authorization.hpp:158-187 | at an open gate with nothing to hold, a nonzero command is shown as it is exactly if one of its three components exceeds its epsilon, and zero otherwise |
| `OutletEffects.TickStopsIff` | include/standard_robot_pp_ros2/cmd_vel_authorization.hpp:214-238 | a tick zeroes the velocity and sets the stop flag exactly if the gate is closed or the last command is a millisecond older than the watchdog, and changes neither otherwise |
| `OutletEffects.StopIsHistory` | src/standard_robot_pp_ros2.cpp:1114-1230 | the stop flag is set exactly if an emergency stop, a link loss, a STOP, a rejected sample, a command at a closed gate or a tick that must stop has come and no command has found the gate open since |
| `OutletEffects.VelocityIsHistory` | src/standard_robot_pp_ros2.cpp:1077-1230 | a nonzero velocity is cached exactly if a command at an open gate has shown it, being it or being bridged by it, and no command, stop or start of the send thread has come since |
| `OutletEffects.LastCommandIsHistory` | include/standard_robot_pp_ros2/cmd_vel_authorization.hpp:152-156 | the watchdog measures from the arrival of the last command of any velocity, at an open gate or not, and a link loss forgets it |
| `OutletEffects.ReasonsAreTrue` | include/standard_robot_pp_ros2/cmd_vel_authorization.hpp:162-237 | which reason an output gives, exactly: a link that is down before a stop, that before a missing authorization, and an expired watchdog only at an open gate |
| `OutletHistory.SequenceIsMaximum` | include/standard_robot_pp_ros2/cmd_vel_authorization.hpp:100-109 | the stored sequence is the maximum over all fresh samples, and epoch and generation are those of that sample |
| `OutletHistory.AcceptsIffAccepted` | include/standard_robot_pp_ros2/cmd_vel_authorization.hpp:100-105 | a sample is accepted exactly if it is fresh and its sequence exceeds that of every fresh sample before it |
| `OutletHistory.GateRefinesHistory` | include/standard_robot_pp_ros2/cmd_vel_authorization.hpp:96-143 | authorized exactly if an accepted EXECUTE came with the link up and no accepted STOP, emergency stop or link loss after it; both stop flags and the link state are the last event of their kind |
| `OutletHistory.MemoryIsHistory` | include/standard_robot_pp_ros2/cmd_vel_authorization.hpp:152-236 | the gate remembers a nonzero command exactly if it arrived at an open gate and since then nothing halted motion and every command was a zero the hold may bridge |
| `OutletHistory.CachedVelocityArrived` | src/standard_robot_pp_ros2.cpp:1114-1120 | a nonzero cached velocity really arrived, at an open gate, and nothing has halted or replaced it since |
| `OutletHistory.CommandIsShown` | src/standard_robot_pp_ros2.cpp:1077-1120 | a command that arrives at an open gate is shown unchanged, without the stop flag, until something halts, replaces or zeroes it |
| `OutletHistory.NoReplayAcrossHalt` | include/standard_robot_pp_ros2/cmd_vel_authorization.hpp:110-140 | after an accepted STOP, an emergency stop, a link loss or a watchdog tick, every nonzero velocity shown arrived after it |
| `OutletHistory.MotionNeedsNewAuthorization` | include/standard_robot_pp_ros2/cmd_vel_authorization.hpp:134-143 | where authorization is required, motion after a link loss needs a later EXECUTE, with the link up and a sequence larger than every earlier fresh one, and then a new command |
| `OutletAge.SnapshotIsRecent` | include/standard_robot_pp_ros2/cmd_vel_authorization.hpp:186-237 | with the watchdog on, a nonzero velocity in a snapshot arrived less than hold plus watchdog plus two milliseconds earlier, with no halt since, however many zeros came in between |
| `OutletAge.AgeBoundIsReached` | include/standard_robot_pp_ros2/cmd_vel_authorization.hpp:186-237 | that bound, or the watchdog plus a millisecond where no zero can be bridged, is exact: in every configuration with the watchdog on in which anything moves, a run that the threads can take reaches it |
| `OutletAge.AgeIsBoundedIff` | include/standard_robot_pp_ros2/cmd_vel_authorization.hpp:228-235 | the age is bounded, over all runs or over those the threads can take, exactly if the watchdog time-out is positive, or if the configuration lets nothing move at all |
| `OutletAge.GetParams` | src/standard_robot_pp_ros2.cpp:358-387 | the clamped configuration |
| `OutletAge.Clamped` | src/standard_robot_pp_ros2.cpp:358-386 | the watchdog is never longer than the lease, and hold is on only if it was asked for and is shorter than the watchdog |
| `OutletAge.WatchdogStaysOnIff` | src/standard_robot_pp_ros2.cpp:360-367 | after the clamps the watchdog is on exactly if its parameter is positive and the lease is at least a millisecond |
| `OutletAge.StartedNodeIsRecent` | src/standard_robot_pp_ros2.cpp:358-387 | a node started so never shows a velocity older than twice the lease plus a millisecond |
| `OutletStops.StopsOnlyTighten` | src/standard_robot_pp_ros2.cpp:1137-1200 | add any number of emergency stops, STOPs, stale or replayed samples, link losses or ticks to any run: at every moment it shows the velocity of the run without them, or zero |
| `OutletStops.SameEvent` | include/standard_robot_pp_ros2/cmd_vel_authorization.hpp:96-238 | the same event in both runs keeps the one with the stops the more restrictive |
| `OutletLimits.ReleaseOpensIff` | include/standard_robot_pp_ros2/cmd_vel_authorization.hpp:124-131 | clearing the emergency stop opens the gate exactly if the link is up, the last accepted command is no STOP and, where required, an EXECUTE was accepted since the last revocation |
| `OutletLimits.ReleaseAloneCanResume` | src/standard_robot_pp_ros2.cpp:1187-1209 | a run the threads can take in which motion resumes, up to the snapshot, after the release with no further EXECUTE |
| `OutletLimits.RejectionIsForgottenIff` | src/standard_robot_pp_ros2.cpp:1150-1160 | in any run, a rejected sample zeroes the command until the next one, whatever comes in between; a zero command then brings the old velocity back exactly if the hold may bridge it and nothing has halted motion in between |
| `OutletLimits.ReplayedStopIsForgotten` | src/standard_robot_pp_ros2.cpp:1150-1160 | a run the threads can take in which a snapshot shows the robot stopped by a replayed STOP and, after a zero command, a later one shows it in motion again |
| `OutletLimits.LinkStatesAgreeIff` | src/standard_robot_pp_ros2.cpp:490-508 | in any run the flag and the gate's link agree exactly if the last exchange and the last locked section went the same way |
| `OutletLimits.LinkStatesAgree` | src/standard_robot_pp_ros2.cpp:490-508 | so they agree, whenever no change is in progress, if changes of the link state do not overlap |
| `OutletLimits.OverlapDisagrees` | src/standard_robot_pp_ros2.cpp:443-508 | two overlapping changes, by a thread that finds the port broken and by the one that reopens it, can leave the flag true and the gate's link down |
| `OutletLimits.NothingMovesWithoutLink` | src/standard_robot_pp_ros2.cpp:493-504 | while the gate's link is down, only a section that brings it up lets anything move |
| `Wire.ImageCarriesNode` | src/standard_robot_pp_ros2.cpp:1224-1230 | at every moment of every run, with any writes of the other callbacks in between, the image carries the cached velocity and stop flag |
| `Wire.HeaderStays` | src/standard_robot_pp_ros2.cpp:1051-1064 | once the send thread has started, no step and no callback of any run disturbs the header whose CRC8 is computed only once |
| `Wire.FrameShowsSnapshot` | src/standard_robot_pp_ros2.cpp:1077-1105 | every frame made after the start is well formed, passes both verifiers, and carries velocity and stop flag of the snapshot it was made from |
| `Wire.SpeedBytesAreSafe` | src/standard_robot_pp_ros2.cpp:1077-1095 | velocity bytes other than zero mean that the gate was open and the watchdog unexpired at the snapshot; if the gate demanded a stop they are zero and the stop byte is set |
| `GimbalYaw.Normalize` | include/standard_robot_pp_ros2/gimbal_yaw_status_logic.hpp:203-206 | the result lies in (-pi, pi] and differs from the angle by whole turns |
| `GimbalYaw.NormalizeIff` | include/standard_robot_pp_ros2/gimbal_yaw_status_logic.hpp:203-206 | it is the only angle in (-pi, pi] that differs by whole turns |
| `GimbalYaw.GimbalYawStatusEvaluator.OnRequest` | include/standard_robot_pp_ros2/gimbal_yaw_status_logic.hpp:101-111 | accepts exactly larger sequence numbers, and its whole new state |
| `GimbalYaw.GimbalYawStatusEvaluator.OnFeedback` | include/standard_robot_pp_ros2/gimbal_yaw_status_logic.hpp:117-149 | its whole new state |
| `GimbalYaw.GimbalYawStatusEvaluator.Evaluate` | include/standard_robot_pp_ros2/gimbal_yaw_status_logic.hpp:152-196 | the status published, in every branch |
| `GimbalYawHistory.InterleavingIrrelevant` | include/standard_robot_pp_ros2/gimbal_yaw_status_logic.hpp:101-149 | how requests and readings interleave does not matter |
| `GimbalYawHistory.KeptIsFirstLargest` | include/standard_robot_pp_ros2/gimbal_yaw_status_logic.hpp:101-111 | the request kept is the first one with the largest sequence number received |
| `GimbalYawHistory.SequenceNeverDecreases` | include/standard_robot_pp_ros2/gimbal_yaw_status_logic.hpp:101-111 | the reported sequence never decreases |
| `GimbalYawHistory.StillSinceStart` | include/standard_robot_pp_ros2/gimbal_yaw_status_logic.hpp:141-148 | the moment of standstill is the reading with which the present unbroken run of still readings began |
| `GimbalYawHistory.StillIff` | include/standard_robot_pp_ros2/gimbal_yaw_status_logic.hpp:120-149 | a reading is still exactly if the yaw has turned since the one before, the short way round, by no more than the rate bound times the nanoseconds in between; if none have passed, exactly if the one before was |
| `GimbalYawHistory.LockIsHistory` | include/standard_robot_pp_ros2/gimbal_yaw_status_logic.hpp:166-170 | locked exactly if healthy and the present run of still readings began at least the dwell ago |
| `GimbalYawHistory.StatusRefinesHistory` | include/standard_robot_pp_ros2/gimbal_yaw_status_logic.hpp:152-196 | the status as a function of the whole history: whose request it reports, exactly when its authority is acknowledged, HOLD otherwise, BODY_YAW_FOLLOW only if allowed, lock, health and the three yaws |
| `GimbalYawHistory.ReasonIsHistory` | include/standard_robot_pp_ros2/gimbal_yaw_status_logic.hpp:172-196 | the reason published as a function of the whole history |
| `GimbalYawHistory.ReferenceIsFixed` | include/standard_robot_pp_ros2/gimbal_yaw_status_logic.hpp:129-134 | the reference yaw never changes once a healthy reading has set it |
| `GimbalYawHistory.RunDriftIff` | include/standard_robot_pp_ros2/gimbal_yaw_status_logic.hpp:120-149 | over a run of still readings the yaw drifts, up to full turns, by at most the rate bound times the elapsed time between any two of them, exactly if no reading repeats a time stamp with another yaw |
| `GimbalYawHistory.LockedMeansStill` | include/standard_robot_pp_ros2/gimbal_yaw_status_logic.hpp:168-170 | whenever locked is reported, the present still run began at least the dwell ago, its readings cover the dwell less the time a reading stays fresh, and that drift bound holds over it exactly if no reading of the run repeats a time stamp with another yaw |
| `GimbalYawHistory.ReadingsCoverDwellIff` | include/standard_robot_pp_ros2/gimbal_yaw_status_logic.hpp:158-170 | they cover the whole dwell exactly if the lock was already due when the last reading arrived |
| `GimbalYawHistory.SilenceLocks` | include/standard_robot_pp_ros2/gimbal_yaw_status_logic.hpp:158-170 | a run in which one still reading and silence are reported as locked |
| `GimbalYawHistory.AnyByteIsAcknowledged` | src/gimbal_yaw_status_bridge.cpp:158-160 | a healthy evaluator acknowledges any requested byte but that of BODY_YAW_FOLLOW |
| `GimbalYawHistory.StepDriftIff` | include/standard_robot_pp_ros2/gimbal_yaw_status_logic.hpp:120-128 | a still step is within the bound exactly if the clock advanced or the yaw is the same |
| `GimbalYawHistory.RepeatedTimeHidesMotion` | include/standard_robot_pp_ros2/gimbal_yaw_status_logic.hpp:120-128 | a run in which a repeated time stamp leaves the evaluator locked after a turn of a radian |
| `Axis.Fmod` | src/gimbal_manager.cpp:91 | the remainder is smaller than the divisor and takes the sign of the dividend |
| `Axis.AxisControl.Command` | src/gimbal_manager.cpp:46-70 | an angle is taken over and ends any motion; a velocity starts one, wrapping around exactly if the range is within 0.01 of a full turn, and then the range is not empty |
| `Axis.GimbalManager.GimbalCmdCallback` | src/gimbal_manager.cpp:33-71 | the whole new state: a repeated message does nothing, any other one is obeyed by both axes |
| `Axis.AxisControl.UpdateAxisPosition` | src/gimbal_manager.cpp:84-104 | the whole new state of the axis in every branch |
| `Axis.GimbalManager.UpdateState` | src/gimbal_manager.cpp:73-82 | the whole new state: each axis in velocity mode moves on its own, one in position mode stays |
| `Axis.ManyWrapsAreOne` | src/gimbal_manager.cpp:86-94 | after any number of updates of any sign a continuous axis is inside its range, where one update by the whole displacement would have put it |
| `Axis.WrapsAreCongruent` | src/gimbal_manager.cpp:86-94 | the position differs from start plus displacements by a whole number of ranges |
| `AxisSweep.StaysWithinLimits` | src/gimbal_manager.cpp:96-104 | after every update the position is within the limits and the velocity is the first one, reversed once for every turn |
| `AxisSweep.MovesUniformly` | src/gimbal_manager.cpp:84-104 | until it turns, the axis is where it started plus its velocity times the time that has passed |
| `AxisSweep.TurnsIff` | src/gimbal_manager.cpp:96-104 | an update turns the axis exactly if its velocity times the duration would carry it past a limit, and leaves it at that limit |
| `AxisSweep.CrossingEnds` | src/gimbal_manager.cpp:96-104 | a moving axis turns at the limit ahead of it within floor(range / (speed times shortest update)) + 1 updates, and not before at the other |
| `AxisSweep.AlternatesForEver` | src/gimbal_manager.cpp:96-104 | for every m, the m-th turn comes within m such bounds, exactly at the limits in turn and at the old speed |
| `AxisRun.OnlyNewMessagesCount` | src/gimbal_manager.cpp:33-82 | since a message that was no repetition, however often repeated, both axes have obeyed it once and then moved by themselves for the time that has passed |
| `AxisRun.AngleEndsMotion` | src/gimbal_manager.cpp:46-48 | an axis given an angle stays there, however long it takes |
| `AxisRun.TurnsContinuously` | src/gimbal_manager.cpp:49-59 | an axis given a velocity and a full turn is, up to whole ranges, where it was plus its velocity times the time that has passed, inside its range, and keeps its velocity |
| `AxisRun.SweepsFromWhereItWas` | src/gimbal_manager.cpp:49-59 | an axis given a velocity and any other range sweeps between its limits from where it was |

## Left out

- The serial driver, device probing, reconnect attempts and the exceptions they throw: a read
  returns between one byte and all that was asked for, changes of the link state are events.
- The three remaining header bytes are assumed to arrive in one read, because the code does not
  check how many it got.
- The bytes that leave the port after the snapshot: the claims are about the snapshot taken under
  the lock, and the send loop's test of the link flag is not modelled, so ticks may come at any time.
- Rounding, NaN and infinities of floating-point numbers, among them velocities so small that the
  cast to single precision makes them zero, and the casts whose result C++ leaves undefined.
- The numbers that stand for the kinds of a gimbal order, and the contents of a blank message, are
  defined in a package that is not part of this model; the blank message is a parameter.
- Publishers other than the choice of packet, reason codes in log messages, parameters other than
  the outlet's timing, detector colour, rosbag triggers and TF queries.
