# Verified model of the actuation module

This project models the parts of the vehicle's safety island that decide what reaches the actuator, and proves
properties of the model with Dafny 4.11. `dafny verify dfyconfig.toml` checks all of it.

`double` is modelled by `real`: rounding is not part of the model, and values that are not finite appear only where the
code tests for them. Clock readings, arrivals, write failures and memory addresses are inputs of the steps, free to take
any value the source allows.

## What is modelled

- **Lateral controller.** `MpcProblem` states the tracking problem stage by stage; `MpcMatrix` builds the condensed
  matrices in place as the controller does; `MpcCondense`, `MpcSteerWeight` and `MpcCost` prove that the condensed
  quadratic is the stage cost for every horizon, reference and input, and that a solution of Hu = -f is its only
  minimiser; `PositiveDefinite` and `MpcSolver` that there always is one, and `MpcFeedForward` what the steering weights
  penalise. `Resampling` and `LowpassFilter` prepare its reference trajectory, `SteerRateLimit` its rate limits, and
  `CscMatrix` is the sparse format handed to the QP solver.
- **Interpolation.** `Tridiagonal`, `Spline` and `SplineInterpolation` show that the sweep never divides by zero and
  computes the one natural cubic spline; `LinearInterpolation` and `Akima` cover the moving-cursor forms.
- **CAN command protocol.** `CanCodec`, `CanTunnel`, `CanSender` and `CanDecoder` are the parts. `CanRun` is about
  whole runs over an ordered bus and `CanTunnelRun` about runs over a network that loses, repeats and reorders;
  `CanHalves` says where the decoder's pending halves come from when frames are missing, and `CanLoss` and
  `CanTunnelLoss` apply it to a bus and to a tunnel that lose single frames.
- **Supervisor.** `CandidateIdentity`, `SiChannel` and `Supervision` are its helper types, `ControllerState` the state
  machine as functions, `Controller` the node that implements it, `ControllerRun` the theorems over runs of events,
  `FaultInputRun` those about the fault input, and `Timer` the periodic timer that drives it.
- **Per-task storage runtime.** `Emutls` and `EmutlsRun` model every load, store, allocation and free of an access as a
  step of a task, interleaved with all other tasks, `EmutlsCancel` is one run that leaks; `PthreadShim` is
  the life of a thread's resources.
- **Longitudinal controller.** `SmoothStop`, `PidController`, `TrajectoryWalk` and `LongitudinalController`.

Classes stand for the source's objects and are proved against functions on their abstract state; the run theorems are
about those functions. The large supervisor and runtime states are grouped into records.

## Findings

Where a promised property does not hold as stated, the model keeps the code and states when it does.

- The steering rate and acceleration weights also enter f through `R1ex`, multiplied by the reference inputs, so the
  code penalises rates of the deviation from the feed-forward input and not of the input, as the comments beside the
  weights have it. `MpcFeedForward.PenalisesInputRatesIff` says exactly when the two agree; `CurveIsConfused` gives
  problems for which they do not.
- Vector `lerp` moves only the first and the last query into range. Any other query past the last base key makes the
  cursor run out of the table (`Overruns` in `LinearInterpolation.LerpAll`; `InnerQueryOverruns` is one).
- A classic CAN bus that loses a single frame can make the decoder accept a command mixed from two
  (`CanLoss.LostFrameTears`); `CanLoss.NoTornCommandIff` gives the exact condition. So can the bus behind the tunnel's
  gateway, with an injection that was cut short (`CanTunnelLoss.CutAndLostTears`, `CanTunnelLoss.NoTornCommandIff`).
  Nothing is torn over CAN-FD, nor over the tunnel as long as that bus keeps what it is given, whatever the network
  loses and whatever the watchdog does.
- A watchdog stop forgets the expected number, so it can let an old datagram in again (`CanTunnelRun.StopReadmits`);
  `InOrderIffNeverReadmits` says exactly when.
- A datagram at least half the number range late is taken for new (`CanTunnelRun.ReplayOutsideWindow`);
  `InOrderIffNeverLooksNew` gives the exact condition.
- With a stop for the fault input already on, a new edge of that input does not drop an earlier re-enable press, because
  the reason does not change (`FaultInputRun.EdgeAfterPressIsForgotten`).
- The fault-edge counter has 32 bits: 2^32 edges between two ticks go unseen (`ControllerRun.PulsesGoUnseen`), and then
  the vehicle can be driven with the fault level held (`FaultInputRun.HeldFaultIsMissed`); otherwise it cannot
  (`HeldFaultStops`).
- A thread cancelled inside a thread-local access leaves behind exactly the blocks it held in local variables
  (`Emutls.ReclaimLeaves`; `EmutlsCancel.CancelLeaksBlock` is a run that does).
- The published acceleration can jump past its difference limit on departure, which resets what the limiter counts from,
  and far from the trajectory, where it is not applied (`LongitudinalController.PublishedJumpsIff`).
- The resampling grid has one shorter gap when the ego is within the last micrometre of the path and the interval is
  below a micrometre (`Resampling.UnevenGrid`).
- The forward and backward Butterworth filter reads the forward signal in both passes, so its answer is always
  symmetric; it is the filter it is meant to be only for symmetric signals (`LowpassFilter.ForwardAndBackwardIff`).
- With a negative integral gain the PID integral is pinned to the upper limit as soon as it integrates
  (`PidController.ContributionBounded`).

## Model

| member | source | states |
|---|---|---|
| MpcCondense.PredictionIsSimulation | actuation_module/src/autoware/autoware_mpc_lateral_controller/src/mpc.cpp:496-544 | for every horizon, start state and input sequence, block i of the stacked prediction is the state after i + 1 steps of x := A x + B u + W |
| MpcMatrix.WriteAex | actuation_module/src/autoware/autoware_mpc_lateral_controller/src/mpc.cpp:530-536 | the in-place state blocks: the first is A of stage 0, each later one its A times the block above; every other entry stays as it was |
| MpcMatrix.WriteBex | actuation_module/src/autoware/autoware_mpc_lateral_controller/src/mpc.cpp:530-544 | the in-place input blocks: B on the diagonal, the columns before it carried on by A, zeros after it |
| MpcMatrix.WriteWex | actuation_module/src/autoware/autoware_mpc_lateral_controller/src/mpc.cpp:530-543 | the in-place disturbance column follows W + A times the block above |
| MpcMatrix.WriteCex | actuation_module/src/autoware/autoware_mpc_lateral_controller/src/mpc.cpp:545 | the output blocks stand on the diagonal, zeros elsewhere |
| MpcMatrix.WriteQex | actuation_module/src/autoware/autoware_mpc_lateral_controller/src/mpc.cpp:510-523 | the output weights stand on the diagonal, zeros elsewhere, the last stage with its terminal weight |
| MpcMatrix.WriteInputs | actuation_module/src/autoware/autoware_mpc_lateral_controller/src/mpc.cpp:515-555 | input weights and reference inputs of each stage |
| MpcMatrix.AddJerkWeight | actuation_module/src/autoware/autoware_mpc_lateral_controller/src/mpc.cpp:558-565 | the lateral-jerk weights add one tridiagonal form between neighbouring inputs |
| MpcMatrix.AddSteerWeightR | actuation_module/src/autoware/autoware_mpc_lateral_controller/src/mpc.cpp:675-716 | in place, for more than one stage, adds exactly the rate and acceleration blocks and leaves the rest of R alone |
| MpcMatrix.GenerateMPCMatrix | actuation_module/src/autoware/autoware_mpc_lateral_controller/src/mpc.cpp:463-570 | the eight arrays built in place represent the stage-by-stage problem |
| MpcSteerWeight.SteerWeightForm | actuation_module/src/autoware/autoware_mpc_lateral_controller/src/mpc.cpp:675-716 | the added blocks are the weighted sum of squared steering rates and accelerations with zero inputs before the horizon, for every input sequence |
| MpcSteerWeight.JerkBlocksForm | actuation_module/src/autoware/autoware_mpc_lateral_controller/src/mpc.cpp:558-565 | the jerk blocks are the weighted sum of squared lateral-jerk differences, for every input sequence |
| MpcCost.HIsFull | actuation_module/src/autoware/autoware_mpc_lateral_controller/src/mpc.cpp:619-622 | copying the upper triangle back down leaves H the full symmetric matrix |
| MpcCost.CondensedCostIsTrackingCost | actuation_module/src/autoware/autoware_mpc_lateral_controller/src/mpc.cpp:614-624 | U'HU + 2fU plus a term free of U equals the tracking cost over the simulated states plus all input costs, for every U |
| MpcCost.HPositiveDefinite | actuation_module/src/autoware/autoware_mpc_lateral_controller/src/mpc.cpp:558-567 | with admissible weights U'HU is positive for every U other than zero |
| MpcCost.SolutionIsUniqueMinimiser | actuation_module/src/autoware/autoware_mpc_lateral_controller/src/qp_solver/qp_solver_unconstraint_fast.cpp:24-36 | a u with Hu = -f has the least condensed cost, hence the least stage cost, and is the only one |
| MpcSolver.MinimiserExists | actuation_module/src/autoware/autoware_mpc_lateral_controller/src/qp_solver/qp_solver_unconstraint_fast.cpp:33 | Hu = -f always has a solution, so there is a minimiser |
| MpcSolver.AnswerExists | actuation_module/src/autoware/autoware_mpc_lateral_controller/src/qp_solver/qp_solver_unconstraint_fast.cpp:24-36 | every admissible problem has an answer |
| MpcSolver.AnswerIsMinimiser | actuation_module/src/autoware/autoware_mpc_lateral_controller/src/qp_solver/qp_solver_unconstraint_fast.cpp:24-36 | the solver refuses exactly when the determinant of H, which is positive, is below its threshold; any other answer is the one minimiser of the stage cost |
| PositiveDefinite.Solvable | actuation_module/src/autoware/autoware_mpc_lateral_controller/src/qp_solver/qp_solver_unconstraint_fast.cpp:33 | every symmetric positive definite system has a solution, of any size |
| PositiveDefinite.Determinant | actuation_module/src/autoware/autoware_mpc_lateral_controller/src/qp_solver/qp_solver_unconstraint_fast.cpp:29 | the determinant of such a matrix is positive |
| MpcFeedForward.PenalisesInputRatesIff | actuation_module/src/autoware/autoware_mpc_lateral_controller/src/mpc.cpp:619-716 | up to a constant free of U the condensed objective is the cost with the rates and accelerations of U itself if and only if there is at most one stage, or no feed-forward input, or no weight on rates |
| MpcFeedForward.CurveIsConfused | actuation_module/src/autoware/autoware_mpc_lateral_controller/src/mpc.cpp:614-624 | two stages of a curve of constant curvature are a problem for which it is not, for every vehicle model that answers the curvature with a steering outside the dead zone |
| Tridiagonal.SolutionIffEliminated | actuation_module/src/autoware/autoware_interpolation/src/spline_interpolation.cpp:36-51 | without a zero pivot a vector solves the tridiagonal rows if and only if it satisfies the eliminated ones |
| Tridiagonal.DominantHasNoZeroPivot | actuation_module/src/autoware/autoware_interpolation/src/spline_interpolation.cpp:36-44 | a diagonally dominant system never divides by zero in the sweep |
| Tridiagonal.SolutionUnique | actuation_module/src/autoware/autoware_interpolation/src/spline_interpolation.cpp:22-54 | such a system has one solution only |
| Tridiagonal.Solve | actuation_module/src/autoware/autoware_interpolation/src/spline_interpolation.cpp:22-54 | the sweep and the back substitution return the vector that solves every row, and no other does |
| Spline.CurvatureSystemSolvable | actuation_module/src/autoware/autoware_interpolation/src/spline_interpolation.cpp:171-179 | for strictly increasing keys the spline's own system is diagonally dominant |
| Spline.SmoothIff | actuation_module/src/autoware/autoware_interpolation/src/spline_interpolation.cpp:181-192 | the pieces are smooth at every interior knot if and only if the knot curvatures solve the system |
| Spline.NaturalSplineUnique | actuation_module/src/autoware/autoware_interpolation/src/spline_interpolation.cpp:148-194 | natural interpolating splines through the base points are unique |
| SplineInterpolation.SplineInterpolation.CalcSplineCoefficients | actuation_module/src/autoware/autoware_interpolation/src/spline_interpolation.cpp:148-194 | the stored coefficients are the one natural cubic spline: through all base points, first and second derivatives agree at interior knots, zero curvature at both ends |
| SplineInterpolation.SplineInterpolation.GetSplineInterpolatedValues | actuation_module/src/autoware/autoware_interpolation/src/spline_interpolation.cpp:196-212 | for accepted queries each answer is the value of the piece that contains it |
| SplineInterpolation.SplineInterpolation.GetSplineInterpolatedDiffValues | actuation_module/src/autoware/autoware_interpolation/src/spline_interpolation.cpp:214-229 | the same for first derivatives |
| SplineInterpolation.SplineInterpolation.GetSplineInterpolatedQuadDiffValues | actuation_module/src/autoware/autoware_interpolation/src/spline_interpolation.cpp:231-246 | the same for second derivatives |
| SplineInterpolation.EvaluationWellDefined | actuation_module/src/autoware/autoware_interpolation/src/spline_interpolation.cpp:140-146 | at a knot the piece before and the piece after give the same value and derivatives, so the choice of segment does not show |
| SplineInterpolation.EvaluationInterpolates | actuation_module/src/autoware/autoware_interpolation/src/spline_interpolation.cpp:196-212 | at a base key the spline gives the base value |
| InterpolationKeys.ValidateKeys | actuation_module/src/autoware/autoware_interpolation/include/autoware/interpolation/interpolation_utils.hpp:60-97 | accepts exactly the keys the source accepts, and moves only the first and last query into range |
| InterpolationKeys.SegmentUnique | actuation_module/src/autoware/autoware_interpolation/src/spline_interpolation.cpp:140-146 | a key strictly inside a segment is found there by the binary search |
| InterpolationKeys.AdvanceCursor | actuation_module/src/autoware/autoware_interpolation/src/linear_interpolation.cpp:38-42 | the moving cursor stops at the first base key that is not below the query, or runs over the end |
| LinearInterpolation.LerpAll | actuation_module/src/autoware/autoware_interpolation/src/linear_interpolation.cpp:26-52 | returns the linear interpolation of every query, or the error of rejected keys, or runs out of range exactly when a query that is not cropped lies past the last key |
| LinearInterpolation.InnerQueryOverruns | actuation_module/src/autoware/autoware_interpolation/src/linear_interpolation.cpp:34-52 | two accepted queries just past the end make the cursor overrun |
| LinearInterpolation.InterpolatesBasePoints | actuation_module/src/autoware/autoware_interpolation/src/linear_interpolation.cpp:34-52 | at a base key the answer is the base value |
| LinearInterpolation.Monotone | actuation_module/src/autoware/autoware_interpolation/src/linear_interpolation.cpp:34-52 | for data that does not decrease, larger queries give no smaller answers |
| Akima.KnotSlopeBetween | actuation_module/src/autoware/autoware_interpolation/src/spline_interpolation.cpp:81-108 | each knot slope lies between the smallest and the largest neighbouring secant |
| Akima.PieceMeaning | actuation_module/src/autoware/autoware_interpolation/src/spline_interpolation.cpp:110-124 | each cubic passes through both its knots with the knot slopes |
| Akima.ContinuouslyDifferentiable | actuation_module/src/autoware/autoware_interpolation/src/spline_interpolation.cpp:110-124 | neighbouring pieces agree in value and in slope at every knot |
| Akima.CursorIsSegment | actuation_module/src/autoware/autoware_interpolation/src/spline_interpolation.cpp:128-132 | for sorted queries the moving cursor picks the segment of the binary search |
| Akima.SplineByAkima | actuation_module/src/autoware/autoware_interpolation/src/spline_interpolation.cpp:67-138 | every answer is the value of the piece that contains the query |
| CanCodec.ScaleToI32 | actuation_module/include/common/can/control_command_encoder.hpp:73-94 | a value is accepted exactly when it is finite and its half-away rounding fits 32 bits, and then rounded so |
| CanCodec.RoundingIsNearest | actuation_module/include/common/can/control_command_encoder.hpp:86-92 | the rounding is off by at most half a unit, a half goes away from zero |
| CanCodec.EncodeControlCommand | actuation_module/include/common/can/control_command_encoder.hpp:105-180 | the three classic frames of exactly the encodable commands |
| CanCodec.EncodeControlCommandFd | actuation_module/include/common/can/control_command_encoder.hpp:184-225 | one FD frame that packs the three payloads, padded with zeros |
| CanCodec.I32RoundTrip | demo/can_carla_bridge/decoder.py:38-46 | reading a written 32-bit field gives the integer back, sign included |
| CanTunnel.UnpackPack | actuation_module/include/common/can/can_udp_tunnel.hpp:134-183 | unpacking the datagram of a valid batch gives that batch |
| CanTunnel.PackUnpack | actuation_module/include/common/can/can_udp_tunnel.hpp:93-132 | packing what was read from an accepted datagram gives its 48 bytes back |
| CanTunnel.AcceptedIffDatagram | actuation_module/include/common/can/can_udp_tunnel.hpp:134-183 | all checks pass exactly on the datagrams of valid batches |
| CanTunnel.PackCanUdpTunnel | actuation_module/include/common/can/can_udp_tunnel.hpp:93-132 | succeeds exactly on valid batches, with exactly their datagram |
| CanTunnel.UnpackCanUdpTunnel | actuation_module/include/common/can/can_udp_tunnel.hpp:134-183 | succeeds exactly on datagrams of valid batches, with their batch |
| CanTunnel.Pack | demo/can_tunnel_bridge/datagram.py:38-49 | the Python packer agrees byte for byte with the C++ one |
| CanTunnel.Unpack | demo/can_tunnel_bridge/datagram.py:52-75 | the Python unpacker accepts the same datagrams with the same batches |
| CanSender.ControlCommandCanOutput.Send | actuation_module/include/common/can/control_command_can_output.hpp:41-83 | what is written, the result, and a sequence number that advances exactly when every write succeeded |
| CanSender.ControlCommandCanOutput.SendFrames | actuation_module/include/platform/freertos/freertos_can_socketcan.h:168-176 | frames are written in order up to the first failing one |
| CanSender.ControlCommandCanOutput.SendDatagram | actuation_module/include/platform/zephyr/zephyr_can_udp_tunnel.h:87-119 | one datagram for the batch, or nothing |
| CanDecoder.ControlCommandDecoder.Feed | demo/can_carla_bridge/decoder.py:67-111 | the whole new state and event of one classic frame |
| CanDecoder.ControlCommandDecoder.FeedFd | demo/can_carla_bridge/decoder.py:113-133 | an FD frame is its three classic slices in order |
| CanDecoder.ControlCommandDecoder.PollWatchdog | demo/can_carla_bridge/decoder.py:135-146 | a stop clears the pending frames and the expected number |
| CanRun.RunDelivers | actuation_module/include/common/can/control_command_can_output.hpp:41-83 | over any run of sends with failures at any frame and watchdog polls anywhere, the accepted commands are exactly those sent and not cut by a stop between their frames, in order, each from its own frames |
| CanRun.UninterruptedRun | demo/can_carla_bridge/decoder.py:84-111 | without such a stop exactly the successful sends are accepted, in order |
| CanRun.AcceptedWasSent | demo/can_carla_bridge/decoder.py:84-111 | no torn command, none twice, none out of order, whatever the watchdog does |
| CanRun.SentNumbers | actuation_module/include/common/can/control_command_can_output.hpp:54-82 | the k-th successful command carries the start number plus k, wrapped to 16 bits |
| CanRun.DecodedIsClose | demo/can_carla_bridge/decoder.py:93-103 | every decoded field is within half a unit of the command sent; flags, mode and number are equal |
| CanHalves.AcceptedIsRebuilt | demo/can_carla_bridge/decoder.py:67-111 | for any passes of commands over a bus on which any frame may be missing, a pass has an accepted command exactly when its status frame arrives, finds two halves held and passes the number test; the command is made of those halves |
| CanHalves.OwnCommandIff | demo/can_carla_bridge/decoder.py:84-111 | with distinct payloads an accepted status frame yields its own command if and only if each half arrived in its pass or is held from another pass of the same command |
| CanHalves.OnlySentIff | demo/can_carla_bridge/decoder.py:67-111 | every accepted command is one of a given set of sent ones if and only if each accepted status frame meets halves of one sent command whose status frame reads like its own |
| CanHalves.NoTornCommandIff | demo/can_carla_bridge/decoder.py:67-111 | as long as no number comes twice, that is if and only if no accepted status frame meets a half of another command |
| CanLoss.OwnCommandIff | demo/can_carla_bridge/decoder.py:84-111 | with distinct payloads an accepted status frame yields its own command if and only if its own lateral and its own longitudinal frame arrived |
| CanLoss.RunIsOwnIff | demo/can_carla_bridge/decoder.py:67-111 | the same for all accepted status frames of a run together |
| CanLoss.OnlySentIff | demo/can_carla_bridge/decoder.py:67-111 | in any run only sent commands are accepted if and only if each accepted status frame meets halves of one successful send whose status frame reads like its own |
| CanLoss.NoTornCommandIff | demo/can_carla_bridge/decoder.py:67-111 | with at most 2^16 sends, only sent commands are accepted if and only if no accepted status frame meets an older half in place of a lost one |
| CanLoss.LostFrameTears | demo/can_carla_bridge/decoder.py:67-111 | a send that fails after its first frame and one lost lateral frame of the next make the decoder accept a command that is neither |
| CanLoss.KeptIsBus | actuation_module/include/platform/freertos/freertos_can_socketcan.h:168-176 | a successful send of which nothing is lost is the lossless bus of the run theorems |
| CanLoss.FdNeverTears | demo/can_carla_bridge/decoder.py:113-137 | over CAN-FD no loss can tear a command, whatever is pending |
| CanTunnelRun.OutputIsLog | actuation_module/include/platform/zephyr/zephyr_can_udp_tunnel.h:85-119 | the network gets one datagram per successful send, the k-th with number s0 + k |
| CanTunnelRun.Forward | demo/can_tunnel_bridge/gateway.py:44-58 | the frames put on the bus for one payload when injection stops after any frame |
| CanTunnelRun.DeltaOfIndices | demo/can_carla_bridge/decoder.py:49-50 | the 16-bit serial comparison of section 3.2 of RFC 1982 on unwrapped indices, exact inside half the range |
| CanTunnelRun.TunnelRunRefines | demo/can_carla_bridge/decoder.py:84-111 | sending, packing, unpacking, injecting and decoding refines a model on indices: with datagrams lost, repeated and reordered and injection cut short, over a bus behind the gateway that keeps every injected frame, each accepted command is one sent datagram's, while the watchdog is quiet |
| CanTunnelRun.RunWithStopsRefines | demo/can_carla_bridge/decoder.py:84-147 | the same whatever the watchdog does: over a bus that keeps every injected frame no command is torn, and the accepted ones are those of the model with stops |
| CanTunnelRun.InOrderIffNeverReadmits | demo/can_carla_bridge/decoder.py:135-147 | with stops, accepted indices strictly increase if and only if no old datagram arrives complete and undisturbed while a stop has made the receiver forget its number, or so late that its number looks new |
| CanTunnelRun.StopReadmits | demo/can_carla_bridge/decoder.py:135-147 | one poll that stops the vehicle between a datagram and its copy makes the decoder, from its first state, accept both, byte by byte |
| CanTunnelRun.InOrderIffNeverLooksNew | demo/can_carla_bridge/decoder.py:88-90 | accepted indices strictly increase - at most once, in order - if and only if no datagram is so late that its number looks new again |
| CanTunnelRun.WindowMakesExact | demo/can_carla_bridge/decoder.py:88-90 | inside the window the receiver accepts exactly what one with unbounded numbers would |
| CanTunnelRun.ReplayOutsideWindow | demo/can_carla_bridge/decoder.py:88-90 | outside it a duplicate is accepted twice |
| CanTunnelLoss.RunExists | demo/can_carla_bridge/decoder.py:84-147 | every list of deliveries, injections and losses has a run of the decoder |
| CanTunnelLoss.ArriveIsPass | demo/can_tunnel_bridge/gateway.py:44-58 | byte by byte, a datagram whose injection stops after any frame, onto a bus that loses any frame, is one pass of its command over that bus |
| CanTunnelLoss.NoTornCommandIff | demo/can_carla_bridge/decoder.py:67-111 | with distinct payloads and at most 2^16 datagrams, lost, repeated, reordered and cut short at will, on a bus that loses any frame and whatever the watchdog does, only sent commands are accepted if and only if no accepted status frame meets a half of another datagram in place of its own |
| CanTunnelLoss.KeptBusNeverTears | demo/can_tunnel_bridge/gateway.py:44-58 | on a bus that keeps what it is given that condition always holds, because the status frame is injected last |
| CanTunnelLoss.CutAndLostTears | demo/can_carla_bridge/decoder.py:67-111 | one injection cut after its first frame and one lost lateral frame of the next make the decoder accept a command that is neither |
| CandidateIdentity.AcceptedIffAdvances | actuation_module/src/autoware/autoware_trajectory_follower_node/include/autoware/trajectory_follower_node/candidate_identity.hpp:28-51 | a sample is accepted exactly when it is the first or advances in stamp, cycle and unretired session |
| CandidateIdentity.StampsStrictlyIncrease | actuation_module/src/autoware/autoware_trajectory_follower_node/include/autoware/trajectory_follower_node/candidate_identity.hpp:53-70 | over any stream that mixes sessions the stamps of the noted samples strictly increase |
| CandidateIdentity.RetiredIffRecentlyLeft | actuation_module/src/autoware/autoware_trajectory_follower_node/include/autoware/trajectory_follower_node/candidate_identity.hpp:36-40 | a session is refused as retired exactly when it is among the sixteen most recently left |
| CandidateIdentity.SearchRetired | actuation_module/src/autoware/autoware_trajectory_follower_node/include/autoware/trajectory_follower_node/candidate_identity.hpp:36-40 | the ring search |
| CandidateIdentity.StampAcceptedIffLater | actuation_module/src/autoware/autoware_trajectory_follower_node/include/autoware/trajectory_follower_node/candidate_identity.hpp:96-108 | Autoware trajectories: accepted exactly when the stamp is later |
| SiChannel.CounterCountsEdges | actuation_module/freertos_x5h/si_channel.c:56-67 | the counter counts every rising edge of the fault level modulo 2^32, the level is that of the last setting message |
| SiChannel.SiChannelState.Rx | actuation_module/freertos_x5h/si_channel.c:56-67 | one received message |
| Supervision.RampIsBounded | actuation_module/src/autoware/autoware_trajectory_follower_node/include/autoware/trajectory_follower_node/supervision_latch.hpp:86-93 | the stop target is bounded by the captured speed and the limit, never negative, never rises, falls at the deceleration and reaches zero |
| Supervision.StaleOdometryStopsAtOnce | actuation_module/src/autoware/autoware_trajectory_follower_node/include/autoware/trajectory_follower_node/supervision_latch.hpp:182-201 | only fresh odometry can start a stop from a positive speed |
| Supervision.EnvelopeViolation | actuation_module/src/autoware/autoware_trajectory_follower_node/include/autoware/trajectory_follower_node/supervision_latch.hpp:219-233 | no violation exactly when all three values are finite and within their limits |
| Controller.ControllerNode.LatchFault | actuation_module/src/autoware/autoware_trajectory_follower_node/src/controller_node.cpp:882-900 | an edge starts a new stop, another reason replaces the reason, both drop a pending press |
| Controller.ControllerNode.SupervisorStaleReason | actuation_module/src/autoware/autoware_trajectory_follower_node/src/controller_node.cpp:902-938 | the first stale source in the order of the tables |
| Controller.ControllerNode.AllSourcesFresh | actuation_module/src/autoware/autoware_trajectory_follower_node/src/controller_node.cpp:940-975 | all seen and in time, heartbeat if seen, no fault held |
| Controller.ControllerNode.CallbackTrajectory | actuation_module/src/autoware/autoware_trajectory_follower_node/src/controller_node.cpp:320-377 | what an Autoware trajectory changes |
| Controller.ControllerNode.CallbackDrivingReference | actuation_module/src/autoware/autoware_trajectory_follower_node/src/controller_node.cpp:379-471 | what a VisionPilot reference changes |
| Controller.ControllerNode.CallbackDrivingCommand | actuation_module/src/autoware/autoware_trajectory_follower_node/src/controller_node.cpp:473-551 | what a VisionPilot command changes |
| Controller.ControllerNode.StoppedPayload | actuation_module/src/autoware/autoware_trajectory_follower_node/src/controller_node.cpp:1060-1082 | steering held, standstill or ramp speed, stop deceleration |
| Controller.ControllerNode.CallbackTimerControl | actuation_module/src/autoware/autoware_trajectory_follower_node/src/controller_node.cpp:650-840 | one tick: the whole new state and the one request it publishes |
| ControllerRun.RunExists | actuation_module/src/autoware/autoware_trajectory_follower_node/src/controller_node.cpp:650-840 | every sequence of events has a run, so the theorems below are not about nothing |
| ControllerRun.NormalIsSupervised | actuation_module/src/autoware/autoware_trajectory_follower_node/src/controller_node.cpp:657-740 | in every run a NORMAL request comes only from a tick with the latch off and every source live at that time, and lies inside the envelope |
| ControllerRun.ResumesIff | actuation_module/src/autoware/autoware_trajectory_follower_node/src/controller_node.cpp:700-719 | a latched tick resumes exactly when a press is pending in its window, all sources are fresh and no new edge changes the reason |
| ControllerRun.StopsUntilPressed | actuation_module/src/autoware/autoware_trajectory_follower_node/src/controller_node.cpp:700-719 | once latched every tick publishes SI_STOP until one with a press newer than the latch edge and the last change of reason, in its window, all sources fresh |
| ControllerRun.EdgesSeen | actuation_module/src/autoware/autoware_trajectory_follower_node/src/controller_node.cpp:682-691 | as long as no tick reads it, the counter has moved exactly when the edges since it was read are not a multiple of 2^32 |
| ControllerRun.EdgeStopsNextTick | actuation_module/src/autoware/autoware_trajectory_follower_node/src/controller_node.cpp:682-691 | in every run a rising edge between two successive ticks makes the later one publish SI_STOP even when the level has fallen, unless a stop for that reason is on |
| ControllerRun.EdgeStopsFirstTick | actuation_module/src/autoware/autoware_trajectory_follower_node/src/controller_node.cpp:682-691 | the same for the first tick of a node, with the edges of everything the channel received before it, also before the node was made |
| ControllerRun.PulsesGoUnseen | actuation_module/src/autoware/autoware_trajectory_follower_node/src/controller_node.cpp:682-691 | n pulses go unseen exactly when n is a multiple of 2^32, in a run from the start |
| FaultInputRun.HeldFaultStops | actuation_module/src/autoware/autoware_trajectory_follower_node/src/controller_node.cpp:682-719 | in every run of a new node, whatever the channel received before, a tick that finds the fault level held publishes SI_STOP, whatever was pressed and whatever is fresh, as long as no tick so far came a positive multiple of 2^32 edges after the reading before it |
| FaultInputRun.HeldFaultDrivesIff | actuation_module/src/autoware/autoware_trajectory_follower_node/src/controller_node.cpp:682-719 | and otherwise it need not: a node made while the level is held, with all sources fresh and a driving command, publishes NORMAL at its first tick if and only if the channel counted a multiple of 2^32 edges |
| FaultInputRun.HeldFaultIsMissed | actuation_module/src/autoware/autoware_trajectory_follower_node/src/controller_node.cpp:682-719 | 2^32 edges, the last one held, are such a history |
| FaultInputRun.EdgeAfterPressIsForgotten | actuation_module/src/autoware/autoware_trajectory_follower_node/src/controller_node.cpp:893-899 | that exception is real: in a run of a new node a fault stops the vehicle, the operator presses, a second fault rises and falls, and the next tick resumes |
| ControllerRun.OnePerTick | actuation_module/src/autoware/autoware_trajectory_follower_node/src/controller_node.cpp:994-1058 | each tick publishes exactly one request and the n-th carries number n |
| ControllerRun.StopsKeepSteering | actuation_module/src/autoware/autoware_trajectory_follower_node/src/controller_node.cpp:1060-1082 | every SI_STOP or HOLD carries the steering of the latest NORMAL request, or before any the latest report |
| ControllerRun.StopNeverSpeedsUp | actuation_module/src/autoware/autoware_trajectory_follower_node/src/controller_node.cpp:1073-1077 | during one stop the commanded speed never rises |
| ControllerRun.RefreshNeedsLaterStamp | actuation_module/src/autoware/autoware_trajectory_follower_node/src/controller_node.cpp:493-546 | each refresh comes with a stamp later than the one noted before |
| ControllerRun.RefreshesAdvance | actuation_module/src/autoware/autoware_trajectory_follower_node/src/controller_node.cpp:493-546 | no sample refreshes a VisionPilot watchdog twice: of two refreshes in a run the later has the strictly later stamp |
| Timer.StaysOnGrid | actuation_module/include/common/node/timer.hpp:79-99 | with a clock that does not go back the last time stays on start + k period and not ahead of the clock |
| Timer.CallbacksWithinElapsed | actuation_module/include/common/node/timer.hpp:79-99 | callbacks never exceed elapsed time over period |
| Timer.AdvanceIsOnGrid | actuation_module/include/common/node/timer.hpp:84-97 | one execution moves at least one period and leaves at most one in arrears |
| ControllerRun.SequenceWithinElapsed | actuation_module/src/autoware/autoware_trajectory_follower_node/src/controller_node.cpp:994-1058 | the output sequence number is the number of timer callbacks and never exceeds elapsed time over period |
| Timer.PeriodicTimer.Execute | actuation_module/include/common/node/timer.hpp:64-99 | two clock readings, at most one callback |
| Emutls.ValueFits | actuation_module/freertos_x5h/x5h_emutls.c:125-145 | the value is aligned and fits its raw allocation together with the back pointer |
| Emutls.AssignIndexKeeps | actuation_module/freertos_x5h/x5h_emutls.c:172-182 | under the critical section an index is assigned once and to one variable |
| Emutls.ReclaimFrees | actuation_module/freertos_x5h/x5h_emutls.c:253-268 | cleanup frees live blocks of its task only, each once |
| Emutls.ReclaimLeaves | actuation_module/freertos_x5h/x5h_emutls.c:253-268 | after a join or cancel exactly the blocks that a task suspended inside an access held in its locals are left; otherwise none |
| EmutlsCancel.CancelLeaksBlock | actuation_module/freertos_x5h/x5h_emutls.c:209-215 | a run from the start that cancels a task between making a value and storing it ends with the block still allocated |
| Emutls.GrowArray | actuation_module/freertos_x5h/x5h_emutls.c:185-207 | old slots copied, the rest NULL |
| Emutls.CleanupLoop | actuation_module/freertos_x5h/x5h_emutls.c:262-266 | the raw pointers freed, in order |
| Emutls.RegisteredIsValid | actuation_module/freertos_x5h/x5h_emutls.c:228-242 | merging keeps a template only with a size it covers; size and alignment become the largest seen |
| EmutlsRun.StepKeeps | actuation_module/freertos_x5h/x5h_emutls.c:156-215 | every step of any task in any interleaving keeps the invariant |
| EmutlsRun.BlocksAreDisjoint | actuation_module/freertos_x5h/x5h_emutls.c:125-145 | different (task, variable) pairs use disjoint aligned memory |
| EmutlsRun.IndexAssignedOnce | actuation_module/freertos_x5h/x5h_emutls.c:172-182 | an assigned index never changes |
| EmutlsRun.StepRefines | actuation_module/freertos_x5h/x5h_emutls.c:156-215 | every step refines a map from (task, variable) to value |
| EmutlsRun.AddressIsStable | actuation_module/freertos_x5h/x5h_emutls.c:184-215 | an address stays the same for the task's life while arrays grow |
| EmutlsRun.ReadsOwnLastWrite | actuation_module/freertos_x5h/x5h_emutls.c:156-215 | in every run a task reads its own last write, never another task's |
| EmutlsRun.FreshTaskReadsInitial | actuation_module/freertos_x5h/x5h_emutls.c:138-144 | a new task sees the template or zeros |
| EmutlsRun.AccessReturnsStored | actuation_module/freertos_x5h/x5h_emutls.c:209-215 | an access returns the address stored for the variable it asked for, whether it found the value or made it |
| EmutlsRun.PublishOwn | actuation_module/freertos_x5h/x5h_emutls.c:209-215 | an access that makes its value stores the address it returns, and the variable reads its initial value before and after |
| PthreadShim.Thread.Create | actuation_module/include/platform/freertos/x5h/pthread.h:160-219 | a running thread with all it needs, or an error with nothing left |
| PthreadShim.Thread.Cancel | actuation_module/include/platform/freertos/x5h/pthread.h:279-298 | storage before task; the rest waits for the join |
| PthreadShim.Thread.Join | actuation_module/include/platform/freertos/x5h/pthread.h:221-277 | everything released exactly once, storage before the task before a TCB of its own |
| SmoothStop.CalcTimeToStop | actuation_module/src/autoware/autoware_pid_longitudinal_controller/src/smooth_stop.cpp:68-121 | one pass and the closed form |
| SmoothStop.DenominatorSign | actuation_module/src/autoware/autoware_pid_longitudinal_controller/src/smooth_stop.cpp:98-106 | the denominator is never positive and zero exactly when all times are equal |
| SmoothStop.FitIsLeastSquares | actuation_module/src/autoware/autoware_pid_longitudinal_controller/src/smooth_stop.cpp:104-107 | over all lines the fitted one has the least squared error, and is the only one |
| SmoothStop.LineIsRecovered | actuation_module/src/autoware/autoware_pid_longitudinal_controller/src/smooth_stop.cpp:104-107 | exactly linear history gives its own line |
| SmoothStop.PredictionIsZeroCrossing | actuation_module/src/autoware/autoware_pid_longitudinal_controller/src/smooth_stop.cpp:109-120 | and its true zero crossing when that is ahead |
| SmoothStop.StrongAccStopsInTime | actuation_module/src/autoware/autoware_pid_longitudinal_controller/src/smooth_stop.cpp:32-44 | inside its limits, and stopping exactly at the predicted distance when no limit acts |
| SmoothStop.SmoothStopper.Calculate | actuation_module/src/autoware/autoware_pid_longitudinal_controller/src/smooth_stop.cpp:123-167 | which of the five accelerations is chosen and when the weak-brake time moves |
| Resampling.ConvertEulerAngleToMonotonic | actuation_module/src/autoware/autoware_mpc_lateral_controller/src/mpc_utils.cpp:68-74 | every angle as before up to whole turns, and no step of half a turn or more |
| Resampling.ResampleGrid | actuation_module/src/autoware/autoware_mpc_lateral_controller/src/mpc_utils.cpp:121-135 | the loops end; samples strictly increase in [0, total), contain the ego sample, and are exactly one interval apart unless the ego is in the last micrometre with room for another sample |
| Resampling.UnevenGrid | actuation_module/src/autoware/autoware_mpc_lateral_controller/src/mpc_utils.cpp:121-135 | an ego half a micrometre before the end with an interval of a tenth of one gives a grid that is not uniform |
| Resampling.CalcMPCTrajectoryTime | actuation_module/src/autoware/autoware_mpc_lateral_controller/src/mpc_utils.cpp:299-312 | each step is the larger of distance over clipped speed and the minimum |
| Resampling.TimesIncrease | actuation_module/src/autoware/autoware_mpc_lateral_controller/src/mpc_utils.cpp:299-312 | times strictly increase by at least the minimum per point |
| Resampling.DynamicSmoothingVelocity | actuation_module/src/autoware/autoware_mpc_lateral_controller/src/mpc_utils.cpp:314-335 | in place, each velocity from its new predecessor and its old value |
| Resampling.SmoothingIsBounded | actuation_module/src/autoware/autoware_mpc_lateral_controller/src/mpc_utils.cpp:325-332 | each smoothed velocity lies between predecessor and reference and changes by at most the limit times dt |
| CscMatrix.CalCSCMatrix | actuation_module/src/autoware/autoware_osqp_interface/src/csc_matrix_conv.cpp:31-70 | expanding the arrays gives back the matrix with tiny entries zero; rows strictly increase, offsets end at the count |
| CscMatrix.CalCSCMatrixTrapezoidal | actuation_module/src/autoware/autoware_osqp_interface/src/csc_matrix_conv.cpp:72-118 | the upper triangle, which mirrored gives back any symmetric matrix |
| PidController.DiffLimitBounds | actuation_module/src/autoware/autoware_pid_longitudinal_controller/src/longitudinal_controller_utils.cpp:151-160 | the limiter stays between previous value and input, inside the rates, and is the input when they allow |
| LowpassFilter.FiltVector | actuation_module/src/autoware/autoware_mpc_lateral_controller/src/lowpass_filter.cpp:113-140 | in place: refuses a vector shorter than the window, else every element becomes the mean of its centred window, narrower near the ends, in the unfiltered vector |
| LowpassFilter.RampIsKept | actuation_module/src/autoware/autoware_mpc_lateral_controller/src/lowpass_filter.cpp:123-136 | a ramp passes the moving average unchanged, at the ends too: no lag and no bias |
| LowpassFilter.AverageIsBounded | actuation_module/src/autoware/autoware_mpc_lateral_controller/src/lowpass_filter.cpp:123-136 | no average leaves the range of its window |
| LowpassFilter.UnitGain | actuation_module/src/autoware/autoware_mpc_lateral_controller/src/lowpass_filter.cpp:32-49 | the Butterworth coefficients have gain one for a constant input |
| LowpassFilter.FiltSignal | actuation_module/src/autoware/autoware_mpc_lateral_controller/src/lowpass_filter.cpp:61-77 | the loop with its four shifted samples computes the difference equation with the first sample as the whole past |
| LowpassFilter.ConstantPasses | actuation_module/src/autoware/autoware_mpc_lateral_controller/src/lowpass_filter.cpp:61-77 | so a constant signal of any length comes out as it is from the first sample on |
| LowpassFilter.FilterIsInjective | actuation_module/src/autoware/autoware_mpc_lateral_controller/src/lowpass_filter.cpp:61-77 | different signals have different answers |
| LowpassFilter.FiltFiltSignal | actuation_module/src/autoware/autoware_mpc_lateral_controller/src/lowpass_filter.cpp:80-99 | the two passes, the second over the forward signal as in the code |
| LowpassFilter.AnswerIsMirrored | actuation_module/src/autoware/autoware_mpc_lateral_controller/src/lowpass_filter.cpp:80-99 | so the merged answer reads the same backwards, whatever the signal |
| LowpassFilter.ForwardAndBackwardIff | actuation_module/src/autoware/autoware_mpc_lateral_controller/src/lowpass_filter.cpp:79-99 | it is the forward and backward filter if and only if the signal reads the same backwards |
| LowpassFilter.StepIsMirrored | actuation_module/src/autoware/autoware_mpc_lateral_controller/src/lowpass_filter.cpp:79-99 | a step is a signal for which it is not |
| SteerRateLimit.Interpolate | actuation_module/src/autoware/autoware_mpc_lateral_controller/src/mpc.cpp:806-835 | for any nonempty table, sorted or not, the search finds a segment, so the error branch is never reached |
| SteerRateLimit.LookedUpIsBounded | actuation_module/src/autoware/autoware_mpc_lateral_controller/src/mpc.cpp:821-829 | and the limit lies within the range of the stored limits |
| SteerRateLimit.LookedUpIsPiecewiseLinear | actuation_module/src/autoware/autoware_mpc_lateral_controller/src/mpc.cpp:821-829 | for keys at least the division guard apart it is the piecewise linear function through the table, whichever segment is taken |
| SteerRateLimit.CalcSteerRateLimitOnTrajectory | actuation_module/src/autoware/autoware_mpc_lateral_controller/src/mpc.cpp:837-852 | the dry-steering limit when stopped, otherwise the smaller of the two looked-up limits at every stage |
| TrajectoryWalk.FindTrajectoryPoseAfterDistance | actuation_module/src/autoware/autoware_pid_longitudinal_controller/src/longitudinal_controller_utils.cpp:169-197 | the position on the segment where the way from the start reaches the distance; the start for a negative one, the last point past the end |
| TrajectoryWalk.RemainderIsDistance | actuation_module/src/autoware/autoware_pid_longitudinal_controller/src/longitudinal_controller_utils.cpp:183-189 | that position lies at exactly the remaining distance from the start of its segment |
| TrajectoryWalk.AnswerIsUnique | actuation_module/src/autoware/autoware_pid_longitudinal_controller/src/longitudinal_controller_utils.cpp:169-197 | segment and position are determined by the distance |
| PidController.DiffLimitIsClamp | actuation_module/src/autoware/autoware_pid_longitudinal_controller/src/longitudinal_controller_utils.cpp:161-167 | with symmetric rates the limiter clamps its input to a band around the previous value |
| PidController.Pid.Calculate | actuation_module/src/autoware/autoware_pid_longitudinal_controller/src/pid.cpp:37-76 | the three limited contributions, their limited sum and the new memory |
| PidController.ContributionBounded | actuation_module/src/autoware/autoware_pid_longitudinal_controller/src/pid.cpp:50-54 | one integration, for a gain of either sign; a negative one always gives the upper limit |
| PidController.IntegralBoundedAlways | actuation_module/src/autoware/autoware_pid_longitudinal_controller/src/pid.cpp:50-54 | in every run of calculations and resets the integral contribution stays inside its limits, for a gain of either sign or none |
| LongitudinalController.PidLongitudinalController.UpdateControlState | actuation_module/src/autoware/autoware_pid_longitudinal_controller/src/pid_longitudinal_controller.cpp:467-653 | the whole transition of the four states |
| LongitudinalController.PidLongitudinalController.CalcCtrlCmd | actuation_module/src/autoware/autoware_pid_longitudinal_controller/src/pid_longitudinal_controller.cpp:655-747 | raw and published command of a cycle |
| LongitudinalController.PidLongitudinalController.Run | actuation_module/src/autoware/autoware_pid_longitudinal_controller/src/pid_longitudinal_controller.cpp:252-303 | one cycle, on the trajectory or far from it |
| LongitudinalController.DtBounded | actuation_module/src/autoware/autoware_pid_longitudinal_controller/src/pid_longitudinal_controller.cpp:803-816 | dt lies between half and twice the period |
| LongitudinalController.CycleBounded | actuation_module/src/autoware/autoware_pid_longitudinal_controller/src/pid_longitudinal_controller.cpp:655-714 | raw acceleration stays in its limits and changes by at most the largest jerk limit times dt, or is zero on STOPPED |
| LongitudinalController.RawBoundedAlways | actuation_module/src/autoware/autoware_pid_longitudinal_controller/src/pid_longitudinal_controller.cpp:267-275 | the same at every cycle of every run |
| LongitudinalController.CommandRateBounded | actuation_module/src/autoware/autoware_pid_longitudinal_controller/src/pid_longitudinal_controller.cpp:734-738 | on the trajectory the published acceleration moves by at most the difference limit from what the limiter counts from |
| LongitudinalController.PublishedJumpsIff | actuation_module/src/autoware/autoware_pid_longitudinal_controller/src/pid_longitudinal_controller.cpp:267-303 | in every run the published acceleration jumps past the limit between two published commands if and only if the vehicle is far from the trajectory and the emergency target, as far as the jerk limit lets the previous raw value move to it, lies outside the band, or it departs and the reset baseline lets the target out of it |
| LongitudinalController.DepartureJumps | actuation_module/src/autoware/autoware_pid_longitudinal_controller/src/pid_longitudinal_controller.cpp:575-583 | a run of a new controller that drives off, brakes for a stop point and departs: it publishes 1 right after -1 with a band of 1 |
| LongitudinalController.EmergencyJumps | actuation_module/src/autoware/autoware_pid_longitudinal_controller/src/pid_longitudinal_controller.cpp:267-275 | a run of a new controller that is far from the trajectory in its second cycle: it publishes -3 right after -1 with a band of 1 |
| LongitudinalController.DepartsAfterTwoEvaluations | actuation_module/src/autoware/autoware_pid_longitudinal_controller/src/pid_longitudinal_controller.cpp:588-634 | with keep-stopped enabled STOPPED is left for DRIVE only at the second of two successive evaluations in one stay, each with the vehicle moving or the steering converged |

## Left out

- Rounding, NaN and infinities of `double`, except where the code tests for them; the command scaling and the envelope
  do.
- Trigonometry, square roots and distances: edge lengths and slope terms are inputs. The Eigen factorisation is taken as
  returning a u with Hu = -f.
- `addSteerWeightF`, which returns at once for a one-row f, and the constraint rows of the OSQP path.
- LowpassFilter.FiltVector: a negative window, with which the source divides zero by zero; LowpassFilter.FiltSignal: an
  empty signal, with which it throws.
- LowpassFilter.UnitGain: tangent and root are inputs. Stability of the filter is not stated.
- SteerRateLimit.Interpolate: needs a nonempty table; the source reads its first entry.
- TrajectoryWalk.FindTrajectoryPoseAfterDistance: the orientation of the pose and the square root in the edge lengths.
- The steering predictor, vehicle models, delay buffers and nearest-index searches.
- Conversion of a VisionPilot reference into trajectory points and the ego-pose history: whether a reference can be
  placed is an input of `Controller.ControllerNode.CallbackDrivingReference`.
- The legacy command topic, publishing failures, message stamps and log output of the supervisor.
- Concurrent `stopThisTick` callers: the node's own callbacks and ticks run on one thread in the source and one after
  the other here.
- FaultInputRun.HeldFaultStops: the fault channel is written by another task in the source; here a message comes between
  two events, so one between the counter reading and the level reading of the same tick is not part of this model.
- Emutls.Reclaim: join and cancel are one step each of the runtime model, because the task they reclaim has finished or
  is suspended; a join at the same time as a cancel of the same thread, and joining twice, are outside it.
- The bootstrap context before the scheduler starts is one more task that is never reclaimed.
- CanTunnelRun.RunWithStopsRefines: one life of the sender; a restart begins again at number 0.
- CanLoss.OwnCommandIff: needs distinct payloads; a foreign half that reads like the lost one makes the same command.
- SplineInterpolation.SplineInterpolation.CalcSplineCoefficients: base keys that do not increase, which this method does
  not check; a repeated key makes it divide by zero.
- Akima.SplineByAkima: base keys that do not increase, for the same reason.
- MpcSolver.AnswerIsMinimiser: the determinant is the product of the pivots of an elimination, and H comes with
  admissible weights; what the solver does with any other matrix is left out.
- The 64-bit output sequence number of the supervisor is unbounded here.
- Timer.PeriodicTimer.Execute: needs a positive period; with period zero the source divides by it.
- PidController.Pid.Calculate: needs a positive dt, and integral limits around zero when the gain is zero; the source
  divides by both.
- LongitudinalController.PidLongitudinalController.Run: velocity feedback with brake keeping, the smooth-stop answer,
  acceleration feedback and slope compensation are inputs of a cycle; the command history for delay compensation is not
  modelled.
- Parameter handling, DDS, sockets, CARLA and board bring-up.
