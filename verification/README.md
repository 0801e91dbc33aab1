# Verification of the inspection robot's control and imaging core

A model of the parts of the robot and of its operating station whose correctness is hardest to
see from one function: the control plane that decides when the robot may move, the wire
protocol between station and robot, the arm solver, and four algorithms whose fast form differs
from its plain meaning. Objects that the programs update in place are classes here; each of
their methods is proved to take the step that a function on values describes, and what the
programs promise is proved of those functions, for every input, every run or every reachable
state. `dafny verify dfyconfig.toml` checks the whole project.

| Part | Files | What is proved |
|---|---|---|
| Mission manager | `MissionStateMachine`, `MissionManager`, `MissionInvariants`, `MissionCallbacks`, `MissionItinerary`, `MissionStart`, `MissionMotion`, `MissionProgress`, `MissionHandlers`, `MissionNode` | a completed mission visited everything in order; motion needs a fresh operator word; a pending start dies with its plan, its safety state or a stale answer |
| Safety chain | `SafetyStateMachine`, `SafetyManager`, `SafetyNode`, `SafetyGate`, `EStopBridge` | when NORMAL may be said, when a command may pass, how faults and E-Stops latch |
| Lost links | `LinkLoss`, `LinkLossRuns`, `LinkLossStops`, `LinkLossBounds`, `LinkLossProgress`, `LinkLossCourse`, `LinkLossSchedule`, `LinkLossWitness` | bridge, manager and gate on one clock with delayed in-order channels: bounds on how soon the base stops after an E-Stop, a silent station, or the death of bridge or manager, and runs that show the last three exact for every delay |
| Motion authority | `MotionInterlock`, `InterlockManager`, `InterlockNode`, `BaseStopDetector`, `BaseMotionMonitor`, `AuthorityLink` | base and arm are exclusive, up to the gate; a stop is certified by a settled window and cannot be postponed; how old a certificate, and how late a base command, can be |
| Retry cache | `RequestCache`, `NodeRetries` | retries are idempotent in every service of the three nodes, across everything else the nodes do |
| Wire protocol | `Octets`, `Framing`, `FramingFields`, `FrameDecoder`, `PythonFraming`, `TcpServer` | round trips under any chunking, two implementations that agree, buffers that never lose step |
| Arm solver | `Reals`, `LinearAlgebra`, `GaussJordan`, `Kinematics`, `KinematicsDescent` | elimination never fails on the damped system and gives the unique damped least-squares step; where the arm is affine each step comes nearer |
| Rasteriser | `Barycentric`, `DepthRaster` | forward differences in a clipped box draw exactly the nearest surface |
| Ground filter | `PointCloud`, `GroundGrid`, `GroundFilter` | the windowed grid lookup is the brute-force nearest ground |
| Text | `StyleSheet`, `StyleSheetSpacing`, `CaptureNames` | exactly when substitution in turn is one pass, and exactly when, and as what time, a printed name reads back |

## How to read it

* Time is an integer argument of a handler, in milliseconds (message stamps in the authority
  service are in nanoseconds); the programs read a clock there. Where a handler reads the clock
  twice, as the gate's timer does, it has two arguments.
* The bridge's heartbeat timeout, the longest message delay, and the parameters of the detector
  and of the ground filter are free. The others have their default values: the manager's
  heartbeat timeout of 750 ms, command and state timeouts of 300 ms and 250 ms (gate), 1000 ms
  and 500 ms (authority), timers of 50 ms, which may tick early but not late.
* The mission manager's environment is a predicate, `Allowed`: the action client answers each
  goal at most once and finishes at most once a goal that was taken, and safety messages follow
  one another as `SafetyManager.RunsAreSound` proves of the manager that sends them. Everything
  else, including late callbacks and answers, may happen at any time.
* Calls into the network, the parser of JSON envelopes, the decoding of four bytes as a number
  and forward kinematics are parameters.
* Floating-point numbers are exact reals. Sequence numbers and counters do not wrap.

## Where code and documentation differ

* The control contract (`docs/control_architecture_contract.md`, lines 14-15 and 76) asks for the
  gate's first zero command within 1000 ms of the last heartbeat. `ContractIsKeptIff` proves when
  that is so: exactly if the bridge's timeout plus 100 ms plus two message delays is at most
  1000 ms. The default timeout alone is 1000 ms
  (`robot/gateway/estop_bridge/src/estop_bridge_node.cpp`, line 209), so by default it is not.
* The comments in `hmi/src/theme/Style.cpp` (lines 38-43 and 388-389) say that the order of the list
  is irrelevant because longer names are replaced first. `SpacingIsExact` gives the condition on the
  template under which replacing in turn means what it should, and shows it is necessary.
* Feedback on a handover is judged by its age on arrival
  (`robot/control/motion_interlock_manager/src/motion_interlock_manager_node.cpp`, lines 120-137), so it
  may be older than the stop it confirms: exactly while the request for that stop is less than
  500 ms old (`OlderFeedbackIff`, `StaleConfirmationIff`). For the same reason the base may move again when
  authority passes to the arm (`ArmWhileTheBaseMoves`): it is sure to rest only if nothing has
  disturbed it for 500 ms (`RestsIff`).
* `encodeFrame` in C++ truncates lengths that do not fit 32 bits and checks no limit;
  `RoundTripIffFits` says exactly which frames survive. The Python decoder loses the frames it
  had already taken in a call that raises: `LostFramesIff` says exactly when, and `CutsMatter` shows it.
* A printed capture time has no milliseconds, while the panel takes the current time with them
  (`hmi/src/panels/CapturePanel.cpp`, line 38): a name reads back as the second of the capture, and
  as its very time exactly for whole seconds (`SameTimeReadsBack`).

## Model

| member | source | states |
|---|---|---|
| GaussJordan.Solve6 | hmi/src/robot/Kinematics.cpp:109-133 | true comes exactly with the unique solution of the system as it was given, although rows are swapped and eliminated in place; false only for a system with a nonzero vector that nearly solves the homogeneous one |
| GaussJordan.FindPivot | hmi/src/robot/Kinematics.cpp:112-115 | the row chosen has the largest absolute value in the column, from the diagonal down |
| GaussJordan.SwapKeepsMeaning | hmi/src/robot/Kinematics.cpp:118-120 | swapping rows changes neither the solutions nor the bound on nearly singular vectors |
| GaussJordan.EliminateKeepsMeaning | hmi/src/robot/Kinematics.cpp:122-128 | eliminating a column changes neither the solutions nor that bound |
| GaussJordan.SmallPivotMeansNearlySingular | hmi/src/robot/Kinematics.cpp:116-117 | a largest pivot below 1e-12 yields a nonzero vector that the original system maps to almost nothing |
| Kinematics.PositiveDefinite | hmi/src/robot/Kinematics.cpp:220-232 | x . (J J^T + 0.0036 I) x is at least 0.0036 times the squared length of x |
| Kinematics.NeverNearlySingular | hmi/src/robot/Kinematics.cpp:109-133 | for every J and every right-hand side the damped system is not nearly singular, so elimination never meets a pivot below 1e-12 |
| Kinematics.CostExpansion | hmi/src/robot/Kinematics.cpp:180-184 | the damped cost of any step is the cost of J^T y plus a sum of squares of the difference |
| Kinematics.SolutionMinimises | hmi/src/robot/Kinematics.cpp:220-241 | J^T y, for the solution y, is the only minimiser of the squared residual plus damping times the squared step |
| Kinematics.SolveDamped | hmi/src/robot/Kinematics.cpp:220-236 | assembling and solving the damped system always succeeds, and y solves the system J and e give |
| Kinematics.ApplyStep | hmi/src/robot/Kinematics.cpp:238-247 | every joint moves by the bounded coordinate of J^T y and stays within its limits |
| Kinematics.MovedStaysInLimits | hmi/src/robot/Kinematics.cpp:243-246 | from within the limits, no joint moves by more than 0.2 in one step, and none leaves its limits |
| Kinematics.DampedStep | hmi/src/robot/Kinematics.cpp:190-248 | one pass of the loop never fails and moves along the unique minimiser for the numerical Jacobian |
| Kinematics.SearchIsDetermined | hmi/src/robot/Kinematics.cpp:190-248 | since the minimiser is unique, there is only one path of joint vectors the search can take |
| Kinematics.InverseKinematics | hmi/src/robot/Kinematics.cpp:168-250 | the answer is the first joint vector of that path that puts the flange less than 1 mm and 0.005 rad from the goal, and there is none only for a short seed or after 120 steps that all missed |
| KinematicsDescent.JacobianIsFound | hmi/src/robot/Kinematics.cpp:202-217 | where the arm is affine in its joints, the differences taken find its matrix |
| KinematicsDescent.StepComesNearer | hmi/src/robot/Kinematics.cpp:190-248 | where position and orientation are affine in the joints and no limit is met, every step other than none at all ends strictly nearer to the goal, in squared position plus orientation error |
| KinematicsDescent.SearchComesNearer | hmi/src/robot/Kinematics.cpp:190-248 | and so does a whole search of such steps |
| KinematicsDescent.UndistortedStepShrinks | hmi/src/robot/Kinematics.cpp:219-247 | where the joints move the flange without distortion, such a step leaves exactly 0.0036 / 1.0036 of the way |
| Framing.RoundTripIffFits | common/protocol/include/inspection/framing.hpp:83-96 | one encoded frame decodes to itself exactly if its body is at most 32 MiB and no 32-bit field was truncated |
| Framing.NextIsEncoded | common/protocol/include/inspection/framing.hpp:117-153 | an accepted frame encodes again to exactly the bytes that were consumed |
| Framing.NextIsStable | common/protocol/include/inspection/framing.hpp:117-153 | more bytes at the end change no verdict but "need more" |
| FramingFields.FrameOnWire | common/protocol/include/inspection/framing.hpp:83-96 | a fitting frame is on the wire as the bytes SHLM, the length of the rest, the length of the header, least significant byte first, header and payload |
| FramingFields.Verdict | common/protocol/include/inspection/framing.hpp:117-153 | from eight bytes on: wrong magic and impossible body lengths are errors at once, an impossible header length once the body is complete, and whatever else is complete is the frame of those fields |
| FramingFields.WaitIsBounded | common/protocol/include/inspection/framing.hpp:117-153 | the decoder never waits for more than the largest frame |
| FramingFields.CompletesIff | common/protocol/include/inspection/framing.hpp:117-153 | among the streams that need more bytes, some continuation is a frame if and only if what is there agrees with the magic and with lengths that fit; for any other the decoder waits in vain |
| FramingFields.WaitsInVain | common/protocol/include/inspection/framing.hpp:117-121 | up to seven bytes that begin no frame are such a stream |
| Framing.DecodeAppend | common/protocol/include/inspection/framing.hpp:98-153 | decoding a stream and then more bytes is decoding the whole stream |
| Framing.DecodeConserves | common/protocol/include/inspection/framing.hpp:117-153 | the frames decoded, encoded again, followed by the rest, are the bytes received |
| Framing.RoundTrip | common/protocol/include/inspection/framing.hpp:83-153 | any frames that fit decode to themselves, with no rest and no error |
| Framing.PrefixOfEncoded | common/protocol/include/inspection/framing.hpp:117-153 | any beginning of an encoding decodes without error to the first frames |
| Framing.EncodingIsInjective | common/protocol/include/inspection/framing.hpp:83-96 | two lists of fitting frames with the same encoding are equal |
| FrameDecoders.FrameDecoder.Append | common/protocol/include/inspection/framing.hpp:114-115 | the chunk is added to the unread bytes |
| FrameDecoders.FrameDecoder.NextFrame | common/protocol/include/inspection/framing.hpp:117-153 | status, frame and unread bytes are those of one decoding step on the unread bytes; the read offset stays below 64 KiB |
| FrameDecoders.FrameDecoder.Compact | common/protocol/include/inspection/framing.hpp:166-172 | compaction leaves the unread bytes as they are |
| FrameDecoders.FrameDecoder.Reset | common/protocol/include/inspection/framing.hpp:157-161 | nothing is left over for the next connection |
| FrameDecoders.Drain | common/protocol/include/inspection/framing.hpp:98-111 | the drain loop takes exactly the frames of the unread bytes, with the status and rest that end them |
| FrameDecoders.ErrorIsFinal | common/protocol/include/inspection/framing.hpp:120-141 | after an error, later bytes change neither frames nor error |
| FrameDecoders.Receive | common/protocol/include/inspection/framing.hpp:98-153 | frames and first error depend only on the bytes, not on how they were cut into chunks |
| FrameDecoders.Deliver | common/protocol/include/inspection/framing.hpp:83-153 | fitting frames arrive intact through any chunking of their encoding |
| PythonFraming.EncodersAgree | hmi/sdk/Linux/python/shalom_sdk/framing.py:26-35 | for a frame that fits, both encoders write the same bytes, and the Python one raises exactly for one that does not |
| PythonFraming.LengthErrorIff | hmi/sdk/Linux/python/shalom_sdk/framing.py:52-73 | which of its two length errors the Python decoder raises: the body cannot be so long, or the header does not fit the body |
| PythonFraming.FrameDecoder.FeedBytes | hmi/sdk/Linux/python/shalom_sdk/framing.py:52-73 | one call returns the frames of the buffer and the new bytes, or raises the error they decode to and loses what it had already taken |
| PythonFraming.FeedAll | hmi/sdk/Linux/python/shalom_sdk/framing.py:38-73 | a decoder fed chunk after chunk until a call raises ends in the session that Fed gives: the frames of the calls that returned, how many those were, and what it still holds |
| PythonFraming.FedIff | hmi/sdk/Linux/python/shalom_sdk/framing.py:52-73 | the call that raises is the one whose chunk first makes the bytes decode to an error, and the frames returned are those of the bytes before it |
| PythonFraming.ReturnsIff | hmi/sdk/Linux/python/shalom_sdk/framing.py:52-73 | every call returns exactly if the C++ decoder meets no error in the bytes |
| PythonFraming.LostFramesIff | hmi/sdk/Linux/python/shalom_sdk/framing.py:52-73 | the frames returned are those of all bytes if and only if there is no error, or the chunk that first brings one begins, with what was left over, with no frame; otherwise those at that beginning are lost |
| PythonFraming.CutsMatter | hmi/sdk/Linux/python/shalom_sdk/framing.py:52-73 | the same bytes, any fitting frame and then some that begin no frame: in one chunk the frame is lost, in two it is returned |
| TcpServers.TcpServer.Send | robot/gateway/gateway_transport/src/tcp_server.cpp:175-183 | a frame is queued whole, or, if lossy over a long backlog, dropped whole |
| TcpServers.TcpServer.HandleWritable | robot/gateway/gateway_transport/src/tcp_server.cpp:329-345 | exactly the bytes that the socket takes before it blocks, fails or takes nothing leave the front of the queue, and written and queued bytes together stay what they were, in order |
| TcpServers.TcpServer.CloseClient | robot/gateway/gateway_transport/src/tcp_server.cpp:158-173 | the connection is archived and nothing unread or unsent reaches the next one |
| TcpServers.TcpServer.Accept | robot/gateway/gateway_transport/src/tcp_server.cpp:246-259 | a new connection starts with the bytes read while it was classified, and their frames are queued |
| TcpServers.TcpServer.DrainDecoder | robot/gateway/gateway_transport/src/tcp_server.cpp:303-327 | every complete frame is queued; an error is reported and closes the connection |
| TcpServers.TcpServer.HandleReadable | robot/gateway/gateway_transport/src/tcp_server.cpp:278-301 | unless the peer closed, exactly the frames of the bytes received that were not queued before join the events, in order; an error closes the connection |
| TcpServers.TcpServer.TakeEvents | robot/gateway/gateway_transport/src/tcp_server.cpp:185-191 | everything observed is handed over once, and the queue starts afresh |
| TcpServers.HandedOverWasSent | robot/gateway/gateway_transport/src/tcp_server.cpp:185-327 | whatever was handed over so far is, connection by connection and in order, a beginning of the frames each peer sent, however the bytes were cut and wherever connections were lost |
| TcpServers.PeerNeverDesynchronises | robot/gateway/gateway_transport/src/tcp_server.cpp:158-183 | the bytes of any connection decode, from a reset decoder, without error to a prefix of the frames accepted for it |
| RequestCache.RememberKeepsValid | robot/control/mission_manager/src/mission_manager_node.cpp:75-85 | remembering a new id keeps the queue without duplicates, equal to the key set and at most 128 long, and changes no response it keeps |
| RequestCache.ServeKeepsValid | robot/control/safety_manager/src/safety_manager_node.cpp:84-106 | so does serving any request |
| RequestCache.RetryIsIdempotent | robot/control/motion_interlock_manager/src/motion_interlock_manager_node.cpp:72-94 | retrying an id while fewer than 128 later ones were remembered returns the identical response and changes neither state nor cache, whatever happened meanwhile |
| RequestCache.ForgottenIff | robot/control/motion_interlock_manager/src/motion_interlock_manager_node.cpp:72-94 | a new request is handled, and its id is known for exactly as long as fewer than 128 others were remembered after it |
| SafetyRetries.Retry | robot/control/safety_manager/src/safety_manager_node.cpp:84-213 | a command sent again gets the answer it got first and changes nothing, across any other handlers and fewer than 128 remembered commands |
| InterlockRetries.Retry | robot/control/motion_interlock_manager/src/motion_interlock_manager_node.cpp:72-156 | the same of a request for authority |
| MissionRetries.RetryOrder | robot/control/mission_manager/src/mission_manager_node.cpp:362-428 | the same of an operator's order, across everything the environment may do |
| MissionRetries.RetryPlan | robot/control/mission_manager/src/mission_manager_node.cpp:298-360 | and of a plan |
| MissionStateMachine.StateMachine.Dispatch | robot/control/mission_manager/src/mission_state_machine.cpp:48-151 | every event in every state does what the transition table says, and is reported so |
| MissionStateMachine.NextKeepsWellFormed | robot/control/mission_manager/src/mission_state_machine.cpp:42-148 | a halt always ends in paused, idle or failed, and a recovery always restarts running or returning |
| MissionStateMachine.StopEndsInIdle | robot/control/mission_manager/src/mission_state_machine.cpp:48-151 | a stop is accepted in every state; motion or a halt then ends in idle, and any other state is left for it at once |
| MissionStateMachine.HaltKeepsItsTarget | robot/control/mission_manager/src/mission_state_machine.cpp:96-115 | nothing overrides an accepted stop, and only quiescence ends a halt, in what it was for |
| MissionStateMachine.HoldsAreResumable | robot/control/mission_manager/src/mission_state_machine.cpp:48-140 | pauses, takeovers, lost links and safety stops halt motion so that it can be resumed in its phase; a recovery is cancelled only by the last two |
| MissionStateMachine.FailureHalts | robot/control/mission_manager/src/mission_state_machine.cpp:81-110 | a failed step halts motion for good unless a stop came first |
| MissionStateMachine.StagesFollow | robot/control/mission_manager/src/mission_state_machine.cpp:48-148 | every other event is accepted at one stage of the mission, a reset at either end of it, and takes it to the next |
| MissionStateMachine.MotionIsEnteredBy | robot/control/mission_manager/src/mission_state_machine.cpp:61-140 | motion is entered only by a start or by a finished recovery, the latter into the recorded phase |
| MissionNodes.MissionNode.ValidatePlan | robot/control/mission_manager/src/mission_manager_node.cpp:220-282 | the checks in their order accept exactly the valid plans: ids present and distinct, poses finite, operations and capabilities available, a dock where one is needed |
| MissionNodes.MissionNode.Put | robot/control/mission_manager/src/mission_manager_node.cpp:498-521 | an event is put to the state machine, and an accepted one halts work, resets progress or drops the plan as its target demands |
| MissionNodes.MissionNode.OnConfigure | robot/control/mission_manager/src/mission_manager_node.cpp:298-360 | a new request takes the configure step, a repeated one gets the old answer; invariants and cache stay valid |
| MissionNodes.MissionNode.AdoptPlan | robot/control/mission_manager/src/mission_manager_node.cpp:325-350 | replacing a plan withdraws a pending start and always ends in ready with the new dock choice |
| MissionNodes.MissionNode.OnControl | robot/control/mission_manager/src/mission_manager_node.cpp:362-428 | a new request takes the control step, a repeated one gets the old answer; invariants and cache stay valid |
| MissionNodes.MissionNode.OnSafety | robot/control/mission_manager/src/mission_manager_node.cpp:430-454 | a safety message takes its step: noted, withdrawing a start or halting motion |
| MissionNodes.MissionNode.OnResumeAnswered | robot/control/mission_manager/src/mission_manager_node.cpp:537-546 | only a refusal of the current start withdraws it |
| MissionNodes.MissionNode.OnGoalAnswered | robot/control/mission_manager/src/mission_manager_node.cpp:651-662 | an answer counts only for the current goal generation |
| MissionNodes.MissionNode.OnGoalFinished | robot/control/mission_manager/src/mission_manager_node.cpp:663-668 | a result counts only for the current goal generation |
| MissionNodes.MissionNode.NavigateTo | robot/control/mission_manager/src/mission_manager_node.cpp:624-671 | an outcome is reported and consumed once, otherwise the goal is sent to the pose the plan gives under a fresh generation |
| MissionNodes.MissionNode.TickGoal | robot/control/mission_manager/src/bt/nav2_bt.cpp:7-17 | the tree ticks one goal at a time and forgets it when it is over |
| MissionNodes.MissionNode.TickInMotion | robot/control/mission_manager/src/mission_manager_node.cpp:587-622 | a tick while moving acts on the verdict of the current step |
| MissionNodes.MissionNode.OnTimer | robot/control/mission_manager/src/mission_manager_node.cpp:563-622 | a timer tick takes its step and keeps every invariant |
| MissionInvariants.StepKeepsCore | robot/control/mission_manager/src/mission_manager_node.cpp:298-678 | every step keeps plan, progress, lifecycle and goal consistent, and keeps the last safety message heard NORMAL while moving |
| MissionInvariants.TickMovingShape | robot/control/mission_manager/src/mission_manager_node.cpp:587-622 | a tick while moving is one verdict of the tree followed by at most one event |
| MissionCallbacks.StepKeepsCallbacks | robot/control/mission_manager/src/mission_manager_node.cpp:624-678 | in every step the goal phase is exactly what the callbacks of the current generation say, and late callbacks of older generations match nothing |
| MissionItinerary.RunsKeepTrail | robot/control/mission_manager/src/mission_manager_node.cpp:563-678 | in every run the visits since the start are waypoints 0 to the current index, in order, each earned |
| MissionItinerary.CompletedMissionVisitedEverything | robot/control/mission_manager/src/mission_manager_node.cpp:498-521 | a completed mission has, since its start, visited every waypoint of its plan once and in order and then the dock if asked to, each visit consuming the success of its own goal sent after the visit before |
| MissionProgress.ValidPlansCanBeCompleted | robot/control/mission_manager/src/mission_manager_node.cpp:298-678 | every valid plan has a run that ends with that plan completed |
| MissionProgress.Finish | robot/control/mission_manager/src/mission_manager_node.cpp:563-678 | from any point on the way at which no goal is being driven to, the mission can be finished |
| MissionStart.StartsAreAuthorised | robot/control/mission_manager/src/mission_manager_node.cpp:284-296 | every start of motion runs the plan that the last accepted START named, with nothing configured, cancelled or moved since, no E-Stop or fault heard, and nothing but NORMAL after NORMAL |
| MissionStart.OldStopsComeFirst | robot/control/mission_manager/src/mission_manager_node.cpp:430-449 | stops that repeat the sequence number known at the START cannot follow NORMAL |
| MissionStart.StaleAnswersAreIgnored | robot/control/mission_manager/src/mission_manager_node.cpp:523-546 | the answer to a resume request sent before the latest START changes nothing |
| MissionStart.StopWithdrawsIff | robot/control/mission_manager/src/mission_manager_node.cpp:430-449 | a pending start is withdrawn exactly by an E-Stop, a fault, or another stop under a new sequence number |
| MissionStart.RefusalWithdrawsIff | robot/control/mission_manager/src/mission_manager_node.cpp:537-546 | and by a refused resume request of its own that leaves safety other than NORMAL |
| MissionStart.StepKeepsStartTrail | robot/control/mission_manager/src/mission_manager_node.cpp:388-454 | every step keeps a pending START tied to the last accepted one and to the safety sequence it was accepted under |
| MissionMotion.MotionNeedsTheOperator | robot/control/mission_manager/src/mission_manager_node.cpp:563-587 | each entry into motion is an authorised start, or resumes exactly the phase halted last after an operator RESUME since that halt |
| MissionMotion.OnlyTheOperatorSaysSo | robot/control/mission_manager/src/mission_manager_node.cpp:383-420 | only an accepted control call records a START or RESUME |
| MissionMotion.MotionNeedsDependencies | robot/control/mission_manager/src/mission_manager_node.cpp:481-486 | motion is entered if and only if a timer tick finds a start or a recovery waiting, the last safety message NORMAL, the last authority BASE_ACTIVE and odometry at most one second old |
| MissionMotion.EntryIsRecorded | robot/control/mission_manager/src/mission_manager_node.cpp:569-586 | a start begins the plan at its first waypoint, a recovery goes on where the mission was halted, and the trace records either |
| MissionMotion.HaltEndsAtRest | robot/control/mission_manager/src/mission_manager_node.cpp:488-496 | a halt ends if and only if a timer tick finds no goal outstanding, a zero command at most 250 ms and stop feedback at most 500 ms old; and in the state it was for |
| MissionMotion.MovingMeansNormal | robot/control/mission_manager/src/mission_manager_node.cpp:430-454 | in every reachable moving state the last safety message heard was NORMAL |
| MissionHandlers.PlanIsTakenIff | robot/control/mission_manager/src/mission_manager_node.cpp:201-360 | a plan is taken exactly if no mission is under way, it is complete, no two waypoints share an id, and the robot can do all of it, the dock included where it is to return there |
| MissionHandlers.PlanIsKept | robot/control/mission_manager/src/mission_manager_node.cpp:325-359 | the plan kept is the plan sent with every pose in a frame, and whatever was pending or under way before is forgotten |
| MissionHandlers.OrderIsTakenIff | robot/control/mission_manager/src/mission_manager_node.cpp:362-428 | an order is taken exactly if it names this mission or none and suits the state |
| MissionHandlers.OrderIsCarriedOut | robot/control/mission_manager/src/mission_manager_node.cpp:362-428 | a pause or a stop halts motion and drops its goal, a stop or a reset elsewhere forgets the mission, a resume begins a recovery, a start waits |
| MissionHandlers.AskedIff | robot/control/mission_manager/src/mission_manager_node.cpp:525-561 | safety is asked to resume when a start or a resume is accepted and on every tick that finds either waiting in vain, no more often than every half second |
| MissionHandlers.SafetyHalts | robot/control/mission_manager/src/mission_manager_node.cpp:430-454 | a safety message other than NORMAL halts motion, resumable in its phase, and cancels a recovery |
| MissionHandlers.GoalIsSent | robot/control/mission_manager/src/mission_manager_node.cpp:621-662 | where no goal is outstanding one is sent, under the next generation, to the pose of the current waypoint or of the dock |
| MissionHandlers.FailedGoalHalts | robot/control/mission_manager/src/mission_manager_node.cpp:587-612 | a goal that failed fails the mission, unless it was refused or could not be sent: then it pauses, resumable |
| MissionHandlers.NoServerPauses | robot/control/mission_manager/src/mission_manager_node.cpp:631-635 | without a server the mission pauses, resumable in its phase |
| MissionHandlers.ReachedGoalMovesOn | robot/control/mission_manager/src/mission_manager_node.cpp:587-620 | a goal reached is a visit; the next waypoint follows, after the last one the dock if the plan returns there, and then completion |
| SafetyStateMachine.StateMachine.Dispatch | robot/control/safety_manager/src/safety_state_machine.cpp:22-88 | every event in every state does what the transition table says, latched fault included |
| SafetyStateMachine.StatesAreReachedBy | robot/control/safety_manager/src/safety_state_machine.cpp:22-88 | for each state, exactly what leads into it and what keeps it there |
| SafetyStateMachine.FaultIsRemembered | robot/control/safety_manager/src/safety_state_machine.cpp:22-88 | a fault is remembered from its report, or from an E-Stop that covers it, until it is cleared where it shows |
| SafetyStateMachine.AcceptedIff | robot/control/safety_manager/src/safety_state_machine.cpp:22-88 | an event is accepted exactly if it changes the state or repeats what is so already |
| SafetyNodes.SafetyNode.OnCommand | robot/control/safety_manager/src/safety_manager_node.cpp:93-160 | a new command takes its step and is answered with the guards' verdict, a repeated one gets the old answer; everything published stays sound |
| SafetyNodes.SafetyNode.OnEvent | robot/control/safety_manager/src/safety_manager_node.cpp:162-171 | stop requests and health faults take their steps, unknown events none |
| SafetyNodes.SafetyNode.OnPhysicalEStop | robot/control/safety_manager/src/safety_manager_node.cpp:173-185 | the physical flag takes effect at once, engaging or releasing the latch |
| SafetyNodes.SafetyNode.OnHeartbeat | robot/control/safety_manager/src/safety_manager_node.cpp:187-203 | a dead heartbeat stops motion, a live one feeds the watchdog |
| SafetyNodes.SafetyNode.OnTimer | robot/control/safety_manager/src/safety_manager_node.cpp:205-213 | the watchdog fires after 750 ms without a live heartbeat, and the state is published every tick |
| SafetyManager.StepKeepsSound | robot/control/safety_manager/src/safety_manager_node.cpp:112-231 | every step keeps: E-Stop latched exactly while a flag is set, a latched fault shown or kept behind an E-Stop, NORMAL only with a required heartbeat alive; and every change is published |
| SafetyManager.RunsAreSound | robot/control/safety_manager/src/safety_manager_node.cpp:215-231 | in every run all messages were sound when sent, and equal sequence numbers name equal states |
| SafetyManager.NormalMessagesAreClear | robot/control/safety_manager/src/safety_manager_node.cpp:112-231 | every NORMAL message was sent with both E-Stop flags clear, no fault latched and a required heartbeat alive |
| SafetyManager.NormalNeedsResume | robot/control/safety_manager/src/safety_manager_node.cpp:130-138 | only an accepted RESUME reaches NORMAL, with its guards holding |
| SafetyManager.AcceptedMeans | robot/control/safety_manager/src/safety_manager_node.cpp:112-153 | a command is accepted exactly if it has its effect |
| SafetyManager.FaultSurvives | robot/control/safety_manager/src/safety_state_machine.cpp:22-88 | a fault outlives E-Stop cycles, resumes and link losses until an explicit clear, and nothing published meanwhile is NORMAL |
| SafetyManager.StopsTakeEffect | robot/control/safety_manager/src/safety_manager_node.cpp:84-231 | from every state, a stop request, a fault, an E-Stop of either kind, a heartbeat lost and an expired watchdog leave a state that is not NORMAL, the one each is for, published at once |
| SafetyManager.LeavesNormalIff | robot/control/safety_manager/src/safety_manager_node.cpp:84-231 | and nothing else takes the manager out of NORMAL |
| SafetyManager.ResumeIff | robot/control/safety_manager/src/safety_manager_node.cpp:130-138 | motion is permitted again exactly by a RESUME in CONTROLLED_STOP with both flags clear and a required heartbeat alive |
| SafetyManager.ReleaseEndsEStop | robot/control/safety_manager/src/safety_manager_node.cpp:117-129 | an E-Stop ends when neither flag is left, in FAULT if one was reported and in CONTROLLED_STOP otherwise |
| SafetyManager.ClearIs | robot/control/safety_manager/src/safety_manager_node.cpp:139-146 | a fault is cleared exactly where it shows, into CONTROLLED_STOP |
| SafetyManager.EventsAreCounted | robot/control/safety_manager/src/safety_manager_node.cpp:215-231 | every publication of an event has the next sequence number, a tick repeats the last, and a step changes no input that it does not concern |
| SafetyGates.SafetyGate.OnTimer | robot/control/safety_gate/src/safety_gate_node.cpp:100-128 | a tick publishes what the messages received so far allow |
| SafetyGates.GateRemembers | robot/control/safety_gate/src/safety_gate_node.cpp:53-70 | the fields hold the last message of each kind |
| SafetyGates.BaseMovesIff | robot/control/safety_gate/src/safety_gate_node.cpp:86-112 | a nonzero command is published exactly if it is the last one received, at most 300 ms old, under BASE_ACTIVE and a NORMAL message at most 250 ms old |
| SafetyGates.ArmMovesIff | robot/control/safety_gate/src/safety_gate_node.cpp:86-128 | the same of arm commands, where their output is enabled, under ARM_ACTIVE |
| SafetyGates.StopIsTold | robot/control/safety_gate/src/safety_gate_node.cpp:71-112 | while the last safety message is fresh and no E-Stop, something is always published for the base, and in any state but NORMAL that is a zero |
| SafetyGates.StopIsSilent | robot/control/safety_gate/src/safety_gate_node.cpp:71-112 | under an E-Stop or a stale state nothing at all is published, and the arm moves only where enabled, with the base at zero |
| EStopBridges.ForwardsAreRequests | robot/gateway/estop_bridge/src/estop_bridge_node.cpp:93-180 | over a whole run, what reaches the safety manager is exactly the E-Stop requests and releases for this robot among the frames of the polls at which its service was there, each once and in order |
| EStopBridges.PollHears | robot/gateway/estop_bridge/src/estop_bridge_node.cpp:93-116 | a poll publishes only false, at once when the link or the stream breaks, and leaves a heartbeat behind exactly if its frames bring one or nothing happened to the link |
| EStopBridges.EStopBridge.OnPoll | robot/gateway/estop_bridge/src/estop_bridge_node.cpp:93-151 | the drain of link events and frames takes the step of the model |
| EStopBridges.AliveIff | robot/gateway/estop_bridge/src/estop_bridge_node.cpp:182-192 | the timer publishes true exactly if the link is up and a heartbeat for this robot was received on it no longer ago than the timeout |
| LinkLoss.StepKeepsInv | robot/control/safety_manager/src/safety_manager_node.cpp:187-231 | bridge, manager and gate, joined by in-order channels, keep: messages sound and in time, the last message tells the manager's state, beats and states sent in every period, the watchdog fed |
| LinkLossStops.HaltStopsTheBase | robot/control/safety_manager/src/safety_manager_node.cpp:112-231 | once anything has taken the manager out of NORMAL, whatever has failed, one delay later the base stands still until a RESUME is accepted |
| LinkLossStops.StopInputStopsTheBase | robot/control/safety_manager/src/safety_manager_node.cpp:84-231 | one delay after a stop request, a fault, an E-Stop or an expired watchdog reached a living manager, whatever else has failed, the base stands still until a RESUME is accepted |
| LinkLossStops.DeadBeatStopsTheBase | robot/control/safety_manager/src/safety_manager_node.cpp:187-203 | and so after a dead heartbeat was delivered |
| LinkLossStops.EStopSilencesTheGate | robot/control/safety_manager/src/safety_manager_node.cpp:173-185 | while an E-Stop flag is held, from one delay after it was set the gate publishes nothing at all |
| LinkLossStops.QuietLasts | robot/control/safety_manager/src/safety_manager_node.cpp:130-138 | once no NORMAL is left anywhere, the base stands still in every run without an accepted RESUME |
| LinkLossStops.MovingIsJustified | robot/control/safety_gate/src/safety_gate_node.cpp:86-112 | whenever the base is moved, before or after any failure, the last state heard is a NORMAL sent at most 250 ms plus one delay ago with no E-Stop flag, no fault and the heartbeat alive |
| LinkLossBounds.SilenceStopsTheBase | robot/gateway/estop_bridge/src/estop_bridge_node.cpp:182-192 | if no heartbeat arrives after a moment, the gate publishes no nonzero base command from the bridge's timeout plus 50 ms plus two delays later, nor after that until a RESUME is accepted, even if heartbeats return |
| LinkLossBounds.SilenceIsAnswered | robot/control/safety_gate/src/safety_gate_node.cpp:46-47 | one period of the gate's timer later, what it published last is no nonzero command |
| LinkLossBounds.BridgeDeathStopsTheBase | robot/control/safety_manager/src/safety_manager_node.cpp:205-213 | if the bridge dies, the base stands from 800 ms plus two delays later until a RESUME is accepted |
| LinkLossBounds.ManagerDeathSilencesTheGate | robot/control/safety_gate/src/safety_gate_node.cpp:86-98 | if the manager dies, the gate publishes nothing from 250 ms plus one delay later |
| LinkLossProgress.TimeGoesOn | robot/control/safety_manager/src/safety_manager_node.cpp:205-213 | from every state, whatever has failed, there are runs of any length in time without heartbeat and without RESUME: the bounds speak of runs that exist |
| LinkLossWitness.SilenceBoundIsExact | robot/gateway/estop_bridge/src/estop_bridge_node.cpp:182-192 | for every timeout and delay, all runs stand still a given time after the last heartbeat if and only if that time is at least the timeout plus 50 ms plus two delays |
| LinkLossWitness.AnswerBoundIsExact | robot/control/safety_gate/src/safety_gate_node.cpp:100-112 | all runs are answered by the gate within a given time if and only if it is at least the timeout plus 100 ms plus two delays |
| LinkLossWitness.ContractIsKeptIff | docs/control_architecture_contract.md:14-15 | the gate answers a silent station within 1000 ms in all runs if and only if timeout + 100 ms + two delays is at most 1000 ms, and its last nonzero command falls within them if and only if timeout + 50 ms + two delays does; with the default timeout neither holds |
| LinkLossWitness.BridgeDeathBoundIsExact | robot/control/safety_manager/src/safety_manager_node.cpp:205-213 | for every delay, all runs stand still a given time after the bridge's death if and only if that time is at least 800 ms plus two delays |
| LinkLossWitness.ManagerDeathBoundIsExact | robot/control/safety_gate/src/safety_gate_node.cpp:86-98 | for every delay, the gate is silent a given time after the manager's death in all runs if and only if that time is at least 250 ms plus one delay |
| MotionInterlock.MotionInterlock.Request | robot/control/motion_interlock_manager/src/motion_interlock.cpp:22-58 | a request does what the transition table says |
| MotionInterlock.MotionInterlock.Stopped | robot/control/motion_interlock_manager/src/motion_interlock.cpp:60-74 | stop feedback applies the pending authority exactly while that stop is awaited |
| MotionInterlock.MotionInterlock.Timeout | robot/control/motion_interlock_manager/src/motion_interlock.cpp:76-86 | an awaited stop that times out leaves nobody in authority |
| MotionInterlock.NextIsExclusive | robot/control/motion_interlock_manager/src/motion_interlock.cpp:22-86 | authority leaves the base only through its stop, by feedback or by a timeout to nobody |
| MotionInterlock.AskingIs | robot/control/motion_interlock_manager/src/motion_interlock.cpp:22-58 | whoever asks gets authority at once if nobody has it, keeps it, or waits for the other to stop; while a stop is awaited nobody can ask |
| MotionInterlock.ReleaseIs | robot/control/motion_interlock_manager/src/motion_interlock.cpp:22-58 | a release makes the holder stop, with nobody to follow |
| MotionInterlock.StopsEndBy | robot/control/motion_interlock_manager/src/motion_interlock.cpp:60-86 | stop feedback counts while that very stop is awaited and hands over to whoever is pending; a timeout leaves nobody |
| InterlockNodes.InterlockNode.OnRequest | robot/control/motion_interlock_manager/src/motion_interlock_manager_node.cpp:81-118 | a new request takes its step, a repeated one gets the old answer; deadline and owner stay consistent |
| InterlockNodes.InterlockNode.OnStopped | robot/control/motion_interlock_manager/src/motion_interlock_manager_node.cpp:120-137 | only feedback stamped neither in the future nor over 500 ms ago is considered |
| InterlockNodes.InterlockNode.OnTimer | robot/control/motion_interlock_manager/src/motion_interlock_manager_node.cpp:139-156 | an expired stop clears authority and sends a fault, and nothing else sends one |
| InterlockManager.ArmNeedsTheBaseStopped | robot/control/motion_interlock_manager/src/motion_interlock_manager_node.cpp:96-156 | in every run the arm follows the base only past fresh BASE stop feedback or a timeout to nobody with a HEALTH_FAULT |
| InterlockManager.DeadlineHolds | robot/control/motion_interlock_manager/src/motion_interlock_manager_node.cpp:139-174 | neither request nor feedback changes the deadline of an awaited stop |
| InterlockManager.StopIsNeverPostponed | robot/control/motion_interlock_manager/src/motion_interlock_manager_node.cpp:139-174 | however many requests and messages arrive, the first tick more than one second after the stop was asked for finds it over or ends it |
| InterlockManager.FaultIffExpired | robot/control/motion_interlock_manager/src/motion_interlock_manager_node.cpp:139-156 | a fault is sent exactly when an awaited stop expires |
| InterlockManager.TransitionsAreCounted | robot/control/motion_interlock_manager/src/motion_interlock_manager_node.cpp:156-180 | every accepted transition is one publication under the next sequence number, and nothing else changes anything |
| InterlockManager.OwnerIs | robot/control/motion_interlock_manager/src/motion_interlock_manager_node.cpp:72-180 | who asked last for base or arm owns authority until nobody has it |
| InterlockManager.FeedbackCountsIff | robot/control/motion_interlock_manager/src/motion_interlock_manager_node.cpp:120-137 | feedback ends a stop exactly if it says so of the resource awaited and its stamp is neither ahead of the clock nor more than half a second behind |
| InterlockManager.OlderFeedbackIff | robot/control/motion_interlock_manager/src/motion_interlock_manager_node.cpp:120-137 | while a stop is awaited, feedback stamped before the request for it is accepted from somebody if and only if that request is less than 500 ms old |
| InterlockManager.StaleConfirmationIff | robot/control/motion_interlock_manager/src/motion_interlock_manager_node.cpp:81-174 | in every run that awaits a stop, which one request began: a message stamped before that request can end it now if and only if the request is less than 500 ms old |
| InterlockManager.FeedbackMayPredateTheStop | robot/control/motion_interlock_manager/src/motion_interlock_manager_node.cpp:120-137 | a run in which the feedback that hands over is 400 ms older than the request |
| BaseStopDetector.StopDetector.ObserveCommand | robot/control/motion_interlock_manager/src/base_stop_detector.cpp:12-16 | a command is recorded, and a nonzero one ends the candidate window |
| BaseStopDetector.StopDetector.ObserveOdometry | robot/control/motion_interlock_manager/src/base_stop_detector.cpp:18-27 | a sample is recorded, and a fast one ends the candidate window |
| BaseStopDetector.StopDetector.Stopped | robot/control/motion_interlock_manager/src/base_stop_detector.cpp:29-39 | the answer is true exactly if the base has settled, by the history of all observations |
| BaseStopDetector.StoppedIffSettled | robot/control/motion_interlock_manager/src/base_stop_detector.cpp:12-49 | stopped is answered exactly if, over a window of at least the settling time ending now, no nonzero command and no fast sample was observed and both inputs were fresh at every poll |
| BaseMotionMonitor.MotionMonitor.OnTimer | robot/control/motion_interlock_manager/src/base_motion_monitor_node.cpp:80-91 | the feedback published says stopped exactly if the detector's history settles |
| BaseMotionMonitor.MotionMonitor.OnCommand | robot/control/motion_interlock_manager/src/base_motion_monitor_node.cpp:62-71 | a command counts as zero exactly if every component is within 1e-6 |
| BaseMotionMonitor.ArmFollowsCertifiedStop | robot/control/motion_interlock_manager/src/base_motion_monitor_node.cpp:80-91 | in every run of monitor and authority service the arm follows the base only past a fault, or a stop certified over a settled window that ended at most 500 ms before |
| BaseMotionMonitor.RestsIff | robot/control/motion_interlock_manager/src/motion_interlock_manager_node.cpp:120-137 | with any thresholds the detector can meet at all, a stop is confirmed only while the base still rests, given that no nonzero command and no fast sample came for some time, if and only if that time is at least 500 ms |
| BaseMotionMonitor.ArmWhileTheBaseMoves | robot/control/motion_interlock_manager/src/motion_interlock_manager_node.cpp:120-137 | a run in which authority passes to the arm on a certificate 500 ms old, after a nonzero command and a fast sample |
| AuthorityLink.StandsIff | robot/control/safety_gate/src/safety_gate_node.cpp:68-70 | once authority has left the base, no nonzero base command passes after a given time in any run if and only if that time is at least the message delay: the gate has no timeout on authority |
| AuthorityLink.ArmFollowsBaseAtTheGate | robot/control/safety_gate/src/safety_gate_node.cpp:100-128 | between a base motion and a later arm command at the gate lies a fresh confirmation that the base had stopped, or a handover given up with a fault |
| Barycentric.CoversIff | hmi/src/widgets/Robot3DView.cpp:90-114 | the weights computed are inside their range exactly if the point is a convex combination of the corners |
| Barycentric.WeightsAreAffine | hmi/src/widgets/Robot3DView.cpp:86-100 | one pixel to the right or down adds a constant to each weight |
| Barycentric.CoveredIsBoxed | hmi/src/widgets/Robot3DView.cpp:74-84 | a covered point lies between the smallest and largest corner coordinates |
| DepthRasters.BoxMissesNothing | hmi/src/widgets/Robot3DView.cpp:74-84 | the clipped, rounded box contains every pixel whose centre the triangle covers |
| DepthRasters.DepthRaster.Draw | hmi/src/widgets/Robot3DView.cpp:68-123 | every pixel gets, if nearer, the depth and brightness that the triangle has at its centre, as the convex combination of the corners that the centre is, although only the box is visited and the weights are only added to |
| DepthRasters.DepthRaster.ShadeRow | hmi/src/widgets/Robot3DView.cpp:110-122 | along a row the running weights are the direct ones |
| DepthRasters.NearestWins | hmi/src/widgets/Robot3DView.cpp:110-122 | after any list a pixel has the least depth at which a triangle passes through its centre, and the colour there of the first that does so at that depth |
| DepthRasters.HitsIff | hmi/src/widgets/Robot3DView.cpp:87-121 | a triangle passes through the centre of a pixel at most once, at the depth and brightness that the weights give |
| DepthRasters.LitDims | hmi/src/widgets/Robot3DView.cpp:119-121 | each channel is that of the base colour times the brightness, with the fraction dropped |
| DepthRasters.DepthIgnoresOrder | hmi/src/widgets/Robot3DView.cpp:110-122 | the depth does not depend on the order in which triangles are drawn |
| GroundGrid.KeyIsSum | robot/navigation/lidar_slam/src/ground_filter.cpp:81-84 | the exclusive-or of the shifted first index and the second as an unsigned word is the sum of the two |
| GroundGrid.KeyIsInjective | robot/navigation/lidar_slam/src/ground_filter.cpp:81-84 | no two pairs of 32-bit indices share a key, and every key fits 64 bits |
| GroundGrid.CellsAreGathered | robot/navigation/lidar_slam/src/ground_filter.cpp:140-149 | the map holds exactly the cells with points, each with the sums and the count of its own points |
| GroundGrid.CentroidStaysInCell | robot/navigation/lidar_slam/src/ground_filter.cpp:86-91 | the centroid of a cell's points lies in that cell |
| GroundGrid.CandidateIs | robot/navigation/lidar_slam/src/ground_filter.cpp:131-196 | what the search compares is the average height of the points between the bounds of a cell, and the squared distance to the average of their positions |
| GroundGrid.WindowSuffices | robot/navigation/lidar_slam/src/ground_filter.cpp:158-166 | every cell whose centroid is within the radius is in the window searched |
| GroundGrid.LookupIsNearest | robot/navigation/lidar_slam/src/ground_filter.cpp:152-181 | the lookup gives the mean height of the first of the nearest centroids among all ground cells in range, and none exactly if no centroid is in range |
| PointClouds.ReadPoints | robot/navigation/lidar_slam/src/ground_filter.cpp:105-129 | the points visited are the readable ones in row order, ending where the data ends |
| PointClouds.ReadBack | robot/navigation/lidar_slam/src/ground_filter.cpp:198-229 | points copied into a one-row cloud of the same layout are read again as they were |
| PointClouds.ReadIff | robot/navigation/lidar_slam/src/ground_filter.cpp:58-125 | a point is read exactly if the first fields named x, y and z are floats that lie within it and are finite, and as their values |
| GroundFilters.GroundFilter.OnGround | robot/navigation/lidar_slam/src/ground_filter.cpp:131-150 | a supported ground cloud replaces the grid by that of its points |
| GroundFilters.GroundFilter.GroundHeight | robot/navigation/lidar_slam/src/ground_filter.cpp:152-181 | the search loops compute the windowed lookup |
| GroundFilters.GroundFilter.OnObstacles | robot/navigation/lidar_slam/src/ground_filter.cpp:183-230 | nothing is published without a matching ground; otherwise the cloud that, read again, gives exactly the points kept, in order |
| GroundFilters.KeptIffInBand | robot/navigation/lidar_slam/src/ground_filter.cpp:208-223 | a point is kept if and only if there is ground in range and its height above the nearest lies in the band |
| StyleSheetSpacing.Substitute | hmi/src/theme/Style.cpp:44-51 | the result is the replacement in turn of a longest-first order of the names, and for a well-spaced template the value of the longest name at every place |
| StyleSheet.InTurnIsOnePass | hmi/src/theme/Style.cpp:44-51 | replacing longest names first is reading a well-spaced template once and taking the longest name at every place |
| StyleSheet.AddNext | hmi/src/theme/Style.cpp:48-49 | replacing the next shorter name adds exactly that name to the single pass |
| StyleSheet.OrderDoesNotMatter | hmi/src/theme/Style.cpp:388-389 | for a well-spaced template, any two longest-first orders of the same names give the same result |
| StyleSheetSpacing.SpacingIsExact | hmi/src/theme/Style.cpp:38-51 | the agreement holds for all names and values if and only if no '@' word of the template runs straight into a longer one |
| StyleSheetSpacing.SeparatedIsWellSpaced | hmi/src/theme/Style.cpp:53-60 | a separator between any two '@' of the template is enough |
| CaptureNames.SanitisedIsStable | hmi/src/capture/CaptureMetadata.cpp:19-28 | sanitising is idempotent, leaves no illegal character and never empties a field that is not blank |
| CaptureNames.FileName | hmi/src/capture/CaptureMetadata.cpp:55-71 | a complete record gets the prescribed name with sanitised fields and the extension without leading dots, any other none |
| CaptureNames.ImagesAre | hmi/src/data/InspectionRecord.cpp:25-35 | jpg, jpeg, png, ply and pcd, in either case, are the extensions looked for |
| CaptureNames.StampReads | hmi/src/capture/CaptureMetadata.cpp:68 | a time with a four-digit year is printed as fourteen digits that read back as that time cut to the second |
| CaptureNames.YearIsPrinted | hmi/src/capture/CaptureMetadata.cpp:68 | a year is printed with its sign if it is negative, and as at least four digits that stand for it |
| CaptureNames.MatchIff | hmi/src/data/InspectionRecord.cpp:17-23 | a name has at most one reading by the pattern, and it is the one that is found |
| CaptureNames.PrintedNameReadsBack | hmi/src/data/InspectionRecord.cpp:58-73 | a printed name reads back as exactly the sanitised fields and the time cut to the second if and only if vehicle and car have no '_', the point has no ',', the year has four digits and the extension is an image extension |
| CaptureNames.SameTimeReadsBack | hmi/src/data/InspectionRecord.cpp:72 | it reads back as the very time of the capture if and only if, besides, that time is a whole second |
| CaptureNames.MillisecondsAreLost | hmi/src/capture/CaptureMetadata.cpp:68 | a capture half a second past noon whose name reads back, but as noon |

## Left out

- ROS 2 middleware, service discovery, launch files, sockets, `poll`, threads and locks: handlers are atomic steps, channels deliver in order and lose nothing, and the environment supplies the outcome of every read and write.
- A depth-one subscription that replaces an undelivered safety state by a newer one: to the gate that is the same as both delivered at once, which the model allows.
- Nodes that start at different times: in the composed system bridge, manager and gate start together, at any time.
- Floating-point rounding, NaN, trigonometry, Euler angles and the link table of the arm: exact reals and abstract kinematics.
- Conversions that overflow: pixel coordinates and cell indices are unbounded integers, and the grid theorems ask for indices that fit 32 bits, outside of which the C++ conversion is undefined.
- `readInitialBytes` of the TCP server: its verdict depends on how the first bytes are split and on a wall-clock deadline; the bytes it has read are an argument of `Accept`.
- `goal_unsendable_` as the name of a failure's cause: the flag can outlive a pause, so only its effect, pause instead of failure, is modelled.
- Reason codes, detail texts, owners in messages, time stamps of published states and mission state messages: no decision depends on them.
- The capture of odometry as planar speed: the length of the velocity is an argument of the monitor.
- The mission manager's own tests that a command is zero and that a pose is finite and oriented: their verdicts are arguments; the monitor's zero test is `IsZero`.
- JSON header encoding in the Python SDK: a header is its bytes.
- The arm's stop feedback, `twist_mux`, `hmi_bridge`, teleoperation and the station's timers: environment.
- Time zones and daylight saving in capture times: a time is its calendar fields, down to the millisecond.
- Decide: a safety state that is none of the five, which the gate blocks like an E-Stop, is not modelled; the manager sends only the five.
- Directory scanning and sorting of records, JSON side cars and the user interface: plumbing with easy invariants.
- The depth and colour of a pixel once a triangle has corners with unusual values (not finite): every corner is a real.
