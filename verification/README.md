# Verified models of the robot mission stack

This project models four components of the repository in Dafny and proves what they promise:

* the **mission client** of `isaac_ros_vda5050_client`, the state machine that carries out VDA 5050
  orders: it schedules the HARD, SOFT and NONE actions of each node, groups the nodes that follow
  into navigation goals, follows feedback and results, and handles cancel, pause, resume,
  teleoperation and fatal errors (VDA 5050, sections 6.6.3, 6.11 and 6.12);
* the **message stream synchronizer** of `isaac_common` and its bounded buffers;
* the **key converter** of the MQTT bridge, between camel case and snake case, on names and on JSON
  messages;
* the **occupancy-grid check** of `isaac_ros_navigation_goal` and its random goal generator.

## How it is organized

Mission client:

* `MissionTypes`, `MissionSpec`: messages, state, and every callback as a function from state to
  state. A field `fault` marks the places where the program would dereference null, index out of
  range, leave an exception uncaught or release an open lock; nothing runs after a fault. A field
  `calls` records the calls to handlers and to the navigation server since the order was accepted.
* `MissionClient`: the client as an object whose callbacks update its fields in place with the
  program's own loops; each method is proved to change the whole state exactly as its function does.
* `MissionViews`, `MissionInvariant`: the order as a flat list of actions with their statuses, and
  the invariant of all runs.
* `MissionScheduling`, `MissionCanceling`, `MissionPausing`, `MissionRuns`: every callback keeps the
  invariant; runs of any length.
* `MissionTheorems`, `MissionGoals`, `MissionRequests`, `MissionInterruptions`, `MissionResuming`,
  `MissionLiveness`, `MissionHistory`, `MissionAnswers`: what follows for all runs: order of execution,
  blocking types, driving, tiling of the route, cancel, pause, resume, teleoperation, new orders,
  errors, termination of orders and of requests, exactly-once execution.
* `MissionStarting`, `MissionTelling`, `MissionEffects`: exactly what a tick starts, what a cancel and a
  pause call, and what each message and result does, in terms of the listed statuses and the record of
  calls.
* `MissionExample`, `MissionMisled`: concrete allowed runs, one for each finding about the client.

Synchronizer: `StreamRounds` (the loop as a function on queues), `StreamArrivals` (runs and their
interleavings), `StreamMatching` (what is dropped, and optimality for two topics), `MessageBuffer` and
`StreamSynchronizer` (the objects, updated in place, proved against those functions).

Converter: `KeyCase` (names), `JsonKeys` (messages), `JsonNames` (by the names callers use). Grid: `GridMap`, `GoalGenerator`. `Options` is
shared.

`dafny verify dfyconfig.toml` checks the whole project.

## Assumptions about the environment

The mission client is a transition system over its callbacks, which one single-threaded executor runs
one at a time, and over the updates and error reports of handlers, which take the state's lock. Clocks,
transforms, the lifecycle service, the navigation server and the handlers are parameters of the
events. `MissionRuns.Sensible` states what the environment may do:

* handlers keep their contract: they update only actions they were given, never back to WAITING and
  never from an ending back to running; no handler of the repository pauses actions, so none becomes
  PAUSED. They may stop an action at once when told to cancel, change FAILED into FINISHED or back
  afterwards, and report warnings and fatal errors at any time;
* action ids are unique, and a new order's ids are new;
* answers, feedback and results concern the goal outstanding, and the number of poses left never grows
  beyond what is left; goals may be refused, canceled, aborted or lost, at any time.

`MissionRuns.Allowed` then leaves out what the client does not cope with, and `StepKeepsInvIff` proves
that these are exactly the callbacks after which its bookkeeping is wrong:

* an order accepted while a goal is outstanding (`ReplacedWhileDrivingIff` says exactly when one would
  be);
* a goal aborted at another node than node 1;
* teleoperation started with no order or after its end, or stopped with no order or while a goal is
  outstanding, and a pause resumed while a goal is outstanding.

What happens then is proved separately (`MissionResuming`, `MissionMisled`).

Order termination assumes more; `Benign` and `Fair` in `MissionLiveness` list it. That requests are
answered assumes less: `Endures` in `MissionAnswers` and `KeepsGoing`.

## What the proofs brought to light

Where the code does not do what its messages or comments say, the code is modelled as it is, and a
lemma states exactly when it meets the promise:

* a cancel crashes the client when it is idle, or when an action begun at an earlier node is still
  running (`CancelFaultsIff`, `CancelCanBreak`);
* a pending cancel does not stop the client from sending a further goal (`CancelDrivesOnIff`,
  `CancelAndPauseDriveOnIff`; `CancelCanDriveOn`, `InterruptedCancelDrivesOn`, `BothCanDriveOn`), though
  it is finished in the end if nothing breaks (`EveryRequestIsAnswered`); neither cancel nor pause waits
  for a goal request that has not been answered (`CancelFinishesIff`, `CanceledBeforeAnswer`,
  `PausedBeforeAnswer`);
* a second cancel that comes before the first is evaluated keeps the robot from being stopped
  (`CancelMessageStopsIff`, `TwoCancelsKeepDriving`), and while a pause is pending and something runs,
  further actions are started (`TickStartsExactly`);
* one tick without the navigation server strands the client between two nodes for good
  (`NoServerStrands`, `OutageStrands`);
* a pause crashes the client when an action begun earlier, or one without a handler, is running
  (`PauseFaultsIff`, `PauseCanBreak`);
* two new instant actions in one message crash the client (`MessageFaultsIff`, `TwoRequestsBreak`);
* only the first error is inspected, so a warning hides a later fatal error for good
  (`LostGoalEndsOrderIff`, `LostForGood`);
* a fatal error that a handler reports while the robot drives makes the client idle, and ready to take
  another order, without canceling the goal (`FatalErrorLeavesGoalIff`, `ReplacedWhileDrivingIff`,
  `FatalErrorWhileDriving`, `AcceptedOnArrival`); the old goal's feedback then breaks the new order
  (`OldGoalBreaksNewOrderIff`, `OldGoalBreaksErrand`);
* resuming a pause, or stopping teleoperation, does not look at the goal outstanding: the next tick
  sends the robot a second goal beside the first (`SecondGoalIff`, `StopTeleopSendsGoalIff`,
  `ResumedIntoSecondGoal`, `ReleasedIntoSecondGoal`), and feedback on the first misplaces the client or
  breaks it (`ResumedWhileDriving`);
* teleoperation without an order breaks the client at the next order or tick
  (`TeleopWithoutOrderBreaks`, `SteeredWithoutOrder`);
* an aborted goal leaves the progress report wrong unless the robot was at node 1
  (`AbortKeepsInvIff`, `AbortedAtFirst`);
* the synchronizer drops messages "that can no longer be a match" only for two topics; with three it
  can drop one that still could (`ThreeTopicDropCanLoseAMatch`, and in general
  `HopelessIffNotServable`);
* the key converter puts the whole list in place of every item that is not a dictionary
  (`OnlyDictsSurvive`, `NumberBecomesList`);
* a pose is accepted with an obstacle nearer than the distance asked for, by up to one cell
  (`KeepsDistanceIff`, `NextCellAccepted`), and far off the map the slices wrap around (`WrappedIff`,
  `FarOffRefused`);
* removing old messages from a buffer leaves its cached timestamp stale (`ClearUpto`); the
  synchronizer never does so.

## Model

| member | source | states |
|---|---|---|
| MissionRuns.StepKeepsInv | jazzy_ws/src/isaac_ros_cloud_control/isaac_ros_vda5050_client/src/vda5050_client_node.cpp:248-374 | every allowed callback, and every status update or error report by a handler, leads from a state with the invariant to one with it: layout of the action states, order of execution, blocking types, route, progress report, cancels told once; goals may be refused, canceled or lost, and aborted at node 1; what is left out is exactly what StepKeepsInvIff says |
| MissionRuns.StepKeepsInvIff | jazzy_ws/src/isaac_ros_cloud_control/isaac_ros_vda5050_client/src/vda5050_client_node.cpp:575-920 | the callbacks that the allowed runs leave out are exactly those after which the invariant is false: whatever a well-behaved environment sends (messages of one new instant action), the invariant holds afterwards if and only if the callback is allowed, that is: no order is taken with a goal outstanding, no goal is aborted away from node 1, teleoperation starts only in an uncompleted order, and it stops, or a pause is resumed, only with an order and no goal outstanding |
| MissionRuns.RunKeepsInv | jazzy_ws/src/isaac_ros_cloud_control/isaac_ros_vda5050_client/src/vda5050_client_main.cpp:24-29 | the callbacks run one after the other on one executor; every state of every allowed run, of any length, has the invariant; the runs include handler errors at any time |
| MissionRuns.ReachableInv | jazzy_ws/src/isaac_ros_cloud_control/isaac_ros_vda5050_client/src/vda5050_client_node.cpp:240-374 | every state that an allowed run reaches from the initial one has the invariant |
| MissionRuns.MissionHere | jazzy_ws/src/isaac_ros_cloud_control/isaac_ros_vda5050_client/src/vda5050_client_node.cpp:504-573 | in a reachable state with an order and no fault, the first num_actions_ action states are the order's actions in route order, every id is listed once, and the mission is sound |
| MissionRuns.ReachableStep | jazzy_ws/src/isaac_ros_cloud_control/isaac_ros_vda5050_client/src/vda5050_client_main.cpp:24-29 | one more allowed callback leads from a reachable state to a reachable state |
| MissionRuns.TickKeepsInv | jazzy_ws/src/isaac_ros_cloud_control/isaac_ros_vda5050_client/src/vda5050_client_node.cpp:248-374 | a tick with any combination of pending cancel and pause keeps the invariant |
| MissionRuns.AcceptKeepsInvIff | jazzy_ws/src/isaac_ros_cloud_control/isaac_ros_vda5050_client/src/vda5050_client_node.cpp:575-598 | taking a new order never breaks by itself, and keeps the invariant exactly when no goal is requested or in progress |
| MissionRuns.InstantKeepsInvIff | jazzy_ws/src/isaac_ros_cloud_control/isaac_ros_vda5050_client/src/vda5050_client_node.cpp:652-675 | an instant action of any type keeps the invariant exactly when it is none of: startTeleop with no order or a completed one, stopTeleop with no order or with a goal outstanding, stopPause in the paused state with a goal outstanding |
| MissionRuns.StartTeleopKeepsInvIff | jazzy_ws/src/isaac_ros_cloud_control/isaac_ros_vda5050_client/src/vda5050_client_node.cpp:679-690 | starting teleoperation never breaks by itself, and keeps the invariant exactly during an order not yet completed |
| MissionRuns.StopTeleopKeepsInvIff | jazzy_ws/src/isaac_ros_cloud_control/isaac_ros_vda5050_client/src/vda5050_client_node.cpp:691-705 | stopping teleoperation always sets the client running at its current node, and keeps the invariant exactly with an order and no goal requested or in progress |
| MissionRuns.ResumeKeepsInvIff | jazzy_ws/src/isaac_ros_cloud_control/isaac_ros_vda5050_client/src/vda5050_client_node.cpp:1063-1086 | resuming a paused client always sets it running at its current node, and keeps the invariant exactly when no goal is requested or in progress |
| MissionRuns.FeedbackKeepsInv | jazzy_ws/src/isaac_ros_cloud_control/isaac_ros_vda5050_client/src/vda5050_client_node.cpp:851-866 | feedback on the goal in progress keeps the invariant and does not break: the index it computes is on the route |
| MissionRuns.AbortKeepsInvIff | jazzy_ws/src/isaac_ros_cloud_control/isaac_ros_vda5050_client/src/vda5050_client_node.cpp:878-888 | finding: an abort never breaks the client, but the invariant (in particular the progress report) survives it exactly when the robot was at node 1, because the current node is set to 1 |
| MissionRuns.AddErrorKeepsInv | jazzy_ws/src/isaac_ros_cloud_control/isaac_ros_vda5050_client/src/vda5050_client_node.cpp:242-246 | an error added at any time, by the client or by a handler, keeps the invariant |
| MissionRuns.ResponseKeepsInv | jazzy_ws/src/isaac_ros_cloud_control/isaac_ros_vda5050_client/src/vda5050_client_node.cpp:830-849 | a goal accepted or refused keeps the invariant and does not break |
| MissionRuns.HandlerKeepsInv | jazzy_ws/src/isaac_ros_cloud_control/isaac_ros_vda5050_client/include/isaac_ros_vda5050_client/vda5050_client_node.hpp:98-149 | a status update by a handler to an action it was given keeps the invariant, even a late one that turns one ending into the other |
| MissionTheorems.StartedInRouteOrder | jazzy_ws/src/isaac_ros_cloud_control/isaac_ros_vda5050_client/src/vda5050_client_node.cpp:306-359 | in every reachable state the ids passed to ExecuteAction for the current order are a prefix of its actions in route order, each at most once, whatever pauses, resumes and cancels happened |
| MissionTheorems.CompletedMeansAllDone | jazzy_ws/src/isaac_ros_cloud_control/isaac_ros_vda5050_client/src/vda5050_client_node.cpp:360-371 | in a reachable state, an order completed with no action failed before it was started has had all its actions executed in route order, and every HARD and SOFT one is over |
| MissionHistory.CompletedWithoutCancel | jazzy_ws/src/isaac_ros_cloud_control/isaac_ros_vda5050_client/src/vda5050_client_node.cpp:306-372 | exactly-once execution: in every allowed run since an order was accepted, with pauses, resumes, teleoperation, lost goals and errors but no cancelOrder pending or arriving, the order, when completed, has had all its actions executed in route order, and every HARD and SOFT one is over |
| MissionHistory.RunKeepsWhole | jazzy_ws/src/isaac_ros_cloud_control/isaac_ros_vda5050_client/src/vda5050_client_node.cpp:306-372 | in every run that keeps the order and has no cancelOrder, every action not started still waits: only a cancel cuts an order short |
| MissionTheorems.HardRunsAlone | jazzy_ws/src/isaac_ros_cloud_control/isaac_ros_vda5050_client/src/vda5050_client_node.cpp:324-347 | in every reachable state, while a HARD (or empty-type) action of a node runs no other action of that node does, and while it is unfinished nothing after it at that node has been started |
| MissionTheorems.NoBlockingActionWhileDriving | jazzy_ws/src/isaac_ros_cloud_control/isaac_ros_vda5050_client/src/vda5050_client_node.cpp:355-371 | in every reachable state with a goal requested or in progress, no HARD or SOFT action of the order is running |
| MissionTheorems.ProgressIsExact | jazzy_ws/src/isaac_ros_cloud_control/isaac_ros_vda5050_client/src/vda5050_client_node.cpp:851-866 | in every reachable state the last node reported is the current one, the node states are exactly the nodes after it, and the driving flag tells whether a goal is outstanding |
| MissionScheduling.ScanKeeps | jazzy_ws/src/isaac_ros_cloud_control/isaac_ros_vda5050_client/src/vda5050_client_node.cpp:306-359 | one pass over the current node's actions keeps the order of execution and HARD exclusivity, and lets the robot go on only when nothing of the node waits and no HARD or SOFT action of it is unfinished |
| MissionScheduling.ScheduleKeepsInv | jazzy_ws/src/isaac_ros_cloud_control/isaac_ros_vda5050_client/src/vda5050_client_node.cpp:281-374 | the scheduling half of a tick keeps the invariant and never breaks |
| MissionStarting.TickStartsExactly | jazzy_ws/src/isaac_ros_cloud_control/isaac_ros_vda5050_client/src/vda5050_client_node.cpp:303-359 | exactly what a tick starts, on the listed statuses and the record of starts: with h the first HARD (or empty-type) action of the node that waits or runs, every waiting action before h in list order, and h itself exactly if it waits and nothing before it at the node waited or ran; nothing else, and nothing at all before the robot has arrived, with a fatal error first, without a known position, or when a pending pause takes effect; a pause that is pending while something runs does not keep other actions from being started; and in which state each is left (RUNNING for pause_order, FAILED without a handler, else as the handler says) |
| MissionStarting.ScanStarts | jazzy_ws/src/isaac_ros_cloud_control/isaac_ros_vda5050_client/src/vda5050_client_node.cpp:306-359 | the same for the pass from any action of a node on, for any list of statuses: the calls made are exactly those starts, and no other action changes |
| MissionViews.StartingKeepsSound | jazzy_ws/src/isaac_ros_cloud_control/isaac_ros_vda5050_client/src/vda5050_client_node.cpp:328-347 | starting the next action of the current node is sound if every HARD action before it there has ended, and all of them if it is HARD itself |
| MissionViews.MovingOnKeepsSound | jazzy_ws/src/isaac_ros_cloud_control/vda5050_action_handler/include/vda5050_action_handler/vda5050_action_handler.hpp:36-49 | updates that a handler may make, and a sweep that fails all waiting actions, keep the bookkeeping sound |
| MissionGoals.TickSendsOneGoal | jazzy_ws/src/isaac_ros_cloud_control/isaac_ros_vda5050_client/src/vda5050_client_node.cpp:434-459 | the list of goals sent grows by at most one in a tick, and that one is the nodes from current_node_+1 to the first one that has actions, has zero allowed deviation or is last, so that no node strictly inside a goal is a stop; the tick does not move the client |
| MissionGoals.NeverBack | jazzy_ws/src/isaac_ros_cloud_control/isaac_ros_vda5050_client/src/vda5050_client_node.cpp:856 | within an order the current node never goes back, and the unsigned subtraction in the feedback callback never wraps |
| MissionGoals.StepKeepsTiled | jazzy_ws/src/isaac_ros_cloud_control/isaac_ros_vda5050_client/src/vda5050_client_node.cpp:434-459 | every callback keeps the goals sent so far, put end to end, equal to the nodes 1, 2, ... up to where the robot is or is going, as long as goals succeed |
| MissionGoals.GoalsTileTheRoute | jazzy_ws/src/isaac_ros_cloud_control/isaac_ros_vda5050_client/src/vda5050_client_node.cpp:434-459 | for every order, in every run from its acceptance on in which its own goals succeed: when it is completed, its goals put end to end are exactly the nodes 1, 2, ..., n-1, each once |
| MissionRequests.CancelIsSafe | jazzy_ws/src/isaac_ros_cloud_control/isaac_ros_vda5050_client/src/vda5050_client_node.cpp:250-252 | from the first tick after cancelOrder on, in every run that keeps the order, no further action of it is started |
| MissionRequests.NothingStartsLater | jazzy_ws/src/isaac_ros_cloud_control/isaac_ros_vda5050_client/src/vda5050_client_node.cpp:308-359 | from a state in which no action waits, no run that keeps the order starts one |
| MissionRequests.HandlersToldOnce | jazzy_ws/src/isaac_ros_cloud_control/isaac_ros_vda5050_client/src/vda5050_client_node.cpp:763-771 | in every reachable state no handler has been told twice to cancel an action, nor to cancel one that was not started |
| MissionRequests.CancelFinishesIff | jazzy_ws/src/isaac_ros_cloud_control/isaac_ros_vda5050_client/src/vda5050_client_node.cpp:774-782 | unless it breaks, evaluating a pending cancel finishes it exactly when no action of the order is running and no goal is in progress; then every action has ended, the client is idle, the request is FINISHED, and a goal is outstanding exactly if one had been requested and not answered |
| MissionRequests.CancelFaultsIff | jazzy_ws/src/isaac_ros_cloud_control/isaac_ros_vda5050_client/src/vda5050_client_node.cpp:729-772 | evaluating a pending cancel breaks exactly when the client is idle (the request is used after its release) or an action started at an earlier node is still running and has not been told (it is looked up at the current node only) |
| MissionRequests.CancelBeforeGoalAnswered | jazzy_ws/src/isaac_ros_cloud_control/isaac_ros_vda5050_client/src/vda5050_client_node.cpp:776-782 | finding: with nothing running, a goal requested and not yet answered does not hold a cancel up; it finishes, and the goal, once accepted, is driven while the client is idle |
| MissionRequests.CancelDrivesOnIff | jazzy_ws/src/isaac_ros_cloud_control/isaac_ros_vda5050_client/src/vda5050_client_node.cpp:250-252 | finding: whatever handlers do when told to cancel, a tick with a cancel (and no pause) pending sends a further goal exactly when the client is at a node that is not the last, no fatal error comes first, an action of the order was running when the tick began, none was left behind untold, those HARD or SOFT at the node are stopped by this tick, and the environment lets a goal be sent |
| MissionRequests.ScanIdles | jazzy_ws/src/isaac_ros_cloud_control/isaac_ros_vda5050_client/src/vda5050_client_node.cpp:306-359 | where nothing waits, the pass over a node changes nothing and lets the robot go on exactly when no HARD or SOFT action of the rest of the node runs |
| MissionRequests.FoundHere | jazzy_ws/src/isaac_ros_cloud_control/isaac_ros_vda5050_client/src/vda5050_client_node.cpp:960-972 | looking an order action up succeeds exactly for the actions of the current node |
| MissionRequests.SweepStops | jazzy_ws/src/isaac_ros_cloud_control/isaac_ros_vda5050_client/src/vda5050_client_node.cpp:753-773 | the sweep stops exactly the running actions that have not been told, have a handler, and whose handler stops at once; all other running actions run on |
| MissionTelling.CancelTells | jazzy_ws/src/isaac_ros_cloud_control/isaac_ros_vda5050_client/src/vda5050_client_node.cpp:744-772 | exactly what one evaluation of a cancel calls: if the request still waits and a goal is in progress, first the cancellation of that goal, once; then, in route order, the handlers of the actions that run, have not been told and are served; if it breaks, the first of these calls, the goal's included |
| MissionTelling.CancelRemembers | jazzy_ws/src/isaac_ros_cloud_control/isaac_ros_vda5050_client/src/vda5050_client_node.cpp:763-779 | the actions that ran are remembered as told as long as the cancel is pending, and forgotten when it is finished |
| MissionEffects.NothingToCancel | jazzy_ws/src/isaac_ros_cloud_control/isaac_ros_vda5050_client/src/vda5050_client_node.cpp:729-742 | a cancel still pending in an idle client records a warning and then breaks the client |
| MissionTelling.CancelStopsTheRobot | jazzy_ws/src/isaac_ros_cloud_control/isaac_ros_vda5050_client/src/vda5050_client_node.cpp:744-752 | from every reachable state with a cancel not yet evaluated and a goal in progress, in every run of the order after the next tick, the cancellation of the goal stands in the record directly after all the calls (and so all the goals) made before |
| MissionEffects.CancelRequestAfter | jazzy_ws/src/isaac_ros_cloud_control/isaac_ros_vda5050_client/src/vda5050_client_node.cpp:744-782 | a cancel that waits is RUNNING after its first evaluation and until it is FINISHED |
| MissionEffects.CancelMessage | jazzy_ws/src/isaac_ros_cloud_control/isaac_ros_vda5050_client/src/vda5050_client_node.cpp:654-657 | a cancelOrder becomes the pending one and waits; one that replaces a pending cancel is FAILED from the start; nothing else changes |
| MissionEffects.CancelMessageStopsIff | jazzy_ws/src/isaac_ros_cloud_control/isaac_ros_vda5050_client/src/vda5050_client_node.cpp:654-657 | finding: with a goal in progress, the evaluation in the tick after a cancelOrder cancels the goal exactly if no cancel was pending before, so two cancels before one tick leave the robot driving |
| MissionExample.CancelCanBreak | jazzy_ws/src/isaac_ros_cloud_control/isaac_ros_vda5050_client/src/vda5050_client_node.cpp:767 | a concrete allowed run after which a pending cancel breaks the client at the next tick: a NONE action of the first node is still running at the second |
| MissionExample.CancelCanDriveOn | jazzy_ws/src/isaac_ros_cloud_control/isaac_ros_vda5050_client/src/vda5050_client_node.cpp:355-371 | a concrete allowed run after which a tick with a cancel pending sends a goal |
| MissionExample.InterruptedCancelDrivesOn | jazzy_ws/src/isaac_ros_cloud_control/isaac_ros_vda5050_client/src/example_action_handler.cpp:75-79 | a concrete allowed run in which a handler that stops its HARD action at once lets the same tick send a goal with the cancel pending |
| MissionExample.CanceledBeforeAnswer | jazzy_ws/src/isaac_ros_cloud_control/isaac_ros_vda5050_client/src/vda5050_client_node.cpp:774-782 | a concrete allowed run in which a cancel finishes before a goal request is answered, and the robot then drives |
| MissionExample.PausedBeforeAnswer | jazzy_ws/src/isaac_ros_cloud_control/isaac_ros_vda5050_client/src/vda5050_client_node.cpp:1054-1060 | the same for a pause |
| MissionExample.PauseCanBreak | jazzy_ws/src/isaac_ros_cloud_control/isaac_ros_vda5050_client/src/vda5050_client_node.cpp:1047-1050 | a concrete allowed run after which a pause breaks the client |
| MissionExample.TwoRequestsBreak | jazzy_ws/src/isaac_ros_cloud_control/isaac_ros_vda5050_client/src/vda5050_client_node.cpp:650 | two factsheet requests in one message break the client at its start |
| MissionExample.LostForGood | jazzy_ws/src/isaac_ros_cloud_control/isaac_ros_vda5050_client/src/vda5050_client_node.cpp:286-288 | a concrete allowed run after which a goal is lost, a warning hides the fatal error, and ticks change nothing |
| MissionExample.FatalErrorWhileDriving | jazzy_ws/src/isaac_ros_cloud_control/isaac_ros_vda5050_client/src/example_action_handler.cpp:53-68 | a concrete allowed run in which a handler reports a fatal error and fails while the robot drives: another order would be accepted in mid-route, and the next tick makes the client idle with the goal in progress |
| MissionExample.AcceptedOnArrival | jazzy_ws/src/isaac_ros_cloud_control/isaac_ros_vda5050_client/src/vda5050_client_node.cpp:1002-1010 | a concrete allowed run after which another order would be accepted although the last goal is still in progress |
| MissionMisled.AbortedAtFirst | jazzy_ws/src/isaac_ros_cloud_control/isaac_ros_vda5050_client/src/vda5050_client_node.cpp:878-888 | a concrete allowed run after which an aborted goal falsifies the invariant |
| MissionMisled.OldGoalBreaksErrand | jazzy_ws/src/isaac_ros_cloud_control/isaac_ros_vda5050_client/src/vda5050_client_node.cpp:856-858 | a concrete allowed run after which another order is taken in mid-route and the next feedback on the old goal breaks the client |
| MissionMisled.ResumedIntoSecondGoal | jazzy_ws/src/isaac_ros_cloud_control/isaac_ros_vda5050_client/src/vda5050_client_node.cpp:1082-1083 | a concrete allowed run (pause before the goal is answered) after which stopPause falsifies the invariant, the next tick requests a second goal with the first in progress, and feedback instead breaks the client |
| MissionMisled.ReleasedIntoSecondGoal | jazzy_ws/src/isaac_ros_cloud_control/isaac_ros_vda5050_client/src/vda5050_client_node.cpp:691-703 | a concrete allowed run (startTeleop while driving) after which stopTeleop, coming before the canceled goal has ended, has the same effect at the next tick |
| MissionMisled.SteeredWithoutOrder | jazzy_ws/src/isaac_ros_cloud_control/isaac_ros_vda5050_client/src/vda5050_client_node.cpp:679-690 | startTeleop at the very start makes the first order break the client |
| MissionMisled.BothCanDriveOn | jazzy_ws/src/isaac_ros_cloud_control/isaac_ros_vda5050_client/src/vda5050_client_node.cpp:250-255 | a concrete allowed run after which a tick with a cancel and a pause pending sends a goal |
| MissionMisled.TwoCancelsKeepDriving | jazzy_ws/src/isaac_ros_cloud_control/isaac_ros_vda5050_client/src/vda5050_client_node.cpp:654-657 | a concrete allowed run in which a second cancel comes before the first is evaluated, and the tick tells a handler but does not cancel the goal in progress |
| MissionMisled.OutageStrands | jazzy_ws/src/isaac_ros_cloud_control/isaac_ros_vda5050_client/src/vda5050_client_node.cpp:423-426 | a concrete allowed run in which one tick without the navigation server leaves the client at the first node for ever |
| MissionCanceling.SweepKeeps | jazzy_ws/src/isaac_ros_cloud_control/isaac_ros_vda5050_client/src/vda5050_client_node.cpp:753-773 | the sweep over the order's actions fails exactly the waiting ones, tells each running one's handler at most once, and its flag says whether none was running |
| MissionCanceling.CancelKeepsInv | jazzy_ws/src/isaac_ros_cloud_control/isaac_ros_vda5050_client/src/vda5050_client_node.cpp:726-783 | one evaluation of a pending cancel keeps the invariant |
| MissionInterruptions.PauseEntersIff | jazzy_ws/src/isaac_ros_cloud_control/isaac_ros_vda5050_client/src/vda5050_client_node.cpp:1031-1060 | unless it breaks, evaluating a pending pause enters the paused state exactly when no action of the order is running and no goal is in progress; it changes no status of the order, moves nothing and sends no goal |
| MissionTelling.PauseTells | jazzy_ws/src/isaac_ros_cloud_control/isaac_ros_vda5050_client/src/vda5050_client_node.cpp:1031-1053 | exactly what one evaluation of a pause in a running client calls: the cancellation of the goal in progress, once, if the request still waits; then, in route order, the handlers of the actions that run and have not been told |
| MissionTelling.PauseRemembers | jazzy_ws/src/isaac_ros_cloud_control/isaac_ros_vda5050_client/src/vda5050_client_node.cpp:1019-1057 | the actions that ran are remembered as told as long as the pause is pending, and forgotten when the client is paused |
| MissionTelling.ResumeTells | jazzy_ws/src/isaac_ros_cloud_control/isaac_ros_vda5050_client/src/vda5050_client_node.cpp:1071-1081 | resuming hands exactly the paused actions of the order back to their handlers, in route order, and sets them running, unless it breaks |
| MissionEffects.StartPauseMessage | jazzy_ws/src/isaac_ros_cloud_control/isaac_ros_vda5050_client/src/vda5050_client_node.cpp:663-665 | startPause in a running client cancels the goal in progress and tells the handlers at once; it is FINISHED and the client paused if nothing runs and no goal is in progress, and otherwise RUNNING |
| MissionEffects.StartPauseElsewhere | jazzy_ws/src/isaac_ros_cloud_control/isaac_ros_vda5050_client/src/vda5050_client_node.cpp:1020-1030 | startPause fails in an idle client and is done in a paused one, without a call |
| MissionEffects.StopPauseMessage | jazzy_ws/src/isaac_ros_cloud_control/isaac_ros_vda5050_client/src/vda5050_client_node.cpp:1063-1086 | stopPause sets a paused client running at its node without a call and is FINISHED; in any other state it fails and changes nothing else |
| MissionEffects.StartTeleopMessage | jazzy_ws/src/isaac_ros_cloud_control/isaac_ros_vda5050_client/src/vda5050_client_node.cpp:679-690 | startTeleop pauses the client and cancels the goal in progress, once, exactly if there is one |
| MissionEffects.StopTeleopMessage | jazzy_ws/src/isaac_ros_cloud_control/isaac_ros_vda5050_client/src/vda5050_client_node.cpp:691-705 | stopTeleop sets the client running at its node, and ends the pause_order action that was on and no other |
| MissionEffects.FactsheetMessage | jazzy_ws/src/isaac_ros_cloud_control/isaac_ros_vda5050_client/src/vda5050_client_node.cpp:707-718 | a factsheet request publishes the factsheet once and is FINISHED |
| MissionEffects.CustomMessage | jazzy_ws/src/isaac_ros_cloud_control/isaac_ros_vda5050_client/src/vda5050_client_node.cpp:668-674 | an instant action of any other type is handed to its handler once; finding: without a handler it is listed as waiting for ever |
| MissionEffects.ListedIsIgnored | jazzy_ws/src/isaac_ros_cloud_control/isaac_ros_vda5050_client/src/vda5050_client_node.cpp:631-640 | an instant action whose id is listed already is ignored |
| MissionInterruptions.CancelAndPauseDriveOnIff | jazzy_ws/src/isaac_ros_cloud_control/isaac_ros_vda5050_client/src/vda5050_client_node.cpp:250-255 | finding: exactly when a tick with both a cancel and a pause pending sends a further goal: as for the cancel alone, and some action runs on, and all that do can be told to pause |
| MissionInterruptions.PauseFaultsIff | jazzy_ws/src/isaac_ros_cloud_control/isaac_ros_vda5050_client/src/vda5050_client_node.cpp:1040-1053 | evaluating a pending pause breaks exactly when a running action not yet told was started at an earlier node or has no handler |
| MissionInterruptions.PausedBeforeGoalAnswered | jazzy_ws/src/isaac_ros_cloud_control/isaac_ros_vda5050_client/src/vda5050_client_node.cpp:1054-1060 | finding: a goal requested and not yet answered does not hold a pause up; the client is paused and then drives |
| MissionInterruptions.PausedStaysPut | jazzy_ws/src/isaac_ros_cloud_control/isaac_ros_vda5050_client/src/vda5050_client_node.cpp:248-281 | while paused and with no cancel pending, a tick starts nothing, sends nothing, moves nothing and changes no status of the order |
| MissionHistory.NothingStartsWhilePaused | jazzy_ws/src/isaac_ros_cloud_control/isaac_ros_vda5050_client/src/vda5050_client_node.cpp:248-281 | in every run from a paused (or idle) state that keeps the order, until stopPause or stopTeleop, no action is started and no goal is sent, and with no goal outstanding the client stays at its node |
| MissionInterruptions.ResumeRestarts | jazzy_ws/src/isaac_ros_cloud_control/isaac_ros_vda5050_client/src/vda5050_client_node.cpp:1063-1086 | resuming, with or without a goal outstanding, restarts at the current node with every action's status unchanged and without a call, so no node is skipped and nothing is executed twice |
| MissionResuming.ScanGoesIff | jazzy_ws/src/isaac_ros_cloud_control/isaac_ros_vda5050_client/src/vda5050_client_node.cpp:303-359 | the pass over a node lets the robot go on exactly when no HARD or SOFT action of the rest of the node was running or waiting when it began, whatever it starts itself |
| MissionResuming.ClearIffNoneBlocks | jazzy_ws/src/isaac_ros_cloud_control/isaac_ros_vda5050_client/src/vda5050_client_node.cpp:306-359 | if nothing of the order waits, that is: no HARD or SOFT action of the rest of the node is running |
| MissionResuming.ReachedTickIff | jazzy_ws/src/isaac_ros_cloud_control/isaac_ros_vda5050_client/src/vda5050_client_node.cpp:303-371 | a tick in any state at a node reached, with no request pending, requests exactly one goal, from the next node to the next stop, exactly when there is a next node, no fatal error comes first, no HARD or SOFT action of the node runs or waits, and the environment lets a goal be sent; whether another goal is outstanding is not looked at |
| MissionResuming.ResumeSendsGoalIff | jazzy_ws/src/isaac_ros_cloud_control/isaac_ros_vda5050_client/src/vda5050_client_node.cpp:1082-1083 | finding: exactly when, and which, goal the first tick after a resume sends: under the same condition on the paused state, a goal outstanding or not |
| MissionResuming.SecondGoalIff | jazzy_ws/src/isaac_ros_cloud_control/isaac_ros_vda5050_client/src/vda5050_client_node.cpp:1082-1083 | finding: if the order is resumed while a goal is in progress, the next tick leaves a second goal requested beside it exactly under that condition |
| MissionResuming.StopTeleopSendsGoalIff | jazzy_ws/src/isaac_ros_cloud_control/isaac_ros_vda5050_client/src/vda5050_client_node.cpp:691-703 | finding: the same for stopTeleop with an order, in whatever mode the client was |
| MissionResuming.TeleopWithoutOrderBreaks | jazzy_ws/src/isaac_ros_cloud_control/isaac_ros_vda5050_client/src/vda5050_client_node.cpp:679-705 | finding: with no order, startTeleop makes the next order break the client, and stopTeleop makes the next tick break it exactly if the position is known or not needed |
| MissionPausing.PauseKeepsInv | jazzy_ws/src/isaac_ros_cloud_control/isaac_ros_vda5050_client/src/vda5050_client_node.cpp:1016-1061 | one evaluation of a pending pause keeps the invariant |
| MissionPausing.NothingToResume | jazzy_ws/src/isaac_ros_cloud_control/isaac_ros_vda5050_client/src/vda5050_client_node.cpp:1072-1081 | no action of an order is ever PAUSED in a sound state, so resuming hands nothing back to handlers |
| MissionInterruptions.AcceptedOrderLayout | jazzy_ws/src/isaac_ros_cloud_control/isaac_ros_vda5050_client/src/vda5050_client_node.cpp:504-573 | after an accepted order the action states are its actions in route order, all WAITING, followed by the unfinished instant actions; nothing of the previous order is left and no error |
| MissionInterruptions.UnfinishedExact | jazzy_ws/src/isaac_ros_cloud_control/isaac_ros_vda5050_client/src/vda5050_client_node.cpp:532-541 | the action states carried over are exactly those not FINISHED or FAILED, in their old order |
| MissionEffects.AcceptsIff | jazzy_ws/src/isaac_ros_cloud_control/isaac_ros_vda5050_client/src/vda5050_client_node.cpp:975-1014 | exactly when an order is taken, in every state with the invariant: an idle client takes any, a paused one none, and a running one exactly if nothing of the order runs and a fatal error comes first or the robot is at the last node with nothing waiting |
| MissionEffects.TakenOrderDropsNothing | jazzy_ws/src/isaac_ros_cloud_control/isaac_ros_vda5050_client/src/vda5050_client_node.cpp:975-1014 | an order taken by a running client with no fatal error first finds every action of the current order over |
| MissionEffects.RefusedOrder | jazzy_ws/src/isaac_ros_cloud_control/isaac_ros_vda5050_client/src/vda5050_client_node.cpp:575-598 | a refused order adds one warning exactly if its id is another one, and changes nothing else; an empty one is never begun, and at most idles a client with a fatal error first |
| MissionInterruptions.ReplacedWhileDrivingIff | jazzy_ws/src/isaac_ros_cloud_control/isaac_ros_vda5050_client/src/vda5050_client_node.cpp:975-1014 | finding: with a goal outstanding another order is accepted exactly when the client is idle, or runs with no action running and either a fatal error comes first or the last feedback left no poses of the last goal and every action has ended |
| MissionInterruptions.OldGoalBreaksNewOrderIff | jazzy_ws/src/isaac_ros_cloud_control/isaac_ros_vda5050_client/src/vda5050_client_node.cpp:856-858 | finding: if an order is accepted while a goal is outstanding, feedback on that goal that comes before the first tick of the new order breaks the client exactly when it leaves poses; FeedbackWrapsIff has any later feedback |
| MissionResuming.FeedbackWrapsIff | jazzy_ws/src/isaac_ros_cloud_control/isaac_ros_vda5050_client/src/vda5050_client_node.cpp:856-858 | in any state with an order not completed, feedback breaks the client exactly when it leaves more poses than the index of the next stop, because the unsigned subtraction wraps |
| MissionInterruptions.ResumedWhileDriving | jazzy_ws/src/isaac_ros_cloud_control/isaac_ros_vda5050_client/src/vda5050_client_node.cpp:1082-1083 | finding: if the order is resumed while a goal is in progress, feedback before the next tick takes the client back by the poses left, and breaks it exactly when there are more of them than nodes behind (SecondGoalIff has the next tick) |
| MissionInterruptions.FatalErrorLeavesGoalIff | jazzy_ws/src/isaac_ros_cloud_control/isaac_ros_vda5050_client/src/vda5050_client_node.cpp:283-301 | finding: with a goal outstanding a tick makes the client idle exactly when a fatal error comes first and nothing is running; it calls nothing, so the goal is not canceled |
| MissionInterruptions.LostGoalEndsOrderIff | jazzy_ws/src/isaac_ros_cloud_control/isaac_ros_vda5050_client/src/vda5050_client_node.cpp:283-301 | finding: only the first error is looked at; the fatal error for a goal canceled from outside ends the order exactly when no warning was recorded first and nothing is running, and after an earlier warning every tick does nothing |
| MissionEffects.FatalTick | jazzy_ws/src/isaac_ros_cloud_control/isaac_ros_vda5050_client/src/vda5050_client_node.cpp:283-301 | with a fatal error first a tick (no request pending) starts and sends nothing, whether the robot has arrived or not; it ends the order exactly if nothing runs and the position is known or not needed |
| MissionEffects.ErrorReported | jazzy_ws/src/isaac_ros_cloud_control/isaac_ros_vda5050_client/src/vda5050_client_node.cpp:242-246 | an error comes after those there are, with its level, and nothing else changes |
| MissionEffects.Answered | jazzy_ws/src/isaac_ros_cloud_control/isaac_ros_vda5050_client/src/vda5050_client_node.cpp:830-849 | a refused goal is a fatal error and ends the order; an accepted one is driven |
| MissionEffects.BadResult | jazzy_ws/src/isaac_ros_cloud_control/isaac_ros_vda5050_client/src/vda5050_client_node.cpp:878-906 | an aborted goal is a fatal error; a canceled one is exactly when no teleoperation or pause_order is on and no cancel or pause is pending; the statuses, the mode and the order stay |
| MissionEffects.SequenceIdLags | jazzy_ws/src/isaac_ros_cloud_control/isaac_ros_vda5050_client/src/vda5050_client_node.cpp:856-860 | the sequence id reported is that of the node reached after feedback and success; finding: a new order leaves the old one |
| MissionEffects.NoServerStrands | jazzy_ws/src/isaac_ros_cloud_control/isaac_ros_vda5050_client/src/vda5050_client_node.cpp:400-426 | a tick that would leave the node sends a goal, or retries at the same node if the lifecycle check fails; finding: if the navigation server is not there it leaves the node without a goal, and no later tick does anything in any surroundings |
| MissionInterruptions.MessageFaultsIff | jazzy_ws/src/isaac_ros_cloud_control/isaac_ros_vda5050_client/src/vda5050_client_node.cpp:629-663 | finding: a message of instant actions breaks the client exactly when two of its actions are new and have different ids, because the second one releases a lock that is already open, or when its first new action is a pause that breaks by itself |
| MissionLiveness.EveryStepProgresses | jazzy_ws/src/isaac_ros_cloud_control/isaac_ros_vda5050_client/src/vda5050_client_node.cpp:248-374 | with a benign environment the work left (route, goal, actions to start, actions to end) never grows, shrinks whenever the navigation server answers and whenever a tick finds nothing running and no goal outstanding, and while it does not shrink running actions stay running |
| MissionLiveness.ScheduleProgress | jazzy_ws/src/isaac_ros_cloud_control/isaac_ros_vda5050_client/src/vda5050_client_node.cpp:302-372 | a tick either leaves less to do or changes nothing, and the latter only while an action runs or a goal is outstanding: the scheduler is never stuck |
| MissionLiveness.EveryOrderIsCarriedOut | jazzy_ws/src/isaac_ros_cloud_control/isaac_ros_vda5050_client/src/vda5050_client_node.cpp:248-374 | order termination: in every unending fair behaviour that nothing disturbs, an accepted order ends with the client idle, all actions executed in route order, every HARD and SOFT one over, and goals that tile the route |
| MissionLiveness.AcceptedIsCalm | jazzy_ws/src/isaac_ros_cloud_control/isaac_ros_vda5050_client/src/vda5050_client_node.cpp:504-573 | an order accepted with no request pending starts undisturbed operation |
| MissionAnswers.EnduringStepWanes | jazzy_ws/src/isaac_ros_cloud_control/isaac_ros_vda5050_client/src/vda5050_client_node.cpp:240-374 | in every callback short of a fault, a new order, stopPause and stopTeleop, whatever else the environment does, the route, goal and actions left never grow; they shrink when the navigation server answers, and while they do not, running actions stay running; requests stay pending or are answered, and a tick that finds nothing running and no goal in progress answers them |
| MissionAnswers.EveryRequestIsAnswered | jazzy_ws/src/isaac_ros_cloud_control/isaac_ros_vda5050_client/src/vda5050_client_node.cpp:250-255 | cancel and pause terminate: in every unending behaviour of allowed callbacks with no fault, no new order and no restart, with other instant actions, errors, refused, canceled and lost goals at will, if the timer ticks, goals in progress end and actions end, every pending cancel is finished (idle, every action over, no goal in progress) and every pending pause is answered by a client that does not run, however many goals are sent meanwhile |
| MissionClients.Vda5050Client.constructor | jazzy_ws/src/isaac_ros_cloud_control/isaac_ros_vda5050_client/src/vda5050_client_node.cpp:57-187 | the client starts idle with no order |
| MissionClients.Vda5050Client.ExecuteOrderCallback | jazzy_ws/src/isaac_ros_cloud_control/isaac_ros_vda5050_client/src/vda5050_client_node.cpp:248-374 | the whole new state of a tick: cancel, then pause, then the scheduler, stopping where the program would crash |
| MissionClients.Vda5050Client.ScheduleNode | jazzy_ws/src/isaac_ros_cloud_control/isaac_ros_vda5050_client/src/vda5050_client_node.cpp:281-374 | the whole new state of the scheduling half: fatal error, pass over the node, end of the order or next goal |
| MissionClients.Vda5050Client.ScanNode | jazzy_ws/src/isaac_ros_cloud_control/isaac_ros_vda5050_client/src/vda5050_client_node.cpp:303-359 | the loop over the node's actions, with its two flags, equals the pass whose safety is proved above |
| MissionClients.Vda5050Client.ExecuteAction | jazzy_ws/src/isaac_ros_cloud_control/isaac_ros_vda5050_client/src/vda5050_client_node.cpp:482-502 | the started action, its handler's answer or its absence, and pause_order |
| MissionClients.Vda5050Client.CollectPoses | jazzy_ws/src/isaac_ros_cloud_control/isaac_ros_vda5050_client/src/vda5050_client_node.cpp:434-459 | the loop collects exactly the nodes of the goal and finds the stop at its end |
| MissionClients.Vda5050Client.NavigateThroughPoses | jazzy_ws/src/isaac_ros_cloud_control/isaac_ros_vda5050_client/src/vda5050_client_node.cpp:398-480 | the whole new state: retry if the lifecycle check fails, nothing without a server, otherwise one goal requested |
| MissionClients.Vda5050Client.CancelOrder | jazzy_ws/src/isaac_ros_cloud_control/isaac_ros_vda5050_client/src/vda5050_client_node.cpp:726-783 | the whole new state of one evaluation of a cancel |
| MissionClients.Vda5050Client.CancelOrderActions | jazzy_ws/src/isaac_ros_cloud_control/isaac_ros_vda5050_client/src/vda5050_client_node.cpp:753-773 | the loop over the order's actions equals the sweep |
| MissionClients.Vda5050Client.CancelOne | jazzy_ws/src/isaac_ros_cloud_control/isaac_ros_vda5050_client/src/vda5050_client_node.cpp:763-771 | a running action's handler is told once |
| MissionClients.Vda5050Client.PauseOrder | jazzy_ws/src/isaac_ros_cloud_control/isaac_ros_vda5050_client/src/vda5050_client_node.cpp:1016-1061 | the whole new state of one evaluation of a pause |
| MissionClients.Vda5050Client.PauseOrderActions | jazzy_ws/src/isaac_ros_cloud_control/isaac_ros_vda5050_client/src/vda5050_client_node.cpp:1038-1053 | the loop that tells handlers to pause |
| MissionClients.Vda5050Client.ResumeOrder | jazzy_ws/src/isaac_ros_cloud_control/isaac_ros_vda5050_client/src/vda5050_client_node.cpp:1063-1086 | the whole new state of a resume |
| MissionClients.Vda5050Client.AcceptsOrder | jazzy_ws/src/isaac_ros_cloud_control/isaac_ros_vda5050_client/src/vda5050_client_node.cpp:975-1014 | whether an order may be taken now, and the new state |
| MissionClients.Vda5050Client.InitOrder | jazzy_ws/src/isaac_ros_cloud_control/isaac_ros_vda5050_client/src/vda5050_client_node.cpp:504-573 | the node and action states of a new order, built by erasing and inserting in place |
| MissionClients.Vda5050Client.AddOrderStates | jazzy_ws/src/isaac_ros_cloud_control/isaac_ros_vda5050_client/src/vda5050_client_node.cpp:543-564 | the nested insertion loops yield the order's actions in route order before the carried ones, and all nodes but the first |
| MissionClients.Vda5050Client.DropOldStates | jazzy_ws/src/isaac_ros_cloud_control/isaac_ros_vda5050_client/src/vda5050_client_node.cpp:526-541 | only the unfinished instant actions are carried over |
| MissionClients.Vda5050Client.RemoveEnded | jazzy_ws/src/isaac_ros_cloud_control/isaac_ros_vda5050_client/src/vda5050_client_node.cpp:533-541 | the in-place pass keeps exactly the states not FINISHED or FAILED, in order |
| MissionClients.Vda5050Client.OrderCallback | jazzy_ws/src/isaac_ros_cloud_control/isaac_ros_vda5050_client/src/vda5050_client_node.cpp:575-598 | an order is taken, refused with a warning, or ignored |
| MissionClients.Vda5050Client.InstantActionsCallback | jazzy_ws/src/isaac_ros_cloud_control/isaac_ros_vda5050_client/src/vda5050_client_node.cpp:621-677 | the whole new state after a message of instant actions |
| MissionClients.Vda5050Client.ProcessInstantAction | jazzy_ws/src/isaac_ros_cloud_control/isaac_ros_vda5050_client/src/vda5050_client_node.cpp:652-675 | what each type of instant action does |
| MissionClients.Vda5050Client.TeleopActionHandler | jazzy_ws/src/isaac_ros_cloud_control/isaac_ros_vda5050_client/src/vda5050_client_node.cpp:679-705 | the whole new state of starting and stopping teleoperation |
| MissionClients.Vda5050Client.NavGoalResponseCallback | jazzy_ws/src/isaac_ros_cloud_control/isaac_ros_vda5050_client/src/vda5050_client_node.cpp:830-849 | the whole new state after a goal is accepted or refused |
| MissionClients.Vda5050Client.NavFeedbackCallback | jazzy_ws/src/isaac_ros_cloud_control/isaac_ros_vda5050_client/src/vda5050_client_node.cpp:851-866 | the whole new state after feedback, with the unsigned subtraction |
| MissionClients.Vda5050Client.NavResultCallback | jazzy_ws/src/isaac_ros_cloud_control/isaac_ros_vda5050_client/src/vda5050_client_node.cpp:868-920 | the whole new state after each result code |
| MissionClients.Vda5050Client.DropPassedNodes | jazzy_ws/src/isaac_ros_cloud_control/isaac_ros_vda5050_client/src/vda5050_client_node.cpp:911-914 | erasing from the front leaves exactly the last nodes |
| MissionClients.Vda5050Client.UpdateActionStateById | jazzy_ws/src/isaac_ros_cloud_control/isaac_ros_vda5050_client/src/vda5050_client_node.cpp:785-808 | only the first state with that id changes, and only its status |
| MissionClients.Vda5050Client.GetActionState | jazzy_ws/src/isaac_ros_cloud_control/isaac_ros_vda5050_client/src/vda5050_client_node.cpp:949-958 | the status of the first state with that id, or none |
| MissionClients.Vda5050Client.LookUpAction | jazzy_ws/src/isaac_ros_cloud_control/isaac_ros_vda5050_client/src/vda5050_client_node.cpp:960-972 | the action of the current node with that id, or none where the program throws |
| MissionClients.Vda5050Client.AnyOrderAction | jazzy_ws/src/isaac_ros_cloud_control/isaac_ros_vda5050_client/src/vda5050_client_node.cpp:984-990 | whether some action of the order is running (or waiting) |
| MissionClients.Vda5050Client.OrderValidErrorCallback | jazzy_ws/src/isaac_ros_cloud_control/isaac_ros_vda5050_client/src/vda5050_client_node.cpp:922-931 | a malformed order adds a warning and nothing else |
| MissionClients.Vda5050Client.AddError | jazzy_ws/src/isaac_ros_cloud_control/isaac_ros_vda5050_client/src/vda5050_client_node.cpp:242-246 | an error is appended, whoever calls |
| StreamRounds.RoundComplete | jazzy_ws/src/isaac_ros_common/isaac_common/include/isaac_common/messaging/message_stream_synchronizer.hpp:81-99 | a topic takes part in a round exactly when no other front message is earlier by more than the threshold; the earliest always does |
| StreamRounds.SomeTopicRunsDry | jazzy_ws/src/isaac_ros_common/isaac_common/include/isaac_common/messaging/message_stream_synchronizer.hpp:163-168 | the loop ends, and only when some topic has no message left |
| StreamRounds.PopShrinks | jazzy_ws/src/isaac_ros_common/isaac_common/include/isaac_common/messaging/message_stream_synchronizer.hpp:177-179 | every iteration of the loop removes at least one message |
| StreamRounds.Conserved | jazzy_ws/src/isaac_ros_common/isaac_common/include/isaac_common/messaging/message_stream_synchronizer.hpp:158-181 | per topic, the messages taken by the loop followed by those left are exactly the messages queued before: none lost, duplicated or reordered |
| StreamRounds.RoundsSound | jazzy_ws/src/isaac_ros_common/isaac_common/include/isaac_common/messaging/message_stream_synchronizer.hpp:81-99 | every round is nonempty, takes from distinct topics in increasing order, and its timestamps lie within the threshold of each other |
| StreamRounds.EmittedAreRounds | jazzy_ws/src/isaac_ros_common/isaac_common/include/isaac_common/messaging/message_stream_synchronizer.hpp:173-175 | every callback reports one of the rounds, with at least the required number of messages and its latest timestamp |
| StreamRounds.ReportedExactly | jazzy_ws/src/isaac_ros_common/isaac_common/include/isaac_common/messaging/message_stream_synchronizer.hpp:173-175 | completeness: the callbacks carry exactly the rounds with at least the required number of messages, each once and in order, for any number of topics |
| StreamRounds.FirstRound | jazzy_ws/src/isaac_ros_common/isaac_common/include/isaac_common/messaging/message_stream_synchronizer.hpp:81-99 | the next round takes the front message of exactly the topics whose front no other front precedes by more than the threshold |
| StreamRounds.FullRoundReported | jazzy_ws/src/isaac_ros_common/isaac_common/include/isaac_common/messaging/message_stream_synchronizer.hpp:158-181 | when all front messages are within the threshold of each other and that many suffice, the next pass reports all of them first |
| StreamRounds.ReportedStampsOrdered | jazzy_ws/src/isaac_ros_common/isaac_common/include/isaac_common/messaging/message_stream_synchronizer.hpp:140-156 | with all topics required and streams in time order, the reported timestamps never go back |
| StreamArrivals.RoundsExtend | jazzy_ws/src/isaac_ros_common/isaac_common/include/isaac_common/messaging/message_stream_synchronizer.hpp:158-181 | messages that arrive later only add rounds at the end |
| StreamArrivals.UntriggeredKeepsLatest | jazzy_ws/src/isaac_ros_common/isaac_common/include/isaac_common/messaging/message_buffer.hpp:65-74 | with evictions: as long as no pass is triggered, every topic holds exactly the newest of its messages, in order, as many as there is room for |
| StreamArrivals.PushedIsLatest | jazzy_ws/src/isaac_ros_common/isaac_common/include/isaac_common/messaging/message_buffer.hpp:65-74 | a push drops the oldest message of a full queue and puts the new one last |
| StreamArrivals.FeedIsRounds | jazzy_ws/src/isaac_ros_common/isaac_common/include/isaac_common/messaging/message_stream_synchronizer.hpp:110-118 | a run without evictions, closed by one pass of the loop, takes exactly the rounds of the complete streams |
| StreamArrivals.CallbacksOfStreams | jazzy_ws/src/isaac_ros_common/isaac_common/include/isaac_common/messaging/message_stream_synchronizer.hpp:110-181 | the callbacks of a run are a function of the per-topic streams alone |
| StreamArrivals.InterleavingIndependent | jazzy_ws/src/isaac_ros_common/isaac_common/include/isaac_common/messaging/message_stream_synchronizer.hpp:110-118 | two runs with the same stream per topic fire the same callbacks, whatever the interleaving, the trigger flags and the (large enough) capacities |
| StreamMatching.HopelessIffNotServable | jazzy_ws/src/isaac_ros_common/isaac_common/include/isaac_common/messaging/message_stream_synchronizer.hpp:55-57 | the front message of a topic is in no full match with anything queued or still to come exactly when no window of the threshold's length around it can be served by every topic, from its queue or, if all its queue is earlier, by a message to come |
| StreamMatching.HopelessIffSomeFrontBeyond | jazzy_ws/src/isaac_ros_common/isaac_common/include/isaac_common/messaging/message_stream_synchronizer.hpp:161-162 | a front that is later by more than the threshold suffices for that, and with nothing queued behind the fronts it is necessary |
| StreamMatching.QueuedBehindDecides | jazzy_ws/src/isaac_ros_common/isaac_common/include/isaac_common/messaging/message_stream_synchronizer.hpp:55-57 | with messages queued behind the fronts it is not necessary: a concrete state |
| StreamMatching.EarliestDropIsSound | jazzy_ws/src/isaac_ros_common/isaac_common/include/isaac_common/messaging/message_stream_synchronizer.hpp:170-179 | for any number of topics, the earliest message of an incomplete round is in no full match |
| StreamMatching.TwoTopicDropsAreSound | jazzy_ws/src/isaac_ros_common/isaac_common/include/isaac_common/messaging/message_stream_synchronizer.hpp:55-57 | with two topics every message an incomplete round drops is in no full match |
| StreamMatching.ThreeTopicDropCanLoseAMatch | jazzy_ws/src/isaac_ros_common/isaac_common/include/isaac_common/messaging/message_stream_synchronizer.hpp:55-57 | finding: with three topics the loop can drop a message that a later message would have completed |
| StreamMatching.AtMostGreedy | jazzy_ws/src/isaac_ros_common/isaac_common/include/isaac_common/messaging/message_stream_synchronizer.hpp:158-181 | by exchange, no one-to-one pairing of close messages is larger than the greedy one |
| StreamMatching.GreedyIsPairing | jazzy_ws/src/isaac_ros_common/isaac_common/include/isaac_common/messaging/message_stream_synchronizer.hpp:158-181 | the greedy pairs are themselves such a pairing |
| StreamMatching.LoopIsGreedy | jazzy_ws/src/isaac_ros_common/isaac_common/include/isaac_common/messaging/message_stream_synchronizer.hpp:158-181 | the callbacks for two topics carry, one for one, the greedy pairs |
| StreamMatching.TwoTopicOptimal | jazzy_ws/src/isaac_ros_common/isaac_common/include/isaac_common/messaging/message_stream_synchronizer.hpp:158-181 | once the loop is quiet, the number of callbacks for two time-ordered topics is the greatest size of any one-to-one pairing of all messages received so far |
| StreamSynchronizers.IndicesBeforeThreshold | jazzy_ws/src/isaac_ros_common/isaac_common/include/isaac_common/messaging/message_stream_synchronizer.hpp:81-99 | the two loops compute the indices within the threshold of the minimum, in increasing order |
| StreamSynchronizers.MessageStreamSynchronizer.constructor | jazzy_ws/src/isaac_ros_common/isaac_common/include/isaac_common/messaging/message_stream_synchronizer.hpp:103-108 | one empty buffer per topic |
| StreamSynchronizers.MessageStreamSynchronizer.PeekMessageTimestamps | jazzy_ws/src/isaac_ros_common/isaac_common/include/isaac_common/messaging/message_stream_synchronizer.hpp:126-138 | the front timestamps, or nothing as soon as one topic is empty; rests on the cached timestamp being that of the front message |
| StreamSynchronizers.MessageStreamSynchronizer.TriggerCallbackWithMessages | jazzy_ws/src/isaac_ros_common/isaac_common/include/isaac_common/messaging/message_stream_synchronizer.hpp:140-156 | the callback gets the front messages of the matched topics and their latest timestamp |
| StreamSynchronizers.MessageStreamSynchronizer.PopMatched | jazzy_ws/src/isaac_ros_common/isaac_common/include/isaac_common/messaging/message_stream_synchronizer.hpp:177-179 | each matched topic loses its front message and no other topic changes |
| StreamSynchronizers.MessageStreamSynchronizer.RunRound | jazzy_ws/src/isaac_ros_common/isaac_common/include/isaac_common/messaging/message_stream_synchronizer.hpp:164-179 | one iteration fires and removes exactly one round |
| StreamSynchronizers.MessageStreamSynchronizer.PopBuffersAndTriggerCallback | jazzy_ws/src/isaac_ros_common/isaac_common/include/isaac_common/messaging/message_stream_synchronizer.hpp:158-181 | the loop terminates, fires exactly the callbacks of all rounds and leaves exactly what they leave |
| StreamSynchronizers.MessageStreamSynchronizer.AddMessage | jazzy_ws/src/isaac_ros_common/isaac_common/include/isaac_common/messaging/message_stream_synchronizer.hpp:110-118 | one arrival, with or without a pass of the loop, is one step of a run |
| StreamSynchronizers.MessageStreamSynchronizer.ClearBuffers | jazzy_ws/src/isaac_ros_common/isaac_common/include/isaac_common/messaging/message_stream_synchronizer.hpp:189-195 | all topics are empty |
| MessageBuffers.MessageBuffer.Push | jazzy_ws/src/isaac_ros_common/isaac_common/include/isaac_common/messaging/message_buffer.hpp:65-74 | the message is appended, the oldest one evicted if the queue is full, and the cached timestamp is that of the front message |
| MessageBuffers.MessageBuffer.Pop | jazzy_ws/src/isaac_ros_common/isaac_common/include/isaac_common/messaging/message_buffer.hpp:76-84 | the front message and its timestamp are handed out, the rest stays, and the cache follows |
| MessageBuffers.MessageBuffer.ClearUpto | jazzy_ws/src/isaac_ros_common/isaac_common/include/isaac_common/messaging/message_buffer.hpp:128-132 | exactly the messages stamped later stay; the cached timestamp is right afterwards exactly when the front message survived or nothing did |
| MessageBuffers.MessageBuffer.GetUpto | jazzy_ws/src/isaac_ros_common/isaac_common/include/isaac_common/messaging/message_buffer.hpp:142-152 | the messages stamped within the bounds, in order |
| MessageBuffers.MessageBuffer.ClearAndGetUpto | jazzy_ws/src/isaac_ros_common/isaac_common/include/isaac_common/messaging/message_buffer.hpp:134-140 | finding: what is handed out is all that is removed exactly when nothing removed is stamped before -1 |
| MessageBuffers.MessageBuffer.GetAll | jazzy_ws/src/isaac_ros_common/isaac_common/include/isaac_common/messaging/message_buffer.hpp:154-162 | all messages in order |
| MessageBuffers.BetweenAll | jazzy_ws/src/isaac_ros_common/isaac_common/include/isaac_common/messaging/message_buffer.hpp:134-152 | how many messages the collecting and the removing pass account for together |
| MessageBuffers.BetweenOfSum | jazzy_ws/src/isaac_ros_common/isaac_common/include/isaac_common/messaging/message_buffer.hpp:142-152 | selecting by timestamp goes message by message and keeps the order |
| MessageBuffers.BetweenOfOne | jazzy_ws/src/isaac_ros_common/isaac_common/include/isaac_common/messaging/message_buffer.hpp:142-152 | which single messages are selected |
| KeyCase.SnakeRoundTripIff | jazzy_ws/src/isaac_ros_cloud_control/isaac_ros_mqtt_bridge/isaac_ros_mqtt_bridge/MqttBridgeUtils.py:50-92 | converting to camel or dromedary case and back is the identity exactly on the canonical names: no capitals, no empty word, a letter at the start of each word but the first |
| KeyCase.CamelRoundTripIff | jazzy_ws/src/isaac_ros_cloud_control/isaac_ros_mqtt_bridge/isaac_ros_mqtt_bridge/MqttBridgeUtils.py:50-92 | converting to snake case and back is the identity exactly on names without underscore whose first character the way back leaves alone |
| KeyCase.FailsIff | jazzy_ws/src/isaac_ros_cloud_control/isaac_ros_mqtt_bridge/isaac_ros_mqtt_bridge/MqttBridgeUtils.py:84-92 | the conversion to camel case raises an IndexError exactly on names with an underscore at either end or two in a row |
| KeyCase.CanonicalInjective | jazzy_ws/src/isaac_ros_cloud_control/isaac_ros_mqtt_bridge/isaac_ros_mqtt_bridge/MqttBridgeUtils.py:67-92 | canonical names are converted without error, and different ones to different names |
| KeyCase.ConvertsByCharacter | jazzy_ws/src/isaac_ros_cloud_control/isaac_ros_mqtt_bridge/isaac_ros_mqtt_bridge/MqttBridgeUtils.py:84-92 | splitting, raising and joining is the same as one reading from left to right that drops underscores and raises the character after each |
| KeyCase.SnakeGrows | jazzy_ws/src/isaac_ros_cloud_control/isaac_ros_mqtt_bridge/isaac_ros_mqtt_bridge/MqttBridgeUtils.py:50-64 | the conversion to snake case, one character at a time: a capital that is not first gets an underscore and is lowered, any other character is kept |
| KeyCase.LettersMatch | jazzy_ws/src/isaac_ros_cloud_control/isaac_ros_mqtt_bridge/isaac_ros_mqtt_bridge/MqttBridgeUtils.py:64-91 | the 26 letters are raised and lowered one to one |
| KeyCase.UnhumpHumps | jazzy_ws/src/isaac_ros_cloud_control/isaac_ros_mqtt_bridge/isaac_ros_mqtt_bridge/MqttBridgeUtils.py:50-92 | a word that starts with a letter gets its underscore back, and any other loses it |
| KeyCase.SplitJoins | jazzy_ws/src/isaac_ros_cloud_control/isaac_ros_mqtt_bridge/isaac_ros_mqtt_bridge/MqttBridgeUtils.py:87 | a name is its words with underscores between them |
| KeyCase.ConvertSnakeToCamel | jazzy_ws/src/isaac_ros_cloud_control/isaac_ros_mqtt_bridge/isaac_ros_mqtt_bridge/MqttBridgeUtils.py:67-92 | the loop over the words computes the conversion, or fails at the first empty word |
| JsonKeys.SnakeMessagesComeBackIff | jazzy_ws/src/isaac_ros_cloud_control/isaac_ros_mqtt_bridge/isaac_ros_mqtt_bridge/MqttBridgeUtils.py:95-142 | the deep round trip: to dromedary or camel case and back is the identity on a message exactly when all its keys at all depths are canonical and all items of its lists are dictionaries |
| JsonKeys.CamelMessagesComeBackIff | jazzy_ws/src/isaac_ros_cloud_control/isaac_ros_mqtt_bridge/isaac_ros_mqtt_bridge/MqttBridgeUtils.py:95-142 | the deep round trip from camel case, with the same exactness |
| JsonKeys.RoundTripIff | jazzy_ws/src/isaac_ros_cloud_control/isaac_ros_mqtt_bridge/isaac_ros_mqtt_bridge/MqttBridgeUtils.py:95-142 | for any two converters, a message comes back exactly when every key does and all items of lists are dictionaries |
| JsonKeys.ConvertsIff | jazzy_ws/src/isaac_ros_cloud_control/isaac_ros_mqtt_bridge/isaac_ros_mqtt_bridge/MqttBridgeUtils.py:125-142 | the conversion succeeds exactly when every key it meets can be converted and no two keys of one dictionary become the same; the result is then the image, place by place |
| JsonKeys.ConvertsTo | jazzy_ws/src/isaac_ros_cloud_control/isaac_ros_mqtt_bridge/isaac_ros_mqtt_bridge/MqttBridgeUtils.py:125-142 | the result is characterized by the image relation, which has one solution |
| JsonKeys.OnlyDictsSurvive | jazzy_ws/src/isaac_ros_cloud_control/isaac_ros_mqtt_bridge/isaac_ros_mqtt_bridge/MqttBridgeUtils.py:131-139 | finding: a list item that is not a dictionary is replaced by the whole list, so it never survives a round trip |
| JsonKeys.NumberBecomesList | jazzy_ws/src/isaac_ros_cloud_control/isaac_ros_mqtt_bridge/isaac_ros_mqtt_bridge/MqttBridgeUtils.py:131-139 | a concrete message: a number in a list becomes the list in a list, and does not come back |
| JsonKeys.CanonicalNeverFails | jazzy_ws/src/isaac_ros_cloud_control/isaac_ros_mqtt_bridge/isaac_ros_mqtt_bridge/MqttBridgeUtils.py:140 | with canonical keys at every depth the collision assertion never fires |
| JsonKeys.ConvertDictKeys | jazzy_ws/src/isaac_ros_cloud_control/isaac_ros_mqtt_bridge/isaac_ros_mqtt_bridge/MqttBridgeUtils.py:95-142 | the loop over the entries, with its recursion, computes the conversion or the first error |
| JsonNames.DromedaryByName | jazzy_ws/src/isaac_ros_cloud_control/isaac_ros_mqtt_bridge/isaac_ros_mqtt_bridge/MqttBridgeUtils.py:118-119 | what callers get for every message under snake_to_dromedary: the message with every key, at every depth the conversion reaches, run together with the first letter lowered and each later word raised; or an error, exactly if some key has an empty word or two keys of one dictionary clash |
| JsonNames.CamelByName | jazzy_ws/src/isaac_ros_cloud_control/isaac_ros_mqtt_bridge/isaac_ros_mqtt_bridge/MqttBridgeUtils.py:120-121 | the same under snake_to_camel with the first letter raised |
| JsonNames.SnakeByName | jazzy_ws/src/isaac_ros_cloud_control/isaac_ros_mqtt_bridge/isaac_ros_mqtt_bridge/MqttBridgeUtils.py:122-123 | under camel_to_snake every key is lowered with an underscore before each capital but a first one, or an error exactly if two keys of one dictionary clash |
| JsonNames.RefusedIff | jazzy_ws/src/isaac_ros_cloud_control/isaac_ros_mqtt_bridge/isaac_ros_mqtt_bridge/MqttBridgeUtils.py:124-125 | a name is refused with an AssertionError, whatever the message, exactly if it is none of the three |
| JsonNames.ResultKeys | jazzy_ws/src/isaac_ros_cloud_control/isaac_ros_mqtt_bridge/isaac_ros_mqtt_bridge/MqttBridgeUtils.py:118-142 | no key of the result of camel_to_snake has a capital, and none of the other two an underscore |
| JsonNames.ErrorsByName | jazzy_ws/src/isaac_ros_cloud_control/isaac_ros_mqtt_bridge/isaac_ros_mqtt_bridge/MqttBridgeUtils.py:84-140 | an IndexError means that some key has an empty word, an AssertionError that two keys of one dictionary clash; camel_to_snake raises no IndexError |
| JsonNames.TwoWords | jazzy_ws/src/isaac_ros_cloud_control/isaac_ros_mqtt_bridge/isaac_ros_mqtt_bridge/MqttBridgeUtils.py:118-123 | a concrete message under the three names |
| JsonKeys.ConvertList | jazzy_ws/src/isaac_ros_cloud_control/isaac_ros_mqtt_bridge/isaac_ros_mqtt_bridge/MqttBridgeUtils.py:131-139 | the inner loop over the items of a list |
| GridMaps.ValidIffSquareFree | jazzy_ws/src/navigation/isaac_ros_navigation_goal/isaac_ros_navigation_goal/obstacle_map.py:109-153 | the pose check inspects exactly the world cells [fx-d, fx+d) x [fy-d, fy+d) on the map: the row flip and the half-open slices cancel |
| GridMaps.WrappedIff | jazzy_ws/src/navigation/isaac_ros_navigation_goal/isaac_ros_navigation_goal/obstacle_map.py:145-153 | finding: for points so far off the map that a slice bound is negative, the square holds no cell, yet the pose is refused exactly when there is an obstacle in the square with its edge moved by the size of the map |
| GridMaps.FarOffRefused | jazzy_ws/src/navigation/isaac_ros_navigation_goal/isaac_ros_navigation_goal/obstacle_map.py:145-153 | a concrete point that is refused although the only obstacle is twice the distance away |
| GridMaps.NearbyIsNotWrapped | jazzy_ws/src/navigation/isaac_ros_navigation_goal/isaac_ros_navigation_goal/obstacle_map.py:145-151 | for points on the map, or off it to the left or above by at most the distance, no bound is counted from the other side |
| GridMaps.ClearanceBounds | jazzy_ws/src/navigation/isaac_ros_navigation_goal/isaac_ros_navigation_goal/obstacle_map.py:155-172 | an accepted pose is further from every obstacle than distance minus resolution; a refused one has an obstacle nearer than distance plus resolution |
| GridMaps.KeepsDistanceIff | jazzy_ws/src/navigation/isaac_ros_navigation_goal/isaac_ros_navigation_goal/obstacle_map.py:155-172 | finding: accepted poses need not keep the distance; all maps with a given resolution and origin keep it for a point, anywhere in the plane, exactly when the point is at least the distance to the left of or below them, or the square reaches at least the distance to the right and above |
| GridMaps.NextCellAccepted | jazzy_ws/src/navigation/isaac_ros_navigation_goal/isaac_ros_navigation_goal/obstacle_map.py:155-172 | a concrete point accepted at distance one with an obstacle at half that |
| GridMaps.WhereIff | jazzy_ws/src/navigation/isaac_ros_navigation_goal/isaac_ros_navigation_goal/obstacle_map.py:53-57 | the pixels listed as obstacles are exactly those darker than the threshold, or brighter with negate, in numbers |
| GridMaps.BlackAndWhite | jazzy_ws/src/navigation/isaac_ros_navigation_goal/isaac_ros_navigation_goal/obstacle_map.py:53-57 | black is an obstacle and white is free, and the reverse with negate, for every threshold from 0 to below 1 |
| GridMaps.DarkeningFreesNothing | jazzy_ws/src/navigation/isaac_ros_navigation_goal/isaac_ros_navigation_goal/obstacle_map.py:53-57 | darkening an image frees no cell without negate, and occupies none with it |
| GridMaps.NegateIsNegative | jazzy_ws/src/navigation/isaac_ros_navigation_goal/isaac_ros_navigation_goal/obstacle_map.py:53-57 | the negate flag amounts to taking the negative of the image |
| GridMaps.BoundsAreTheMap | jazzy_ws/src/navigation/isaac_ros_navigation_goal/isaac_ros_navigation_goal/obstacle_map.py:64-73 | the points between the bounds are exactly those that fall into a cell of the map |
| GridMaps.GridMap.constructor | jazzy_ws/src/navigation/isaac_ros_navigation_goal/isaac_ros_navigation_goal/obstacle_map.py:44-62 | the grid filled in place is occupied exactly at the pixels darker (with negate, brighter) than the threshold, in numbers |
| GridMaps.GridMap.IsObstacleInDistance | jazzy_ws/src/navigation/isaac_ros_navigation_goal/isaac_ros_navigation_goal/obstacle_map.py:131-153 | the patch holds an obstacle |
| GridMaps.GridMap.IsValidPose | jazzy_ws/src/navigation/isaac_ros_navigation_goal/isaac_ros_navigation_goal/obstacle_map.py:155-172 | the object's answer is that of the check proved above |
| GoalGenerators.RandomGoalGenerator.GenerateGoal | jazzy_ws/src/navigation/isaac_ros_navigation_goal/isaac_ros_navigation_goal/goal_generators/random_goal_generator.py:46-58 | within the trial limit the first accepted sample is returned, nothing exactly when there is none; a returned goal is on the map and further from every obstacle than distance minus resolution |
| GoalGenerators.AcceptedIsClear | jazzy_ws/src/navigation/isaac_ros_navigation_goal/isaac_ros_navigation_goal/goal_generators/random_goal_generator.py:46-58 | any accepted sample is on the map and clear of obstacles by that bound |
| GoalGenerators.SamplesCoverTheRange | jazzy_ws/src/navigation/isaac_ros_navigation_goal/isaac_ros_navigation_goal/goal_generators/random_goal_generator.py:46-53 | every point of the map in every orientation is the sample of exactly one draw, and larger draws give larger coordinates, each its own |

## Left out

- MissionRuns.StepKeepsInv: leaves out an abort at a node other than 1, an order taken, a pause resumed or teleoperation stopped while a goal is outstanding, and teleoperation without an order in progress, because the invariant is false after each of them and after no other (`StepKeepsInvIff`); all of them are modelled, and what follows is in `MissionResuming`, `MissionInterruptions` and `MissionMisled`.
- MissionRuns.RunKeepsInv: the same callbacks are left out of whole runs.
- MissionRuns.ReachableInv: states after one of these callbacks are not among the reachable ones.
- MissionRuns.ReachableStep: extends runs by allowed callbacks only, in the same sense.
- MissionRuns.StepKeepsInvIff: takes messages with one new instant action; of several new ones only the first is carried out, and the client then breaks (`MessageFaultsIff`).
- MissionStarting.TickStartsExactly: takes ticks with no cancel pending; with one, nothing starts (`CancelIsSafe`).
- MissionEffects.NoServerStrands: takes ticks with no request pending; what may still move the client is a message (stopPause after a pause, stopTeleop, cancelOrder) or an error.
- MissionAnswers.EveryRequestIsAnswered: takes no new order, stopPause or stopTeleop while the request is pending; a restart sets the route back, and the case of a fault is `CancelFaultsIff`, `PauseFaultsIff` and `MessageFaultsIff`.
- MissionResuming.ReachedTickIff: is about ticks with no request pending; with requests pending see `CancelDrivesOnIff` and `CancelAndPauseDriveOnIff`.
- MissionInterruptions.OldGoalBreaksNewOrderIff: is about feedback before the first tick of the new order; afterwards the next stop may be further on, and `FeedbackWrapsIff` applies.
- MissionInterruptions.ResumedWhileDriving: likewise, before the next tick.
- MissionTheorems.HardRunsAlone: is per node, because the scheduler looks at the current node's actions only; a NONE action of an earlier node may overlap a HARD one of a later node.
- MissionTheorems.CompletedMeansAllDone: says of a single state what being cut short means; that only a cancel does that is a statement about runs, `MissionHistory.CompletedWithoutCancel`.
- MissionLiveness.EveryOrderIsCarriedOut: takes no instant actions during the order; a `pause_order` action ends only through stopTeleop in the program, so for it the fairness assumption is one about the operator.
- MissionInterruptions.LostGoalEndsOrderIff: is about goals canceled from outside with no cancel or pause pending; a refused goal ends the order at once.
- JsonKeys.SnakeMessagesComeBackIff: case mapping is that of ASCII letters; other characters are left alone.
- GridMaps.GridMap.GetRange: the rounding of max_x and max_y to two decimals is not modelled; samples it lets fall outside are still covered by `NearbyIsNotWrapped` when the distance is at least half a centimetre.
- GridMaps.ClearanceBounds: coordinates are exact reals, without floating-point rounding, and the resolution is positive.
- MessageBuffers.MessageBuffer.Push: capacity is at least one; timestamps and the threshold are unbounded integers, the threshold not negative.
- Interleaving independence and two-topic optimality assume that no message is evicted; what a full buffer evicts is stated by `Push` and `UntriggeredKeepsLatest`.
- Poses, orientation, battery, velocity, factsheet contents, result descriptions, information entries and safety fields: copied through, with no decision on them.
- The width of number_of_poses_remaining: a natural number, at most 2^64, subtracted as size_t.
- `last_node_sequence_id`: it is not reset by a new order, so the progress report is stated for the node id and the node states only.
- Updates by handler threads in the middle of a callback: they are steps between callbacks here. What a handler does before Execute or Cancel returns is a status chosen by the environment. Handlers that pause actions do not occur in the repository.
- Publishing, logging, ROS parameters, plugin loading, MQTT, TF and the image and YAML files: input and output only.
- Plugin handlers, the JSON info generator, the scene recorder, node monitors, launch files, neural-network policies and loaders: calls to external systems, with little to prove.
- PeekNextMessage, Size and the timestamp getters: they return a field.
- The counter of ConnectionMessage: it only numbers messages.
