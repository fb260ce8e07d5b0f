/** Concrete runs that show the findings: states that the client reaches, and what it does there. */
module MissionExample {
  import opened Options
  import opened MissionTypes
  import opened MissionSpec
  import opened MissionViews
  import opened MissionInvariant
  import opened MissionRuns
  import opened MissionRequests
  import opened MissionInterruptions

  const MUSIC: Action := Action(ActionId("music"), Custom("play"), NONE)

  const ROUTE: seq<Node> := [Node("A", 0, 0.5, [MUSIC]), Node("B", 2, 0.5, [])]

  const ORDER: Order := Order("order", ROUTE)

  const CONFIG: Config := Config(true, false, {Custom("play")})

  const WORLD: Surroundings := Surroundings(true, true, true, map[], {})

  const CANCEL: Action := Action(ActionId("cancel"), CancelOrder, HARD)

  const PLAYING: ActionState := ActionState(MUSIC.id, RUNNING)

  function Requested(cancel: Option<ActionId>): Requests {
    Requests(cancel, None, {}, {}, false, NO_ID)
  }

  /** The order has just been accepted. */
  function Accepted(): Client {
    Client(Running, Some(ORDER), Progress(0, 0, true, 1),
           AGVState([ActionState(MUSIC.id, WAITING)], [NodeState("B", 2)], "A", 0, false, []),
           Navigation(false, false), Requested(None), [], false)
  }

  function Sent(): seq<Call> {
    [Start(MUSIC.id), SendGoal([1])]
  }

  /** One tick later the music plays and a goal has been requested. */
  function Departing(): Client {
    Client(Running, Some(ORDER), Progress(0, 1, false, 1),
           AGVState([PLAYING], [NodeState("B", 2)], "A", 0, true, []),
           Navigation(true, false), Requested(None), Sent(), false)
  }

  function Driving(): Client {
    Departing().(nav := Navigation(false, true))
  }

  function Arrived(): Client {
    Client(Running, Some(ORDER), Progress(1, 1, true, 1),
           AGVState([PLAYING], [], "B", 2, false, []),
           Navigation(false, false), Requested(None), Sent(), false)
  }

  function Canceling(): Client {
    Client(Running, Some(ORDER), Progress(1, 1, true, 1),
           AGVState([PLAYING, ActionState(CANCEL.id, WAITING)], [], "B", 2, false, []),
           Navigation(false, false), Requested(Some(CANCEL.id)), Sent(), false)
  }

  lemma FlatRoute()
    ensures Flat(ROUTE) == [MUSIC]
  {
    assert ROUTE[..1] == [ROUTE[0]] && ROUTE[..1][..0] == [];
    assert Flat(ROUTE[..1]) == [MUSIC];
  }

  lemma AcceptStep()
    ensures Allowed(Initial(), OrderMsg(ORDER)) && Step(CONFIG, Initial(), OrderMsg(ORDER)) == Accepted()
  {
    FlatRoute();
    var none: seq<ActionState> := [];
    assert Carried(Initial()) == none;
    assert Fresh(Flat(ROUTE)) + none == [ActionState(MUSIC.id, WAITING)];
    assert StatesOf(ROUTE)[1..] == [NodeState("B", 2)];
  }

  lemma TickStep()
    ensures Allowed(Accepted(), Tick(WORLD)) && Step(CONFIG, Accepted(), Tick(WORLD)) == Departing()
  {
    var c := Accepted();
    var d := ExecuteAction(CONFIG, c, MUSIC, WORLD.outcome);
    assert d.agv.actionStates == [PLAYING] && d.calls == [Start(MUSIC.id)];
    assert Scan(CONFIG, c, ROUTE[0].actions, 0, false, false, WORLD.outcome) == (d, true);
    assert GoalEnd(ROUTE, 1) == 1 && Span(1, 2) == [1];
  }

  lemma DriveSteps()
    ensures Allowed(Departing(), GoalResponse(true)) && Step(CONFIG, Departing(), GoalResponse(true)) == Driving()
    ensures Allowed(Driving(), GoalResult(Succeeded)) && Step(CONFIG, Driving(), GoalResult(Succeeded)) == Arrived()
  {
    assert Trim([NodeState("B", 2)], 0) == [];
  }

  lemma CancelStep()
    ensures Allowed(Arrived(), InstantMsg([CANCEL], map[]))
            && Step(CONFIG, Arrived(), InstantMsg([CANCEL], map[])) == Canceling()
  {
    var c, d := Arrived(), Canceling();
    assert IndexOf(c.agv.actionStates, CANCEL.id) == 1;
    assert c.agv.actionStates + [ActionState(CANCEL.id, WAITING)] == d.agv.actionStates;
    var e := c.(agv := c.agv.(actionStates := d.agv.actionStates));
    assert InstantAction(CONFIG, e, CANCEL, map[]) == d;
    assert InstantActions(CONFIG, d, [CANCEL], 1, false, map[]) == d;
  }

  // ----- On the way -----

  lemma DepartingIsReachable()
    ensures Reachable(CONFIG, Departing())
  {
    hide Step, Allowed, Reachable;
    StartIsReachable();
    AcceptStep();
    ReachableStep(CONFIG, Initial(), OrderMsg(ORDER));
    TickStep();
    ReachableStep(CONFIG, Accepted(), Tick(WORLD));
  }

  lemma DrivingIsReachable()
    ensures Reachable(CONFIG, Driving()) && Reachable(CONFIG, Arrived())
  {
    hide Step, Allowed, Reachable;
    DepartingIsReachable();
    DriveSteps();
    ReachableStep(CONFIG, Departing(), GoalResponse(true));
    ReachableStep(CONFIG, Driving(), GoalResult(Succeeded));
  }

  /** A cancel breaks the client: an action that may overlap driving is still running when the robot
      has moved on to the next node. */
  lemma CancelCanBreak()
    ensures Reachable(CONFIG, Canceling()) && !Canceling().fault
    ensures Allowed(Canceling(), Tick(WORLD)) && Step(CONFIG, Canceling(), Tick(WORLD)).fault
  {
    hide Step, Allowed, Inv, ExecuteOrder, Reachable;
    DrivingIsReachable();
    CancelStep();
    ReachableStep(CONFIG, Arrived(), InstantMsg([CANCEL], map[]));
    Breaks();
  }

  lemma StartIsReachable()
    ensures Reachable(CONFIG, Initial())
  {
    var none: seq<Event> := [];
    assert AllowedRun(CONFIG, Initial(), none) && Run(CONFIG, Initial(), none) == Initial();
  }

  lemma Breaks()
    ensures Allowed(Canceling(), Tick(WORLD)) && Step(CONFIG, Canceling(), Tick(WORLD)).fault
  {
    var c := Canceling();
    var d := FirstEvaluation(c, CANCEL.id);
    assert IndexOf(c.agv.actionStates, CANCEL.id) == 1;
    assert d.agv.actionStates == [PLAYING, ActionState(CANCEL.id, RUNNING)];
    assert GetAction(d, MUSIC.id).None?;
    assert CancelRunning(CONFIG, d, MUSIC.id, {}).fault;
  }

  // ----- Driving on with a cancel pending -----

  const BEEP: Action := Action(ActionId("beep"), Custom("play"), SOFT)

  const TUNE: seq<Node> := [Node("A", 0, 0.5, [MUSIC, BEEP]), Node("B", 2, 0.5, [])]

  /** At the first node of the second route, with the given action states and requests. */
  function AtFirst(music: Status, beep: Status, more: seq<ActionState>, cancel: Option<ActionId>,
                   calls: seq<Call>): Client {
    Client(Running, Some(Order("order", TUNE)), Progress(0, 0, true, 2),
           AGVState([ActionState(MUSIC.id, music), ActionState(BEEP.id, beep)] + more, [NodeState("B", 2)], "A", 0,
                    false, []),
           Navigation(false, false), Requested(cancel), calls, false)
  }

  function Begun(): seq<Call> {
    [Start(MUSIC.id), Start(BEEP.id)]
  }

  function CancelPending(): Client {
    AtFirst(RUNNING, FINISHED, [ActionState(CANCEL.id, WAITING)], Some(CANCEL.id), Begun())
  }

  lemma FlatTune()
    ensures Flat(TUNE) == [MUSIC, BEEP]
  {
    assert TUNE[..1] == [TUNE[0]] && TUNE[..1][..0] == [];
    assert Flat(TUNE[..1]) == [MUSIC, BEEP];
  }

  lemma AcceptTune()
    ensures Allowed(Initial(), OrderMsg(Order("order", TUNE)))
    ensures Step(CONFIG, Initial(), OrderMsg(Order("order", TUNE))) == AtFirst(WAITING, WAITING, [], None, [])
  {
    FlatTune();
    var none: seq<ActionState> := [];
    assert Carried(Initial()) == none;
    assert Fresh(Flat(TUNE)) + none == AtFirst(WAITING, WAITING, [], None, []).agv.actionStates;
    assert StatesOf(TUNE)[1..] == [NodeState("B", 2)];
  }

  lemma BeginTune()
    ensures Allowed(AtFirst(WAITING, WAITING, [], None, []), Tick(WORLD))
    ensures Step(CONFIG, AtFirst(WAITING, WAITING, [], None, []), Tick(WORLD))
            == AtFirst(RUNNING, RUNNING, [], None, Begun())
  {
    var c := AtFirst(WAITING, WAITING, [], None, []);
    var d := ExecuteAction(CONFIG, c, MUSIC, WORLD.outcome);
    assert d.agv.actionStates == [PLAYING, ActionState(BEEP.id, WAITING)] && d.calls == [Start(MUSIC.id)];
    assert IndexOf(d.agv.actionStates, BEEP.id) == 1;
    var e := ExecuteAction(CONFIG, d, BEEP, WORLD.outcome);
    assert e.agv.actionStates == [PLAYING, ActionState(BEEP.id, RUNNING)] && e.calls == Begun();
    assert e == AtFirst(RUNNING, RUNNING, [], None, Begun());
    assert Scan(CONFIG, e, TUNE[0].actions, 2, true, true, WORLD.outcome) == (e, false);
    assert Scan(CONFIG, d, TUNE[0].actions, 1, false, true, WORLD.outcome) == (e, false);
    assert Scan(CONFIG, c, TUNE[0].actions, 0, false, false, WORLD.outcome) == (e, false);
  }

  lemma FinishBeep()
    ensures Allowed(AtFirst(RUNNING, RUNNING, [], None, Begun()), HandlerUpdate(BEEP.id, FINISHED))
    ensures Step(CONFIG, AtFirst(RUNNING, RUNNING, [], None, Begun()), HandlerUpdate(BEEP.id, FINISHED))
         == AtFirst(RUNNING, FINISHED, [], None, Begun())
  {
    var c := AtFirst(RUNNING, RUNNING, [], None, Begun());
    assert IndexOf(c.agv.actionStates, BEEP.id) == 1;
    assert Update(c, BEEP.id, FINISHED).agv.actionStates
           == AtFirst(RUNNING, FINISHED, [], None, Begun()).agv.actionStates;
  }

  lemma CancelTune()
    ensures Allowed(AtFirst(RUNNING, FINISHED, [], None, Begun()), InstantMsg([CANCEL], map[]))
    ensures Step(CONFIG, AtFirst(RUNNING, FINISHED, [], None, Begun()), InstantMsg([CANCEL], map[])) == CancelPending()
  {
    var c, d := AtFirst(RUNNING, FINISHED, [], None, Begun()), CancelPending();
    assert IndexOf(c.agv.actionStates, CANCEL.id) == 2;
    assert c.agv.actionStates + [ActionState(CANCEL.id, WAITING)] == d.agv.actionStates;
    var e := c.(agv := c.agv.(actionStates := d.agv.actionStates));
    assert InstantAction(CONFIG, e, CANCEL, map[]) == d;
    assert InstantActions(CONFIG, d, [CANCEL], 1, false, map[]) == d;
  }

  /** The state is reachable, nothing of it is broken, and its next tick sends a goal. */
  lemma CancelCanDriveOn()
    ensures Reachable(CONFIG, CancelPending()) && CancelPending().req.cancelAction.Some?
    ensures Allowed(CancelPending(), Tick(WORLD))
    ensures GoalsSent(ExecuteOrder(CONFIG, CancelPending(), WORLD).calls) != GoalsSent(CancelPending().calls)
  {
    hide Step, Inv, ExecuteOrder, Reachable;
    StartIsReachable();
    AcceptTune();
    ReachableStep(CONFIG, Initial(), OrderMsg(Order("order", TUNE)));
    BeginTune();
    ReachableStep(CONFIG, AtFirst(WAITING, WAITING, [], None, []), Tick(WORLD));
    FinishBeep();
    ReachableStep(CONFIG, AtFirst(RUNNING, RUNNING, [], None, Begun()), HandlerUpdate(BEEP.id, FINISHED));
    CancelTune();
    ReachableStep(CONFIG, AtFirst(RUNNING, FINISHED, [], None, Begun()), InstantMsg([CANCEL], map[]));
    ReachableInv(CONFIG, CancelPending());
    RunningHere(CancelPending());
    NothingInTheWay();
    CancelDrivesOnIff(CONFIG, CancelPending(), WORLD);
  }

  lemma NothingInTheWay()
    requires HasOrder(CancelPending())
    ensures SomeRunning(CancelPending()) && NoneBlocksBut(CONFIG, CancelPending(), {})
    ensures !exists j: nat :: LeftBehind(CancelPending(), CancelPending().req.canceledIds, j)
  {
    var c := CancelPending();
    var v := ViewOf(c);
    assert v.status[0] == c.agv.actionStates[0].status && v.status[1] == c.agv.actionStates[1].status;
    hide ViewOf, HasOrder;
    assert Offset(TUNE, 0) == 0;
  }

  // ----- Driving on although the cancel stops the action that blocks -----

  const WORK: Action := Action(ActionId("work"), Custom("play"), HARD)

  const SHIFT: seq<Node> := [Node("A", 0, 0.5, [WORK]), Node("B", 2, 0.5, [])]

  /** Its handler stops at once when told to cancel. */
  const OBEYED: Surroundings := Surroundings(true, true, true, map[], {WORK.id})

  function AtWork(work: Status, more: seq<ActionState>, cancel: Option<ActionId>, calls: seq<Call>): Client {
    Client(Running, Some(Order("order", SHIFT)), Progress(0, 0, true, 1),
           AGVState([ActionState(WORK.id, work)] + more, [NodeState("B", 2)], "A", 0, false, []),
           Navigation(false, false), Requested(cancel), calls, false)
  }

  function Interrupting(): Client {
    AtWork(RUNNING, [ActionState(CANCEL.id, WAITING)], Some(CANCEL.id), [Start(WORK.id)])
  }

  lemma FlatShift()
    ensures Flat(SHIFT) == [WORK]
  {
    assert SHIFT[..1] == [SHIFT[0]] && SHIFT[..1][..0] == [];
    assert Flat(SHIFT[..1]) == [WORK];
  }

  lemma AcceptShift()
    ensures Allowed(Initial(), OrderMsg(Order("order", SHIFT)))
    ensures Step(CONFIG, Initial(), OrderMsg(Order("order", SHIFT))) == AtWork(WAITING, [], None, [])
  {
    FlatShift();
    var none: seq<ActionState> := [];
    assert Carried(Initial()) == none;
    assert Fresh(Flat(SHIFT)) + none == AtWork(WAITING, [], None, []).agv.actionStates;
    assert StatesOf(SHIFT)[1..] == [NodeState("B", 2)];
  }

  lemma BeginShift()
    ensures Step(CONFIG, AtWork(WAITING, [], None, []), Tick(WORLD)) == AtWork(RUNNING, [], None, [Start(WORK.id)])
  {
    var c, d := AtWork(WAITING, [], None, []), AtWork(RUNNING, [], None, [Start(WORK.id)]);
    var e := ExecuteAction(CONFIG, c, WORK, WORLD.outcome);
    assert e.agv.actionStates == d.agv.actionStates && e.calls == d.calls;
    assert Scan(CONFIG, c, SHIFT[0].actions, 0, false, false, WORLD.outcome) == (d, false);
  }

  lemma CancelShift()
    ensures Step(CONFIG, AtWork(RUNNING, [], None, [Start(WORK.id)]), InstantMsg([CANCEL], map[])) == Interrupting()
  {
    CancelComes(AtWork(RUNNING, [], None, [Start(WORK.id)]), Interrupting());
  }

  /** A cancel message in a state that has not seen its id. */
  lemma CancelComes(c: Client, d: Client)
    requires !c.fault && c.req.cancelAction.None? && IndexOf(c.agv.actionStates, CANCEL.id) == |c.agv.actionStates|
    requires d == c.(agv := d.agv, req := d.req)
    requires d.agv == c.agv.(actionStates := d.agv.actionStates)
             && d.agv.actionStates == c.agv.actionStates + [ActionState(CANCEL.id, WAITING)]
    requires d.req == c.req.(cancelAction := Some(CANCEL.id))
    ensures Step(CONFIG, c, InstantMsg([CANCEL], map[])) == d
  {
    var e := c.(agv := c.agv.(actionStates := d.agv.actionStates));
    assert InstantAction(CONFIG, e, CANCEL, map[]) == d;
    assert InstantActions(CONFIG, d, [CANCEL], 1, false, map[]) == d;
  }

  lemma WorkStopsAtOnce()
    requires HasOrder(Interrupting())
    ensures SomeRunning(Interrupting()) && NoneBlocksBut(CONFIG, Interrupting(), {WORK.id})
    ensures !NoneBlocksFrom(Interrupting(), 0)
    ensures !exists j: nat :: LeftBehind(Interrupting(), Interrupting().req.canceledIds, j)
  {
    FlatShift();
    var c := Interrupting();
    var v := ViewOf(c);
    assert v.status[0] == c.agv.actionStates[0].status;
    hide ViewOf, HasOrder;
    assert Offset(SHIFT, 0) == 0;
    assert SHIFT[0].actions[0].Blocks();
  }

  /** The next tick fails the HARD action that is running, leaves the cancel pending, and sends a goal. */
  lemma InterruptedCancelDrivesOn()
    ensures Reachable(CONFIG, Interrupting()) && Interrupting().req.cancelAction.Some?
    ensures GoalsSent(ExecuteOrder(CONFIG, Interrupting(), OBEYED).calls) != GoalsSent(Interrupting().calls)
  {
    hide Step, Inv, ExecuteOrder, Reachable;
    StartIsReachable();
    AcceptShift();
    ReachableStep(CONFIG, Initial(), OrderMsg(Order("order", SHIFT)));
    BeginShift();
    ReachableStep(CONFIG, AtWork(WAITING, [], None, []), Tick(WORLD));
    CancelShift();
    ReachableStep(CONFIG, AtWork(RUNNING, [], None, [Start(WORK.id)]), InstantMsg([CANCEL], map[]));
    ReachableInv(CONFIG, Interrupting());
    RunningHere(Interrupting());
    WorkStopsAtOnce();
    CancelDrivesOnIff(CONFIG, Interrupting(), OBEYED);
  }

  // ----- Errors while driving -----

  function WithMusic(c: Client, music: Status): Client {
    c.(agv := c.agv.(actionStates := [ActionState(MUSIC.id, music)]))
  }

  lemma MusicEnds(c: Client, music: Status)
    requires !c.fault && c.agv.actionStates == [PLAYING] && c.order == Some(ORDER) && Starts(c.calls) == [MUSIC.id]
             && c.req == Requested(None)
    requires music.Ended()
    ensures Allowed(c, HandlerUpdate(MUSIC.id, music))
            && Step(CONFIG, c, HandlerUpdate(MUSIC.id, music)) == WithMusic(c, music)
  {
    assert IndexOf(c.agv.actionStates, MUSIC.id) == 0;
  }

  lemma OneStart()
    ensures Starts(Sent()) == [MUSIC.id]
  {
    var none: seq<Call> := [];
    assert none + [Start(MUSIC.id)] == [Start(MUSIC.id)];
    OneMoreCall(none, Start(MUSIC.id));
    assert [Start(MUSIC.id)] + [SendGoal([1])] == Sent();
    OneMoreCall([Start(MUSIC.id)], SendGoal([1]));
  }

  /** The robot drives, and the handler of the music has reported a fatal error and then failed. */
  function Broken(): Client {
    WithMusic(ErrorAdded(Driving(), FATAL), FAILED)
  }

  lemma BrokenIsReachable()
    ensures Reachable(CONFIG, Broken())
  {
    hide Reachable, Starts;
    DrivingIsReachable();
    OneStart();
    ReachableStep(CONFIG, Driving(), HandlerError(FATAL));
    MusicEnds(ErrorAdded(Driving(), FATAL), FAILED);
    ReachableStep(CONFIG, ErrorAdded(Driving(), FATAL), HandlerUpdate(MUSIC.id, FAILED));
  }

  lemma NothingRuns(c: Client)
    requires HasOrder(c) && |c.agv.actionStates| > 0 && !c.agv.actionStates[0].status.Active() && c.pos.numActions == 1
    ensures !SomeRunning(c)
  {
    assert |ViewOf(c).status| == 1 && ViewOf(c).status[0] == c.agv.actionStates[0].status;
  }

  /** In mid-route, with the goal in progress: another order would be accepted, and the next tick makes
      the client idle without canceling the goal. */
  lemma FatalErrorWhileDriving()
    ensures Reachable(CONFIG, Broken()) && Broken().nav.navHandle && Broken().pos.currentNode == 0
    ensures CanAcceptOrder(Broken()).0
    ensures var d := ExecuteOrder(CONFIG, Broken(), WORLD); d.mode.Idle? && d.nav.navHandle && d.calls == Broken().calls
  {
    hide Reachable, Inv, ExecuteOrder, CanAcceptOrder, SomeRunning;
    BrokenIsReachable();
    ReachableInv(CONFIG, Broken());
    ReplacedWhileDrivingIff(CONFIG, Broken());
    NothingRuns(Broken());
    FatalErrorLeavesGoalIff(CONFIG, Broken(), WORLD);
  }

  /** The last feedback of the last goal has come, its result has not. */
  function Arriving(): Client {
    WithMusic(Arrived(), FINISHED).(pos := Progress(1, 1, false, 1), nav := Navigation(false, true),
                                    agv := AGVState([ActionState(MUSIC.id, FINISHED)], [], "B", 2, true, []))
  }

  lemma LastFeedback()
    ensures Allowed(WithMusic(Driving(), FINISHED), Feedback(0))
    ensures Step(CONFIG, WithMusic(Driving(), FINISHED), Feedback(0)) == Arriving()
  {
    assert Trim([NodeState("B", 2)], 0) == [];
  }

  /** Another order would be accepted then, with the goal still in progress. */
  lemma AcceptedOnArrival()
    ensures Reachable(CONFIG, Arriving()) && Arriving().nav.navHandle && CanAcceptOrder(Arriving()).0
  {
    hide Reachable, Inv, Starts, SomeRunning;
    DrivingIsReachable();
    OneStart();
    MusicEnds(Driving(), FINISHED);
    ReachableStep(CONFIG, Driving(), HandlerUpdate(MUSIC.id, FINISHED));
    LastFeedback();
    ReachableStep(CONFIG, WithMusic(Driving(), FINISHED), Feedback(0));
    ReachableInv(CONFIG, Arriving());
    ReplacedWhileDrivingIff(CONFIG, Arriving());
    NothingRuns(Arriving());
  }

  /** A malformed order has come while the robot drove, and then the goal was canceled from outside. */
  function Lost(): Client {
    GoalFinished(ErrorAdded(Driving(), WARNING), Canceled)
  }

  /** The fatal error is not seen: the client runs, the robot stands, and ticks change nothing. */
  lemma LostForGood()
    ensures Reachable(CONFIG, Lost()) && Lost().mode.Running? && !Lost().nav.Outstanding() && FATAL in Lost().agv.errors
    ensures ExecuteOrder(CONFIG, Lost(), WORLD) == Lost()
  {
    hide Reachable, Inv, ExecuteOrder;
    DrivingIsReachable();
    ReachableStep(CONFIG, Driving(), InvalidOrder);
    var c := ErrorAdded(Driving(), WARNING);
    ReachableStep(CONFIG, c, GoalResult(Canceled));
    ReachableInv(CONFIG, c);
    LostGoalEndsOrderIff(CONFIG, c, WORLD);
  }

  // ----- Requests before a goal is answered -----

  function Quitting(): Client {
    var c := WithMusic(Departing(), FINISHED);
    c.(agv := c.agv.(actionStates := c.agv.actionStates + [ActionState(CANCEL.id, WAITING)]),
       req := Requested(Some(CANCEL.id)))
  }

  lemma QuietIsReachable()
    ensures Reachable(CONFIG, WithMusic(Departing(), FINISHED))
  {
    hide Reachable, Starts;
    DepartingIsReachable();
    OneStart();
    MusicEnds(Departing(), FINISHED);
    ReachableStep(CONFIG, Departing(), HandlerUpdate(MUSIC.id, FINISHED));
  }

  /** The tick finishes the cancel, and the answer to the goal request then sets the robot going. */
  lemma CanceledBeforeAnswer()
    ensures Reachable(CONFIG, Quitting()) && Allowed(Quitting(), Tick(WORLD))
    ensures var d := Step(CONFIG, Quitting(), Tick(WORLD));
            && d.mode.Idle? && d.req.cancelAction.None? && Allowed(d, GoalResponse(true))
            && Step(CONFIG, d, GoalResponse(true)).mode.Idle? && Step(CONFIG, d, GoalResponse(true)).nav.navHandle
  {
    hide Reachable, Inv, CancelOrderStep, SomeRunning, Foreign;
    QuietIsReachable();
    CancelComes(WithMusic(Departing(), FINISHED), Quitting());
    ReachableStep(CONFIG, WithMusic(Departing(), FINISHED), InstantMsg([CANCEL], map[]));
    ReachableInv(CONFIG, Quitting());
    RequestsForeign(Quitting());
    RunningHere(Quitting());
    NothingRuns(Quitting());
    CancelBeforeGoalAnswered(CONFIG, Quitting(), CANCEL.id, {});
    CancelLeavesRequest(CONFIG, Quitting(), CANCEL.id, {});
  }

  const PAUSE: Action := Action(ActionId("pause"), StartPause, NONE)

  function Halting(c: Client): Client {
    c.(agv := c.agv.(actionStates := c.agv.actionStates + [ActionState(PAUSE.id, WAITING)]),
       req := c.req.(pauseAction := Some(PAUSE.id)))
  }

  /** A pause message does what evaluating the pause does. */
  lemma PauseComes(c: Client)
    requires !c.fault && IndexOf(c.agv.actionStates, PAUSE.id) == |c.agv.actionStates|
    ensures var d := PauseOrderStep(CONFIG, Halting(c), PAUSE.id);
            Step(CONFIG, c, InstantMsg([PAUSE], map[])) == d
  {
    hide PauseOrderStep;
    var e := c.(agv := c.agv.(actionStates := c.agv.actionStates + [ActionState(PAUSE.id, WAITING)]));
    var d := PauseOrderStep(CONFIG, Halting(c), PAUSE.id);
    assert InstantAction(CONFIG, e, PAUSE, map[]) == d;
    assert InstantActions(CONFIG, d, [PAUSE], 1, false, map[]) == d;
  }

  lemma PauseAppended(c: Client)
    requires Inv(c) && !c.fault && IndexOf(c.agv.actionStates, PAUSE.id) == |c.agv.actionStates|
    ensures Inv(Halting(c)) && Foreign(Halting(c), PAUSE.id)
  {
    hide Inv;
    AppendKeepsInv(c, PAUSE.id);
    var d := c.(agv := c.agv.(actionStates := c.agv.actionStates + [ActionState(PAUSE.id, WAITING)]));
    PausePending(d, PAUSE.id);
    assert Halting(c) == d.(req := d.req.(pauseAction := Some(PAUSE.id)));
  }

  /** The pause takes effect at once, and the answer to the goal request then sets the robot going. */
  lemma PausedBeforeAnswer()
    ensures var c := WithMusic(Departing(), FINISHED);
            && Reachable(CONFIG, c) && Allowed(c, InstantMsg([PAUSE], map[]))
            && var d := Step(CONFIG, c, InstantMsg([PAUSE], map[]));
            && d.mode.Paused? && Allowed(d, GoalResponse(true))
            && Step(CONFIG, d, GoalResponse(true)).mode.Paused? && Step(CONFIG, d, GoalResponse(true)).nav.navHandle
  {
    hide Reachable, Inv, PauseOrderStep, SomeRunning, Foreign;
    var c := WithMusic(Departing(), FINISHED);
    QuietIsReachable();
    ReachableInv(CONFIG, c);
    PauseAppended(c);
    PauseComes(c);
    RunningHere(Halting(c));
    NothingRuns(Halting(c));
    PausedBeforeGoalAnswered(CONFIG, Halting(c), PAUSE.id);
  }

  /** A pause breaks the client for the same reason as a cancel. */
  lemma PauseCanBreak()
    ensures Reachable(CONFIG, Arrived()) && Allowed(Arrived(), InstantMsg([PAUSE], map[]))
    ensures Step(CONFIG, Arrived(), InstantMsg([PAUSE], map[])).fault
  {
    hide Reachable, Inv, PauseOrderStep, Foreign, CannotPause;
    var c := Arrived();
    DrivingIsReachable();
    ReachableInv(CONFIG, c);
    PauseAppended(c);
    PauseComes(c);
    RunningHere(Halting(c));
    MusicLeftBehind(Halting(c));
    PauseFaultsIff(CONFIG, Halting(c), PAUSE.id);
  }

  lemma MusicLeftBehind(c: Client)
    requires HasOrder(c) && c.order == Some(ORDER) && c.pos == Progress(1, 1, true, 1) && c.req.pausedIds == {}
    requires c.agv.actionStates[0] == PLAYING
    ensures CannotPause(CONFIG, c, c.req.pausedIds, 0)
  {
    FlatRoute();
    assert ViewOf(c).status[0] == RUNNING;
    assert Offset(ROUTE, 1) == Offset(ROUTE, 0) + 1;
  }

  const FACTS: seq<Action> := [Action(ActionId("f1"), FactsheetRequest, NONE),
                               Action(ActionId("f2"), FactsheetRequest, NONE)]

  /** Two requests for the factsheet in one message break the client that has just started. */
  lemma TwoRequestsBreak()
    ensures Allowed(Initial(), InstantMsg(FACTS, map[])) && Step(CONFIG, Initial(), InstantMsg(FACTS, map[])).fault
  {
    hide InstantActions, Inv;
    InitialInv();
    MessageFaultsIff(CONFIG, Initial(), FACTS, 0, map[]);
    assert FACTS[0].id != FACTS[1].id && NotListed(Initial().agv.actionStates, FACTS[0].id)
           && NotListed(Initial().agv.actionStates, FACTS[1].id);
  }
}
