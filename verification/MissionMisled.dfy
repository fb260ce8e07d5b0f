/** More concrete runs: those in which the client loses track of the goal that the robot follows, and a
    cancel together with a pause. */
module MissionMisled {
  import opened Options
  import opened MissionTypes
  import opened MissionSpec
  import opened MissionViews
  import opened MissionInvariant
  import opened MissionRuns
  import opened MissionRequests
  import opened MissionInterruptions
  import opened MissionResuming
  import opened MissionEffects
  import opened MissionExample

  // ----- An abort, and an old goal -----

  /** A goal that is aborted at the first node: the client takes the robot to be at the second. */
  lemma AbortedAtFirst()
    ensures Reachable(CONFIG, Driving()) && Driving().nav.navHandle
    ensures !Inv(GoalFinished(Driving(), Aborted))
  {
    hide Reachable, Inv;
    DrivingIsReachable();
    ReachableInv(CONFIG, Driving());
    AbortKeepsInvIff(Driving());
  }

  const ERRAND: Order := Order("errand", [Node("C", 0, 0.5, [])])

  /** The order is replaced in mid-route, and the next feedback on its goal breaks the client. */
  lemma OldGoalBreaksErrand()
    ensures Reachable(CONFIG, Broken()) && CanAcceptOrder(Broken()).0
    ensures var d := Step(CONFIG, Broken(), OrderMsg(ERRAND));
            !d.fault && d.order == Some(ERRAND) && Step(CONFIG, d, Feedback(1)).fault
  {
    hide Reachable, Inv, FeedbackReceived;
    FatalErrorWhileDriving();
    ReachableInv(CONFIG, Broken());
    OldGoalBreaksNewOrderIff(Broken(), ERRAND, 1);
    AcceptIsSafe(Broken());
  }

  // ----- Resuming while the robot drives -----

  /** Paused with the goal requested. */
  function Halted(): Client {
    Departing().(mode := Paused, agv := AGVState([ActionState(MUSIC.id, FINISHED), ActionState(PAUSE.id, FINISHED)],
                                                 [NodeState("B", 2)], "A", 0, true, []))
  }

  /** Paused with the goal in progress. */
  function HaltedDriving(): Client {
    Halted().(nav := Navigation(false, true))
  }

  lemma HaltSteps()
    ensures Allowed(WithMusic(Departing(), FINISHED), InstantMsg([PAUSE], map[]))
    ensures Step(CONFIG, WithMusic(Departing(), FINISHED), InstantMsg([PAUSE], map[])) == Halted()
  {
    var c := WithMusic(Departing(), FINISHED);
    PauseComes(c);
    var h := Halting(c);
    assert h.agv.actionStates == [ActionState(MUSIC.id, FINISHED), ActionState(PAUSE.id, WAITING)];
    assert IndexOf(h.agv.actionStates, PAUSE.id) == 1;
    var e := FirstEvaluation(h, PAUSE.id);
    assert e.agv.actionStates == [ActionState(MUSIC.id, FINISHED), ActionState(PAUSE.id, RUNNING)];
    assert PauseActions(CONFIG, e, 1, true) == (e, true);
    assert PauseActions(CONFIG, e, 0, true) == (e, true);
    assert IndexOf(e.agv.actionStates, PAUSE.id) == 1;
    assert Update(e, PAUSE.id, FINISHED).agv.actionStates == Halted().agv.actionStates;
  }

  lemma HaltedIsReachable()
    ensures Reachable(CONFIG, HaltedDriving())
  {
    hide Reachable, Step;
    QuietIsReachable();
    HaltSteps();
    ReachableStep(CONFIG, WithMusic(Departing(), FINISHED), InstantMsg([PAUSE], map[]));
    AnswerComes();
    ReachableStep(CONFIG, Halted(), GoalResponse(true));
  }

  lemma AnswerComes()
    ensures Allowed(Halted(), GoalResponse(true)) && Step(CONFIG, Halted(), GoalResponse(true)) == HaltedDriving()
  {
  }

  const RESUME: Action := Action(ActionId("resume"), StopPause, NONE)

  /** In any state at the first node of the route the music is no obstacle. */
  lemma MusicIsNoObstacle(c: Client)
    requires HasOrder(c) && c.order == Some(ORDER) && c.pos.currentNode == 0 && c.agv.errors == []
    ensures Drives(CONFIG, c, WORLD)
  {
    hide Layout;
    assert ROUTE[0].actions == [MUSIC];
  }

  /** stopPause comes while the goal is in progress: the bookkeeping is wrong, the next tick requests a
      second goal, and feedback that leaves one pose breaks the client. */
  lemma ResumedIntoSecondGoal()
    ensures Reachable(CONFIG, HaltedDriving()) && HaltedDriving().nav.navHandle
    ensures var d := Step(CONFIG, HaltedDriving(), InstantMsg([RESUME], map[]));
            && !d.fault && !Inv(d) && Step(CONFIG, d, Tick(WORLD)).nav == Navigation(true, true)
            && Step(CONFIG, d, Feedback(1)).fault
  {
    hide Reachable, Inv, ResumeOrder, ExecuteOrder, FeedbackReceived, Foreign, Drives, Layout;
    var c := HaltedDriving();
    HaltedIsReachable();
    ReachableInv(CONFIG, c);
    assert IndexOf(c.agv.actionStates, RESUME.id) == 2;
    MessageComes(CONFIG, c, RESUME, map[]);
    AppendKeepsInv(c, RESUME.id);
    var l := Listed(c, RESUME.id);
    ResumeKeepsInvIff(CONFIG, l, RESUME.id);
    ResumedWhileDriving(CONFIG, l, RESUME.id, 1);
    SecondGoalIff(CONFIG, l, RESUME.id, WORLD);
    MusicIsNoObstacle(l);
  }

  // ----- Teleoperation while the robot drives -----

  const STEER: Action := Action(ActionId("steer"), StartTeleop, NONE)

  const RELEASE: Action := Action(ActionId("release"), StopTeleop, NONE)

  /** Teleoperation has started; the goal has been told to stop and has no result yet. */
  function Steered(): Client {
    Driving().(mode := Paused, agv := AGVState([PLAYING, ActionState(STEER.id, FINISHED)], [NodeState("B", 2)], "A", 0,
                                               true, []),
               req := Requested(None).(pauseOrder := true), calls := Sent() + [CancelGoal])
  }

  lemma SteerStep()
    ensures Allowed(Driving(), InstantMsg([STEER], map[]))
    ensures Step(CONFIG, Driving(), InstantMsg([STEER], map[])) == Steered()
  {
    var l := Listed(Driving(), STEER.id);
    MessageComes(CONFIG, Driving(), STEER, map[]);
    assert l.agv.actionStates == [PLAYING, ActionState(STEER.id, WAITING)];
    assert IndexOf(l.agv.actionStates, STEER.id) == 1;
    assert Update(l, STEER.id, RUNNING).agv.actionStates == [PLAYING, ActionState(STEER.id, RUNNING)];
    assert IndexOf(Update(l, STEER.id, RUNNING).agv.actionStates, STEER.id) == 1;
    assert TeleopAction(l, STEER).agv.actionStates == Steered().agv.actionStates;
  }

  /** stopTeleop comes before the canceled goal has ended: the next tick requests a second goal. */
  lemma ReleasedIntoSecondGoal()
    ensures Reachable(CONFIG, Steered()) && Steered().nav.navHandle
    ensures var d := Step(CONFIG, Steered(), InstantMsg([RELEASE], map[]));
            && !d.fault && !Inv(d) && Step(CONFIG, d, Tick(WORLD)).nav == Navigation(true, true)
  {
    hide Reachable, Inv, TeleopAction, ExecuteOrder, Foreign, Drives, Layout;
    var c := Steered();
    DrivingIsReachable();
    SteerStep();
    ReachableStep(CONFIG, Driving(), InstantMsg([STEER], map[]));
    ReachableInv(CONFIG, c);
    assert IndexOf(c.agv.actionStates, RELEASE.id) == 2;
    MessageComes(CONFIG, c, RELEASE, map[]);
    AppendKeepsInv(c, RELEASE.id);
    var l := Listed(c, RELEASE.id);
    StopTeleopKeepsInvIff(l, RELEASE);
    StopTeleopSendsGoalIff(CONFIG, l, RELEASE, WORLD);
    assert PauseOrderEnded(l) == l;
    MusicIsNoObstacle(l);
  }

  /** startTeleop at the very start: nothing breaks until the first order comes. */
  lemma SteeredWithoutOrder()
    ensures var d := Step(CONFIG, Initial(), InstantMsg([STEER], map[]));
            !d.fault && Step(CONFIG, d, OrderMsg(ORDER)).fault
  {
    hide TeleopAction, ReceiveOrder, Inv;
    InitialInv();
    MessageComes(CONFIG, Initial(), STEER, map[]);
    AppendKeepsInv(Initial(), STEER.id);
    TeleopWithoutOrderBreaks(CONFIG, Listed(Initial(), STEER.id), STEER, ORDER, WORLD);
  }

  // ----- A cancel and a pause -----

  /** The music plays, its handler has been told to pause, and the pause waits for it. */
  function PausePlaying(): Client {
    var c := AtFirst(RUNNING, FINISHED, [ActionState(PAUSE.id, RUNNING)], None, Begun() + [PauseHandler(MUSIC.id)]);
    c.(req := c.req.(pauseAction := Some(PAUSE.id), pausedIds := {MUSIC.id}))
  }

  function BothPending(): Client {
    var c := Listed(PausePlaying(), CANCEL.id);
    c.(req := c.req.(cancelAction := Some(CANCEL.id)))
  }

  lemma PauseTune()
    ensures Allowed(AtFirst(RUNNING, FINISHED, [], None, Begun()), InstantMsg([PAUSE], map[]))
    ensures Step(CONFIG, AtFirst(RUNNING, FINISHED, [], None, Begun()), InstantMsg([PAUSE], map[])) == PausePlaying()
  {
    var c := AtFirst(RUNNING, FINISHED, [], None, Begun());
    assert IndexOf(c.agv.actionStates, PAUSE.id) == 2;
    PauseComes(c);
    FirstOfPause();
    PauseTells(FirstEvaluation(Halting(c), PAUSE.id));
  }

  lemma FirstOfPause()
    ensures var h := Halting(AtFirst(RUNNING, FINISHED, [], None, Begun()));
            FirstEvaluation(h, PAUSE.id) == PausePlaying().(req := PausePlaying().req.(pausedIds := {}),
                                                            calls := Begun())
  {
    var h := Halting(AtFirst(RUNNING, FINISHED, [], None, Begun()));
    var s := h.agv.actionStates;
    assert s == [PLAYING, ActionState(BEEP.id, FINISHED), ActionState(PAUSE.id, WAITING)];
    assert s[2].id == PAUSE.id && s[1].id != PAUSE.id && s[0].id != PAUSE.id;
    assert IndexOf(s, PAUSE.id) == 2;
    assert s[2 := ActionState(PAUSE.id, RUNNING)] == PausePlaying().agv.actionStates;
  }

  lemma PauseTells(e: Client)
    requires e == PausePlaying().(req := PausePlaying().req.(pausedIds := {}), calls := Begun())
    ensures PauseActions(CONFIG, e, 0, true) == (PausePlaying(), false)
  {
    var p := PausePlaying();
    assert e.agv.actionStates == [PLAYING, ActionState(BEEP.id, FINISHED), ActionState(PAUSE.id, RUNNING)];
    assert IndexOf(e.agv.actionStates, MUSIC.id) == 0 && IndexOf(e.agv.actionStates, BEEP.id) == 1;
    assert FindAction(TUNE[0].actions, MUSIC.id) == Some(MUSIC);
    assert {} + {MUSIC.id} == {MUSIC.id};
    assert PauseRunning(CONFIG, e, MUSIC.id) == p;
    assert PauseActions(CONFIG, p, 2, false) == (p, false);
    assert PauseActions(CONFIG, p, 1, false) == (p, false);
  }

  lemma BothIsReachable()
    ensures Reachable(CONFIG, BothPending())
  {
    hide Reachable, Step;
    StartIsReachable();
    AcceptTune();
    ReachableStep(CONFIG, Initial(), OrderMsg(Order("order", TUNE)));
    BeginTune();
    ReachableStep(CONFIG, AtFirst(WAITING, WAITING, [], None, []), Tick(WORLD));
    FinishBeep();
    ReachableStep(CONFIG, AtFirst(RUNNING, RUNNING, [], None, Begun()), HandlerUpdate(BEEP.id, FINISHED));
    PauseTune();
    ReachableStep(CONFIG, AtFirst(RUNNING, FINISHED, [], None, Begun()), InstantMsg([PAUSE], map[]));
    assert IndexOf(PausePlaying().agv.actionStates, CANCEL.id) == 3;
    CancelComes(PausePlaying(), BothPending());
    ReachableStep(CONFIG, PausePlaying(), InstantMsg([CANCEL], map[]));
  }

  /** With a cancel and a pause pending the next tick sends a goal. */
  lemma BothCanDriveOn()
    ensures Reachable(CONFIG, BothPending()) && BothPending().req.cancelAction.Some?
            && BothPending().req.pauseAction.Some?
    ensures GoalsSent(ExecuteOrder(CONFIG, BothPending(), WORLD).calls) != GoalsSent(BothPending().calls)
  {
    hide Inv, ExecuteOrder, Reachable, GoesOn, CannotPause, NoneBlocksBut, LeftBehind;
    BothIsReachable();
    ReachableInv(CONFIG, BothPending());
    RunningHere(BothPending());
    CancelAndPauseDriveOnIff(CONFIG, BothPending(), WORLD);
    NothingBlocksBoth();
    NothingLeftBehindBoth();
    MusicGoesOn();
  }

  lemma BothStatuses()
    requires HasOrder(BothPending())
    ensures ViewOf(BothPending()).status == [RUNNING, FINISHED]
  {
    var c := BothPending();
    assert c.agv.actionStates[0].status == RUNNING && c.agv.actionStates[1].status == FINISHED;
  }

  lemma NothingBlocksBoth()
    requires HasOrder(BothPending())
    ensures NoneBlocksBut(CONFIG, BothPending(), {})
  {
    BothStatuses();
    hide ViewOf, HasOrder;
    assert Offset(TUNE, 0) == 0;
  }

  lemma NothingLeftBehindBoth()
    requires HasOrder(BothPending())
    ensures !exists j: nat :: LeftBehind(BothPending(), BothPending().req.canceledIds, j)
  {
    hide ViewOf, HasOrder;
    assert Offset(TUNE, 0) == 0;
  }

  /** The music goes on, and need not be told to pause again. */
  lemma MusicGoesOn()
    requires HasOrder(BothPending())
    ensures GoesOn(CONFIG, BothPending(), {}, 0)
    ensures !exists j: nat :: CannotPause(CONFIG, BothPending(), BothPending().req.pausedIds, j)
  {
    FlatTune();
    BothStatuses();
    hide ViewOf, HasOrder;
    forall j: nat
      ensures !CannotPause(CONFIG, BothPending(), BothPending().req.pausedIds, j)
    {
      assert j == 0 || j == 1 || j >= BothPending().pos.numActions;
    }
  }

  // ----- Two cancels -----

  const AGAIN: Action := Action(ActionId("again"), CancelOrder, HARD)

  function CancelingDriving(): Client {
    Driving().(agv := AGVState([PLAYING, ActionState(CANCEL.id, WAITING)], [NodeState("B", 2)], "A", 0, true, []),
               req := Requested(Some(CANCEL.id)))
  }

  /** The second cancel has come before the first was evaluated. */
  function CanceledTwice(): Client {
    Driving().(agv := AGVState([PLAYING, ActionState(CANCEL.id, WAITING), ActionState(AGAIN.id, FAILED)],
                               [NodeState("B", 2)], "A", 0, true, []),
               req := Requested(Some(AGAIN.id)))
  }

  lemma IndexAt(s: seq<ActionState>, i: nat)
    requires i < |s| && forall j | 0 <= j < i :: s[j].id != s[i].id
    ensures IndexOf(s, s[i].id) == i
  {
  }

  lemma CancelTwice()
    ensures Step(CONFIG, Driving(), InstantMsg([CANCEL], map[])) == CancelingDriving()
    ensures Step(CONFIG, CancelingDriving(), InstantMsg([AGAIN], map[])) == CanceledTwice()
  {
    CancelComes(Driving(), CancelingDriving());
    var c := CancelingDriving();
    assert IndexOf(c.agv.actionStates, AGAIN.id) == 2;
    MessageComes(CONFIG, c, AGAIN, map[]);
    var l := Listed(c, AGAIN.id);
    assert l.agv.actionStates == [PLAYING, ActionState(CANCEL.id, WAITING), ActionState(AGAIN.id, WAITING)];
    IndexAt(l.agv.actionStates, 2);
    assert Update(l, AGAIN.id, FAILED).agv.actionStates == CanceledTwice().agv.actionStates;
  }

  /** The robot drives on: the tick tells the handler of the music, but does not cancel the goal. */
  lemma TwoCancelsKeepDriving()
    ensures Reachable(CONFIG, CanceledTwice()) && CanceledTwice().nav.navHandle
    ensures Allowed(CanceledTwice(), Tick(WORLD))
    ensures var d := Step(CONFIG, CanceledTwice(), Tick(WORLD));
            !d.fault && d.nav.navHandle && d.calls == Sent() + [CancelHandler(MUSIC.id)] && CancelGoal !in d.calls
  {
    hide Reachable, Step, CancelOrderStep;
    DrivingIsReachable();
    CancelTwice();
    ReachableStep(CONFIG, Driving(), InstantMsg([CANCEL], map[]));
    ReachableStep(CONFIG, CancelingDriving(), InstantMsg([AGAIN], map[]));
    TellsTheMusic();
  }

  lemma TellsTheMusic()
    ensures var d := Step(CONFIG, CanceledTwice(), Tick(WORLD));
            !d.fault && d.nav.navHandle && d.calls == Sent() + [CancelHandler(MUSIC.id)]
  {
    var c := CanceledTwice();
    var told := Called(c.(req := c.req.(canceledIds := {MUSIC.id})), CancelHandler(MUSIC.id));
    IndexAt(c.agv.actionStates, 2);
    IndexAt(c.agv.actionStates, 0);
    assert FirstEvaluation(c, AGAIN.id) == c;
    assert FindAction(ROUTE[0].actions, MUSIC.id) == Some(MUSIC);
    assert {} + {MUSIC.id} == {MUSIC.id};
    assert CancelRunning(CONFIG, c, MUSIC.id, {}) == told;
    assert CancelActions(CONFIG, told, 1, false, {}) == (told, false);
    assert CancelActions(CONFIG, c, 0, true, {}) == (told, false);
    assert CancelOrderStep(CONFIG, c, AGAIN.id, {}) == told;
  }

  // ----- A server that is not there -----

  const OUTAGE: Surroundings := Surroundings(true, true, false, map[], {})

  /** One tick without the navigation server, and the client never leaves the first node. */
  lemma OutageStrands()
    ensures Reachable(CONFIG, Accepted())
    ensures var d := ExecuteOrder(CONFIG, Accepted(), OUTAGE);
            d.mode.Running? && !d.nav.Outstanding() && forall later: Surroundings :: ExecuteOrder(CONFIG, d, later) == d
  {
    hide Reachable, Step, ExecuteOrder, Inv, Layout, NodeClear;
    StartIsReachable();
    AcceptStep();
    ReachableStep(CONFIG, Initial(), OrderMsg(ORDER));
    ReachableInv(CONFIG, Accepted());
    RunningHere(Accepted());
    MusicIsNoObstacle(Accepted());
    ClearFromDrives(Accepted());
    NoServerStrands(CONFIG, Accepted(), OUTAGE);
  }

  lemma ClearFromDrives(c: Client)
    requires HasOrder(c) && c.pos.currentNode < |c.order.value.nodes| && Drives(CONFIG, c, WORLD)
    ensures NodeClear(c, 0)
  {
  }
}
