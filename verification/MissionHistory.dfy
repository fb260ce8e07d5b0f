/** What follows from the history of an order: without a cancel nothing of it is cut short, and while
    it is paused or over nothing of it starts. */
module MissionHistory {
  import opened Options
  import opened MissionTypes
  import opened MissionSpec
  import opened MissionViews
  import opened MissionInvariant
  import opened MissionScheduling
  import opened MissionPausing
  import opened MissionRuns
  import opened MissionGoals
  import opened MissionRequests
  import opened MissionInterruptions
  import opened MissionLiveness

  // ----- Without a cancel -----

  predicate NoCancel(e: Event) {
    e.InstantMsg? ==> forall a | a in e.actions :: !a.kind.CancelOrder?
  }

  /** No cancel is pending, and none has cut the order short. */
  ghost predicate Whole(c: Client) {
    HasOrder(c) && c.req.cancelAction.None? && NoneCut(ViewOf(c))
  }

  lemma WholeSame(c: Client, d: Client)
    requires Whole(c) && d.order == c.order && d.pos.numActions == c.pos.numActions
    requires d.agv.actionStates == c.agv.actionStates && Starts(d.calls) == Starts(c.calls)
    requires d.req.cancelAction == c.req.cancelAction
    ensures Whole(d)
  {
    assert ViewOf(d) == ViewOf(c);
  }

  lemma ForeignWhole(c: Client, id: ActionId, s: Status)
    requires Whole(c) && Foreign(c, id)
    ensures Whole(Update(c, id, s)) && (forall x :: Foreign(c, x) ==> Foreign(Update(c, id, s), x))
  {
    UpdateForeign(c, id, s);
    UpdateFrame(c, id, s);
  }

  lemma OwnWhole(c: Client, i: nat, s: Status)
    requires Whole(c) && i < c.pos.numActions && i < |Starts(c.calls)|
    ensures Whole(Update(c, Flat(c.order.value.nodes)[i].id, s))
  {
    UpdateOwn(c, i, s);
    UpdateFrame(c, Flat(c.order.value.nodes)[i].id, s);
  }

  lemma PauseStepFrame(cfg: Config, c: Client, id: ActionId)
    requires Inv(c) && !c.fault && Foreign(c, id)
    ensures PauseOrderStep(cfg, c, id).req.cancelAction == c.req.cancelAction
    ensures c.order.Some? ==> HasOrder(PauseOrderStep(cfg, c, id)) && ViewOf(PauseOrderStep(cfg, c, id)) == ViewOf(c)
  {
    hide MissionSound, FirstEvaluation, PauseActions;
    if c.mode.Running? {
      var e := FirstEvaluation(c, id);
      FirstEvaluationCancel(c, id);
      PauseCancel(cfg, e, 0, true);
      PauseEntersIff(cfg, c, id);
    } else {
      UpdateForeign(c, id, FAILED);
      UpdateForeign(c, id, FINISHED);
    }
  }

  lemma FirstEvaluationCancel(c: Client, id: ActionId)
    ensures FirstEvaluation(c, id).req == c.req
  {
  }

  lemma {:induction false} PauseCancel(cfg: Config, c: Client, i: nat, all: bool)
    ensures PauseActions(cfg, c, i, all).0.req.cancelAction == c.req.cancelAction
    decreases c.pos.numActions - i
  {
    hide StatusOf, FindAction;
    if !c.fault && i < c.pos.numActions && i < |c.agv.actionStates| {
      var id := c.agv.actionStates[i].id;
      PauseCancel(cfg, PauseRunning(cfg, c, id), i + 1, false);
      PauseCancel(cfg, c, i + 1, all);
    }
  }

  lemma AtRestScanning(c: Client)
    requires AtRest(c)
    ensures Scanning(c, 0, false, false)
  {
  }

  lemma MakesAtRest(c: Client)
    requires Inv(c) && !c.fault && c.mode.Running? && c.pos.reached && !FatalFirst(c)
    ensures AtRest(c)
  {
  }

  /** The scheduler only starts actions. */
  lemma ScheduleKeepsWhole(cfg: Config, c: Client, world: Surroundings)
    requires Inv(c) && !c.fault && c.mode.Running? && Whole(c)
    ensures Whole(Schedule(cfg, c, world))
  {
    hide Inv, Scan, Advance, AtRest, Scanning, NoneCut, Proceeds, HasOrder, ViewOf;
    RunningHere(c);
    if FatalFirst(c) || !c.pos.reached {
      FatalKeepsWhole(cfg, c, world);
    } else {
      MakesAtRest(c);
      AtRestScanning(c);
      var actions := c.order.value.nodes[c.pos.currentNode].actions;
      ScanFromRest(cfg, c, world.outcome);
      ScanProceeds(cfg, c, 0, false, false, world.outcome);
      var (d, go) := Scan(cfg, c, actions, 0, false, false, world.outcome);
      ProceedsUncut(c, d);
      AdvanceKeepsWhole(cfg, d, c.order.value.nodes, world);
    }
  }

  lemma FatalKeepsWhole(cfg: Config, c: Client, world: Surroundings)
    requires Inv(c) && !c.fault && c.mode.Running? && Whole(c) && (FatalFirst(c) || !c.pos.reached)
    ensures Whole(Schedule(cfg, c, world))
  {
    hide Inv, Scan, Advance, Whole;
    RunningHere(c);
    WholeSame(c, Schedule(cfg, c, world));
  }

  lemma AdvanceKeepsWhole(cfg: Config, c: Client, nodes: seq<Node>, world: Surroundings)
    requires Whole(c)
    ensures Whole(Advance(cfg, c, nodes, world))
  {
    hide Whole;
    AdvanceStartsNothing(cfg, c, nodes, world);
    WholeSame(c, Advance(cfg, c, nodes, world));
  }

  lemma TickKeepsWhole(cfg: Config, c: Client, world: Surroundings)
    requires Inv(c) && !c.fault && Whole(c)
    ensures var d := ExecuteOrder(cfg, c, world); d.fault || Whole(d)
  {
    hide Inv, PauseOrderStep, Schedule, ViewOf;
    if c.req.pauseAction.Some? {
      RequestsForeign(c);
      PauseStepFrame(cfg, c, c.req.pauseAction.value);
      PauseKeepsInv(cfg, c, c.req.pauseAction.value);
    }
    var e := AfterPause(cfg, c);
    if !e.fault && e.mode.Running? {
      ScheduleKeepsWhole(cfg, e, world);
    }
  }

  lemma AppendWhole(c: Client, id: ActionId)
    requires Inv(c) && !c.fault && Whole(c) && IndexOf(c.agv.actionStates, id) == |c.agv.actionStates|
    ensures Whole(c.(agv := c.agv.(actionStates := c.agv.actionStates + [ActionState(id, WAITING)])))
  {
    var d := c.(agv := c.agv.(actionStates := c.agv.actionStates + [ActionState(id, WAITING)]));
    AppendKeepsInv(c, id);
    hide MissionSound, RequestsApart;
    assert ViewOf(d).status == ViewOf(c).status;
  }

  lemma TeleopKeepsWhole(c: Client, a: Action)
    requires Inv(c) && !c.fault && Whole(c) && Foreign(c, a.id)
    ensures Whole(TeleopAction(c, a))
  {
    hide Inv, Update, Whole, Foreign;
    ForeignWhole(c, a.id, RUNNING);
    UpdateForeignKeepsInv(c, a.id, RUNNING);
    UpdateFrame(c, a.id, RUNNING);
    var d := Update(c, a.id, RUNNING);
    if a.kind.StartTeleop? {
      var e := d.(mode := Paused, req := d.req.(pauseOrder := true));
      WholeSame(d, e);
      OneMoreCall(e.calls, CancelGoal);
      WholeSame(d, Called(e, CancelGoal));
      ForeignSame(c, e, a.id);
      ForeignSame(c, Called(e, CancelGoal), a.id);
      ForeignWhole(e, a.id, FINISHED);
      ForeignWhole(Called(e, CancelGoal), a.id, FINISHED);
    } else {
      var e := d.(mode := Running, req := d.req.(pauseOrder := false));
      WholeSame(d, e);
      if e.req.pauseOrderId != NO_ID {
        PauseOrderWhole(d, e);
        UpdateFrame(e, e.req.pauseOrderId, FINISHED);
      }
      var u := if e.req.pauseOrderId != NO_ID then Update(e, e.req.pauseOrderId, FINISHED) else e;
      var f := u.(req := u.req.(pauseOrderId := NO_ID), pos := u.pos.(nextStop := u.pos.currentNode, reached := true));
      WholeSame(u, f);
      ForeignSame(c, f, a.id);
      ForeignWhole(f, a.id, FINISHED);
    }
  }

  lemma ForeignSame(c: Client, d: Client, id: ActionId)
    requires Foreign(c, id) && d.order == c.order
    ensures Foreign(d, id)
  {
  }

  /** Ending a pause_order action. */
  lemma PauseOrderWhole(d: Client, e: Client)
    requires Inv(d) && !d.fault && Whole(e) && d.req.pauseOrderId != NO_ID
    requires e == d.(mode := e.mode, req := d.req.(pauseOrder := false))
    ensures Whole(Update(e, e.req.pauseOrderId, FINISHED))
  {
    hide Update, MissionSound;
    var id := e.req.pauseOrderId;
    if i :| 0 <= i < |Flat(e.order.value.nodes)| && Flat(e.order.value.nodes)[i].id == id {
      OwnWhole(e, i, FINISHED);
    } else {
      ForeignWhole(e, id, FINISHED);
    }
  }

  lemma ResumeKeepsWhole(cfg: Config, c: Client, id: ActionId)
    requires Inv(c) && !c.fault && Whole(c) && Foreign(c, id)
    ensures Whole(ResumeOrder(cfg, c, id))
  {
    hide Inv, Update, Whole, Foreign;
    ForeignWhole(c, id, FAILED);
    if c.mode.Paused? {
      ResumesAsIs(cfg, c, id);
      ForeignWhole(c, id, RUNNING);
      UpdateFrame(c, id, RUNNING);
      var u := Update(c, id, RUNNING);
      var e := u.(mode := Running, pos := u.pos.(nextStop := u.pos.currentNode, reached := true));
      WholeSame(u, e);
      ForeignSame(c, e, id);
      ForeignWhole(e, id, FINISHED);
    }
  }

  lemma InstantKeepsWhole(cfg: Config, c: Client, a: Action, outcome: map<ActionId, StartedStatus>)
    requires Inv(c) && !c.fault && Whole(c) && Foreign(c, a.id) && !a.kind.CancelOrder?
    ensures var d := InstantAction(cfg, c, a, outcome); d.fault || Whole(d)
  {
    hide Inv, Update, Whole, Foreign, TeleopAction, ResumeOrder, PauseOrderStep;
    if a.kind.StartTeleop? || a.kind.StopTeleop? {
      TeleopKeepsWhole(c, a);
    } else if a.kind.StopPause? {
      ResumeKeepsWhole(cfg, c, a.id);
    } else if a.kind.StartPause? {
      var p := c.(req := c.req.(pauseAction := Some(a.id)));
      PausePending(c, a.id);
      PauseStepFrame(cfg, p, a.id);
      WholeSame(c, p);
      WholeView(p, PauseOrderStep(cfg, p, a.id));
    } else if a.kind.FactsheetRequest? {
      ForeignWhole(c, a.id, RUNNING);
      UpdateFrame(c, a.id, RUNNING);
      var d := Update(c, a.id, RUNNING);
      OneMoreCall(d.calls, PublishFactsheet);
      WholeSame(d, Called(d, PublishFactsheet));
      ForeignSame(c, Called(d, PublishFactsheet), a.id);
      ForeignWhole(Called(d, PublishFactsheet), a.id, FINISHED);
    } else {
      OneMoreCall(c.calls, ExecuteInstant(a.id));
      var d := Called(c, ExecuteInstant(a.id));
      WholeSame(c, d);
      ForeignSame(c, d, a.id);
      if a.id in outcome {
        ForeignWhole(d, a.id, outcome[a.id]);
      }
    }
  }

  lemma WholeView(c: Client, d: Client)
    requires Whole(c) && d.req.cancelAction == c.req.cancelAction
             && (c.order.Some? ==> HasOrder(d) && ViewOf(d) == ViewOf(c))
    ensures Whole(d)
  {
  }

  lemma {:induction false} InstantsKeepWhole(cfg: Config, c: Client, actions: seq<Action>, i: nat,
                                             outcome: map<ActionId, StartedStatus>)
    requires Inv(c) && !c.fault && Whole(c) && i <= |actions| && NoCancel(InstantMsg(actions, outcome))
    ensures var d := InstantActions(cfg, c, actions, i, true, outcome); d.fault || Whole(d)
    decreases |actions| - i
  {
    hide Inv, InstantAction, Whole;
    if i < |actions| {
      if IndexOf(c.agv.actionStates, actions[i].id) < |c.agv.actionStates| {
        InstantsKeepWhole(cfg, c, actions, i + 1, outcome);
      } else {
        AppendKeepsInv(c, actions[i].id);
        AppendWhole(c, actions[i].id);
        var d := c.(agv := c.agv.(actionStates := c.agv.actionStates + [ActionState(actions[i].id, WAITING)]));
        assert actions[i] in actions;
        InstantKeepsWhole(cfg, d, actions[i], outcome);
        NothingMore(cfg, InstantAction(cfg, d, actions[i], outcome), actions, i + 1, outcome);
      }
    }
  }

  lemma HandlerKeepsWhole(c: Client, id: ActionId, status: Status)
    requires Inv(c) && !c.fault && Whole(c) && Allowed(c, HandlerUpdate(id, status))
    ensures Whole(Update(c, id, status))
  {
    hide Inv, Update;
    if i :| 0 <= i < |Flat(c.order.value.nodes)| && Flat(c.order.value.nodes)[i].id == id {
      assert c.agv.actionStates[i].id == id;
      OwnWhole(c, i, status);
    } else {
      ForeignWhole(c, id, status);
    }
  }

  lemma StepKeepsWhole(cfg: Config, c: Client, e: Event)
    requires Inv(c) && !c.fault && Whole(c) && Allowed(c, e) && KeepsOrder(c, e) && NoCancel(e)
    requires e.Feedback? ==> e.remaining <= 0x1_0000_0000_0000_0000
    ensures var d := Step(cfg, c, e); d.fault || Whole(d)
  {
    hide Inv, ExecuteOrder, InstantActions, Update, Whole;
    match e
    case Tick(world) => TickKeepsWhole(cfg, c, world);
    case InstantMsg(actions, outcome) => InstantsKeepWhole(cfg, c, actions, 0, outcome);
    case HandlerUpdate(id, status) => HandlerKeepsWhole(c, id, status);
    case OrderMsg(order) =>
      AcceptIsSafe(c);
      WholeSame(c, Step(cfg, c, e));
    case _ => WholeSame(c, Step(cfg, c, e));
  }

  lemma {:induction false} RunKeepsWhole(cfg: Config, c: Client, events: seq<Event>)
    requires Inv(c) && !c.fault && Whole(c) && AllowedRun(cfg, c, events) && KeepsOrderRun(cfg, c, events)
    requires forall i | 0 <= i < |events| :: NoCancel(events[i])
    ensures var d := Run(cfg, c, events); d.fault || Whole(d)
  {
    hide Inv, Step, Allowed, KeepsOrder, NoCancel, Whole;
    if events != [] {
      var before := events[..|events| - 1];
      RunKeepsWhole(cfg, c, before);
      RunKeepsInv(cfg, c, before);
      if Run(cfg, c, before).fault {
        FaultStays(cfg, Run(cfg, c, before), events[|events| - 1]);
      } else {
        StepKeepsWhole(cfg, Run(cfg, c, before), events[|events| - 1]);
      }
    }
  }

  lemma AcceptedIsWhole(cfg: Config, c: Client, order: Order)
    requires Inv(c) && !c.fault && Allowed(c, OrderMsg(order)) && CanAcceptOrder(c).0 && |order.nodes| > 0
    requires c.req.cancelAction.None?
    ensures var d := Step(cfg, c, OrderMsg(order)); !d.fault && d.order == Some(order) && Whole(d)
  {
    hide MissionSound, RequestsApart;
    AcceptIsSafe(c);
    AcceptedOrderLayout(cfg, c, order);
    StepKeepsInv(cfg, c, OrderMsg(order));
    FreshWaits(Step(cfg, c, OrderMsg(order)), order);
  }

  /** Exactly-once execution: whatever pauses, resumes, teleoperation, lost goals and errors there have
      been since it was accepted, an order that is completed, and for which no cancel was pending or
      has come, has had all its actions executed in route order, and its HARD and SOFT ones are over. */
  lemma CompletedWithoutCancel(cfg: Config, c: Client, order: Order, events: seq<Event>)
    requires Inv(c) && !c.fault && Allowed(c, OrderMsg(order)) && CanAcceptOrder(c).0 && |order.nodes| > 0
    requires c.req.cancelAction.None? && forall i | 0 <= i < |events| :: NoCancel(events[i])
    requires var d := Step(cfg, c, OrderMsg(order)); AllowedRun(cfg, d, events) && KeepsOrderRun(cfg, d, events)
    ensures var d := Run(cfg, Step(cfg, c, OrderMsg(order)), events);
            !d.fault && d.pos.nextStop == |order.nodes| ==>
              && d.order == Some(order) && d.mode.Idle?
              && Starts(d.calls) == Ids(Flat(order.nodes))
              && |Flat(order.nodes)| <= |d.agv.actionStates|
              && forall i | 0 <= i < |Flat(order.nodes)|
                && Flat(order.nodes)[i].Blocks() :: d.agv.actionStates[i].status.Ended()
  {
    hide Step, Allowed, KeepsOrderRun, Inv, Whole;
    var b := Step(cfg, c, OrderMsg(order));
    AcceptedIsWhole(cfg, c, order);
    StepKeepsInv(cfg, c, OrderMsg(order));
    RunKeepsWhole(cfg, b, events);
    RunKeepsOrder(cfg, b, events);
    RunKeepsInv(cfg, b, events);
    var d := Run(cfg, b, events);
    if !d.fault && d.pos.nextStop == |order.nodes| {
      WholeEnd(d);
    }
  }

  lemma WholeEnd(c: Client)
    requires Inv(c) && !c.fault && Whole(c) && c.pos.nextStop == |c.order.value.nodes|
    ensures c.mode.Idle? && Starts(c.calls) == Ids(Flat(c.order.value.nodes))
    ensures |Flat(c.order.value.nodes)| <= |c.agv.actionStates|
    ensures forall i | 0 <= i < |Flat(c.order.value.nodes)|
            && Flat(c.order.value.nodes)[i].Blocks() :: c.agv.actionStates[i].status.Ended()
  {
    var v, flat := ViewOf(c), Flat(c.order.value.nodes);
    assert Ids(flat)[..|flat|] == Ids(flat);
    forall i | 0 <= i < |flat| && flat[i].Blocks()
      ensures c.agv.actionStates[i].status.Ended()
    {
      assert v.status[i] == c.agv.actionStates[i].status;
    }
  }

  // ----- While paused or idle -----

  predicate NoRestart(e: Event) {
    e.InstantMsg? ==> forall a | a in e.actions :: !a.kind.StopTeleop? && !a.kind.StopPause?
  }

  /** Since c nothing of the order has been started and no goal sent; with no goal outstanding the
      client has stayed where it was. */
  ghost predicate Parked(c: Client, d: Client) {
    && d.order == c.order && !d.mode.Running?
    && Starts(d.calls) == Starts(c.calls) && GoalsSent(d.calls) == GoalsSent(c.calls)
    && (!c.nav.Outstanding() ==> d.pos.currentNode == c.pos.currentNode && !d.nav.Outstanding())
  }

  lemma ParkedTick(cfg: Config, c: Client, world: Surroundings)
    requires !c.fault && !c.mode.Running?
    ensures var d := ExecuteOrder(cfg, c, world); d.fault || Parked(c, d)
  {
    hide CancelOrderStep, PauseOrderStep, Schedule, NothingWaits;
    var d := AfterCancel(cfg, c, world);
    if c.req.cancelAction.Some? {
      CancelStepStill(cfg, c, c.req.cancelAction.value, world.interrupted);
      CancelStepMode(cfg, c, c.req.cancelAction.value, world.interrupted);
    }
    if !d.fault && d.req.pauseAction.Some? {
      PauseStepStill(cfg, d, d.req.pauseAction.value);
      PauseStepMode(cfg, d, d.req.pauseAction.value);
    }
  }

  lemma CancelStepMode(cfg: Config, c: Client, id: ActionId, interrupted: set<ActionId>)
    requires !c.mode.Running?
    ensures !CancelOrderStep(cfg, c, id, interrupted).mode.Running?
  {
    hide CancelActions, FirstEvaluation;
    FirstEvaluationQuiet(c, id);
    SweepQuiet(cfg, FirstEvaluation(c, id), 0, true, interrupted);
  }

  lemma PauseStepMode(cfg: Config, c: Client, id: ActionId)
    requires !c.mode.Running?
    ensures !PauseOrderStep(cfg, c, id).mode.Running?
  {
    hide PauseActions, FirstEvaluation;
  }

  lemma ParkedInstant(cfg: Config, c: Client, a: Action, outcome: map<ActionId, StartedStatus>)
    requires !c.mode.Running? && !a.kind.StopTeleop? && !a.kind.StopPause?
    ensures !InstantAction(cfg, c, a, outcome).mode.Running?
  {
    hide PauseOrderStep, SetStatus;
    if a.kind.StartPause? {
      PauseStepMode(cfg, c.(req := c.req.(pauseAction := Some(a.id))), a.id);
    }
  }

  lemma {:induction false} ParkedInstants(cfg: Config, c: Client, actions: seq<Action>, i: nat,
                                          outcome: map<ActionId, StartedStatus>)
    requires !c.mode.Running? && i <= |actions| && NoRestart(InstantMsg(actions, outcome))
    ensures var d := InstantActions(cfg, c, actions, i, true, outcome); d.fault || !d.mode.Running?
    decreases |actions| - i
  {
    hide InstantAction;
    if !c.fault && i < |actions| {
      if IndexOf(c.agv.actionStates, actions[i].id) < |c.agv.actionStates| {
        ParkedInstants(cfg, c, actions, i + 1, outcome);
      } else {
        var d := c.(agv := c.agv.(actionStates := c.agv.actionStates + [ActionState(actions[i].id, WAITING)]));
        assert actions[i] in actions;
        ParkedInstant(cfg, d, actions[i], outcome);
        NothingMore(cfg, InstantAction(cfg, d, actions[i], outcome), actions, i + 1, outcome);
      }
    }
  }

  lemma ParkedStep(cfg: Config, c: Client, e: Event)
    requires !c.fault && !c.mode.Running? && Allowed(c, e) && KeepsOrder(c, e) && NoRestart(e)
    requires e.Feedback? ==> e.remaining <= 0x1_0000_0000_0000_0000
    ensures var d := Step(cfg, c, e); d.fault || Parked(c, d)
  {
    hide ExecuteOrder, InstantActions;
    match e
    case Tick(world) => ParkedTick(cfg, c, world);
    case InstantMsg(actions, outcome) =>
      InstantsStand(cfg, c, actions, 0, outcome);
      ParkedInstants(cfg, c, actions, 0, outcome);
    case _ =>
  }

  /** Pause holds: from a paused (or idle) state on, in every run that keeps the order and in which
      neither stopPause nor stopTeleop arrives, no action is started and no goal is sent, and without a
      goal outstanding the client stays at its node. */
  lemma {:induction false} NothingStartsWhilePaused(cfg: Config, c: Client, events: seq<Event>)
    requires !c.fault && !c.mode.Running? && AllowedRun(cfg, c, events) && KeepsOrderRun(cfg, c, events)
    requires forall i | 0 <= i < |events| :: NoRestart(events[i])
    ensures var d := Run(cfg, c, events); d.fault || Parked(c, d)
  {
    hide Step, Allowed, KeepsOrder, NoRestart;
    if events != [] {
      var before := events[..|events| - 1];
      NothingStartsWhilePaused(cfg, c, before);
      if Run(cfg, c, before).fault {
        FaultStays(cfg, Run(cfg, c, before), events[|events| - 1]);
      } else {
        ParkedStep(cfg, Run(cfg, c, before), events[|events| - 1]);
      }
    }
  }
}
