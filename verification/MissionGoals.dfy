/** Where goals go: the client stays where it is except through the navigation callbacks, each goal
    runs from the next node to the first stop, and the goals of an order tile its route. */
module MissionGoals {
  import opened Options
  import opened MissionTypes
  import opened MissionSpec
  import opened MissionViews
  import opened MissionInvariant
  import opened MissionScheduling
  import opened MissionCanceling
  import opened MissionPausing
  import opened MissionRuns

  // ----- What does not move the client -----

  /** None of the order's actions waits to be started. */
  ghost predicate NothingWaits(c: Client) {
    forall i | 0 <= i < c.pos.numActions && i < |c.agv.actionStates| :: !c.agv.actionStates[i].status.WAITING?
  }

  /** No move, no goal, and nothing made to wait. */
  ghost predicate Still(c: Client, d: Client) {
    && d.pos == c.pos && d.nav == c.nav && d.order == c.order && GoalsSent(d.calls) == GoalsSent(c.calls)
    && |d.agv.actionStates| == |c.agv.actionStates|
    && (NothingWaits(c) ==> NothingWaits(d))
  }

  /** No move, no goal, no start. */
  ghost predicate Quiet(c: Client, d: Client) {
    Still(c, d) && Starts(d.calls) == Starts(c.calls) && d.mode == c.mode
  }

  lemma QuietTwice(c: Client, d: Client, e: Client)
    requires Quiet(c, d) && Quiet(d, e)
    ensures Quiet(c, e)
  {
    hide NothingWaits;
  }

  lemma QuietCall(c: Client, call: Call)
    requires !call.Start? && !call.SendGoal?
    ensures Quiet(c, Called(c, call))
  {
    OneMoreCall(c.calls, call);
  }

  lemma UpdateQuiet(c: Client, id: ActionId, status: Status)
    requires !status.WAITING?
    ensures Quiet(c, Update(c, id, status)) && Update(c, id, status).req == c.req
  {
  }

  lemma FirstEvaluationQuiet(c: Client, id: ActionId)
    ensures Quiet(c, FirstEvaluation(c, id))
  {
    hide Update, StatusOf;
    UpdateQuiet(c, id, RUNNING);
    QuietCall(Update(c, id, RUNNING), CancelGoal);
  }

  lemma CancelRunningQuiet(cfg: Config, c: Client, id: ActionId, interrupted: set<ActionId>)
    ensures Quiet(c, CancelRunning(cfg, c, id, interrupted))
  {
    hide Update, GetAction;
    var d := c.(req := c.req.(canceledIds := c.req.canceledIds + {id}));
    QuietCall(d, CancelHandler(id));
    UpdateQuiet(Called(d, CancelHandler(id)), id, FAILED);
  }

  lemma {:induction false} SweepQuiet(cfg: Config, c: Client, i: nat, all: bool, interrupted: set<ActionId>)
    ensures Quiet(c, CancelActions(cfg, c, i, all, interrupted).0)
    decreases c.pos.numActions - i
  {
    hide Update, StatusOf, CancelRunning;
    if !c.fault && i < c.pos.numActions && i < |c.agv.actionStates| {
      var id := c.agv.actionStates[i].id;
      UpdateQuiet(c, id, FAILED);
      SweepQuiet(cfg, Update(c, id, FAILED), i + 1, all, interrupted);
      CancelRunningQuiet(cfg, c, id, interrupted);
      SweepQuiet(cfg, CancelRunning(cfg, c, id, interrupted), i + 1, false, interrupted);
      SweepQuiet(cfg, c, i + 1, all, interrupted);
    }
  }

  lemma PauseRunningQuiet(cfg: Config, c: Client, id: ActionId)
    ensures Quiet(c, PauseRunning(cfg, c, id))
  {
    hide GetAction;
    QuietCall(c.(req := c.req.(pausedIds := c.req.pausedIds + {id})), PauseHandler(id));
  }

  lemma {:induction false} PauseQuiet(cfg: Config, c: Client, i: nat, all: bool)
    ensures Quiet(c, PauseActions(cfg, c, i, all).0)
    decreases c.pos.numActions - i
  {
    hide PauseRunning, IndexOf;
    if !c.fault && i < c.pos.numActions && i < |c.agv.actionStates| {
      var id := c.agv.actionStates[i].id;
      PauseRunningQuiet(cfg, c, id);
      PauseQuiet(cfg, PauseRunning(cfg, c, id), i + 1, false);
      PauseQuiet(cfg, c, i + 1, all);
    }
  }

  lemma {:induction false} ResumeQuiet(cfg: Config, c: Client, i: nat)
    ensures Quiet(c, ResumeActions(cfg, c, i))
    decreases c.pos.numActions - i
  {
    hide Update, StatusOf, GetAction, Quiet, Called;
    QuietSelf(c);
    if !c.fault && i < c.pos.numActions && i < |c.agv.actionStates| {
      var id := c.agv.actionStates[i].id;
      var d := Update(c, id, RUNNING);
      var e := Called(d, ResumeHandler(id));
      ResumeQuiet(cfg, c, i + 1);
      UpdateQuiet(c, id, RUNNING);
      QuietSelf(d);
      QuietTwice(c, d, Faulted(d));
      QuietCall(d, ResumeHandler(id));
      QuietTwice(c, d, e);
      SameCount(c, e);
      ResumeQuiet(cfg, e, i + 1);
      QuietTwice(c, e, ResumeActions(cfg, e, i + 1));
    }
  }

  lemma QuietSelf(c: Client)
    ensures Quiet(c, c) && Quiet(c, Faulted(c))
  {
  }

  lemma SameCount(c: Client, d: Client)
    requires Quiet(c, d)
    ensures d.pos.numActions == c.pos.numActions
  {
  }

  lemma StartStill(c: Client, id: ActionId)
    ensures Still(c, Called(c, Start(id)))
  {
    OneMoreCall(c.calls, Start(id));
  }

  lemma StillTwice(c: Client, d: Client, e: Client, req: Requests)
    requires Still(c, d) && Still(d, e)
    ensures Still(c, e) && Still(c, e.(req := req))
  {
  }

  lemma ExecuteStill(cfg: Config, c: Client, a: Action, outcome: map<ActionId, StartedStatus>)
    ensures Still(c, ExecuteAction(cfg, c, a, outcome)) && ExecuteAction(cfg, c, a, outcome).mode == c.mode
  {
    UpdateQuiet(c, a.id, RUNNING);
    var u := Update(c, a.id, RUNNING);
    var d := Called(u, Start(a.id));
    StartStill(u, a.id);
    hide Update, GoalsSent, NothingWaits;
    StillTwice(c, u, d, d.req);
    var s := if a.kind.PauseOrder? then RUNNING else if a.kind !in cfg.handlers then FAILED
             else if a.id in outcome then outcome[a.id] else RUNNING;
    UpdateQuiet(d, a.id, s);
    var e := Update(d, a.id, s);
    StillTwice(c, d, e, e.req.(pauseOrder := true, pauseOrderId := a.id));
    StillTwice(c, d, e, e.req);
  }

  lemma {:induction false} ScanStill(cfg: Config, c: Client, actions: seq<Action>, i: nat, stop: bool, busy: bool,
                                     outcome: map<ActionId, StartedStatus>)
    requires i <= |actions|
    ensures Still(c, Scan(cfg, c, actions, i, stop, busy, outcome).0)
    decreases |actions| - i
  {
    hide ExecuteAction, IndexOf;
    if i < |actions| {
      ExecuteStill(cfg, c, actions[i], outcome);
      var p := PassAction(cfg, c, actions[i], stop, busy, outcome);
      if p.more {
        ScanStill(cfg, p.client, actions, i + 1, p.stop, p.busy, outcome);
      }
    }
  }

  lemma CancelStepStill(cfg: Config, c: Client, id: ActionId, interrupted: set<ActionId>)
    ensures Still(c, CancelOrderStep(cfg, c, id, interrupted))
    ensures Starts(CancelOrderStep(cfg, c, id, interrupted).calls) == Starts(c.calls)
  {
    hide Update, FirstEvaluation, CancelActions;
    FirstEvaluationQuiet(c, id);
    SweepQuiet(cfg, FirstEvaluation(c, id), 0, true, interrupted);
    UpdateQuiet(CancelActions(cfg, FirstEvaluation(c, id), 0, true, interrupted).0, id, FINISHED);
  }

  lemma PauseStepStill(cfg: Config, c: Client, id: ActionId)
    ensures Still(c, PauseOrderStep(cfg, c, id))
    ensures Starts(PauseOrderStep(cfg, c, id).calls) == Starts(c.calls)
  {
    hide Update, FirstEvaluation, PauseActions;
    FirstEvaluationQuiet(c, id);
    PauseQuiet(cfg, FirstEvaluation(c, id), 0, true);
    UpdateQuiet(PauseActions(cfg, FirstEvaluation(c, id), 0, true).0, id, FINISHED);
    UpdateQuiet(c, id, FINISHED);
    UpdateQuiet(c, id, FAILED);
  }

  /** An instant action never moves the client or sends a goal, and starts no action of the order. */
  ghost predicate Standing(c: Client, d: Client) {
    && d.pos.currentNode == c.pos.currentNode && d.nav == c.nav && d.order == c.order
    && (c.nav.Outstanding() ==> d.pos == c.pos) && d.pos.numActions == c.pos.numActions
    && (c.pos.numActions <= |c.agv.actionStates| && NothingWaits(c) ==> NothingWaits(d))
    && |d.agv.actionStates| >= |c.agv.actionStates|
    && GoalsSent(d.calls) == GoalsSent(c.calls) && Starts(d.calls) == Starts(c.calls)
  }

  lemma TeleopStands(c: Client, a: Action)
    requires !a.kind.StartTeleop? ==> !c.nav.Outstanding()
    ensures Standing(c, TeleopAction(c, a))
  {
    hide Update, GoalsSent, Starts;
    UpdateQuiet(c, a.id, RUNNING);
    var d := Update(c, a.id, RUNNING);
    if a.kind.StartTeleop? {
      var e := d.(mode := Paused, req := d.req.(pauseOrder := true));
      QuietCall(e, CancelGoal);
      UpdateQuiet(e, a.id, FINISHED);
      UpdateQuiet(Called(e, CancelGoal), a.id, FINISHED);
    } else {
      var e := d.(mode := Running, req := d.req.(pauseOrder := false));
      UpdateQuiet(e, e.req.pauseOrderId, FINISHED);
      var u := if e.req.pauseOrderId != NO_ID then Update(e, e.req.pauseOrderId, FINISHED) else e;
      UpdateQuiet(u.(req := u.req.(pauseOrderId := NO_ID),
                     pos := u.pos.(nextStop := u.pos.currentNode, reached := true)), a.id, FINISHED);
    }
  }

  lemma ResumeStands(cfg: Config, c: Client, id: ActionId)
    requires c.mode.Paused? ==> !c.nav.Outstanding()
    ensures Standing(c, ResumeOrder(cfg, c, id))
  {
    hide Update, GoalsSent, Starts, ResumeActions;
    UpdateQuiet(c, id, FAILED);
    UpdateQuiet(c, id, RUNNING);
    ResumeQuiet(cfg, Update(c, id, RUNNING), 0);
    var d := ResumeActions(cfg, Update(c, id, RUNNING), 0);
    UpdateQuiet(d.(mode := Running, pos := d.pos.(nextStop := d.pos.currentNode, reached := true)), id, FINISHED);
  }

  lemma InstantStands(cfg: Config, c: Client, a: Action, outcome: map<ActionId, StartedStatus>)
    requires InstantAllowed(c, a)
    ensures Standing(c, InstantAction(cfg, c, a, outcome))
  {
    hide Update, GoalsSent, Starts, PauseOrderStep, ResumeOrder, TeleopAction;
    match a.kind
    case CancelOrder => UpdateQuiet(c, a.id, FAILED);
    case StartTeleop => TeleopStands(c, a);
    case StopTeleop => TeleopStands(c, a);
    case FactsheetRequest =>
      UpdateQuiet(c, a.id, RUNNING);
      QuietCall(Update(c, a.id, RUNNING), PublishFactsheet);
      UpdateQuiet(Called(Update(c, a.id, RUNNING), PublishFactsheet), a.id, FINISHED);
    case StartPause => PauseStepStill(cfg, c.(req := c.req.(pauseAction := Some(a.id))), a.id);
    case StopPause => ResumeStands(cfg, c, a.id);
    case _ =>
      QuietCall(c, ExecuteInstant(a.id));
      if a.id in outcome {
        UpdateQuiet(Called(c, ExecuteInstant(a.id)), a.id, outcome[a.id]);
      }
  }

  lemma {:induction false} InstantsStand(cfg: Config, c: Client, actions: seq<Action>, i: nat,
                                         outcome: map<ActionId, StartedStatus>)
    requires i <= |actions| && forall k | i <= k < |actions| :: InstantAllowed(c, actions[k])
    ensures Standing(c, InstantActions(cfg, c, actions, i, true, outcome))
    decreases |actions| - i
  {
    hide InstantAction;
    if !c.fault && i < |actions| {
      if IndexOf(c.agv.actionStates, actions[i].id) < |c.agv.actionStates| {
        InstantsStand(cfg, c, actions, i + 1, outcome);
      } else {
        var d := c.(agv := c.agv.(actionStates := c.agv.actionStates + [ActionState(actions[i].id, WAITING)]));
        assert InstantAllowed(c, actions[i]);
        InstantStands(cfg, d, actions[i], outcome);
        SecondActionStands(cfg, InstantAction(cfg, d, actions[i], outcome), actions, i + 1, outcome);
      }
    }
  }

  lemma {:induction false} SecondActionStands(cfg: Config, c: Client, actions: seq<Action>, i: nat,
                                              outcome: map<ActionId, StartedStatus>)
    requires i <= |actions|
    ensures Standing(c, InstantActions(cfg, c, actions, i, false, outcome))
    decreases |actions| - i
  {
    hide InstantAction;
    if !c.fault && i < |actions| {
      if IndexOf(c.agv.actionStates, actions[i].id) < |c.agv.actionStates| {
        SecondActionStands(cfg, c, actions, i + 1, outcome);
      }
    }
  }

  // ----- Goals -----

  /** One goal: it starts at the next node and ends at the first node with actions, with zero
      allowed deviation, or at the end of the route; so no node strictly inside it is a stop. */
  ghost predicate GoalSpan(nodes: seq<Node>, n: nat, e: nat) {
    && n + 1 <= e < |nodes|
    && (nodes[e].actions != [] || nodes[e].deviation == 0.0 || e == |nodes| - 1)
    && forall m | n < m < e :: nodes[m].actions == [] && nodes[m].deviation != 0.0
  }

  /** A tick sends at most one goal, from the next node to the first stop after it, and then waits
      for an answer at the node where it is. */
  ghost predicate TickGoal(c: Client, d: Client) {
    && d.order == c.order && d.pos.currentNode == c.pos.currentNode
    && ((GoalsSent(d.calls) == GoalsSent(c.calls) && d.nav == c.nav
         && (c.nav.Outstanding() ==> d.pos.nextStop == c.pos.nextStop)) ||
        (&& d.order.Some? && !c.nav.Outstanding() && d.nav.goalRequested
         && GoalSpan(d.order.value.nodes, c.pos.currentNode, d.pos.nextStop)
         && GoalsSent(d.calls) == GoalsSent(c.calls) + [Span(c.pos.currentNode + 1, d.pos.nextStop + 1)]))
  }

  lemma GoalEndIsSpan(nodes: seq<Node>, n: nat)
    requires n + 1 < |nodes|
    ensures GoalSpan(nodes, n, GoalEnd(nodes, n + 1))
  {
    var e := GoalEnd(nodes, n + 1);
    forall m | n < m < e
      ensures nodes[m].actions == [] && nodes[m].deviation != 0.0
    {
      assert !StopsAt(nodes, m);
    }
  }

  /** The accounting: one more goal. */
  lemma GoalSentTick(c: Client, e: nat, poses: seq<nat>)
    requires c.order.Some? && !c.nav.Outstanding() && GoalSpan(c.order.value.nodes, c.pos.currentNode, e)
    requires poses == Span(c.pos.currentNode + 1, e + 1)
    ensures TickGoal(c, GoalSent(c, e, poses))
  {
    hide GoalSpan, GoalsSent;
    OneMoreCall(c.calls, SendGoal(poses));
  }

  lemma MovedTick(c: Client, d: Client)
    requires !c.nav.Outstanding() && d.nav == c.nav && d.order == c.order && d.calls == c.calls
    requires d.pos.currentNode == c.pos.currentNode
    ensures TickGoal(c, d) && forall e :: TickGoal(d, e) ==> TickGoal(c, e)
  {
    hide GoalSpan, GoalsSent;
  }

  /** The goal itself: nothing is sent, or the nodes up to the first stop. */
  lemma NavigateGoal(cfg: Config, c: Client, nodes: seq<Node>, world: Surroundings)
    requires c.order.Some? && c.order.value.nodes == nodes && !c.nav.Outstanding() && c.pos.currentNode + 1 < |nodes|
    ensures TickGoal(c, NavigateThroughPoses(cfg, c, nodes, world))
  {
    hide GoalSent, GoalSpan, StopsAt, TickGoal;
    var e := GoalEnd(nodes, c.pos.currentNode + 1);
    GoalEndIsSpan(nodes, c.pos.currentNode);
    GoalSentTick(c, e, Span(c.pos.currentNode + 1, e + 1));
    MovedTick(c, c);
    MovedTick(c, c.(pos := c.pos.(nextStop := c.pos.currentNode, reached := true)));
  }

  lemma AdvanceGoal(cfg: Config, c: Client, world: Surroundings)
    requires AtRest(c)
    ensures TickGoal(c, Advance(cfg, c, c.order.value.nodes, world))
  {
    AtRestHere(c);
    hide AtRest, HasOrder, Layout, NavigateThroughPoses, TickGoal;
    var nodes := c.order.value.nodes;
    var d := c.(pos := c.pos.(nextStop := c.pos.nextStop + 1, reached := false));
    MovedTick(c, d);
    MovedTick(c, c.(mode := Idle, pos := c.pos.(nextStop := c.pos.nextStop + 1)));
    if c.pos.currentNode + 1 < |nodes| {
      NavigateGoal(cfg, d, nodes, world);
    }
  }

  lemma ScheduleGoal(cfg: Config, c: Client, world: Surroundings)
    requires Inv(c) && !c.fault && c.mode.Running?
    ensures TickGoal(c, Schedule(cfg, c, world))
  {
    hide Scan, Advance, Sound, ReportsProgress, CancelsOnce, Settled;
    if !FatalFirst(c) && c.pos.reached {
      var actions := c.order.value.nodes[c.pos.currentNode].actions;
      ScanStill(cfg, c, actions, 0, false, false, world.outcome);
      ScanFromRest(cfg, c, world.outcome);
      var r := Scan(cfg, c, actions, 0, false, false, world.outcome);
      if r.1 {
        AdvanceGoal(cfg, r.0, world);
      }
    }
  }

  lemma TickSendsOneGoal(cfg: Config, c: Client, world: Surroundings)
    requires Inv(c) && !c.fault
    ensures TickGoal(c, ExecuteOrder(cfg, c, world))
  {
    hide MissionSound, NoMission, Layout, CancelOrderStep, PauseOrderStep, Schedule, GoalSpan, NothingWaits, GoalsSent,
         Starts;
    var d := AfterCancel(cfg, c, world);
    if c.req.cancelAction.Some? {
      CancelStepStill(cfg, c, c.req.cancelAction.value, world.interrupted);
      CancelKeepsInv(cfg, c, c.req.cancelAction.value, world.interrupted);
      CancelLeavesRequest(cfg, c, c.req.cancelAction.value, world.interrupted);
    }
    if !d.fault {
      if d.req.pauseAction.Some? {
        PauseStepStill(cfg, d, d.req.pauseAction.value);
        PauseKeepsInv(cfg, d, d.req.pauseAction.value);
      }
      var e := AfterPause(cfg, d);
      if !e.fault && e.mode.Running? {
        ScheduleGoal(cfg, e, world);
      }
    }
  }

  /** Within an order the current node never goes back, and the subtraction in the feedback callback
      does not wrap around. */
  lemma NeverBack(cfg: Config, c: Client, e: Event)
    requires Inv(c) && !c.fault && c.order.Some? && Allowed(c, e) && !e.OrderMsg?
    requires e.Feedback? ==> e.remaining <= 0x1_0000_0000_0000_0000
    ensures c.pos.currentNode <= Step(cfg, c, e).pos.currentNode
    ensures e.Feedback? ==> Step(cfg, c, e).pos.currentNode == c.pos.nextStop - e.remaining
  {
    hide ExecuteOrder, InstantActions, Sound, ReportsProgress, CancelsOnce, Settled;
    match e
    case Tick(world) => TickSendsOneGoal(cfg, c, world);
    case InstantMsg(actions, outcome) => InstantsStand(cfg, c, actions, 0, outcome);
    case _ =>
  }

  // ----- The goals of an order tile its route -----

  /** The goals sent so far cover the nodes after the first one up to where the robot is or is going,
      each exactly once and in order. */
  ghost predicate Tiled(c: Client) {
    c.order.Some? ==> Goals(c.calls) == Span(1, 1 + if c.nav.Outstanding() then c.pos.nextStop else c.pos.currentNode)
  }

  /** No goal is refused, canceled or lost. */
  predicate GoalsSucceed(e: Event) {
    (e.GoalResponse? ==> e.accepted) && (e.GoalResult? ==> e.code.Succeeded?)
  }

  lemma SpansJoin(a: nat, b: nat, d: nat)
    requires a <= b <= d
    ensures Span(a, b) + Span(b, d) == Span(a, d)
  {
  }

  lemma StepKeepsTiled(cfg: Config, c: Client, e: Event)
    requires Inv(c) && !c.fault && Allowed(c, e) && GoalsSucceed(e) && Tiled(c)
    requires e.Feedback? ==> e.remaining <= 0x1_0000_0000_0000_0000
    ensures Step(cfg, c, e).fault || Tiled(Step(cfg, c, e))
  {
    hide ExecuteOrder, InstantActions, Sound, ReportsProgress, CancelsOnce, Settled, GoalSpan, RequestsApart,
         NothingWaits, CanAcceptOrder;
    match e
    case Tick(world) =>
      TickSendsOneGoal(cfg, c, world);
      TickTiles(c, ExecuteOrder(cfg, c, world));
    case OrderMsg(order) => OrderTiles(c, order);
    case InstantMsg(actions, outcome) => InstantsStand(cfg, c, actions, 0, outcome);
    case _ =>
  }

  lemma OrderTiles(c: Client, order: Order)
    requires Inv(c) && !c.fault && Allowed(c, OrderMsg(order)) && Tiled(c)
    ensures Tiled(ReceiveOrder(c, order))
  {
    hide MissionSound, RequestsApart, Layout;
    AcceptIsSafe(c);
    var none: seq<Call> := [];
    assert Goals(none) == Span(1, 1);
  }

  lemma SpanAhead(c: Client, d: Client)
    ensures d.order.Some? && GoalSpan(d.order.value.nodes, c.pos.currentNode, d.pos.nextStop) ==>
              c.pos.currentNode < d.pos.nextStop
  {
  }

  lemma TickTiles(c: Client, d: Client)
    requires TickGoal(c, d) && Tiled(c)
    ensures Tiled(d)
  {
    SpanAhead(c, d);
    hide GoalSpan, GoalsSent, Span;
    OneMoreGoal(GoalsSent(c.calls), Span(c.pos.currentNode + 1, d.pos.nextStop + 1));
    var end := if c.pos.currentNode <= d.pos.nextStop then d.pos.nextStop + 1 else c.pos.currentNode + 1;
    SpansJoin(1, c.pos.currentNode + 1, end);
  }

  /** The order stays the current one. */
  lemma StepKeepsOrder(cfg: Config, c: Client, e: Event)
    requires Inv(c) && !c.fault && Allowed(c, e) && KeepsOrder(c, e)
    requires e.Feedback? ==> e.remaining <= 0x1_0000_0000_0000_0000
    ensures Step(cfg, c, e).order == c.order
  {
    hide ExecuteOrder, InstantActions, MissionSound, RequestsApart;
    match e
    case Tick(world) => TickSendsOneGoal(cfg, c, world);
    case InstantMsg(actions, outcome) => InstantsStand(cfg, c, actions, 0, outcome);
    case OrderMsg(order) => AcceptIsSafe(c);
    case _ =>
  }

  lemma {:induction false} RunKeepsOrder(cfg: Config, c: Client, events: seq<Event>)
    requires Inv(c) && AllowedRun(cfg, c, events) && KeepsOrderRun(cfg, c, events)
    ensures Run(cfg, c, events).order == c.order
  {
    hide Inv, Step, Allowed, KeepsOrder;
    if events != [] {
      var before := events[..|events| - 1];
      RunKeepsOrder(cfg, c, before);
      RunKeepsInv(cfg, c, before);
      if Run(cfg, c, before).fault {
        FaultStays(cfg, Run(cfg, c, before), events[|events| - 1]);
      } else {
        StepKeepsOrder(cfg, Run(cfg, c, before), events[|events| - 1]);
      }
    }
  }

  /** Tiling holds throughout every run in which goals succeed. */
  lemma {:induction false} RunKeepsTiled(cfg: Config, c: Client, events: seq<Event>)
    requires Inv(c) && Tiled(c) && AllowedRun(cfg, c, events) && forall i | 0 <= i < |events| :: GoalsSucceed(events[i])
    ensures var d := Run(cfg, c, events); d.fault || Tiled(d)
  {
    hide Inv, Step, Allowed, Tiled;
    if events != [] {
      var before := events[..|events| - 1];
      RunKeepsTiled(cfg, c, before);
      RunKeepsInv(cfg, c, before);
      if !Run(cfg, c, before).fault {
        StepKeepsTiled(cfg, Run(cfg, c, before), events[|events| - 1]);
      } else {
        FaultStays(cfg, Run(cfg, c, before), events[|events| - 1]);
      }
    }
  }

  lemma FaultStays(cfg: Config, c: Client, e: Event)
    requires c.fault && (e.Feedback? ==> e.remaining <= 0x1_0000_0000_0000_0000)
    ensures Step(cfg, c, e) == c
  {
  }

  lemma AcceptedIsTiled(cfg: Config, c: Client, order: Order)
    requires Inv(c) && !c.fault && Allowed(c, OrderMsg(order)) && CanAcceptOrder(c).0 && |order.nodes| > 0
    ensures var d := Step(cfg, c, OrderMsg(order)); !d.fault && d.order == Some(order) && Tiled(d)
  {
    hide MissionSound, RequestsApart, Layout;
    AcceptIsSafe(c);
    var none: seq<Call> := [];
    assert Goals(none) == Span(1, 1);
  }

  /** An order whose goals all succeed is driven exactly once: when it is completed, its goals, put end
      to end, are the nodes 1, 2, ..., n-1. */
  lemma GoalsTileTheRoute(cfg: Config, c: Client, order: Order, events: seq<Event>)
    requires Inv(c) && !c.fault && Allowed(c, OrderMsg(order)) && CanAcceptOrder(c).0 && |order.nodes| > 0
    requires var d := Step(cfg, c, OrderMsg(order)); AllowedRun(cfg, d, events) && KeepsOrderRun(cfg, d, events)
    requires forall i | 0 <= i < |events| :: GoalsSucceed(events[i])
    ensures var d := Run(cfg, Step(cfg, c, OrderMsg(order)), events);
            !d.fault && d.pos.nextStop == |order.nodes| ==>
              d.order == Some(order) && Goals(d.calls) == Span(1, |order.nodes|)
  {
    hide Step, Allowed, KeepsOrderRun, Inv;
    AcceptedIsTiled(cfg, c, order);
    StepKeepsInv(cfg, c, OrderMsg(order));
    var d := Step(cfg, c, OrderMsg(order));
    RunKeepsTiled(cfg, d, events);
    RunKeepsOrder(cfg, d, events);
    RunKeepsInv(cfg, d, events);
    var e := Run(cfg, d, events);
    if !e.fault && e.pos.nextStop == |order.nodes| {
      CompletedHere(e);
    }
  }

  lemma CompletedHere(c: Client)
    requires Inv(c) && !c.fault && c.order.Some? && c.pos.nextStop == |c.order.value.nodes|
    ensures !c.nav.Outstanding() && c.pos.currentNode + 1 == |c.order.value.nodes|
  {
  }
}
