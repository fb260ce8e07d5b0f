/** Runs of the mission client: what the environment may do, and that every callback keeps the
    invariant. */
module MissionRuns {
  import opened Options
  import opened MissionTypes
  import opened MissionSpec
  import opened MissionViews
  import opened MissionInvariant
  import opened MissionScheduling
  import opened MissionCanceling
  import opened MissionPausing

  // ----- The environment -----

  ghost predicate NotListed(states: seq<ActionState>, id: ActionId) {
    forall i | 0 <= i < |states| :: states[i].id != id
  }

  /** A new order's action ids are new: distinct, and not those of instant actions in progress. */
  ghost predicate FreshOrder(c: Client, order: Order) {
    var flat := Flat(order.nodes);
    && (forall i, j | 0 <= i < j < |flat| :: flat[i].id != flat[j].id)
    && (forall i | 0 <= i < |flat| ::
          && NotListed(Carried(c), flat[i].id)
          && c.req.cancelAction != Some(flat[i].id)
          && c.req.pauseAction != Some(flat[i].id)
          && (c.req.pauseOrderId != NO_ID ==> c.req.pauseOrderId != flat[i].id))
  }

  /** The client has an order that it has not completed. */
  predicate InProgress(c: Client) {
    c.order.Some? && c.pos.nextStop < |c.order.value.nodes|
  }

  /** The instant actions that the client copes with (InstantKeepsInvIff). */
  predicate InstantAllowed(c: Client, a: Action) {
    match a.kind
    case StartTeleop => InProgress(c)
    case StopTeleop => c.order.Some? && !c.nav.Outstanding()
    case StopPause => c.mode.Paused? ==> !c.nav.Outstanding()
    case _ => true
  }

  /** What may happen next.  Handlers update only actions they were given, never back to WAITING and
      never to PAUSED; an action that has ended stays so, though its status may still change from one
      ending to the other.  They do not touch the client's own requests; they may report errors at
      any time.  The navigation server answers goal requests and reports on the goal in progress,
      never more poses left than before.  The ids of an order that is taken are new. */
  ghost predicate Sensible(c: Client, e: Event) {
    match e
    case OrderMsg(order) => CanAcceptOrder(c).0 && |order.nodes| > 0 ==> FreshOrder(c, order)
    case GoalResponse(accepted) => c.nav.goalRequested
    case Feedback(remaining) =>
      c.nav.navHandle && remaining + c.pos.currentNode <= c.pos.nextStop && remaining <= 0x1_0000_0000_0000_0000
    case GoalResult(code) => c.nav.navHandle
    case HandlerUpdate(id, status) =>
      && c.req.cancelAction != Some(id) && c.req.pauseAction != Some(id)
      && (status.Active() || status.Ended())
      && forall i | 0 <= i < c.pos.numActions && i < |c.agv.actionStates| && c.agv.actionStates[i].id == id ::
           i < |Starts(c.calls)| && (c.agv.actionStates[i].status.Ended() ==> status.Ended())
    case _ => true
  }

  /** Of these, what the client copes with (StepKeepsInvIff): a new order is not accepted while a goal is
      outstanding; a goal is aborted only at the node that the client then takes the robot to be at;
      teleoperation starts only during an order and stops only after one, and driving resumes (after
      teleoperation or a pause) only when no goal is outstanding. */
  ghost predicate Allowed(c: Client, e: Event) {
    && Sensible(c, e)
    && match e
       case OrderMsg(order) => CanAcceptOrder(c).0 && |order.nodes| > 0 ==> !c.nav.Outstanding()
       case InstantMsg(actions, outcome) => forall k | 0 <= k < |actions| :: InstantAllowed(c, actions[k])
       case GoalResult(code) => code.Aborted? ==> c.pos.currentNode == 1
       case _ => true
  }

  // ----- Ticks -----

  lemma CancelLeavesRequest(cfg: Config, c: Client, id: ActionId, interrupted: set<ActionId>)
    requires Inv(c) && !c.fault && Foreign(c, id)
    ensures var d := CancelOrderStep(cfg, c, id, interrupted);
            !d.fault ==> d.nav == c.nav && d.order == c.order && d.req.pauseAction == c.req.pauseAction
  {
    if !c.mode.Idle? {
      var e := FirstEvaluation(c, id);
      FirstEvaluationKeeps(c, id);
      SweepFromRest(e);
      SweepKeeps(cfg, e, e, 0, true, interrupted);
    }
  }

  lemma TickKeepsInv(cfg: Config, c: Client, world: Surroundings)
    requires Inv(c) && !c.fault
    ensures Inv(ExecuteOrder(cfg, c, world))
  {
    hide MissionSound, NoMission, CancelOrderStep, PauseOrderStep, Schedule, Layout;
    var d := AfterCancel(cfg, c, world);
    if c.req.cancelAction.Some? {
      CancelKeepsInv(cfg, c, c.req.cancelAction.value, world.interrupted);
      CancelLeavesRequest(cfg, c, c.req.cancelAction.value, world.interrupted);
    }
    if !d.fault {
      if d.req.pauseAction.Some? {
        PauseKeepsInv(cfg, d, d.req.pauseAction.value);
      }
      var e := AfterPause(cfg, d);
      if !e.fault && e.mode.Running? {
        ScheduleKeepsInv(cfg, e, world);
      }
    }
  }

  // ----- Orders -----

  lemma {:induction false} UnfinishedKept(states: seq<ActionState>)
    requires DistinctIds(states)
    ensures DistinctIds(Unfinished(states))
    ensures forall i | 0 <= i < |Unfinished(states)| :: Unfinished(states)[i] in states
  {
    if states != [] {
      var front := states[..|states| - 1];
      UnfinishedKept(front);
      assert states == front + [states[|states| - 1]];
      forall i | 0 <= i < |Unfinished(front)|
        ensures Unfinished(front)[i].id != states[|states| - 1].id
      {
        var j :| 0 <= j < |front| && front[j] == Unfinished(front)[i];
        assert states[j].id != states[|states| - 1].id;
      }
    }
  }

  lemma CarriedDistinct(c: Client)
    requires DistinctIds(c.agv.actionStates)
    ensures DistinctIds(Carried(c))
  {
    var states := c.agv.actionStates;
    UnfinishedKept(if c.pos.numActions <= |states| then states[c.pos.numActions..] else states);
  }

  /** A new order starts out at its first node with nothing begun. */
  lemma InitIsSound(c: Client, order: Order)
    requires |order.nodes| > 0 && DistinctIds(c.agv.actionStates) && FreshOrder(c, order) && !c.nav.Outstanding()
    ensures Inv(InitAGVState(c, order))
  {
    var d := InitAGVState(c, order);
    var flat := Flat(order.nodes);
    CarriedDistinct(c);
    assert HasOrder(d);
    var v := ViewOf(d);
    assert forall i | 0 <= i < |v.status| :: v.status[i].WAITING?;
    assert v.started == Ids(flat)[..0];
    assert InRouteOrder(v, 0);
  }

  lemma AddErrorKeepsInv(c: Client, level: Level)
    requires Inv(c) && !c.fault
    ensures Inv(ErrorAdded(c, level))
  {
    var d := ErrorAdded(c, level);
    if c.order.Some? {
      assert ViewOf(d) == ViewOf(c);
      CancelsKept(c, d);
    }
  }

  lemma EndOrderKeepsInv(c: Client)
    requires Inv(c) && !c.fault
    ensures Inv(c.(mode := Idle))
  {
    if c.order.Some? {
      assert ViewOf(c.(mode := Idle)) == ViewOf(c);
      CancelsKept(c, c.(mode := Idle));
    }
  }

  lemma AcceptIsSafe(c: Client)
    requires Inv(c) && !c.fault
    ensures !CanAcceptOrder(c).1.fault
    ensures CanAcceptOrder(c).1 == c || CanAcceptOrder(c).1 == c.(mode := Idle)
  {
  }

  lemma OrderKeepsInv(c: Client, order: Order)
    requires Inv(c) && !c.fault && Allowed(c, OrderMsg(order))
    ensures Inv(ReceiveOrder(c, order))
  {
    hide MissionSound, Layout;
    AcceptIsSafe(c);
    var (accepted, d) := CanAcceptOrder(c);
    EndOrderKeepsInv(c);
    assert Inv(d);
    if accepted {
      if |order.nodes| > 0 {
        LayoutDistinct(c);
        InitIsSound(d, order);
      }
    } else {
      AddErrorKeepsInv(d, WARNING);
    }
  }

  lemma LayoutDistinct(c: Client)
    requires Layout(c)
    ensures DistinctIds(c.agv.actionStates)
  {
  }

  // ----- Navigation -----

  lemma ResponseKeepsInv(c: Client, accepted: bool)
    requires Inv(c) && !c.fault && c.nav.goalRequested
    ensures Inv(GoalResponded(c, accepted)) && !GoalResponded(c, accepted).fault
  {
    var d := GoalResponded(c, accepted);
    assert ViewOf(d) == ViewOf(c);
    CancelsKept(c, d);
  }

  /** On the way along a goal every node passed is done. */
  lemma PassedIsSettled(v: View, a: nat, n: nat, end: nat)
    requires Sound(v, a) && Settled(v, v.Begun()) && a <= n <= end < |v.nodes|
    requires v.Begun() == Offset(v.nodes, end) || v.CutShort()
    requires forall m | a < m < end :: v.nodes[m].actions == []
    ensures Sound(v, n)
  {
    OffsetMonotone(v.nodes, n, end);
    OffsetMonotone(v.nodes, a + 1, n + 1);
    if a < n {
      OffsetSkips(v.nodes, a + 1, n);
    }
    forall i | 0 <= i < Offset(v.nodes, n) && i < |v.status|
      ensures v.Actions()[i].Blocks() ==> v.status[i].Ended()
    {
      if i >= v.Begun() {
        assert v.CutShort() && v.status[i].FAILED?;
      }
    }
  }

  lemma ReportMoves(c: Client, n: nat)
    requires HasOrder(c) && ReportsProgress(c) && c.pos.currentNode <= n < |c.order.value.nodes|
    ensures var d := AtNode(c, c.order.value.nodes, n);
            HasOrder(d) && ReportsProgress(d) && ViewOf(d) == ViewOf(c)
  {
    var d := AtNode(c, c.order.value.nodes, n);
    assert ViewOf(d) == ViewOf(c);
  }

  /** Moving on along the goal, up to its end. */
  lemma MoveAlong(c: Client, n: nat)
    requires Inv(c) && !c.fault && c.nav.navHandle && c.pos.currentNode <= n <= c.pos.nextStop
    ensures var d := AtNode(c, c.order.value.nodes, n);
            && HasOrder(d) && ViewOf(d) == ViewOf(c) && RequestsApart(d)
            && Sound(ViewOf(d), n) && ReportsProgress(d) && CancelsOnce(d)
  {
    ReportMoves(c, n);
    CancelsKept(c, AtNode(c, c.order.value.nodes, n));
    PassedIsSettled(ViewOf(c), c.pos.currentNode, n, c.pos.nextStop);
  }

  lemma StillDriving(c: Client, n: nat)
    requires Inv(c) && !c.fault && c.nav.navHandle && c.pos.currentNode <= n <= c.pos.nextStop
    ensures Inv(AtNode(c, c.order.value.nodes, n))
  {
    hide Sound, ReportsProgress, CancelsOnce;
    MoveAlong(c, n);
  }

  lemma FeedbackKeepsInv(c: Client, remaining: nat)
    requires Inv(c) && !c.fault && Allowed(c, Feedback(remaining))
    ensures Inv(FeedbackReceived(c, remaining)) && !FeedbackReceived(c, remaining).fault
  {
    hide Sound, ReportsProgress, CancelsOnce, RequestsApart;
    StillDriving(c, c.pos.nextStop - remaining);
    var d := AtNode(c, c.order.value.nodes, c.pos.nextStop - remaining);
    assert d.(agv := d.agv.(driving := true)) == d;
  }

  lemma ArrivalKeepsInv(c: Client)
    requires Inv(c) && !c.fault && c.nav.navHandle
    ensures Inv(GoalFinished(c, Succeeded)) && !GoalFinished(c, Succeeded).fault
  {
    hide Sound, ReportsProgress, RequestsApart;
    MoveAlong(c, c.pos.nextStop);
    var d := GoalFinished(c, Succeeded);
    assert ViewOf(d) == ViewOf(c);
    CancelsKept(c, d);
    ArrivalReports(c, d);
  }

  lemma ArrivalReports(c: Client, d: Client)
    requires HasOrder(c) && HasOrder(d) && c.pos.nextStop < |c.order.value.nodes| && ViewOf(d) == ViewOf(c)
    requires var e := AtNode(c, c.order.value.nodes, c.pos.nextStop);
             && HasOrder(e) && ReportsProgress(e) && RequestsApart(e)
             && d.order == e.order && d.req == e.req && d.calls == e.calls && d.pos.currentNode == e.pos.currentNode
             && d.agv == e.agv.(driving := false)
    ensures ReportsProgress(d) && RequestsApart(d)
  {
  }

  /** The goal is given up: the robot stands still, not at a stop. */
  lemma GoalGone(c: Client)
    requires Inv(c) && !c.fault && c.nav.navHandle
    ensures Inv(c.(nav := c.nav.(navHandle := false), agv := c.agv.(driving := false)))
  {
    var d := c.(nav := c.nav.(navHandle := false), agv := c.agv.(driving := false));
    assert ViewOf(d) == ViewOf(c);
    CancelsKept(c, d);
  }

  lemma HasNodes(c: Client)
    requires Inv(c) && !c.fault && c.nav.Outstanding()
    ensures c.order.Some? && c.pos.currentNode <= c.pos.nextStop < |c.order.value.nodes|
  {
  }

  lemma ResultKeepsInv(c: Client, code: ResultCode)
    requires Inv(c) && !c.fault && Allowed(c, GoalResult(code))
    ensures Inv(GoalFinished(c, code)) && !GoalFinished(c, code).fault
  {
    hide Inv, AtNode;
    HasNodes(c);
    if code.Succeeded? {
      ArrivalKeepsInv(c);
    } else {
      NotBoth(c);
      GoalGone(c);
      var d := c.(nav := c.nav.(navHandle := false), agv := c.agv.(driving := false));
      AddErrorKeepsInv(d, FATAL);
      assert code.Aborted? ==> d.pos.(currentNode := 1) == d.pos;
    }
  }

  /** An aborted goal takes the client to node 1.  Nothing breaks, since a goal needs a second node;
      but the bookkeeping stays sound exactly when the robot was reported at that node anyway. */
  lemma AbortKeepsInvIff(c: Client)
    requires Inv(c) && !c.fault && c.nav.navHandle
    ensures !GoalFinished(c, Aborted).fault
    ensures Inv(GoalFinished(c, Aborted)) <==> c.pos.currentNode == 1
  {
    var d := GoalFinished(c, Aborted);
    NodeStatesLeft(c);
    if c.pos.currentNode == 1 {
      ResultKeepsInv(c, Aborted);
    } else {
      hide Sound, CancelsOnce, RequestsApart, OnRoute;
      assert Layout(d) && d.order.Some?;
      if ReportsProgress(d) {
        NodeStatesLeft(d);
      }
    }
  }

  lemma NodeStatesLeft(c: Client)
    requires HasOrder(c) && ReportsProgress(c)
    ensures |c.agv.nodeStates| == |c.order.value.nodes| - c.pos.currentNode - 1
  {
  }

  lemma NotBoth(c: Client)
    requires Inv(c) && !c.fault
    ensures !(c.nav.goalRequested && c.nav.navHandle)
  {
  }

  // ----- Handlers -----

  lemma HandlerKeepsInv(c: Client, id: ActionId, status: Status)
    requires Inv(c) && !c.fault && Allowed(c, HandlerUpdate(id, status))
    ensures Inv(Update(c, id, status))
  {
    if i :| c.order.Some? && 0 <= i < |Flat(c.order.value.nodes)| && Flat(c.order.value.nodes)[i].id == id {
      assert c.agv.actionStates[i].id == id;
      BegunMoves(c, i, status);
      OwnUpdateKeepsInv(c, i, status);
    } else {
      UpdateForeignKeepsInv(c, id, status);
    }
  }

  /** An action begun is running or over. */
  lemma BegunMoves(c: Client, i: nat, status: Status)
    requires HasOrder(c) && InRouteOrder(ViewOf(c), c.pos.currentNode) && i < c.pos.numActions && i < |Starts(c.calls)|
    requires status.Active() || status.Ended()
    requires c.agv.actionStates[i].status.Ended() ==> status.Ended()
    ensures ViewOf(c).status[i] == c.agv.actionStates[i].status && MovesOn(true, ViewOf(c).status[i], status)
  {
    assert i < ViewOf(c).Begun();
  }

  lemma OwnUpdateKeepsInv(c: Client, i: nat, status: Status)
    requires Inv(c) && !c.fault && c.order.Some? && i < c.pos.numActions && i < |Starts(c.calls)|
    requires MovesOn(true, ViewOf(c).status[i], status)
    ensures Inv(Update(c, Flat(c.order.value.nodes)[i].id, status))
  {
    var v := ViewOf(c);
    var d := Update(c, Flat(c.order.value.nodes)[i].id, status);
    UpdateOwn(c, i, status);
    MovedOnKeepsInv(c, d, v.status[i := status]);
  }

  lemma MovedOnKeepsInv(c: Client, d: Client, t: seq<Status>)
    requires Inv(c) && !c.fault && c.order.Some? && HasOrder(d) && !d.fault
    requires d.mode == c.mode && d.order == c.order && d.pos == c.pos && d.nav == c.nav && d.req == c.req
             && d.calls == c.calls
    requires d.agv == c.agv.(actionStates := d.agv.actionStates)
    requires AllMoveOn(ViewOf(c), t) && ViewOf(d) == ViewOf(c).(status := t)
    ensures Inv(d)
  {
    var v := ViewOf(c);
    MovingOnKeepsSound(v, c.pos.currentNode, t);
    if c.nav.Outstanding() {
      MovingOnKeepsSettled(v, t, v.Begun());
    }
    assert forall j | 0 <= j < v.Begun() && j < |t| :: MovesOn(true, v.status[j], t[j]);
    CancelsKept(c, d);
  }

  // ----- Instant actions -----

  lemma AppendKeepsInv(c: Client, id: ActionId)
    requires Inv(c) && !c.fault && IndexOf(c.agv.actionStates, id) == |c.agv.actionStates|
    ensures var d := c.(agv := c.agv.(actionStates := c.agv.actionStates + [ActionState(id, WAITING)]));
            Inv(d) && Foreign(d, id)
  {
    var d := c.(agv := c.agv.(actionStates := c.agv.actionStates + [ActionState(id, WAITING)]));
    if c.order.Some? {
      assert HasOrder(d) by {
        assert forall i | 0 <= i < |c.agv.actionStates| :: d.agv.actionStates[i] == c.agv.actionStates[i];
      }
      assert ViewOf(d).status == ViewOf(c).status;
      assert SameMission(c, d);
      SameMissionSound(c, d);
      var flat := Flat(c.order.value.nodes);
      forall i | 0 <= i < |flat|
        ensures flat[i].id != id
      {
        assert c.agv.actionStates[i].id == flat[i].id;
      }
    }
  }

  /** A change of requests, mode or calls that the invariant does not see. */
  lemma OnlyRequests(c: Client, req: Requests, mode: Mode, call: Call)
    requires Inv(c) && !c.fault
    requires mode == c.mode || InProgress(c)
    requires !call.Start? && !call.CancelHandler?
    requires req.canceledIds == c.req.canceledIds
    requires req.cancelAction.Some? ==> Foreign(c, req.cancelAction.value)
    requires req.pauseAction.Some? ==> Foreign(c, req.pauseAction.value)
    requires req.pauseOrderId == NO_ID || req.pauseOrderId == c.req.pauseOrderId
    ensures Inv(c.(req := req, mode := mode)) && Inv(Called(c.(req := req, mode := mode), call))
  {
    hide Inv, Foreign;
    RequestsReplaced(c, req, mode);
    CallAdded(c.(req := req, mode := mode), call);
  }

  lemma RequestsReplaced(c: Client, req: Requests, mode: Mode)
    requires Inv(c) && !c.fault
    requires mode == c.mode || InProgress(c)
    requires req.canceledIds == c.req.canceledIds
    requires req.cancelAction.Some? ==> Foreign(c, req.cancelAction.value)
    requires req.pauseAction.Some? ==> Foreign(c, req.pauseAction.value)
    requires req.pauseOrderId == NO_ID || req.pauseOrderId == c.req.pauseOrderId
    ensures Inv(c.(req := req, mode := mode))
  {
    hide Sound;
    var d := c.(req := req, mode := mode);
    if c.order.Some? {
      assert ViewOf(d) == ViewOf(c);
      CancelsKept(c, d);
    }
  }

  lemma CallAdded(c: Client, call: Call)
    requires Inv(c) && !c.fault && !call.Start? && !call.CancelHandler?
    ensures Inv(Called(c, call))
  {
    hide MissionSound, RequestsApart, Starts, Cancels, GoalsSent;
    OneMoreCall(c.calls, call);
    StaysApart(c, Called(c, call));
    if c.order.Some? {
      SameView(c, call);
      SameMissionSound(c, Called(c, call));
    }
  }

  lemma StartTeleopKeepsInv(c: Client, a: Action)
    requires Inv(c) && !c.fault && Foreign(c, a.id) && InProgress(c) && a.kind.StartTeleop?
    ensures Inv(TeleopAction(c, a))
  {
    hide Inv;
    RequestsForeign(c);
    UpdateForeignKeepsInv(c, a.id, RUNNING);
    var d := Update(c, a.id, RUNNING);
    var e := d.(mode := Paused, req := d.req.(pauseOrder := true));
    OnlyRequests(d, e.req, Paused, CancelGoal);
    UpdateForeignKeepsInv(e, a.id, FINISHED);
    UpdateForeignKeepsInv(Called(e, CancelGoal), a.id, FINISHED);
  }

  lemma RequestsForeign(c: Client)
    requires Inv(c) && !c.fault
    ensures c.req.cancelAction.Some? ==> Foreign(c, c.req.cancelAction.value)
    ensures c.req.pauseAction.Some? ==> Foreign(c, c.req.pauseAction.value)
    ensures !c.mode.Idle? ==> c.order.Some?
  {
  }

  /** Ending a pause_order action, if one is on. */
  lemma EndPauseOrder(e: Client)
    requires Inv(e) && !e.fault && e.req.pauseOrderId != NO_ID
    ensures Inv(Update(e, e.req.pauseOrderId, FINISHED))
  {
    var id := e.req.pauseOrderId;
    if i :| e.order.Some? && 0 <= i < |Flat(e.order.value.nodes)| && Flat(e.order.value.nodes)[i].id == id {
      var s := ViewOf(e).status[i];
      assert s.Active() || s.Ended();
      OwnUpdateKeepsInv(e, i, FINISHED);
    } else {
      UpdateForeignKeepsInv(e, e.req.pauseOrderId, FINISHED);
    }
  }

  lemma StopTeleopKeepsInv(c: Client, a: Action)
    requires Inv(c) && !c.fault && Foreign(c, a.id) && c.order.Some? && !c.nav.Outstanding() && !a.kind.StartTeleop?
    ensures Inv(TeleopAction(c, a))
  {
    hide Inv;
    UpdateForeignKeepsInv(c, a.id, RUNNING);
    var d := Update(c, a.id, RUNNING);
    RestartHere(d);
    var r := d.(mode := Running, pos := d.pos.(nextStop := d.pos.currentNode, reached := true));
    RequestsForeign(r);
    RequestsReplaced(r, r.req.(pauseOrder := false), Running);
    var e := r.(req := r.req.(pauseOrder := false), mode := Running);
    if e.req.pauseOrderId != NO_ID {
      EndPauseOrder(e);
    }
    var u := if e.req.pauseOrderId != NO_ID then Update(e, e.req.pauseOrderId, FINISHED) else e;
    RequestsForeign(u);
    RequestsReplaced(u, u.req.(pauseOrderId := NO_ID), Running);
    var f := u.(req := u.req.(pauseOrderId := NO_ID), mode := Running);
    UpdateForeignKeepsInv(f, a.id, FINISHED);
    TeleopStopsAs(c, a, f);
  }

  lemma TeleopStopsAs(c: Client, a: Action, f: Client)
    requires !a.kind.StartTeleop?
    requires var d := Update(c, a.id, RUNNING);
             var e := d.(mode := Running, req := d.req.(pauseOrder := false),
                         pos := d.pos.(nextStop := d.pos.currentNode, reached := true));
             var u := if e.req.pauseOrderId != NO_ID then Update(e, e.req.pauseOrderId, FINISHED) else e;
             f == u.(req := u.req.(pauseOrderId := NO_ID), mode := Running)
    ensures TeleopAction(c, a) == Update(f, a.id, FINISHED)
  {
  }

  lemma InstantKeepsInv(cfg: Config, c: Client, a: Action, outcome: map<ActionId, StartedStatus>)
    requires Inv(c) && !c.fault && Foreign(c, a.id) && InstantAllowed(c, a)
    ensures Inv(InstantAction(cfg, c, a, outcome))
  {
    hide Inv, TeleopAction, PauseOrderStep, ResumeOrder;
    RequestsForeign(c);
    match a.kind
    case CancelOrder =>
      UpdateForeignKeepsInv(c, a.id, FAILED);
      var u := if c.req.cancelAction.Some? then Update(c, a.id, FAILED) else c;
      OnlyRequests(u, u.req.(cancelAction := Some(a.id)), u.mode, CancelGoal);
      assert u.(req := u.req.(cancelAction := Some(a.id)), mode := u.mode)
             == u.(req := u.req.(cancelAction := Some(a.id)));
    case StartTeleop => StartTeleopKeepsInv(c, a);
    case StopTeleop => StopTeleopKeepsInv(c, a);
    case FactsheetRequest =>
      UpdateForeignKeepsInv(c, a.id, RUNNING);
      CallAdded(Update(c, a.id, RUNNING), PublishFactsheet);
      UpdateForeignKeepsInv(Called(Update(c, a.id, RUNNING), PublishFactsheet), a.id, FINISHED);
    case StartPause =>
      var p := c.(req := c.req.(pauseAction := Some(a.id)));
      OnlyRequests(c, p.req, c.mode, CancelGoal);
      assert c.(req := p.req, mode := c.mode) == p;
      PauseKeepsInv(cfg, p, a.id);
    case StopPause => ResumeKeepsInv(cfg, c, a.id);
    case _ =>
      CallAdded(c, ExecuteInstant(a.id));
      if a.id in outcome {
        UpdateForeignKeepsInv(Called(c, ExecuteInstant(a.id)), a.id, outcome[a.id]);
      }
  }

  // ----- What the client does not cope with -----

  lemma MidGoalUnsound(c: Client)
    requires c.order.Some? && c.nav.Outstanding() && c.pos.reached && !c.fault
    ensures !Inv(c)
  {
  }

  /** Resuming after a pause is sound exactly when no goal is requested or in progress. */
  lemma ResumeKeepsInvIff(cfg: Config, c: Client, id: ActionId)
    requires Inv(c) && !c.fault && Foreign(c, id) && c.mode.Paused?
    ensures var d := ResumeOrder(cfg, c, id);
            && !d.fault && d.mode.Running? && d.nav == c.nav && d.order == c.order && d.order.Some?
            && d.pos == c.pos.(nextStop := c.pos.currentNode, reached := true)
            && (Inv(d) <==> !c.nav.Outstanding())
  {
    hide MissionSound, RequestsApart, Update;
    RequestsForeign(c);
    var u := Update(c, id, RUNNING);
    UpdateForeign(c, id, RUNNING);
    UpdateFrame(c, id, RUNNING);
    NothingPaused(cfg, c, u);
    var e := u.(mode := Running, pos := u.pos.(nextStop := u.pos.currentNode, reached := true));
    UpdateFrame(e, id, FINISHED);
    if c.nav.Outstanding() {
      MidGoalUnsound(ResumeOrder(cfg, c, id));
    } else {
      ResumeKeepsInv(cfg, c, id);
    }
  }

  lemma NothingPaused(cfg: Config, c: Client, u: Client)
    requires Inv(c) && !c.fault && HasOrder(c) && HasOrder(u) && ViewOf(u) == ViewOf(c) && u.pos == c.pos && !u.fault
    ensures ResumeActions(cfg, u, 0) == u
  {
    NothingToResume(cfg, u, 0);
  }

  /** Starting teleoperation is sound exactly during an order that is not completed. */
  lemma StartTeleopKeepsInvIff(c: Client, a: Action)
    requires Inv(c) && !c.fault && Foreign(c, a.id) && a.kind.StartTeleop?
    ensures !TeleopAction(c, a).fault
    ensures Inv(TeleopAction(c, a)) <==> InProgress(c)
  {
    if InProgress(c) {
      StartTeleopKeepsInv(c, a);
    } else {
      hide MissionSound, Layout, RequestsApart, SetStatus;
      PausedUnsound(TeleopAction(c, a));
    }
  }

  lemma PausedUnsound(c: Client)
    requires !c.fault && c.mode.Paused? && !InProgress(c)
    ensures !Inv(c)
  {
  }

  /** Stopping teleoperation is sound exactly with an order and no goal requested or in progress. */
  lemma StopTeleopKeepsInvIff(c: Client, a: Action)
    requires Inv(c) && !c.fault && Foreign(c, a.id) && a.kind.StopTeleop?
    ensures var d := TeleopAction(c, a);
            && !d.fault && d.mode.Running? && d.nav == c.nav && d.order == c.order
            && d.pos == c.pos.(nextStop := c.pos.currentNode, reached := true)
            && (Inv(d) <==> c.order.Some? && !c.nav.Outstanding())
  {
    var d := TeleopAction(c, a);
    if c.order.Some? && !c.nav.Outstanding() {
      StopTeleopKeepsInv(c, a);
    } else {
      hide MissionSound, Layout, RequestsApart, SetStatus;
      if c.order.Some? {
        MidGoalUnsound(d);
      } else {
        NoOrderUnsound(d);
      }
    }
  }

  lemma NoOrderUnsound(c: Client)
    requires !c.fault && c.mode.Running? && c.order.None?
    ensures !Inv(c)
  {
  }

  /** So the instant actions excluded from the runs are exactly those after which the bookkeeping is
      wrong. */
  lemma InstantKeepsInvIff(cfg: Config, c: Client, a: Action, outcome: map<ActionId, StartedStatus>)
    requires Inv(c) && !c.fault && Foreign(c, a.id)
    ensures Inv(InstantAction(cfg, c, a, outcome)) <==> InstantAllowed(c, a)
  {
    hide Inv, TeleopAction, PauseOrderStep, ResumeOrder;
    if InstantAllowed(c, a) {
      InstantKeepsInv(cfg, c, a, outcome);
    } else if a.kind.StartTeleop? {
      StartTeleopKeepsInvIff(c, a);
    } else if a.kind.StopTeleop? {
      StopTeleopKeepsInvIff(c, a);
    } else {
      ResumeKeepsInvIff(cfg, c, a.id);
    }
  }

  /** Taking a new order is sound exactly when no goal is requested or in progress. */
  lemma AcceptKeepsInvIff(c: Client, order: Order)
    requires Inv(c) && !c.fault && CanAcceptOrder(c).0 && |order.nodes| > 0 && FreshOrder(c, order)
    ensures !ReceiveOrder(c, order).fault
    ensures Inv(ReceiveOrder(c, order)) <==> !c.nav.Outstanding()
  {
    AcceptIsSafe(c);
    if c.nav.Outstanding() {
      hide MissionSound, Layout, RequestsApart;
      MidGoalUnsound(ReceiveOrder(c, order));
    } else {
      OrderKeepsInv(c, order);
    }
  }

  // ----- Messages -----

  /** Once one new action has been processed, a message adds nothing but a fault. */
  lemma {:induction false} NothingMore(cfg: Config, c: Client, actions: seq<Action>, i: nat,
                                       outcome: map<ActionId, StartedStatus>)
    requires i <= |actions|
    ensures var d := InstantActions(cfg, c, actions, i, false, outcome);
            d.fault || d == c
    decreases |actions| - i
  {
    hide InstantAction;
    if i < |actions| && !c.fault && IndexOf(c.agv.actionStates, actions[i].id) < |c.agv.actionStates| {
      NothingMore(cfg, c, actions, i + 1, outcome);
    }
  }

  lemma {:induction false} InstantsKeepInv(cfg: Config, c: Client, actions: seq<Action>, i: nat,
                                           outcome: map<ActionId, StartedStatus>)
    requires Inv(c) && i <= |actions| && Allowed(c, InstantMsg(actions, outcome))
    ensures Inv(InstantActions(cfg, c, actions, i, true, outcome))
    decreases |actions| - i
  {
    hide Inv, InstantAction;
    if i < |actions| && !c.fault {
      if IndexOf(c.agv.actionStates, actions[i].id) < |c.agv.actionStates| {
        InstantsKeepInv(cfg, c, actions, i + 1, outcome);
      } else {
        AppendKeepsInv(c, actions[i].id);
        var d := c.(agv := c.agv.(actionStates := c.agv.actionStates + [ActionState(actions[i].id, WAITING)]));
        assert InstantAllowed(c, actions[i]);
        InstantKeepsInv(cfg, d, actions[i], outcome);
        NothingMore(cfg, InstantAction(cfg, d, actions[i], outcome), actions, i + 1, outcome);
        FaultyInv(InstantActions(cfg, InstantAction(cfg, d, actions[i], outcome), actions, i + 1, false, outcome));
      }
    }
  }

  lemma FaultyInv(c: Client)
    ensures c.fault ==> Inv(c)
  {
  }

  // ----- Steps and runs -----

  /** Every callback keeps the invariant. */
  lemma StepKeepsInv(cfg: Config, c: Client, e: Event)
    requires Inv(c) && (c.fault || Allowed(c, e))
    requires e.Feedback? ==> e.remaining <= 0x1_0000_0000_0000_0000
    ensures Inv(Step(cfg, c, e))
  {
    hide Inv, ExecuteOrder, ReceiveOrder, InstantActions, GoalResponded, FeedbackReceived, GoalFinished;
    if !c.fault {
      match e
      case Tick(world) => TickKeepsInv(cfg, c, world);
      case OrderMsg(order) => OrderKeepsInv(c, order);
      case InstantMsg(actions, outcome) => InstantsKeepInv(cfg, c, actions, 0, outcome);
      case GoalResponse(accepted) => ResponseKeepsInv(c, accepted);
      case Feedback(remaining) => FeedbackKeepsInv(c, remaining);
      case GoalResult(code) => ResultKeepsInv(c, code);
      case HandlerUpdate(id, status) => HandlerKeepsInv(c, id, status);
      case InvalidOrder => AddErrorKeepsInv(c, WARNING);
      case HandlerError(level) => AddErrorKeepsInv(c, level);
    }
  }

  /** And the callbacks that the runs leave out are exactly those after which the bookkeeping is wrong.
      (Of a message of instant actions only the first new one counts; MessageFaultsIff has the rest.) */
  lemma StepKeepsInvIff(cfg: Config, c: Client, e: Event)
    requires Inv(c) && !c.fault && Sensible(c, e)
    requires e.Feedback? ==> e.remaining <= 0x1_0000_0000_0000_0000
    requires e.InstantMsg? ==>
               |e.actions| == 1 && IndexOf(c.agv.actionStates, e.actions[0].id) == |c.agv.actionStates|
    ensures Inv(Step(cfg, c, e)) <==> Allowed(c, e)
  {
    hide Inv, ExecuteOrder, ReceiveOrder, InstantActions, GoalResponded, FeedbackReceived, GoalFinished, FreshOrder;
    if Allowed(c, e) {
      StepKeepsInv(cfg, c, e);
    } else if e.OrderMsg? {
      AcceptKeepsInvIff(c, e.order);
    } else if e.InstantMsg? {
      OneActionIff(cfg, c, e.actions, e.outcome);
    } else {
      AbortKeepsInvIff(c);
    }
  }

  lemma OneActionIff(cfg: Config, c: Client, actions: seq<Action>, outcome: map<ActionId, StartedStatus>)
    requires Inv(c) && !c.fault && |actions| == 1
    requires IndexOf(c.agv.actionStates, actions[0].id) == |c.agv.actionStates|
    ensures Inv(InstantActions(cfg, c, actions, 0, true, outcome)) <==> InstantAllowed(c, actions[0])
  {
    hide Inv, InstantAction;
    AppendKeepsInv(c, actions[0].id);
    var d := c.(agv := c.agv.(actionStates := c.agv.actionStates + [ActionState(actions[0].id, WAITING)]));
    InstantKeepsInvIff(cfg, d, actions[0], outcome);
    assert InstantActions(cfg, InstantAction(cfg, d, actions[0], outcome), actions, 1, false, outcome)
           == InstantAction(cfg, d, actions[0], outcome);
  }

  /** The client after a sequence of callbacks. */
  function Run(cfg: Config, c: Client, events: seq<Event>): Client
    requires forall i | 0 <= i < |events| :: events[i].Feedback? ==> events[i].remaining <= 0x1_0000_0000_0000_0000
  {
    if events == [] then c else Step(cfg, Run(cfg, c, events[..|events| - 1]), events[|events| - 1])
  }

  ghost predicate AllowedRun(cfg: Config, c: Client, events: seq<Event>) {
    && (forall i | 0 <= i < |events| :: events[i].Feedback? ==> events[i].remaining <= 0x1_0000_0000_0000_0000)
    && (events == [] ||
        var before := Run(cfg, c, events[..|events| - 1]);
        AllowedRun(cfg, c, events[..|events| - 1]) && (before.fault || Allowed(before, events[|events| - 1])))
  }

  /** The event brings no order that would replace the current one. */
  predicate KeepsOrder(c: Client, e: Event) {
    e.OrderMsg? ==> !CanAcceptOrder(c).0 || |e.order.nodes| == 0
  }

  ghost predicate KeepsOrderRun(cfg: Config, c: Client, events: seq<Event>)
    requires forall i | 0 <= i < |events| :: events[i].Feedback? ==> events[i].remaining <= 0x1_0000_0000_0000_0000
  {
    events == [] ||
    (KeepsOrderRun(cfg, c, events[..|events| - 1]) &&
     KeepsOrder(Run(cfg, c, events[..|events| - 1]), events[|events| - 1]))
  }

  /** Every state that an allowed run can reach satisfies the invariant. */
  lemma {:induction false} RunKeepsInv(cfg: Config, c: Client, events: seq<Event>)
    requires Inv(c) && AllowedRun(cfg, c, events)
    ensures Inv(Run(cfg, c, events))
  {
    hide Inv, Step, Allowed;
    if events != [] {
      RunKeepsInv(cfg, c, events[..|events| - 1]);
      StepKeepsInv(cfg, Run(cfg, c, events[..|events| - 1]), events[|events| - 1]);
    }
  }

  lemma InitialInv()
    ensures Inv(Initial())
  {
  }

  /** Some allowed run from the start leads to c. */
  ghost predicate Reachable(cfg: Config, c: Client) {
    exists events :: AllowedRun(cfg, Initial(), events) && c == Run(cfg, Initial(), events)
  }

  lemma ReachableInv(cfg: Config, c: Client)
    requires Reachable(cfg, c)
    ensures Inv(c)
  {
    hide Inv, Step, Allowed;
    InitialInv();
    var events :| AllowedRun(cfg, Initial(), events) && c == Run(cfg, Initial(), events);
    RunKeepsInv(cfg, Initial(), events);
  }

  /** In a reachable state that has an order and no fault, the mission is sound. */
  lemma MissionHere(cfg: Config, c: Client)
    requires Reachable(cfg, c) && !c.fault && c.order.Some?
    ensures HasOrder(c) && RequestsApart(c) && MissionSound(c)
    ensures InRouteOrder(ViewOf(c), c.pos.currentNode) && HardAlone(ViewOf(c))
    ensures OnRoute(c) && ReportsProgress(c) && CancelsOnce(c)
  {
    hide Reachable, Layout, RequestsApart, InRouteOrder, HardAlone, OnRoute, ReportsProgress, CancelsOnce;
    ReachableInv(cfg, c);
  }

  /** Reachable, with an order and no fault. */
  ghost predicate OnMission(cfg: Config, c: Client)
    ensures OnMission(cfg, c) ==> HasOrder(c)
  {
    hide HasOrder;
    assert Reachable(cfg, c) && !c.fault && c.order.Some? ==> HasOrder(c) by {
      if Reachable(cfg, c) && !c.fault && c.order.Some? { MissionHere(cfg, c); }
    }
    Reachable(cfg, c) && !c.fault && c.order.Some?
  }

  /** One more allowed callback leads to a reachable state. */
  lemma ReachableStep(cfg: Config, c: Client, e: Event)
    requires Reachable(cfg, c) && (c.fault || Allowed(c, e))
    requires e.Feedback? ==> e.remaining <= 0x1_0000_0000_0000_0000
    ensures Reachable(cfg, Step(cfg, c, e))
  {
    hide Inv, Step, Allowed;
    var events :| AllowedRun(cfg, Initial(), events) && c == Run(cfg, Initial(), events);
    var more := events + [e];
    assert more[..|more| - 1] == events;
    assert AllowedRun(cfg, Initial(), more);
  }
}
