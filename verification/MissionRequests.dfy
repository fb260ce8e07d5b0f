/** Cancel, pause and resume: what they guarantee over the rest of the run, and where they do not. */
module MissionRequests {
  import opened Options
  import opened MissionTypes
  import opened MissionSpec
  import opened MissionViews
  import opened MissionInvariant
  import opened MissionScheduling
  import opened MissionCanceling
  import opened MissionPausing
  import opened MissionRuns
  import opened MissionGoals

  // ----- Once nothing waits, nothing starts -----

  /** No HARD or SOFT action of the current node, from the i-th on, is running. */
  ghost predicate NoneBlocksFrom(c: Client, i: nat)
    requires HasOrder(c) && c.pos.currentNode < |c.order.value.nodes|
  {
    var nodes, n := c.order.value.nodes, c.pos.currentNode;
    forall j | i <= j < |nodes[n].actions| && Offset(nodes, n) + j < c.pos.numActions ::
      !(nodes[n].actions[j].Blocks() && ViewOf(c).status[Offset(nodes, n) + j].Active())
  }

  lemma PassIdles(cfg: Config, c: Client, i: nat, stop: bool, busy: bool, outcome: map<ActionId, StartedStatus>)
    requires HasOrder(c) && InRouteOrder(ViewOf(c), c.pos.currentNode) && NothingWaits(c)
    requires i < |c.order.value.nodes[c.pos.currentNode].actions|
    ensures var a, p := c.order.value.nodes[c.pos.currentNode].actions[i],
            Offset(c.order.value.nodes, c.pos.currentNode) + i;
            && p < c.pos.numActions
            && var active := ViewOf(c).status[p].Active();
            && var r := PassAction(cfg, c, a, stop, busy, outcome);
            && r.client == c && r.more == !(active && a.Hard()) && r.stop == (stop || (active && a.Soft()))
  {
    hide ExecuteAction;
    var p := Offset(c.order.value.nodes, c.pos.currentNode) + i;
    FlatAt(c.order.value.nodes, c.pos.currentNode, i);
    OwnIndex(c, p);
    assert !c.agv.actionStates[p].status.WAITING?;
  }

  lemma BlocksHere(c: Client, i: nat)
    requires HasOrder(c) && c.pos.currentNode < |c.order.value.nodes|
    requires i < |c.order.value.nodes[c.pos.currentNode].actions|
    requires Offset(c.order.value.nodes, c.pos.currentNode) + i < c.pos.numActions
    ensures var a, p := c.order.value.nodes[c.pos.currentNode].actions[i],
            Offset(c.order.value.nodes, c.pos.currentNode) + i;
            NoneBlocksFrom(c, i) <==> !(a.Blocks() && ViewOf(c).status[p].Active()) && NoneBlocksFrom(c, i + 1)
  {
  }

  /** The pass over a node where nothing waits changes nothing; it lets the robot go on exactly when
      no HARD or SOFT action of the rest of the node is running. */
  lemma {:induction false} ScanIdles(cfg: Config, c: Client, i: nat, stop: bool, busy: bool,
                                     outcome: map<ActionId, StartedStatus>)
    requires HasOrder(c) && c.pos.currentNode < |c.order.value.nodes|
    requires InRouteOrder(ViewOf(c), c.pos.currentNode) && NothingWaits(c)
    requires i <= |c.order.value.nodes[c.pos.currentNode].actions|
    ensures var r := Scan(cfg, c, c.order.value.nodes[c.pos.currentNode].actions, i, stop, busy, outcome);
            r.0 == c && (r.1 <==> !stop && NoneBlocksFrom(c, i))
    decreases |c.order.value.nodes[c.pos.currentNode].actions| - i
  {
    hide PassAction, ViewOf, NothingWaits;
    var actions := c.order.value.nodes[c.pos.currentNode].actions;
    if i < |actions| {
      PassIdles(cfg, c, i, stop, busy, outcome);
      BlocksHere(c, i);
      var p := PassAction(cfg, c, actions[i], stop, busy, outcome);
      if p.more {
        ScanIdles(cfg, c, i + 1, p.stop, p.busy, outcome);
      }
    }
  }

  lemma AdvanceStartsNothing(cfg: Config, c: Client, nodes: seq<Node>, world: Surroundings)
    ensures var d := Advance(cfg, c, nodes, world);
            Starts(d.calls) == Starts(c.calls) && d.order == c.order && (NothingWaits(c) ==> NothingWaits(d))
  {
    if c.pos.nextStop + 1 < |nodes| {
      if c.pos.currentNode + 1 < |nodes| {
        var e := GoalEnd(nodes, c.pos.currentNode + 1);
        OneMoreCall(c.calls, SendGoal(Span(c.pos.currentNode + 1, e + 1)));
      }
      OneMoreCall(c.calls, SendGoal([]));
    }
  }

  /** Same order, nothing started, nothing waiting. */
  ghost predicate StaysIdle(c: Client, d: Client) {
    Starts(d.calls) == Starts(c.calls) && d.order == c.order && NothingWaits(d)
  }

  lemma ScheduleStartsNothing(cfg: Config, c: Client, world: Surroundings)
    requires Inv(c) && !c.fault && c.mode.Running? && NothingWaits(c)
    ensures StaysIdle(c, Schedule(cfg, c, world))
  {
    hide Scan, Advance, RequestsApart, CancelsOnce, ReportsProgress, Settled;
    if c.order.Some? && c.pos.currentNode < |c.order.value.nodes| {
      ScanIdles(cfg, c, 0, false, false, world.outcome);
      AdvanceStartsNothing(cfg, c, c.order.value.nodes, world);
    }
  }

  /** The sweep leaves nothing waiting, whatever was waiting before. */
  lemma CancelSweeps(cfg: Config, c: Client, id: ActionId, interrupted: set<ActionId>)
    requires Inv(c) && !c.fault && Foreign(c, id)
    ensures var d := CancelOrderStep(cfg, c, id, interrupted); d.fault || NothingWaits(d)
  {
    hide Update, FirstEvaluation, CancelActions, NothingWaits, Sweeping;
    if !c.mode.Idle? {
      var e := FirstEvaluation(c, id);
      FirstEvaluationKeeps(c, id);
      SweepFromRest(e);
      SweepKeeps(cfg, e, e, 0, true, interrupted);
      var d := CancelActions(cfg, e, 0, true, interrupted).0;
      if !d.fault {
        SweptNothingWaits(e, d);
        UpdateQuiet(d, id, FINISHED);
        RequestsUnseen(Update(d, id, FINISHED));
      }
    }
  }

  lemma RequestsUnseen(c: Client)
    ensures NothingWaits(c) ==> NothingWaits(c.(mode := Idle, req := c.req.(cancelAction := None, canceledIds := {})))
  {
  }

  lemma SweptNothingWaits(e: Client, d: Client)
    requires Sweeping(e, d, e.pos.numActions)
    ensures NothingWaits(d)
  {
    SweptMovesOn(ViewOf(e), e.pos.currentNode, ViewOf(d).status);
    forall i | 0 <= i < d.pos.numActions && i < |d.agv.actionStates|
      ensures !d.agv.actionStates[i].status.WAITING?
    {
      assert ViewOf(d).status[i] == d.agv.actionStates[i].status;
    }
  }

  /** A tick with a cancel pending starts nothing and leaves nothing waiting; nor does a later tick. */
  lemma TickStartsNothing(cfg: Config, c: Client, world: Surroundings)
    requires Inv(c) && !c.fault && (c.req.cancelAction.Some? || NothingWaits(c))
    ensures var d := ExecuteOrder(cfg, c, world); d.fault || StaysIdle(c, d)
  {
    hide MissionSound, NoMission, Layout, CancelOrderStep, PauseOrderStep, Schedule, NothingWaits;
    var d := AfterCancel(cfg, c, world);
    if c.req.cancelAction.Some? {
      CancelStepStill(cfg, c, c.req.cancelAction.value, world.interrupted);
      CancelSweeps(cfg, c, c.req.cancelAction.value, world.interrupted);
      CancelKeepsInv(cfg, c, c.req.cancelAction.value, world.interrupted);
      CancelLeavesRequest(cfg, c, c.req.cancelAction.value, world.interrupted);
    }
    if !d.fault {
      if d.req.pauseAction.Some? {
        PauseStepStill(cfg, d, d.req.pauseAction.value);
        PauseKeepsInv(cfg, d, d.req.pauseAction.value);
      }
      var e := AfterPause(cfg, d);
      if !e.fault && e.mode.Running? {
        ScheduleStartsNothing(cfg, e, world);
      }
    }
  }

  lemma StepStartsNothing(cfg: Config, c: Client, e: Event)
    requires Inv(c) && !c.fault && Allowed(c, e) && KeepsOrder(c, e) && NothingWaits(c)
    requires e.Feedback? ==> e.remaining <= 0x1_0000_0000_0000_0000
    ensures var d := Step(cfg, c, e); d.fault || StaysIdle(c, d)
  {
    hide ExecuteOrder, InstantActions, MissionSound, RequestsApart, Update;
    match e
    case Tick(world) => TickStartsNothing(cfg, c, world);
    case InstantMsg(actions, outcome) => InstantsStand(cfg, c, actions, 0, outcome);
    case HandlerUpdate(id, status) => UpdateQuiet(c, id, status);
    case _ =>
  }

  /** From a state in which nothing waits, no run that keeps the order starts an action of it. */
  lemma {:induction false} NothingStartsLater(cfg: Config, c: Client, events: seq<Event>)
    requires Inv(c) && !c.fault && NothingWaits(c) && AllowedRun(cfg, c, events) && KeepsOrderRun(cfg, c, events)
    ensures var d := Run(cfg, c, events); d.fault || StaysIdle(c, d)
  {
    hide Inv, Step, Allowed, NothingWaits, KeepsOrder;
    if events != [] {
      var before := events[..|events| - 1];
      var b := Run(cfg, c, before);
      NothingStartsLater(cfg, c, before);
      RunKeepsInv(cfg, c, before);
      if b.fault {
        FaultStays(cfg, b, events[|events| - 1]);
      } else {
        StepStartsNothing(cfg, b, events[|events| - 1]);
      }
    }
  }

  /** Cancel is safe: from the first tick after the request on, and however the run goes on, no
      further action of the order is ever started. */
  lemma CancelIsSafe(cfg: Config, c: Client, world: Surroundings, events: seq<Event>)
    requires OnMission(cfg, c) && c.req.cancelAction.Some?
    requires var d := Step(cfg, c, Tick(world));
             !d.fault && AllowedRun(cfg, d, events) && KeepsOrderRun(cfg, d, events)
    ensures var d := Run(cfg, Step(cfg, c, Tick(world)), events);
            d.fault || (Starts(d.calls) == Starts(c.calls) && d.order == c.order)
  {
    hide ExecuteOrder, AllowedRun, KeepsOrderRun, Reachable, Inv;
    ReachableInv(cfg, c);
    TickStartsNothing(cfg, c, world);
    StepKeepsInv(cfg, c, Tick(world));
    NothingStartsLater(cfg, Step(cfg, c, Tick(world)), events);
  }

  /** No handler is told to cancel an action twice, or to cancel one that was not started. */
  lemma HandlersToldOnce(cfg: Config, c: Client)
    requires OnMission(cfg, c)
    ensures Distinct(Cancels(c.calls))
    ensures forall id | id in Cancels(c.calls) :: id in Starts(c.calls)
  {
    hide Reachable, MissionSound;
    MissionHere(cfg, c);
    forall id | id in Cancels(c.calls)
      ensures id in Starts(c.calls)
    {
      assert ToldToCancel(c, id);
      var v := ViewOf(c);
      var i :| 0 <= i < v.Begun() && i < |v.status| && v.Actions()[i].id == id;
      assert v.started[i] == id;
    }
  }

  // ----- When a cancel or pause goes wrong, and when it is complete -----

  /** GetAction finds exactly the actions of the current node. */
  lemma FoundHere(c: Client, j: nat)
    requires HasOrder(c) && c.pos.currentNode < |c.order.value.nodes| && j < c.pos.numActions
    ensures var nodes, n := c.order.value.nodes, c.pos.currentNode;
            GetAction(c, Flat(nodes)[j].id).Some? <==> Offset(nodes, n) <= j < Offset(nodes, n + 1)
    ensures GetAction(c, Flat(c.order.value.nodes)[j].id).Some? ==>
              GetAction(c, Flat(c.order.value.nodes)[j].id).value == Flat(c.order.value.nodes)[j]
  {
    var nodes, n := c.order.value.nodes, c.pos.currentNode;
    var r := GetAction(c, Flat(nodes)[j].id);
    if r.Some? {
      var m :| 0 <= m < |nodes[n].actions| && nodes[n].actions[m] == r.value;
      FlatAt(nodes, n, m);
      OnlyIndex(c, j);
    }
    if Offset(nodes, n) <= j < Offset(nodes, n + 1) {
      FlatAt(nodes, n, j - Offset(nodes, n));
      assert nodes[n].actions[j - Offset(nodes, n)] in nodes[n].actions;
    }
  }

  /** Action j is running, was started at an earlier node, and has not been told. */
  ghost predicate LeftBehind(c: Client, told: set<ActionId>, j: nat)
    requires HasOrder(c) && c.pos.currentNode < |c.order.value.nodes|
  {
    && j < c.pos.numActions && j < Offset(c.order.value.nodes, c.pos.currentNode)
    && ViewOf(c).status[j].Active() && Flat(c.order.value.nodes)[j].id !in told
  }

  lemma CancelRunningFaults(cfg: Config, c: Client, d: Client, i: nat, interrupted: set<ActionId>)
    requires Sweeping(c, d, i) && i < c.pos.numActions && !d.fault && ViewOf(c).status[i].Active()
    ensures CancelRunning(cfg, d, Flat(c.order.value.nodes)[i].id, interrupted).fault <==>
            LeftBehind(c, d.req.canceledIds, i)
    ensures CancelRunning(cfg, d, Flat(c.order.value.nodes)[i].id, interrupted).req.canceledIds
         == d.req.canceledIds + {Flat(c.order.value.nodes)[i].id}
  {
    var id := Flat(c.order.value.nodes)[i].id;
    assert i < ViewOf(c).Begun();
    FoundHere(c, i);
    assert GetAction(d.(req := d.req.(canceledIds := d.req.canceledIds + {id})), id) == GetAction(c, id);
    if id in d.req.canceledIds {
      assert d.req.canceledIds + {id} == d.req.canceledIds;
    }
  }

  lemma {:induction false} SweepFaults(cfg: Config, c: Client, d: Client, i: nat, all: bool, interrupted: set<ActionId>)
    requires Sweeping(c, d, i) && i <= c.pos.numActions && !d.fault
    ensures CancelActions(cfg, d, i, all, interrupted).0.fault <==>
            exists j: nat :: i <= j && LeftBehind(c, d.req.canceledIds, j)
    decreases c.pos.numActions - i
  {
    hide Sweeping, ViewOf, CancelRunning, SetStatus, Layout;
    SweepingHere(c, d, i);
    SweepingNode(c, d, i);
    if i < c.pos.numActions {
      var id, s := Flat(c.order.value.nodes)[i].id, ViewOf(c).status[i];
      if s.WAITING? {
        SweepFails(c, d, i);
        SweepFaults(cfg, c, Update(d, id, FAILED), i + 1, all, interrupted);
      } else if s.Active() {
        SweepTells(cfg, c, d, i, interrupted);
        CancelRunningFaults(cfg, c, d, i, interrupted);
        var e := CancelRunning(cfg, d, id, interrupted);
        if !e.fault {
          SweepFaults(cfg, c, e, i + 1, false, interrupted);
          forall j: nat | i < j
            ensures LeftBehind(c, e.req.canceledIds, j) <==> LeftBehind(c, d.req.canceledIds, j)
          {
            if j < c.pos.numActions { OnlyIndex(c, j); }
          }
        }
      } else {
        SweepLeaves(c, d, i);
        SweepFaults(cfg, c, d, i + 1, all, interrupted);
      }
    }
  }

  lemma SweepingNode(c: Client, d: Client, i: nat)
    requires Sweeping(c, d, i)
    ensures c.pos.currentNode < |c.order.value.nodes|
  {
  }

  /** Exactly when the evaluation of a pending cancel breaks: when the client is idle, so that the
      request is released before it is used, or when an action started at an earlier node is still
      running and has not been told, so that looking it up at the current node throws. */
  lemma CancelFaultsIff(cfg: Config, c: Client, id: ActionId, interrupted: set<ActionId>)
    requires Inv(c) && !c.fault && Foreign(c, id)
    ensures CancelOrderStep(cfg, c, id, interrupted).fault <==>
            c.mode.Idle? || exists j: nat :: LeftBehind(c, c.req.canceledIds, j)
  {
    hide SetStatus, CancelActions, Sweeping, FirstEvaluation, MissionSound, RequestsApart;
    if !c.mode.Idle? {
      var e := FirstEvaluation(c, id);
      FirstEvaluationKeeps(c, id);
      SweepFromRest(e);
      SweepingNode(e, e, 0);
      SweepFaults(cfg, e, e, 0, true, interrupted);
      assert forall j: nat :: LeftBehind(e, e.req.canceledIds, j) <==> LeftBehind(c, c.req.canceledIds, j);
    }
  }

  ghost predicate SomeRunning(c: Client)
    requires HasOrder(c)
  {
    exists j :: 0 <= j < |ViewOf(c).status| && ViewOf(c).status[j].Active()
  }

  /** Cancel is complete: unless it breaks, an evaluation of a pending cancel finishes it exactly
      when no action of the order is running and no goal is in progress.  Then every action of the
      order is over, the client is idle and the request is answered; and a goal is outstanding
      exactly if one had been requested and not answered yet. */
  lemma CancelFinishesIff(cfg: Config, c: Client, id: ActionId, interrupted: set<ActionId>)
    requires Inv(c) && !c.fault && Foreign(c, id) && !c.mode.Idle?
    ensures var d := CancelOrderStep(cfg, c, id, interrupted);
            !d.fault ==>
              && (d.mode.Idle? <==> !SomeRunning(c) && !c.nav.navHandle)
              && (d.mode.Idle? ==>
                    && HasOrder(d) && (forall i | 0 <= i < d.pos.numActions :: d.agv.actionStates[i].status.Ended())
                    && (d.nav.Outstanding() <==> c.nav.goalRequested) && d.req.cancelAction.None?
                    && (StatusOf(c.agv.actionStates, id).Some? ==> StatusOf(d.agv.actionStates, id) == Some(FINISHED)))
  {
    hide CancelActions, Sweeping, MissionSound, RequestsApart, FirstEvaluation, SetStatus, StatusOf, SomeRunning;
    var e := FirstEvaluation(c, id);
    FirstEvaluationKeeps(c, id);
    FirstEvaluationListed(c, id);
    SweepFromRest(e);
    SweepEnds(cfg, e, id, interrupted);
    SameRunning(c, e);
  }

  lemma SameRunning(c: Client, e: Client)
    requires HasOrder(c) && HasOrder(e) && ViewOf(c) == ViewOf(e)
    ensures SomeRunning(c) <==> SomeRunning(e)
  {
  }

  lemma FirstEvaluationListed(c: Client, id: ActionId)
    ensures StatusOf(FirstEvaluation(c, id).agv.actionStates, id).Some? <==> StatusOf(c.agv.actionStates, id).Some?
    ensures FirstEvaluation(c, id).nav == c.nav && FirstEvaluation(c, id).mode == c.mode
    ensures |FirstEvaluation(c, id).agv.actionStates| == |c.agv.actionStates|
  {
    SetStatusKeepsIndex(c.agv.actionStates, id, RUNNING, id);
  }

  lemma SweepEnds(cfg: Config, e: Client, id: ActionId, interrupted: set<ActionId>)
    requires Sweeping(e, e, 0) && !e.fault && Foreign(e, id)
    ensures var r := CancelActions(cfg, e, 0, true, interrupted);
            !r.0.fault ==>
              && r.0.nav == e.nav && r.0.mode == e.mode
              && (r.1 <==> !SomeRunning(e))
              && (r.1 ==>
                    var u := Update(r.0, id, FINISHED);
                    && HasOrder(u) && (forall i | 0 <= i < u.pos.numActions :: u.agv.actionStates[i].status.Ended())
                    && (StatusOf(e.agv.actionStates, id).Some? ==> StatusOf(u.agv.actionStates, id) == Some(FINISHED)))
  {
    hide CancelActions, Sweeping, Update, SetStatus;
    SweepingHere(e, e, 0);
    SweepKeeps(cfg, e, e, 0, true, interrupted);
    SweepQuiet(cfg, e, 0, true, interrupted);
    SweepListed(cfg, e, 0, true, interrupted, id);
    var r := CancelActions(cfg, e, 0, true, interrupted);
    if !r.0.fault && r.1 {
      FinishedState(e, r.0, id);
    }
  }

  lemma FinishedState(e: Client, d: Client, id: ActionId)
    requires Sweeping(e, d, e.pos.numActions) && Foreign(e, id)
    requires !SomeRunning(e)
    ensures var u := Update(d, id, FINISHED);
            HasOrder(u) && (forall i | 0 <= i < u.pos.numActions :: u.agv.actionStates[i].status.Ended())
    ensures StatusOf(d.agv.actionStates, id).Some? ==>
            StatusOf(Update(d, id, FINISHED).agv.actionStates, id) == Some(FINISHED)
  {
    AllEnded(e, d);
    UpdateForeign(d, id, FINISHED);
    SetStatusKeepsIndex(d.agv.actionStates, id, FINISHED, id);
    var u := Update(d, id, FINISHED);
    forall i | 0 <= i < u.pos.numActions
      ensures u.agv.actionStates[i].status.Ended()
    {
      assert ViewOf(u).status[i] == ViewOf(d).status[i];
      assert ViewOf(u).status[i] == u.agv.actionStates[i].status;
    }
  }

  lemma CancelRunningListed(cfg: Config, c: Client, x: ActionId, interrupted: set<ActionId>, id: ActionId)
    ensures IndexOf(CancelRunning(cfg, c, x, interrupted).agv.actionStates, id) == IndexOf(c.agv.actionStates, id)
    ensures |CancelRunning(cfg, c, x, interrupted).agv.actionStates| == |c.agv.actionStates|
    ensures CancelRunning(cfg, c, x, interrupted).pos == c.pos
  {
    hide SetStatus, IndexOf, GetAction;
    SetStatusKeepsIndex(c.agv.actionStates, x, FAILED, id);
  }

  lemma {:induction false} SweepListed(cfg: Config, c: Client, i: nat, all: bool, interrupted: set<ActionId>,
                                       id: ActionId)
    ensures IndexOf(CancelActions(cfg, c, i, all, interrupted).0.agv.actionStates, id)
            == IndexOf(c.agv.actionStates, id)
    ensures |CancelActions(cfg, c, i, all, interrupted).0.agv.actionStates| == |c.agv.actionStates|
    decreases c.pos.numActions - i
  {
    hide SetStatus, StatusOf, CancelRunning;
    if !c.fault && i < c.pos.numActions && i < |c.agv.actionStates| {
      var x := c.agv.actionStates[i].id;
      CancelRunningListed(cfg, c, x, interrupted, id);
      SetStatusKeepsIndex(c.agv.actionStates, x, FAILED, id);
      SweepListed(cfg, Update(c, x, FAILED), i + 1, all, interrupted, id);
      SweepListed(cfg, CancelRunning(cfg, c, x, interrupted), i + 1, false, interrupted, id);
      SweepListed(cfg, c, i + 1, all, interrupted, id);
    }
  }

  lemma NothingLeftBehind(cfg: Config, e: Client, interrupted: set<ActionId>)
    requires Sweeping(e, e, 0) && !e.fault && !SomeRunning(e)
    ensures !CancelActions(cfg, e, 0, true, interrupted).0.fault
  {
    hide CancelActions, Sweeping;
    SweepingHere(e, e, 0);
    SweepingNode(e, e, 0);
    SweepFaults(cfg, e, e, 0, true, interrupted);
  }

  /** A finding: only a goal in progress holds a cancel up, not one that has been requested and not
      answered yet.  With nothing running the cancel is finished at once, and if the server then
      accepts the goal, the robot drives while the client is idle. */
  lemma CancelBeforeGoalAnswered(cfg: Config, c: Client, id: ActionId, interrupted: set<ActionId>)
    requires Inv(c) && !c.fault && Foreign(c, id) && !c.mode.Idle? && c.nav.goalRequested && !SomeRunning(c)
    ensures var d := CancelOrderStep(cfg, c, id, interrupted);
            && !d.fault && d.mode.Idle? && d.req.cancelAction.None? && d.nav.goalRequested
            && GoalResponded(d, true).nav.navHandle && GoalResponded(d, true).mode.Idle?
  {
    hide CancelActions, Sweeping, MissionSound, RequestsApart, FirstEvaluation, SetStatus, StatusOf, SomeRunning;
    NotBoth(c);
    var e := FirstEvaluation(c, id);
    FirstEvaluationKeeps(c, id);
    FirstEvaluationListed(c, id);
    SweepFromRest(e);
    SameRunning(c, e);
    NothingLeftBehind(cfg, e, interrupted);
    SweepEnds(cfg, e, id, interrupted);
  }

  // ----- Driving on with a cancel pending -----

  /** Evaluating the cancel stops action j at once: its handler is told, and is one of those that
      then fail their action before they return. */
  ghost predicate StopsAtOnce(cfg: Config, c: Client, interrupted: set<ActionId>, j: nat)
    requires HasOrder(c) && j < |Flat(c.order.value.nodes)|
  {
    var a := Flat(c.order.value.nodes)[j];
    a.id !in c.req.canceledIds && a.kind in cfg.handlers && a.id in interrupted
  }

  ghost predicate StoppedUpTo(cfg: Config, c: Client, d: Client, interrupted: set<ActionId>, i: nat)
    requires HasOrder(c) && HasOrder(d) && c.pos.numActions == d.pos.numActions
  {
    forall j {:trigger ViewOf(d).status[j]} | 0 <= j < c.pos.numActions && ViewOf(c).status[j].Active() ::
      ViewOf(d).status[j] == if j < i && StopsAtOnce(cfg, c, interrupted, j) then FAILED else ViewOf(c).status[j]
  }

  ghost predicate ToldUpTo(c: Client, d: Client, i: nat)
    requires HasOrder(c)
  {
    forall j | i <= j < |Flat(c.order.value.nodes)| ::
      Flat(c.order.value.nodes)[j].id in d.req.canceledIds <==> Flat(c.order.value.nodes)[j].id in c.req.canceledIds
  }

  /** What the sweep of c does to the running actions, when it has come to action i with d. */
  ghost predicate Stopped(cfg: Config, c: Client, d: Client, interrupted: set<ActionId>, i: nat)
    requires HasOrder(c) && HasOrder(d) && c.pos.numActions == d.pos.numActions
  {
    StoppedUpTo(cfg, c, d, interrupted, i) && ToldUpTo(c, d, i)
  }

  lemma StoppedFrom(cfg: Config, c: Client, interrupted: set<ActionId>)
    requires HasOrder(c)
    ensures Stopped(cfg, c, c, interrupted, 0)
  {
  }

  /** An action that does not run is passed over, failed or left as it is. */
  lemma StoppedPast(cfg: Config, c: Client, d: Client, e: Client, interrupted: set<ActionId>, i: nat)
    requires HasOrder(c) && HasOrder(d) && HasOrder(e) && c.order == d.order == e.order && i < c.pos.numActions
    requires Stopped(cfg, c, d, interrupted, i) && !ViewOf(c).status[i].Active() && e.req == d.req
    requires forall j {:trigger ViewOf(e).status[j]} | 0 <= j < c.pos.numActions
             && j != i :: ViewOf(e).status[j] == ViewOf(d).status[j]
    ensures Stopped(cfg, c, e, interrupted, i + 1)
  {
  }

  lemma StoppedWaiting(cfg: Config, c: Client, d: Client, interrupted: set<ActionId>, i: nat)
    requires HasOrder(c) && HasOrder(d) && c.order == d.order && i < c.pos.numActions == d.pos.numActions
    requires Stopped(cfg, c, d, interrupted, i) && !ViewOf(c).status[i].Active()
    ensures var e := Update(d, Flat(c.order.value.nodes)[i].id, FAILED);
            HasOrder(e) && e.pos.numActions == c.pos.numActions && Stopped(cfg, c, e, interrupted, i + 1)
  {
    hide Stopped, Update;
    var id := Flat(c.order.value.nodes)[i].id;
    UpdateOwn(d, i, FAILED);
    UpdateFrame(d, id, FAILED);
    StoppedPast(cfg, c, d, Update(d, id, FAILED), interrupted, i);
  }

  /** A running action is stopped, or goes on. */
  lemma StoppedOne(cfg: Config, c: Client, d: Client, e: Client, interrupted: set<ActionId>, i: nat)
    requires HasOrder(c) && HasOrder(d) && HasOrder(e) && c.order == d.order == e.order && i < c.pos.numActions
    requires Stopped(cfg, c, d, interrupted, i) && ViewOf(c).status[i].Active()
    requires e.req.canceledIds == d.req.canceledIds + {Flat(c.order.value.nodes)[i].id}
    requires ViewOf(e).status ==
             if StopsAtOnce(cfg, c, interrupted, i) then ViewOf(d).status[i := FAILED] else ViewOf(d).status
    ensures Stopped(cfg, c, e, interrupted, i + 1)
  {
    hide Layout, StopsAtOnce, ToldUpTo;
    StatusCount(c);
    StatusCount(d);
    StatusCount(e);
    ToldOne(c, d, e, i);
  }

  lemma StatusCount(c: Client)
    requires HasOrder(c)
    ensures c.order.Some? && |ViewOf(c).status| == c.pos.numActions == |Flat(c.order.value.nodes)|
  {
  }

  lemma ToldOne(c: Client, d: Client, e: Client, i: nat)
    requires HasOrder(c) && i < c.pos.numActions && ToldUpTo(c, d, i)
    requires e.req.canceledIds == d.req.canceledIds + {Flat(c.order.value.nodes)[i].id}
    ensures ToldUpTo(c, e, i + 1)
  {
    var flat := Flat(c.order.value.nodes);
    forall j | i + 1 <= j < |flat|
      ensures flat[j].id in e.req.canceledIds <==> flat[j].id in c.req.canceledIds
    {
      assert flat[j].id != flat[i].id by { OnlyIndex(c, i); }
    }
  }

  /** Telling the handler of action i, unless that breaks. */
  lemma TellingStops(cfg: Config, c: Client, d: Client, interrupted: set<ActionId>, i: nat)
    requires Sweeping(c, d, i) && i < c.pos.numActions && !d.fault && ViewOf(c).status[i].Active()
    requires HasOrder(d) && d.pos.numActions == c.pos.numActions && Stopped(cfg, c, d, interrupted, i)
    requires !CancelRunning(cfg, d, Flat(c.order.value.nodes)[i].id, interrupted).fault
    ensures var e := CancelRunning(cfg, d, Flat(c.order.value.nodes)[i].id, interrupted);
            HasOrder(e) && e.pos.numActions == c.pos.numActions && Stopped(cfg, c, e, interrupted, i + 1)
  {
    hide Stopped, Sound;
    var id := Flat(c.order.value.nodes)[i].id;
    var e := CancelRunning(cfg, d, id, interrupted);
    SweepTells(cfg, c, d, i, interrupted);
    CancelRunningFaults(cfg, c, d, i, interrupted);
    TellingLeaves(cfg, c, d, interrupted, i);
    StoppedOne(cfg, c, d, e, interrupted, i);
  }

  lemma TellingLeaves(cfg: Config, c: Client, d: Client, interrupted: set<ActionId>, i: nat)
    requires Sweeping(c, d, i) && i < c.pos.numActions && !d.fault && ViewOf(c).status[i].Active()
    requires HasOrder(d) && d.pos.numActions == c.pos.numActions && Stopped(cfg, c, d, interrupted, i)
    requires !CancelRunning(cfg, d, Flat(c.order.value.nodes)[i].id, interrupted).fault
    ensures var e := CancelRunning(cfg, d, Flat(c.order.value.nodes)[i].id, interrupted);
            HasOrder(e) && e.order == c.order &&
            var s := ViewOf(d).status;
            ViewOf(e).status == if StopsAtOnce(cfg, c, interrupted, i) then s[i := FAILED] else s
  {
    SweepingFrame(c, d, i);
    SweepingNode(c, d, i);
    hide Sound, CancelsOnce, InRouteOrder, Swept;
    var id := Flat(c.order.value.nodes)[i].id;
    FoundHere(d, i);
    assert id in d.req.canceledIds <==> id in c.req.canceledIds;
    var f := d.(req := d.req.(canceledIds := d.req.canceledIds + {id}));
    assert GetAction(f, id) == GetAction(d, id);
    UpdateOwn(Called(f, CancelHandler(id)), i, FAILED);
  }

  /** Exactly which running actions the sweep stops. */
  lemma {:induction false} SweepStops(cfg: Config, c: Client, d: Client, i: nat, all: bool, interrupted: set<ActionId>)
    requires Sweeping(c, d, i) && i <= c.pos.numActions && !d.fault
    requires HasOrder(c) && HasOrder(d) && c.pos.numActions == d.pos.numActions && Stopped(cfg, c, d, interrupted, i)
    ensures var e := CancelActions(cfg, d, i, all, interrupted).0;
            !e.fault ==>
              HasOrder(e) && e.pos.numActions == c.pos.numActions && Stopped(cfg, c, e, interrupted, c.pos.numActions)
    decreases c.pos.numActions - i
  {
    hide Sweeping, ViewOf, CancelRunning, SetStatus, Layout, Stopped;
    SweepingHere(c, d, i);
    SweepingFrame(c, d, i);
    if i < c.pos.numActions {
      var id, s := Flat(c.order.value.nodes)[i].id, ViewOf(c).status[i];
      if s.WAITING? {
        SweepFails(c, d, i);
        StoppedWaiting(cfg, c, d, interrupted, i);
        SweepStops(cfg, c, Update(d, id, FAILED), i + 1, all, interrupted);
      } else if s.Active() {
        SweepTells(cfg, c, d, i, interrupted);
        var e := CancelRunning(cfg, d, id, interrupted);
        if !e.fault {
          TellingStops(cfg, c, d, interrupted, i);
          SweepStops(cfg, c, e, i + 1, false, interrupted);
        }
      } else {
        SweepLeaves(c, d, i);
        StoppedPast(cfg, c, d, d, interrupted, i);
        SweepStops(cfg, c, d, i + 1, all, interrupted);
      }
    }
  }

  lemma SweepingFrame(c: Client, d: Client, i: nat)
    requires Sweeping(c, d, i)
    ensures d.order == c.order && d.pos == c.pos && d.nav == c.nav && d.agv.errors == c.agv.errors && d.mode == c.mode
    ensures InRouteOrder(ViewOf(d).(status := ViewOf(c).status), d.pos.currentNode)
  {
  }

  /** No HARD or SOFT action of the current node is running, save those that the cancel stops. */
  ghost predicate NoneBlocksBut(cfg: Config, c: Client, interrupted: set<ActionId>)
    requires HasOrder(c) && c.pos.currentNode < |c.order.value.nodes|
  {
    var nodes, n := c.order.value.nodes, c.pos.currentNode;
    forall j | 0 <= j < |nodes[n].actions| && Offset(nodes, n) + j < c.pos.numActions ::
      nodes[n].actions[j].Blocks() && ViewOf(c).status[Offset(nodes, n) + j].Active() ==>
        StopsAtOnce(cfg, c, interrupted, Offset(nodes, n) + j)
  }

  /** The environment lets a tick send a goal from node n. */
  predicate MayDrive(cfg: Config, world: Surroundings, n: nat) {
    (cfg.navigable ==> world.position) && (cfg.statusCheck && n == 0 ==> world.active) && world.server
  }

  /** A finding: a pending cancel does not keep the client from driving on.  A tick with a cancel
      pending sends a further goal exactly when the client has arrived at a node that is not the
      last, with no fatal error, some action of the order was still running when the tick began, none
      of these was left behind untold, and the ones of the current node that are HARD or SOFT are
      stopped by this very tick. */
  lemma CancelDrivesOnIff(cfg: Config, c: Client, world: Surroundings)
    requires Inv(c) && !c.fault && c.mode.Running? && c.req.cancelAction.Some? && c.req.pauseAction.None?
    ensures GoalsSent(ExecuteOrder(cfg, c, world).calls) != GoalsSent(c.calls) <==>
            && c.pos.reached && c.pos.currentNode + 1 < |c.order.value.nodes| && !FatalFirst(c)
            && SomeRunning(c) && NoneBlocksBut(cfg, c, world.interrupted)
            && !(exists j: nat :: LeftBehind(c, c.req.canceledIds, j))
            && MayDrive(cfg, world, c.pos.currentNode)
  {
    hide CancelOrderStep, Schedule, SomeRunning, NoneBlocksBut, LeftBehind, Inv, Foreign, RequestsApart;
    var id := c.req.cancelAction.value;
    RequestsForeign(c);
    RunningHere(c);
    CancelFaultsIff(cfg, c, id, world.interrupted);
    CancelStepStill(cfg, c, id, world.interrupted);
    CancelLeavesRequest(cfg, c, id, world.interrupted);
    var d := CancelOrderStep(cfg, c, id, world.interrupted);
    if !d.fault {
      CancelFinishesIff(cfg, c, id, world.interrupted);
      CancelKeepsInv(cfg, c, id, world.interrupted);
      if d.mode.Running? {
        CancelUnfinished(cfg, c, id, world.interrupted);
        DrivesOnIff(cfg, d, world);
        if c.pos.reached {
          BlocksSame(cfg, c, d, world.interrupted);
        }
      } else {
        CancelModes(cfg, c, id, world.interrupted);
      }
    }
  }

  lemma RunningHere(c: Client)
    requires Inv(c) && !c.fault && c.mode.Running?
    ensures HasOrder(c) && c.pos.currentNode < |c.order.value.nodes|
    ensures c.pos.reached ==> !c.nav.Outstanding() && c.pos.nextStop == c.pos.currentNode
  {
  }

  lemma CancelModes(cfg: Config, c: Client, id: ActionId, interrupted: set<ActionId>)
    requires Inv(c) && !c.fault && Foreign(c, id) && c.mode.Running?
    ensures var d := CancelOrderStep(cfg, c, id, interrupted); !d.fault ==> d.mode.Running? || d.mode.Idle?
  {
    hide CancelActions, MissionSound, Sweeping, SetStatus;
    var e := FirstEvaluation(c, id);
    FirstEvaluationKeeps(c, id);
    SweepFromRest(e);
    SweepQuiet(cfg, e, 0, true, interrupted);
  }

  lemma CancelUnfinished(cfg: Config, c: Client, id: ActionId, interrupted: set<ActionId>)
    requires Inv(c) && !c.fault && Foreign(c, id) && c.mode.Running?
    requires var d := CancelOrderStep(cfg, c, id, interrupted); !d.fault && d.mode.Running?
    ensures var d := CancelOrderStep(cfg, c, id, interrupted);
            && HasOrder(c) && HasOrder(d) && d.order == c.order && d.pos == c.pos && d.agv.errors == c.agv.errors
            && NothingWaits(d) && Stopped(cfg, c, d, interrupted, c.pos.numActions)
              && InRouteOrder(ViewOf(d), d.pos.currentNode)
            && (forall i | 0 <= i < c.pos.numActions && !ViewOf(c).status[i].Active() :: !ViewOf(d).status[i].Active())
  {
    hide CancelActions, SetStatus, Sweeping, RequestsApart, Stopped;
    var e := FirstEvaluation(c, id);
    FirstEvaluationKeeps(c, id);
    SweepFromRest(e);
    SweepingHere(e, e, 0);
    SweepKeeps(cfg, e, e, 0, true, interrupted);
    StoppedFrom(cfg, e, interrupted);
    SweepStops(cfg, e, e, 0, true, interrupted);
    var d := CancelActions(cfg, e, 0, true, interrupted).0;
    if !d.fault {
      SweepingFrame(e, d, e.pos.numActions);
      SweptNothingWaits(e, d);
      SweptSameRunning(e, d);
      StoppedSame(cfg, c, e, d, interrupted);
    }
  }

  lemma StoppedSame(cfg: Config, c: Client, e: Client, d: Client, interrupted: set<ActionId>)
    requires HasOrder(c) && HasOrder(e) && HasOrder(d) && c.order == e.order
             && c.pos.numActions == d.pos.numActions == e.pos.numActions
    requires ViewOf(c) == ViewOf(e) && c.req == e.req && Stopped(cfg, e, d, interrupted, e.pos.numActions)
    ensures Stopped(cfg, c, d, interrupted, c.pos.numActions)
  {
    assert forall j | 0 <= j < c.pos.numActions ::
             StopsAtOnce(cfg, c, interrupted, j) == StopsAtOnce(cfg, e, interrupted, j);
  }

  lemma SweptSameRunning(e: Client, d: Client)
    requires Sweeping(e, d, e.pos.numActions) && Sound(ViewOf(e), e.pos.currentNode)
    ensures InRouteOrder(ViewOf(d), d.pos.currentNode)
    ensures forall i | 0 <= i < e.pos.numActions && !ViewOf(e).status[i].Active() :: !ViewOf(d).status[i].Active()
  {
    SweptMovesOn(ViewOf(e), e.pos.currentNode, ViewOf(d).status);
    MovingOnKeepsSound(ViewOf(e), e.pos.currentNode, ViewOf(d).status);
    assert ViewOf(d) == ViewOf(e).(status := ViewOf(d).status);
    forall i | 0 <= i < e.pos.numActions && !ViewOf(e).status[i].Active()
      ensures !ViewOf(d).status[i].Active()
    {
      assert MovesOn(i < ViewOf(e).Begun(), ViewOf(e).status[i], ViewOf(d).status[i]);
    }
  }

  lemma BlocksSame(cfg: Config, c: Client, d: Client, interrupted: set<ActionId>)
    requires HasOrder(c) && HasOrder(d) && d.order == c.order && d.pos == c.pos
             && c.pos.currentNode < |c.order.value.nodes|
    requires Stopped(cfg, c, d, interrupted, c.pos.numActions)
    requires forall i | 0 <= i < c.pos.numActions && !ViewOf(c).status[i].Active() :: !ViewOf(d).status[i].Active()
    ensures NoneBlocksFrom(d, 0) <==> NoneBlocksBut(cfg, c, interrupted)
  {
    RunsOn(cfg, c, d, interrupted);
  }

  lemma RunsOn(cfg: Config, c: Client, d: Client, interrupted: set<ActionId>)
    requires HasOrder(c) && HasOrder(d) && d.order == c.order && Stopped(cfg, c, d, interrupted, c.pos.numActions)
    requires forall i | 0 <= i < c.pos.numActions && !ViewOf(c).status[i].Active() :: !ViewOf(d).status[i].Active()
    ensures forall i | 0 <= i < c.pos.numActions ::
              ViewOf(d).status[i].Active() <==> ViewOf(c).status[i].Active() && !StopsAtOnce(cfg, c, interrupted, i)
  {
    forall i | 0 <= i < c.pos.numActions
      ensures ViewOf(d).status[i].Active() <==> ViewOf(c).status[i].Active() && !StopsAtOnce(cfg, c, interrupted, i)
    {
      assert ViewOf(c).status[i].Active() ==>
               ViewOf(d).status[i] == if StopsAtOnce(cfg, c, interrupted, i) then FAILED else ViewOf(c).status[i];
    }
  }

  /** With nothing waiting, when the tick sends a goal. */
  lemma DrivesOnIff(cfg: Config, d: Client, world: Surroundings)
    requires Inv(d) && !d.fault && d.mode.Running? && NothingWaits(d)
    requires HasOrder(d) && d.pos.currentNode < |d.order.value.nodes|
    ensures GoalsSent(Schedule(cfg, d, world).calls) != GoalsSent(d.calls) <==>
            && d.pos.reached && d.pos.currentNode + 1 < |d.order.value.nodes| && !FatalFirst(d) && NoneBlocksFrom(d, 0)
            && (cfg.statusCheck && d.pos.currentNode == 0 ==> world.active) && world.server
  {
    hide Scan, NoneBlocksFrom, NothingWaits, CancelsOnce, RequestsApart, ReportsProgress, Settled;
    var nodes, n := d.order.value.nodes, d.pos.currentNode;
    ScanIdles(cfg, d, 0, false, false, world.outcome);
    if n + 1 < |nodes| {
      OneMoreCall(d.calls, SendGoal(Span(n + 1, GoalEnd(nodes, n + 1) + 1)));
    }
  }
}
