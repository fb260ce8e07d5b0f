/** Pausing, resuming, new orders and errors: exact conditions, including those under which the
    client does not do what its messages say. */
module MissionInterruptions {
  import opened Options
  import opened MissionTypes
  import opened MissionSpec
  import opened MissionViews
  import opened MissionInvariant
  import opened MissionScheduling
  import opened MissionCanceling
  import opened MissionPausing
  import opened MissionRuns
  import opened MissionGoals
  import opened MissionRequests

  // ----- Pause -----

  /** Unless it breaks, an evaluation of a pending pause enters the paused state exactly when no
      action of the order is running and no goal is in progress; nothing is started or sent, no
      status of the order changes and the client does not move. */
  lemma PauseEntersIff(cfg: Config, c: Client, id: ActionId)
    requires Inv(c) && !c.fault && Foreign(c, id) && c.mode.Running?
    ensures var d := PauseOrderStep(cfg, c, id);
            && (!d.fault ==> (d.mode.Paused? <==> !SomeRunning(c) && !c.nav.navHandle))
            && HasOrder(d) && ViewOf(d) == ViewOf(c) && d.pos == c.pos && d.nav == c.nav
              && Goals(d.calls) == Goals(c.calls)
  {
    hide FirstEvaluation, PauseActions, SetStatus, MissionSound;
    var e := FirstEvaluation(c, id);
    FirstEvaluationKeeps(c, id);
    FirstEvaluationQuiet(c, id);
    PauseLeaves(cfg, e, e, 0, true);
    PauseQuiet(cfg, e, 0, true);
    var r := PauseActions(cfg, e, 0, true);
    PauseFrameSound(e, r.0);
    UpdateForeign(r.0, id, FINISHED);
    SeesOnlyRequests(Update(r.0, id, FINISHED));
  }

  lemma SeesOnlyRequests(u: Client)
    requires HasOrder(u)
    ensures var d := u.(mode := Mode.Paused, req := u.req.(pauseAction := None, pausedIds := {}));
            HasOrder(d) && ViewOf(d) == ViewOf(u)
  {
  }

  /** Action j is running and cannot be told to pause: it was started at an earlier node, or nothing
      handles it. */
  ghost predicate CannotPause(cfg: Config, c: Client, told: set<ActionId>, j: nat)
    requires HasOrder(c) && c.pos.currentNode < |c.order.value.nodes|
  {
    && j < c.pos.numActions && ViewOf(c).status[j].Active() && Flat(c.order.value.nodes)[j].id !in told
    && (j < Offset(c.order.value.nodes, c.pos.currentNode) || Flat(c.order.value.nodes)[j].kind !in cfg.handlers)
  }

  lemma PauseRunningFaults(cfg: Config, c: Client, d: Client, i: nat)
    requires HasOrder(c) && InRouteOrder(ViewOf(c), c.pos.currentNode) && PauseFrame(c, d)
    requires i < c.pos.numActions && !d.fault && ViewOf(c).status[i].Active()
    ensures var id := Flat(c.order.value.nodes)[i].id;
            && (PauseRunning(cfg, d, id).fault <==> CannotPause(cfg, c, d.req.pausedIds, i))
            && PauseRunning(cfg, d, id).req.pausedIds == d.req.pausedIds + {id}
  {
    var id := Flat(c.order.value.nodes)[i].id;
    assert i < ViewOf(c).Begun();
    FoundHere(c, i);
    assert GetAction(d.(req := d.req.(pausedIds := d.req.pausedIds + {id})), id) == GetAction(c, id);
    if id in d.req.pausedIds {
      assert d.req.pausedIds + {id} == d.req.pausedIds;
    }
  }

  lemma {:induction false} PausePassFaults(cfg: Config, c: Client, d: Client, i: nat, all: bool)
    requires HasOrder(c) && c.pos.currentNode < |c.order.value.nodes| && InRouteOrder(ViewOf(c), c.pos.currentNode)
    requires PauseFrame(c, d) && i <= c.pos.numActions && !d.fault
    ensures PauseActions(cfg, d, i, all).0.fault <==> exists j: nat :: i <= j && CannotPause(cfg, c, d.req.pausedIds, j)
    decreases c.pos.numActions - i
  {
    hide PauseRunning, SetStatus, InRouteOrder;
    if i < c.pos.numActions {
      OwnIndex(c, i);
      var id := Flat(c.order.value.nodes)[i].id;
      assert c.agv.actionStates[i].id == id;
      if ViewOf(c).status[i].Active() {
        PauseRunningFaults(cfg, c, d, i);
        PauseOneLeaves(cfg, d, id);
        var e := PauseRunning(cfg, d, id);
        if !e.fault {
          PausePassFaults(cfg, c, e, i + 1, false);
          forall j: nat | i < j
            ensures CannotPause(cfg, c, e.req.pausedIds, j) <==> CannotPause(cfg, c, d.req.pausedIds, j)
          {
            if j < c.pos.numActions { OnlyIndex(c, j); }
          }
        }
      } else {
        PausePassFaults(cfg, c, d, i + 1, all);
      }
    }
  }

  /** Exactly when the evaluation of a pending pause breaks. */
  lemma PauseFaultsIff(cfg: Config, c: Client, id: ActionId)
    requires Inv(c) && !c.fault && Foreign(c, id) && c.mode.Running?
    ensures c.order.Some? && c.pos.currentNode < |c.order.value.nodes|
    ensures PauseOrderStep(cfg, c, id).fault <==> exists j: nat :: CannotPause(cfg, c, c.req.pausedIds, j)
  {
    hide SetStatus, PauseActions, FirstEvaluation, RequestsApart;
    var e := FirstEvaluation(c, id);
    FirstEvaluationKeeps(c, id);
    FirstEvaluationListed(c, id);
    RunningHere(c);
    PausePassFaults(cfg, e, e, 0, true);
    assert forall j: nat :: CannotPause(cfg, e, e.req.pausedIds, j) <==> CannotPause(cfg, c, c.req.pausedIds, j);
  }

  // ----- Cancel and pause together -----

  /** Action j goes on running although the cancel is evaluated. */
  ghost predicate GoesOn(cfg: Config, c: Client, interrupted: set<ActionId>, j: nat)
    requires HasOrder(c)
  {
    j < |Flat(c.order.value.nodes)| && ViewOf(c).status[j].Active() && !StopsAtOnce(cfg, c, interrupted, j)
  }

  lemma {:induction false} CancelKeepsPaused(cfg: Config, c: Client, i: nat, all: bool, interrupted: set<ActionId>)
    ensures CancelActions(cfg, c, i, all, interrupted).0.req.pausedIds == c.req.pausedIds
    decreases c.pos.numActions - i
  {
    hide SetStatus, StatusOf, FindAction;
    if !c.fault && i < c.pos.numActions && i < |c.agv.actionStates| {
      var id := c.agv.actionStates[i].id;
      CancelKeepsPaused(cfg, Update(c, id, FAILED), i + 1, all, interrupted);
      CancelKeepsPaused(cfg, CancelRunning(cfg, c, id, interrupted), i + 1, false, interrupted);
      CancelKeepsPaused(cfg, c, i + 1, all, interrupted);
    }
  }

  lemma CancelStepKeepsPaused(cfg: Config, c: Client, id: ActionId, interrupted: set<ActionId>)
    ensures CancelOrderStep(cfg, c, id, interrupted).req.pausedIds == c.req.pausedIds
  {
    hide CancelActions, StatusOf, SetStatus;
    CancelKeepsPaused(cfg, FirstEvaluation(c, id), 0, true, interrupted);
  }

  lemma {:induction false} PauseKeepsErrors(cfg: Config, c: Client, i: nat, all: bool)
    ensures PauseActions(cfg, c, i, all).0.agv.errors == c.agv.errors
    decreases c.pos.numActions - i
  {
    hide StatusOf, FindAction;
    if !c.fault && i < c.pos.numActions && i < |c.agv.actionStates| {
      var id := c.agv.actionStates[i].id;
      PauseKeepsErrors(cfg, PauseRunning(cfg, c, id), i + 1, false);
      PauseKeepsErrors(cfg, c, i + 1, all);
    }
  }

  lemma PauseStepKeepsErrors(cfg: Config, c: Client, id: ActionId)
    ensures PauseOrderStep(cfg, c, id).agv.errors == c.agv.errors
  {
    hide PauseActions, StatusOf, SetStatus;
    PauseKeepsErrors(cfg, FirstEvaluation(c, id), 0, true);
  }

  /** The pause after the cancel: whether the tick then sends a goal. */
  lemma PausePendingDrivesIff(cfg: Config, d: Client, id: ActionId, world: Surroundings)
    requires Inv(d) && !d.fault && Foreign(d, id) && d.mode.Running? && NothingWaits(d)
    ensures HasOrder(d) && d.pos.currentNode < |d.order.value.nodes|
    ensures var e := PauseOrderStep(cfg, d, id);
            !e.fault && e.mode.Running? && GoalsSent(Schedule(cfg, e, world).calls) != GoalsSent(d.calls) <==>
            && !(exists j: nat :: CannotPause(cfg, d, d.req.pausedIds, j)) && SomeRunning(d)
            && d.pos.reached && d.pos.currentNode + 1 < |d.order.value.nodes| && !FatalFirst(d) && NoneBlocksFrom(d, 0)
            && (cfg.statusCheck && d.pos.currentNode == 0 ==> world.active) && world.server
  {
    hide PauseOrderStep, Schedule, Inv, NoneBlocksFrom, NothingWaits, CannotPause, SomeRunning, ViewOf;
    RunningHere(d);
    PauseFaultsIff(cfg, d, id);
    PauseEntersIff(cfg, d, id);
    PauseStepStill(cfg, d, id);
    PauseStepKeepsErrors(cfg, d, id);
    PauseKeepsInv(cfg, d, id);
    var e := PauseOrderStep(cfg, d, id);
    SameBlocks(d, e);
    if !e.fault && e.mode.Running? {
      RunningHere(e);
      DrivesOnIff(cfg, e, world);
    }
    if !e.fault && !e.mode.Running? {
      PauseModes(cfg, d, id);
    }
  }

  lemma PauseModes(cfg: Config, d: Client, id: ActionId)
    requires d.mode.Running?
    ensures PauseOrderStep(cfg, d, id).mode.Running? || PauseOrderStep(cfg, d, id).mode.Paused?
  {
    hide PauseActions, StatusOf, SetStatus;
    FirstEvaluationListed(d, id);
    PauseQuiet(cfg, FirstEvaluation(d, id), 0, true);
  }

  lemma SameBlocks(d: Client, e: Client)
    requires HasOrder(d) && HasOrder(e) && e.order == d.order && e.pos == d.pos && ViewOf(e) == ViewOf(d)
    requires d.pos.currentNode < |d.order.value.nodes|
    ensures NoneBlocksFrom(e, 0) <==> NoneBlocksFrom(d, 0)
  {
  }

  lemma SeenByPause(cfg: Config, c: Client, d: Client, interrupted: set<ActionId>)
    requires HasOrder(c) && HasOrder(d) && d.order == c.order && d.pos == c.pos
             && c.pos.currentNode < |c.order.value.nodes|
    requires d.req.pausedIds == c.req.pausedIds && Stopped(cfg, c, d, interrupted, c.pos.numActions)
    requires forall i | 0 <= i < c.pos.numActions && !ViewOf(c).status[i].Active() :: !ViewOf(d).status[i].Active()
    ensures SomeRunning(d) <==> exists j: nat :: GoesOn(cfg, c, interrupted, j)
    ensures (exists j: nat :: CannotPause(cfg, d, d.req.pausedIds, j)) <==>
            exists j: nat :: GoesOn(cfg, c, interrupted, j) && CannotPause(cfg, c, c.req.pausedIds, j)
  {
    RunsOn(cfg, c, d, interrupted);
    hide Stopped, StopsAtOnce;
    forall j: nat | j < c.pos.numActions
      ensures ViewOf(d).status[j].Active() <==> GoesOn(cfg, c, interrupted, j)
    {
    }
    assert forall j: nat ::
             CannotPause(cfg, d, d.req.pausedIds, j) <==>
             GoesOn(cfg, c, interrupted, j) && CannotPause(cfg, c, c.req.pausedIds, j);
    if j: nat :| GoesOn(cfg, c, interrupted, j) {
      assert ViewOf(d).status[j].Active();
    }
  }

  /** The same finding with a pause pending as well: the tick sends a further goal exactly under the
      conditions for a cancel alone, if moreover some action goes on running (or the client would be
      paused) and every such action can be told to pause. */
  lemma CancelAndPauseDriveOnIff(cfg: Config, c: Client, world: Surroundings)
    requires Inv(c) && !c.fault && c.mode.Running? && c.req.cancelAction.Some? && c.req.pauseAction.Some?
    ensures HasOrder(c) && c.pos.currentNode < |c.order.value.nodes|
    ensures GoalsSent(ExecuteOrder(cfg, c, world).calls) != GoalsSent(c.calls) <==>
            && c.pos.reached && c.pos.currentNode + 1 < |c.order.value.nodes| && !FatalFirst(c)
            && NoneBlocksBut(cfg, c, world.interrupted)
            && !(exists j: nat :: LeftBehind(c, c.req.canceledIds, j))
            && MayDrive(cfg, world, c.pos.currentNode)
            && (exists j: nat :: GoesOn(cfg, c, world.interrupted, j))
            && !(exists j: nat :: GoesOn(cfg, c, world.interrupted, j) && CannotPause(cfg, c, c.req.pausedIds, j))
  {
    hide CancelOrderStep, PauseOrderStep, Schedule, SomeRunning, NoneBlocksBut, LeftBehind, Inv, Foreign,
         RequestsApart, GoesOn, CannotPause;
    var id, interrupted := c.req.cancelAction.value, world.interrupted;
    RequestsForeign(c);
    RunningHere(c);
    CancelFaultsIff(cfg, c, id, interrupted);
    CancelStepStill(cfg, c, id, interrupted);
    CancelLeavesRequest(cfg, c, id, interrupted);
    CancelStepKeepsPaused(cfg, c, id, interrupted);
    var d := CancelOrderStep(cfg, c, id, interrupted);
    if !d.fault {
      CancelFinishesIff(cfg, c, id, interrupted);
      CancelKeepsInv(cfg, c, id, interrupted);
      if d.mode.Running? {
        CancelUnfinished(cfg, c, id, interrupted);
        SeenByPause(cfg, c, d, interrupted);
        RequestsForeign(d);
        PausePendingDrivesIff(cfg, d, d.req.pauseAction.value, world);
        BlocksSame(cfg, c, d, interrupted);
        PauseStepStill(cfg, d, d.req.pauseAction.value);
      } else {
        CancelModes(cfg, c, id, interrupted);
        GoesOnRuns(cfg, c, interrupted);
        PauseStepStill(cfg, d, d.req.pauseAction.value);
        IdleStays(cfg, d, d.req.pauseAction.value);
      }
    }
  }

  lemma GoesOnRuns(cfg: Config, c: Client, interrupted: set<ActionId>)
    requires HasOrder(c)
    ensures (exists j: nat :: GoesOn(cfg, c, interrupted, j)) ==> SomeRunning(c)
  {
  }

  lemma IdleStays(cfg: Config, d: Client, id: ActionId)
    requires d.mode.Idle?
    ensures PauseOrderStep(cfg, d, id).mode.Idle?
  {
  }

  /** A finding: a goal that has been requested but not answered does not stop a pause; the client
      reports itself paused and the robot then drives off. */
  lemma PausedBeforeGoalAnswered(cfg: Config, c: Client, id: ActionId)
    requires Inv(c) && !c.fault && Foreign(c, id) && c.mode.Running? && c.nav.goalRequested && !SomeRunning(c)
    ensures var d := PauseOrderStep(cfg, c, id);
            !d.fault && d.mode.Paused? && d.nav.goalRequested && GoalResponded(d, true).nav.navHandle
              && GoalResponded(d, true).mode.Paused?
  {
    hide PauseOrderStep;
    RunningHere(c);
    NotBoth(c);
    PauseEntersIff(cfg, c, id);
    PauseFaultsIff(cfg, c, id);
  }

  /** While paused, and with no cancel pending, ticks start nothing, send nothing and stay put. */
  lemma PausedStaysPut(cfg: Config, c: Client, world: Surroundings)
    requires Inv(c) && !c.fault && c.mode.Paused? && c.req.cancelAction.None?
    ensures var d := ExecuteOrder(cfg, c, world);
            && !d.fault && d.mode.Paused? && Still(c, d) && Starts(d.calls) == Starts(c.calls) && ViewOf(d) == ViewOf(c)
  {
    hide MissionSound;
    if c.req.pauseAction.Some? {
      PauseStepStill(cfg, c, c.req.pauseAction.value);
      UpdateForeign(c, c.req.pauseAction.value, FINISHED);
    }
  }

  /** Resuming restarts at the current node: every action of the order keeps its status, nothing is
      started by it, and the next goal will begin at the node after the current one.  (Whether a goal is
      still in progress makes no difference; what then goes wrong is the subject of MissionResuming.) */
  lemma ResumeRestarts(cfg: Config, c: Client, id: ActionId)
    requires Inv(c) && !c.fault && Foreign(c, id) && c.mode.Paused?
    ensures var d := ResumeOrder(cfg, c, id);
            && !d.fault && d.mode.Running? && d.pos == c.pos.(nextStop := c.pos.currentNode, reached := true)
            && HasOrder(d) && ViewOf(d) == ViewOf(c) && d.calls == c.calls
  {
    var u := Update(c, id, RUNNING);
    UpdateForeign(c, id, RUNNING);
    NothingToResume(cfg, u, 0);
    var e := u.(mode := Running, pos := u.pos.(nextStop := u.pos.currentNode, reached := true));
    assert ViewOf(e) == ViewOf(u);
    UpdateForeign(e, id, FINISHED);
  }

  // ----- New orders -----

  lemma IndexIs(s: seq<ActionState>, i: nat)
    requires DistinctIds(s) && i < |s|
    ensures IndexOf(s, s[i].id) == i
  {
  }

  lemma {:induction false} UnfinishedMembers(s: seq<ActionState>)
    ensures forall m | m in s :: m in Unfinished(s) <==> !m.status.Ended()
    ensures forall m | m in Unfinished(s) :: m in s
  {
    if s != [] {
      UnfinishedMembers(s[..|s| - 1]);
      assert s == s[..|s| - 1] + [s[|s| - 1]];
    }
  }

  lemma IndexInFront(s: seq<ActionState>, m: ActionState)
    requires DistinctIds(s) && s != [] && m in s[..|s| - 1]
    ensures IndexOf(s, m.id) == IndexOf(s[..|s| - 1], m.id) < |s| - 1
  {
    hide IndexOf;
    var front := s[..|s| - 1];
    var k :| 0 <= k < |front| && front[k] == m;
    IndexIs(front, k);
    IndexIs(s, k);
  }

  /** The instant actions that outlive an order: exactly the unfinished ones, in their old order. */
  lemma {:induction false} UnfinishedExact(s: seq<ActionState>)
    requires DistinctIds(s)
    ensures forall m | m in s :: m in Unfinished(s) <==> !m.status.Ended()
    ensures forall i, j | 0 <= i < j < |Unfinished(s)| ::
              IndexOf(s, Unfinished(s)[i].id) < IndexOf(s, Unfinished(s)[j].id) < |s|
  {
    hide IndexOf;
    UnfinishedMembers(s);
    if s != [] {
      var front, w := s[..|s| - 1], Unfinished(s);
      var u := Unfinished(front);
      UnfinishedExact(front);
      UnfinishedMembers(front);
      hide Unfinished;
      forall i, j | 0 <= i < j < |w|
        ensures IndexOf(s, w[i].id) < IndexOf(s, w[j].id) < |s|
      {
        assert w[i] == u[i];
        IndexInFront(s, u[i]);
        if j < |u| {
          IndexInFront(s, u[j]);
        } else {
          IndexIs(s, |s| - 1);
        }
      }
    }
  }

  /** After an accepted order the action states are its actions, all waiting, in route order,
      followed by the unfinished instant actions; nothing of the previous order is left. */
  lemma AcceptedOrderLayout(cfg: Config, c: Client, order: Order)
    requires Inv(c) && !c.fault && Allowed(c, OrderMsg(order)) && CanAcceptOrder(c).0 && |order.nodes| > 0
    ensures var d := Step(cfg, c, OrderMsg(order));
            && !d.fault && d.order == Some(order) && d.mode.Running?
            && d.agv.actionStates == Fresh(Flat(order.nodes)) + Unfinished(c.agv.actionStates[c.pos.numActions..])
            && d.pos.numActions == |Flat(order.nodes)| && Starts(d.calls) == [] && d.agv.errors == []
  {
    hide MissionSound, RequestsApart;
    AcceptIsSafe(c);
  }

  /** A finding: an order is accepted while a goal of the previous one is outstanding exactly when
      the client is idle; or runs, with no action of the order running, and either a handler's fatal
      error comes first, or the last feedback left no poses of the last goal and nothing waits. */
  lemma ReplacedWhileDrivingIff(cfg: Config, c: Client)
    requires Inv(c) && !c.fault && c.nav.Outstanding()
    ensures c.order.Some? && HasOrder(c)
    ensures CanAcceptOrder(c).0 <==>
            c.mode.Idle? ||
            (c.mode.Running? && !SomeRunning(c) &&
             (FatalFirst(c) ||
              (c.pos.currentNode == c.pos.nextStop == |c.order.value.nodes| - 1 &&
               forall i | 0 <= i < c.pos.numActions :: c.agv.actionStates[i].status.Ended())))
  {
    var v := ViewOf(c);
    assert forall i | 0 <= i < c.pos.numActions :: v.status[i] == c.agv.actionStates[i].status;
    forall i | 0 <= i < c.pos.numActions
      ensures v.status[i].Active() || v.status[i].WAITING? || v.status[i].Ended()
    {
    }
  }

  /** What then happens to the new order: the first feedback on the old goal breaks the client, unless
      it leaves no poses. */
  lemma OldGoalBreaksNewOrderIff(c: Client, order: Order, remaining: nat)
    requires Inv(c) && !c.fault && c.nav.Outstanding() && CanAcceptOrder(c).0 && |order.nodes| > 0
    requires remaining + |order.nodes| <= 0x1_0000_0000_0000_0000
    ensures var d := ReceiveOrder(c, order);
            !d.fault && d.nav == c.nav && d.mode.Running? && (FeedbackReceived(d, remaining).fault <==> remaining > 0)
  {
    AcceptIsSafe(c);
  }

  /** A finding: resuming while a goal is in progress makes its feedback count from the wrong node: the
      client is taken back by as many nodes as poses are left, and breaks if there are not so many. */
  lemma ResumedWhileDriving(cfg: Config, c: Client, id: ActionId, remaining: nat)
    requires Inv(c) && !c.fault && Foreign(c, id) && c.mode.Paused? && c.nav.navHandle
    requires c.order.Some? && remaining + |c.order.value.nodes| <= 0x1_0000_0000_0000_0000
    ensures var d := ResumeOrder(cfg, c, id);
            && !d.fault && d.nav == c.nav && d.mode.Running?
            && (FeedbackReceived(d, remaining).fault <==> remaining > c.pos.currentNode)
            && (remaining <= c.pos.currentNode ==>
                FeedbackReceived(d, remaining).pos.currentNode == c.pos.currentNode - remaining)
  {
    hide Update;
    HasNodes(c);
    ResumesAsIs(cfg, c, id);
    UpdateFrame(c, id, RUNNING);
    var u := Update(c, id, RUNNING);
    var e := u.(mode := Running, pos := u.pos.(nextStop := u.pos.currentNode, reached := true));
    UpdateFrame(e, id, FINISHED);
  }

  // ----- Errors -----

  lemma StandsStill(cfg: Config, d: Client, world: Surroundings)
    requires !d.fault && d.mode.Running? && !d.pos.reached && !FatalFirst(d)
    requires d.req.cancelAction.None? && d.req.pauseAction.None?
    ensures ExecuteOrder(cfg, d, world) == d
  {
  }

  /** A finding: only the first error is looked at.  When a goal is canceled from outside, the fatal
      error recorded for it ends the order if and only if no warning was recorded first and nothing is
      running; after an earlier warning every later tick does nothing at all. */
  lemma LostGoalEndsOrderIff(cfg: Config, c: Client, world: Surroundings)
    requires Inv(c) && !c.fault && c.nav.navHandle && c.mode.Running? && (cfg.navigable ==> world.position)
    requires c.req.cancelAction.None? && c.req.pauseAction.None? && !c.req.pauseOrder
    ensures var d := GoalFinished(c, Canceled);
            && !d.fault && d.agv.errors == c.agv.errors + [FATAL]
            && (ExecuteOrder(cfg, d, world).mode.Idle? <==> (c.agv.errors == [] || FatalFirst(c)) && !SomeRunning(c))
            && (c.agv.errors != [] && !FatalFirst(c) ==> ExecuteOrder(cfg, d, world) == d)
  {
    RunningHere(c);
    HasNodes(c);
    var d := GoalFinished(c, Canceled);
    assert !c.pos.reached;
    assert forall i | 0 <= i < c.pos.numActions :: ViewOf(c).status[i] == c.agv.actionStates[i].status;
    if c.agv.errors != [] && !FatalFirst(c) {
      StandsStill(cfg, d, world);
    }
  }

  /** A finding: a fatal error that a handler reports while the robot drives makes the client idle at
      the next tick at which no action of the order is running, and does so without canceling the
      goal: the robot drives on. */
  lemma FatalErrorLeavesGoalIff(cfg: Config, c: Client, world: Surroundings)
    requires Inv(c) && !c.fault && c.nav.Outstanding() && c.mode.Running?
    requires c.req.cancelAction.None? && c.req.pauseAction.None?
    ensures var d := ExecuteOrder(cfg, c, world);
            && !d.fault && d.nav == c.nav && d.calls == c.calls
            && (d.mode.Idle? <==> FatalFirst(c) && !SomeRunning(c) && (cfg.navigable ==> world.position))
  {
    RunningHere(c);
    assert !c.pos.reached;
    assert forall i | 0 <= i < c.pos.numActions :: ViewOf(c).status[i] == c.agv.actionStates[i].status;
  }

  // ----- Several instant actions in one message -----

  ghost predicate SameIds(c: Client, d: Client) {
    && |d.agv.actionStates| == |c.agv.actionStates|
    && forall i | 0 <= i < |c.agv.actionStates| :: d.agv.actionStates[i].id == c.agv.actionStates[i].id
  }

  lemma UpdateSameIds(c: Client, id: ActionId, status: Status)
    ensures SameIds(c, Update(c, id, status)) && Update(c, id, status).fault == c.fault
  {
  }

  lemma TeleopSameIds(c: Client, a: Action)
    ensures SameIds(c, TeleopAction(c, a)) && TeleopAction(c, a).fault == c.fault
  {
    hide Update;
    UpdateSameIds(c, a.id, RUNNING);
    var d := Update(c, a.id, RUNNING);
    if a.kind.StartTeleop? {
      var e := d.(mode := Mode.Paused, req := d.req.(pauseOrder := true));
      UpdateSameIds(e, a.id, FINISHED);
      UpdateSameIds(Called(e, CancelGoal), a.id, FINISHED);
    } else {
      var e := d.(mode := Running, req := d.req.(pauseOrder := false));
      UpdateSameIds(e, e.req.pauseOrderId, FINISHED);
      var u := if e.req.pauseOrderId != NO_ID then Update(e, e.req.pauseOrderId, FINISHED) else e;
      UpdateSameIds(u.(req := u.req.(pauseOrderId := NO_ID),
                       pos := u.pos.(nextStop := u.pos.currentNode, reached := true)), a.id, FINISHED);
    }
  }

  /** Processing one instant action, other than a pause, neither breaks nor changes the listed ids. */
  lemma InstantIsSafe(cfg: Config, c: Client, a: Action, outcome: map<ActionId, StartedStatus>)
    requires Inv(c) && !c.fault && Foreign(c, a.id) && !a.kind.StartPause?
    ensures SameIds(c, InstantAction(cfg, c, a, outcome)) && !InstantAction(cfg, c, a, outcome).fault
  {
    hide Update, TeleopAction, PauseOrderStep, ResumeActions, Inv;
    UpdateSameIds(c, a.id, RUNNING);
    UpdateSameIds(c, a.id, FAILED);
    if a.kind.StartTeleop? || a.kind.StopTeleop? {
      TeleopSameIds(c, a);
    } else if a.kind.FactsheetRequest? {
      UpdateSameIds(Called(Update(c, a.id, RUNNING), PublishFactsheet), a.id, FINISHED);
    } else if a.kind.StopPause? && c.mode.Paused? {
      var u := Update(c, a.id, RUNNING);
      ResumesAsIs(cfg, c, a.id);
      UpdateSameIds(u.(mode := Running, pos := u.pos.(nextStop := u.pos.currentNode, reached := true)), a.id, FINISHED);
    } else if a.id in outcome {
      UpdateSameIds(Called(c, ExecuteInstant(a.id)), a.id, outcome[a.id]);
    }
  }

  lemma ResumesAsIs(cfg: Config, c: Client, id: ActionId)
    requires Inv(c) && !c.fault && Foreign(c, id) && c.mode.Paused?
    ensures ResumeActions(cfg, Update(c, id, RUNNING), 0) == Update(c, id, RUNNING)
  {
    UpdateForeign(c, id, RUNNING);
    NothingToResume(cfg, Update(c, id, RUNNING), 0);
  }

  ghost predicate TwoNewIds(c: Client, actions: seq<Action>, i: nat) {
    exists j, k :: i <= j < k < |actions| && actions[j].id != actions[k].id &&
                   NotListed(c.agv.actionStates, actions[j].id) && NotListed(c.agv.actionStates, actions[k].id)
  }

  lemma {:induction false} SecondPass(cfg: Config, c: Client, actions: seq<Action>, i: nat,
                                      outcome: map<ActionId, StartedStatus>)
    requires i <= |actions| && !c.fault
    ensures InstantActions(cfg, c, actions, i, false, outcome).fault <==>
            exists j :: i <= j < |actions| && NotListed(c.agv.actionStates, actions[j].id)
    decreases |actions| - i
  {
    hide InstantAction;
    if i < |actions| {
      var at := IndexOf(c.agv.actionStates, actions[i].id);
      if at < |c.agv.actionStates| {
        SecondPass(cfg, c, actions, i + 1, outcome);
        assert !NotListed(c.agv.actionStates, actions[i].id);
      } else {
        assert NotListed(c.agv.actionStates, actions[i].id);
      }
    }
  }

  /** The first new action from the i-th on is a pause that cannot be evaluated: the order runs, and
      a running action of it cannot be told to pause. */
  ghost predicate PauseBreaks(cfg: Config, c: Client, actions: seq<Action>, i: nat)
    requires c.mode.Running? ==> HasOrder(c) && c.pos.currentNode < |c.order.value.nodes|
  {
    && c.mode.Running? && (exists j: nat :: CannotPause(cfg, c, c.req.pausedIds, j))
    && exists k :: i <= k < |actions| && NotListed(c.agv.actionStates, actions[k].id) && actions[k].kind.StartPause? &&
                   forall m | i <= m < k :: !NotListed(c.agv.actionStates, actions[m].id)
  }

  /** A pause that has just been appended breaks exactly when it cannot be evaluated. */
  lemma NewPauseFaults(cfg: Config, c: Client, d: Client, a: Action, outcome: map<ActionId, StartedStatus>)
    requires Inv(c) && !c.fault && a.kind.StartPause? && IndexOf(c.agv.actionStates, a.id) == |c.agv.actionStates|
    requires d == c.(agv := c.agv.(actionStates := c.agv.actionStates + [ActionState(a.id, WAITING)]))
    ensures c.mode.Running? ==> HasOrder(c) && c.pos.currentNode < |c.order.value.nodes|
    ensures InstantAction(cfg, d, a, outcome).fault <==>
            c.mode.Running? && exists j: nat :: CannotPause(cfg, c, c.req.pausedIds, j)
    ensures InstantAction(cfg, d, a, outcome).fault || SameIds(d, InstantAction(cfg, d, a, outcome))
  {
    AppendKeepsInv(c, a.id);
    var p := d.(req := d.req.(pauseAction := Some(a.id)));
    PausePending(d, a.id);
    PauseSameIds(cfg, p, a.id);
    if c.mode.Running? {
      RunningHere(c);
      RunningHere(p);
      PauseFaultsIff(cfg, p, a.id);
      SameCannotPause(cfg, c, p);
    }
  }

  lemma PausePending(d: Client, id: ActionId)
    requires Inv(d) && !d.fault && Foreign(d, id)
    ensures var p := d.(req := d.req.(pauseAction := Some(id))); Inv(p) && Foreign(p, id)
  {
    hide Inv;
    RequestsForeign(d);
    RequestsReplaced(d, d.req.(pauseAction := Some(id)), d.mode);
    assert d.(req := d.req.(pauseAction := Some(id)), mode := d.mode) == d.(req := d.req.(pauseAction := Some(id)));
  }

  lemma SameCannotPause(cfg: Config, c: Client, p: Client)
    requires HasOrder(c) && HasOrder(p) && c.pos.currentNode < |c.order.value.nodes|
    requires p.order == c.order && p.pos == c.pos && p.req.pausedIds == c.req.pausedIds
             && c.agv.actionStates <= p.agv.actionStates
    ensures forall j: nat :: CannotPause(cfg, p, p.req.pausedIds, j) <==> CannotPause(cfg, c, c.req.pausedIds, j)
  {
    assert ViewOf(p).status == ViewOf(c).status;
  }

  lemma {:induction false} PausePassSameIds(cfg: Config, c: Client, i: nat, all: bool)
    ensures SameIds(c, PauseActions(cfg, c, i, all).0)
    decreases c.pos.numActions - i
  {
    hide GetAction, StatusOf;
    if !c.fault && i < c.pos.numActions && i < |c.agv.actionStates| {
      var id := c.agv.actionStates[i].id;
      PausePassSameIds(cfg, PauseRunning(cfg, c, id), i + 1, false);
      PausePassSameIds(cfg, c, i + 1, all);
    }
  }

  lemma PauseSameIds(cfg: Config, c: Client, id: ActionId)
    ensures SameIds(c, PauseOrderStep(cfg, c, id))
    ensures !c.mode.Running? ==> PauseOrderStep(cfg, c, id).fault == c.fault
  {
    hide Update, PauseActions, StatusOf;
    UpdateSameIds(c, id, FAILED);
    UpdateSameIds(c, id, FINISHED);
    UpdateSameIds(c, id, RUNNING);
    var e := FirstEvaluation(c, id);
    PausePassSameIds(cfg, e, 0, true);
    UpdateSameIds(PauseActions(cfg, e, 0, true).0, id, FINISHED);
  }

  /** A finding: a message of instant actions breaks the client exactly when two of its actions are
      new and have different ids, because the second one releases a lock that is already open; or when
      the first new one is a pause that breaks by itself. */
  lemma {:induction false} MessageFaultsIff(cfg: Config, c: Client, actions: seq<Action>, i: nat,
                                            outcome: map<ActionId, StartedStatus>)
    requires Inv(c) && !c.fault && i <= |actions|
    ensures c.mode.Running? ==> HasOrder(c) && c.pos.currentNode < |c.order.value.nodes|
    ensures InstantActions(cfg, c, actions, i, true, outcome).fault <==>
            TwoNewIds(c, actions, i) || PauseBreaks(cfg, c, actions, i)
    decreases |actions| - i
  {
    hide InstantAction, Inv, IndexOf, CannotPause, HasOrder;
    if c.mode.Running? { RunningHere(c); }
    if i < |actions| {
      var a := actions[i];
      if IndexOf(c.agv.actionStates, a.id) < |c.agv.actionStates| {
        MessageFaultsIff(cfg, c, actions, i + 1, outcome);
      } else {
        FirstNewFaultsIff(cfg, c, actions, i, outcome);
      }
    }
  }

  lemma FirstNewFaultsIff(cfg: Config, c: Client, actions: seq<Action>, i: nat, outcome: map<ActionId, StartedStatus>)
    requires Inv(c) && !c.fault && i < |actions| && IndexOf(c.agv.actionStates, actions[i].id) == |c.agv.actionStates|
    ensures c.mode.Running? ==> HasOrder(c) && c.pos.currentNode < |c.order.value.nodes|
    ensures InstantActions(cfg, c, actions, i, true, outcome).fault <==>
            TwoNewIds(c, actions, i) || PauseBreaks(cfg, c, actions, i)
  {
    hide InstantAction, Inv, IndexOf, CannotPause, HasOrder;
    if c.mode.Running? { RunningHere(c); }
    var a := actions[i];
    var d := c.(agv := c.agv.(actionStates := c.agv.actionStates + [ActionState(a.id, WAITING)]));
    AppendKeepsInv(c, a.id);
    if a.kind.StartPause? {
      NewPauseFaults(cfg, c, d, a, outcome);
    } else {
      InstantIsSafe(cfg, d, a, outcome);
    }
    var e := InstantAction(cfg, d, a, outcome);
    if !e.fault {
      SecondPass(cfg, e, actions, i + 1, outcome);
      forall j | i < j < |actions|
        ensures NotListed(e.agv.actionStates, actions[j].id) <==>
                NotListed(c.agv.actionStates, actions[j].id) && actions[j].id != a.id
      {
        ListedAfter(c, d, e, a.id, actions[j].id);
      }
    }
  }

  lemma ListedAfter(c: Client, d: Client, e: Client, id: ActionId, other: ActionId)
    requires d.agv.actionStates == c.agv.actionStates + [ActionState(id, WAITING)] && SameIds(d, e)
    ensures NotListed(e.agv.actionStates, other) <==> NotListed(c.agv.actionStates, other) && other != id
  {
    assert forall k | 0 <= k < |c.agv.actionStates| :: d.agv.actionStates[k] == c.agv.actionStates[k];
    assert d.agv.actionStates[|c.agv.actionStates|].id == id;
    assert forall k | 0 <= k < |d.agv.actionStates| :: e.agv.actionStates[k].id == d.agv.actionStates[k].id;
  }
}
