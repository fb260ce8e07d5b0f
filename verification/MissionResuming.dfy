/** Driving on after a pause or teleoperation: exactly when the next tick sends a goal, a second one if
    the first is still outstanding; and teleoperation without an order. */
module MissionResuming {
  import opened MissionTypes
  import opened MissionSpec
  import opened MissionViews
  import opened MissionInvariant
  import opened MissionScheduling
  import opened MissionRuns
  import opened MissionGoals
  import opened MissionRequests
  import opened MissionInterruptions

  // ----- What the pass over a node decides -----

  predicate Pending(s: Status) {
    s.Active() || s.WAITING?
  }

  /** No HARD or SOFT action of the current node, from the i-th on, is running or waiting. */
  ghost predicate NodeClear(c: Client, i: nat)
    requires HasOrder(c) && c.pos.currentNode < |c.order.value.nodes|
  {
    var nodes, n := c.order.value.nodes, c.pos.currentNode;
    forall j | i <= j < |nodes[n].actions| && Offset(nodes, n) + j < c.pos.numActions ::
      !(nodes[n].actions[j].blocking in {HARD, SOFT, Unset} && Pending(ViewOf(c).status[Offset(nodes, n) + j]))
  }

  /** Executing any action of the order changes its own status only. */
  lemma ExecuteAt(cfg: Config, c: Client, k: nat, outcome: map<ActionId, StartedStatus>) returns (s: StartedStatus)
    requires HasOrder(c) && k < c.pos.numActions
    ensures var d := ExecuteAction(cfg, c, Flat(c.order.value.nodes)[k], outcome);
            && HasOrder(d) && d.order == c.order && d.pos == c.pos
            && ViewOf(d).status == ViewOf(c).status[k := s]
  {
    hide ExecuteAction, Layout;
    StatusCount(c);
    var a := Flat(c.order.value.nodes)[k];
    OwnIndex(c, k);
    var req;
    s, req := ExecuteHalves(cfg, c, a, outcome);
    BeginNext(c, k);
    SettleNext(Called(Update(c, a.id, RUNNING), Start(a.id)), k, s, req);
    assert ViewOf(c).status[k := RUNNING][k := s] == ViewOf(c).status[k := s];
  }

  /** What one step of the pass leaves of the actions after the i-th. */
  ghost predicate RestSame(c: Client, d: Client, k: nat)
    requires HasOrder(c) && HasOrder(d)
  {
    && d.order == c.order && d.pos == c.pos
    && |ViewOf(d).status| == |ViewOf(c).status|
    && forall j {:trigger ViewOf(d).status[j]} | k < j < |ViewOf(c).status| ::
         ViewOf(d).status[j] == ViewOf(c).status[j]
  }

  lemma PassClears(cfg: Config, c: Client, i: nat, stop: bool, busy: bool, outcome: map<ActionId, StartedStatus>)
    requires HasOrder(c) && c.pos.currentNode < |c.order.value.nodes|
    requires i < |c.order.value.nodes[c.pos.currentNode].actions|
    ensures var nodes, n := c.order.value.nodes, c.pos.currentNode;
            var a, k := nodes[n].actions[i], Offset(nodes, n) + i;
            var p := PassAction(cfg, c, a, stop, busy, outcome);
            && k < c.pos.numActions && HasOrder(p.client) && RestSame(c, p.client, k)
            && var blocks := a.Blocks() && Pending(ViewOf(c).status[k]);
            && (p.more ==> (p.stop <==> stop || blocks))
            && (!p.more ==> blocks)
  {
    hide ExecuteAction, Layout, ViewOf, StatusOf;
    var k := Offset(c.order.value.nodes, c.pos.currentNode) + i;
    FlatAt(c.order.value.nodes, c.pos.currentNode, i);
    StatusCount(c);
    OwnIndex(c, k);
    var s := ExecuteAt(cfg, c, k, outcome);
  }

  lemma ClearHere(c: Client, d: Client, i: nat)
    requires HasOrder(c) && c.pos.currentNode < |c.order.value.nodes|
    requires i < |c.order.value.nodes[c.pos.currentNode].actions|
    requires Offset(c.order.value.nodes, c.pos.currentNode) + i < c.pos.numActions
    requires HasOrder(d) && RestSame(c, d, Offset(c.order.value.nodes, c.pos.currentNode) + i)
    ensures var a, k := c.order.value.nodes[c.pos.currentNode].actions[i],
            Offset(c.order.value.nodes, c.pos.currentNode) + i;
            NodeClear(c, i) <==> !(a.Blocks() && Pending(ViewOf(c).status[k])) && NodeClear(d, i + 1)
  {
    hide Layout;
    StatusCount(c);
    StatusCount(d);
  }

  /** The pass over a node lets the robot go on exactly when no HARD or SOFT action of the rest of the
      node was running or waiting when it began. */
  lemma {:induction false} ScanGoesIff(cfg: Config, c: Client, i: nat, stop: bool, busy: bool,
                                       outcome: map<ActionId, StartedStatus>)
    requires HasOrder(c) && c.pos.currentNode < |c.order.value.nodes|
    requires i <= |c.order.value.nodes[c.pos.currentNode].actions|
    ensures Scan(cfg, c, c.order.value.nodes[c.pos.currentNode].actions, i, stop, busy, outcome).1 <==>
            !stop && NodeClear(c, i)
    decreases |c.order.value.nodes[c.pos.currentNode].actions| - i
  {
    hide PassAction, ViewOf, Layout, Pending;
    var actions := c.order.value.nodes[c.pos.currentNode].actions;
    if i == |actions| {
      NothingLeft(c);
    } else {
      hide NodeClear, RestSame;
      PassClears(cfg, c, i, stop, busy, outcome);
      var p := PassAction(cfg, c, actions[i], stop, busy, outcome);
      SameNodeStill(c, p.client, Offset(c.order.value.nodes, c.pos.currentNode) + i);
      ClearHere(c, p.client, i);
      if p.more {
        ScanGoesIff(cfg, p.client, i + 1, p.stop, p.busy, outcome);
      }
    }
  }

  lemma SameNodeStill(c: Client, d: Client, k: nat)
    requires HasOrder(c) && HasOrder(d) && RestSame(c, d, k)
    ensures d.order == c.order && d.pos == c.pos
  {
  }

  lemma NothingLeft(c: Client)
    requires HasOrder(c) && c.pos.currentNode < |c.order.value.nodes|
    ensures NodeClear(c, |c.order.value.nodes[c.pos.currentNode].actions|)
  {
  }

  /** When nothing of the order waits, it is the running actions that count. */
  lemma ClearIffNoneBlocks(c: Client, i: nat)
    requires HasOrder(c) && c.pos.currentNode < |c.order.value.nodes| && NothingWaits(c)
    ensures NodeClear(c, i) <==> NoneBlocksFrom(c, i)
  {
    assert forall k | 0 <= k < c.pos.numActions :: ViewOf(c).status[k] == c.agv.actionStates[k].status;
  }

  // ----- The next tick -----

  /** From the current node a tick drives on. */
  ghost predicate Drives(cfg: Config, c: Client, world: Surroundings)
    requires HasOrder(c) && c.pos.currentNode < |c.order.value.nodes|
  {
    && c.pos.currentNode + 1 < |c.order.value.nodes| && !FatalFirst(c)
    && NodeClear(c, 0) && MayDrive(cfg, world, c.pos.currentNode)
  }

  /** The goal that it then sends. */
  function NextGoal(c: Client): seq<nat>
    requires c.order.Some? && c.pos.currentNode + 1 < |c.order.value.nodes|
  {
    Span(c.pos.currentNode + 1, GoalEnd(c.order.value.nodes, c.pos.currentNode + 1) + 1)
  }

  /** What a tick that drives, or does not, adds to c. */
  ghost predicate DrivenBy(cfg: Config, c: Client, world: Surroundings, d: Client)
    requires HasOrder(c) && c.pos.currentNode < |c.order.value.nodes|
  {
    && GoalsSent(d.calls) == GoalsSent(c.calls) + (if Drives(cfg, c, world) then [NextGoal(c)] else [])
    && d.nav == Navigation(c.nav.goalRequested || Drives(cfg, c, world), c.nav.navHandle)
  }

  lemma AdvanceDrives(cfg: Config, c: Client, world: Surroundings)
    requires c.order.Some? && c.pos.nextStop == c.pos.currentNode < |c.order.value.nodes|
    ensures var d := Advance(cfg, c, c.order.value.nodes, world);
            var sends := c.pos.currentNode + 1 < |c.order.value.nodes| && world.server &&
                         (cfg.statusCheck && c.pos.currentNode == 0 ==> world.active);
            && GoalsSent(d.calls) == GoalsSent(c.calls) + (if sends then [NextGoal(c)] else [])
            && d.nav == Navigation(c.nav.goalRequested || sends, c.nav.navHandle)
  {
    hide GoalsSent;
    if c.pos.currentNode + 1 < |c.order.value.nodes| {
      OneMoreCall(c.calls, SendGoal(NextGoal(c)));
    }
  }

  /** A tick in a state that has just been set back to the current node, whatever goal may be
      outstanding. */
  lemma ReachedTickIff(cfg: Config, c: Client, world: Surroundings)
    requires HasOrder(c) && !c.fault && c.mode.Running? && c.pos.reached
    requires c.pos.nextStop == c.pos.currentNode < |c.order.value.nodes|
    requires c.req.cancelAction.None? && c.req.pauseAction.None?
    ensures DrivenBy(cfg, c, world, ExecuteOrder(cfg, c, world))
  {
    hide Scan, Advance, NodeClear, NextGoal, GoalsSent, Layout;
    var actions := c.order.value.nodes[c.pos.currentNode].actions;
    ScanStill(cfg, c, actions, 0, false, false, world.outcome);
    ScanGoesIff(cfg, c, 0, false, false, world.outcome);
    var r := Scan(cfg, c, actions, 0, false, false, world.outcome);
    AdvanceDrives(cfg, r.0, world);
    SameNextGoal(c, r.0);
  }

  lemma SameNextGoal(c: Client, d: Client)
    requires d.order == c.order && d.pos == c.pos && c.order.Some?
    ensures c.pos.currentNode + 1 < |c.order.value.nodes| ==> NextGoal(d) == NextGoal(c)
  {
  }

  lemma DrivesSame(cfg: Config, c: Client, d: Client, world: Surroundings)
    requires HasOrder(c) && HasOrder(d) && c.pos.currentNode < |c.order.value.nodes|
    requires d.order == c.order && d.pos.currentNode == c.pos.currentNode && d.pos.numActions == c.pos.numActions
    requires ViewOf(d).status == ViewOf(c).status && d.agv.errors == c.agv.errors
    ensures Drives(cfg, d, world) <==> Drives(cfg, c, world)
    ensures Drives(cfg, c, world) ==>
              c.order.Some? && c.pos.currentNode + 1 < |c.order.value.nodes| && NextGoal(d) == NextGoal(c)
  {
  }

  // ----- Resuming -----

  lemma ResumeFrame(cfg: Config, c: Client, id: ActionId)
    requires Inv(c) && !c.fault && Foreign(c, id) && c.mode.Paused?
    ensures var d := ResumeOrder(cfg, c, id);
            && d.order == c.order && d.nav == c.nav && d.req == c.req && d.agv.errors == c.agv.errors
  {
    hide Update;
    ResumesAsIs(cfg, c, id);
    UpdateFrame(c, id, RUNNING);
    var u := Update(c, id, RUNNING);
    UpdateFrame(u.(mode := Running, pos := u.pos.(nextStop := u.pos.currentNode, reached := true)), id, FINISHED);
  }

  lemma PausedHere(c: Client)
    requires Inv(c) && !c.fault && !c.mode.Idle?
    ensures HasOrder(c) && c.pos.currentNode < |c.order.value.nodes|
  {
  }

  /** Exactly when the tick after a resume sends a goal.  The goal outstanding at the time is not looked
      at: if there is one, the robot is sent a second one. */
  lemma ResumeSendsGoalIff(cfg: Config, c: Client, id: ActionId, world: Surroundings)
    requires Inv(c) && !c.fault && Foreign(c, id) && c.mode.Paused?
    requires c.req.cancelAction.None? && c.req.pauseAction.None?
    ensures HasOrder(c) && c.pos.currentNode < |c.order.value.nodes|
    ensures DrivenBy(cfg, c, world, ExecuteOrder(cfg, ResumeOrder(cfg, c, id), world))
  {
    hide Inv, ResumeOrder, ExecuteOrder, Drives, ViewOf, NextGoal, GoalsSent, Foreign;
    PausedHere(c);
    ResumeRestarts(cfg, c, id);
    ResumeFrame(cfg, c, id);
    var d := ResumeOrder(cfg, c, id);
    ReachedTickIff(cfg, d, world);
    DrivesSame(cfg, c, d, world);
  }

  /** In particular: when a goal is in progress, and answered, the next tick leaves two goals at the
      navigation server exactly when it drives. */
  lemma SecondGoalIff(cfg: Config, c: Client, id: ActionId, world: Surroundings)
    requires Inv(c) && !c.fault && Foreign(c, id) && c.mode.Paused? && c.nav.navHandle
    requires c.req.cancelAction.None? && c.req.pauseAction.None?
    ensures HasOrder(c) && c.pos.currentNode < |c.order.value.nodes|
    ensures ExecuteOrder(cfg, ResumeOrder(cfg, c, id), world).nav == Navigation(true, true) <==> Drives(cfg, c, world)
  {
    hide Inv, ResumeOrder, ExecuteOrder, Drives, ViewOf, NextGoal, GoalsSent, Foreign;
    NotBoth(c);
    ResumeSendsGoalIff(cfg, c, id, world);
  }

  // ----- Stopping teleoperation -----

  /** The pause_order action, if one is on, counts as finished. */
  function PauseOrderEnded(c: Client): Client {
    if c.req.pauseOrderId != NO_ID then Update(c, c.req.pauseOrderId, FINISHED) else c
  }

  lemma StopTeleopFrame(c: Client, a: Action)
    requires Layout(c) && c.order.Some? && Foreign(c, a.id) && a.kind.StopTeleop?
    ensures var d, e := TeleopAction(c, a), PauseOrderEnded(c);
            && HasOrder(d) && HasOrder(e) && ViewOf(d).status == ViewOf(e).status && d.agv.errors == e.agv.errors
            && d.order == c.order == e.order && d.nav == c.nav == e.nav && e.pos == c.pos && e.calls == c.calls
            && d.calls == c.calls && d.fault == c.fault && d.mode.Running? && e.agv.errors == c.agv.errors
            && d.pos == c.pos.(nextStop := c.pos.currentNode, reached := true)
            && d.req.cancelAction == c.req.cancelAction && d.req.pauseAction == c.req.pauseAction
  {
    hide Update, ViewOf, Layout;
    var d := Update(c, a.id, RUNNING);
    UpdateForeign(c, a.id, RUNNING);
    UpdateFrame(c, a.id, RUNNING);
    var e := d.(mode := Running, req := d.req.(pauseOrder := false));
    var p := c.req.pauseOrderId;
    SameLayout(d, e);
    var u := if p != NO_ID then Update(e, p, FINISHED) else e;
    if p != NO_ID {
      UpdateBoth(c, e, p);
      UpdateFrame(e, p, FINISHED);
      UpdateFrame(c, p, FINISHED);
    }
    var f := u.(req := u.req.(pauseOrderId := NO_ID), pos := u.pos.(nextStop := u.pos.currentNode, reached := true));
    SameLayout(u, f);
    UpdateForeign(f, a.id, FINISHED);
    UpdateFrame(f, a.id, FINISHED);
  }

  /** An update has the same effect on states with the same layout and view. */
  lemma UpdateBoth(c: Client, e: Client, id: ActionId)
    requires HasOrder(c) && HasOrder(e) && e.order == c.order && ViewOf(e) == ViewOf(c)
    ensures HasOrder(Update(c, id, FINISHED)) && HasOrder(Update(e, id, FINISHED))
    ensures ViewOf(Update(c, id, FINISHED)) == ViewOf(Update(e, id, FINISHED))
  {
    hide Update;
    if i: nat :| i < |Flat(c.order.value.nodes)| && Flat(c.order.value.nodes)[i].id == id {
      UpdateOwn(c, i, FINISHED);
      UpdateOwn(e, i, FINISHED);
      UpdateFrame(c, id, FINISHED);
      UpdateFrame(e, id, FINISHED);
    } else {
      UpdateForeign(c, id, FINISHED);
      UpdateForeign(e, id, FINISHED);
      UpdateFrame(c, id, FINISHED);
      UpdateFrame(e, id, FINISHED);
    }
  }

  lemma OrderHere(c: Client)
    requires Inv(c) && !c.fault && c.order.Some?
    ensures HasOrder(c) && c.pos.currentNode < |c.order.value.nodes|
  {
  }

  /** Exactly when the tick after stopTeleop sends a goal: the same condition, in whatever mode the
      client was, so even after a cancel; and again a goal outstanding is not looked at. */
  lemma StopTeleopSendsGoalIff(cfg: Config, c: Client, a: Action, world: Surroundings)
    requires Inv(c) && !c.fault && Foreign(c, a.id) && a.kind.StopTeleop? && c.order.Some?
    requires c.req.cancelAction.None? && c.req.pauseAction.None?
    ensures HasOrder(PauseOrderEnded(c)) && PauseOrderEnded(c).pos.currentNode < |PauseOrderEnded(c).order.value.nodes|
    ensures DrivenBy(cfg, PauseOrderEnded(c), world, ExecuteOrder(cfg, TeleopAction(c, a), world))
  {
    hide TeleopAction, ExecuteOrder, Drives, ViewOf, NextGoal, GoalsSent, PauseOrderEnded, Foreign, MissionSound,
         RequestsApart;
    OrderHere(c);
    StopTeleopFrame(c, a);
    var d, e := TeleopAction(c, a), PauseOrderEnded(c);
    ReachedTickIff(cfg, d, world);
    DrivesSame(cfg, e, d, world);
  }

  // ----- Without an order -----

  /** A finding: teleoperation with no order breaks the client.  Started, it makes the next order break
      it; stopped, the next tick that knows the position. */
  lemma TeleopWithoutOrderBreaks(cfg: Config, c: Client, a: Action, order: Order, world: Surroundings)
    requires Inv(c) && !c.fault && c.order.None?
    ensures a.kind.StartTeleop? ==> !TeleopAction(c, a).fault && ReceiveOrder(TeleopAction(c, a), order).fault
    ensures a.kind.StopTeleop? && c.req.cancelAction.None? && c.req.pauseAction.None? ==>
              var d := TeleopAction(c, a);
              !d.fault && (ExecuteOrder(cfg, d, world).fault <==> cfg.navigable ==> world.position)
  {
    hide SetStatus;
  }

  // ----- Feedback -----

  /** Feedback breaks the client exactly when it leaves more poses than nodes up to the next stop: then
      the unsigned subtraction wraps around.  (No route is as long as the counter.) */
  lemma FeedbackWrapsIff(c: Client, remaining: nat)
    requires c.order.Some? && c.pos.nextStop < |c.order.value.nodes| && !c.fault
    requires remaining + |c.order.value.nodes| <= 0x1_0000_0000_0000_0000
    ensures FeedbackReceived(c, remaining).fault <==> remaining > c.pos.nextStop
  {
  }
}
