/** The scheduler: which actions a tick may start, when it may send a goal, and that it keeps the
    invariant. */
module MissionScheduling {
  import opened Options
  import opened MissionTypes
  import opened MissionSpec
  import opened MissionViews
  import opened MissionInvariant

  /** What the pass over a node's actions leaves alone. */
  ghost predicate ScanFrame(c: Client, d: Client) {
    && d.mode == c.mode && d.order == c.order && d.pos == c.pos && d.nav == c.nav && d.fault == c.fault
    && d.agv == c.agv.(actionStates := d.agv.actionStates)
    && d.req == c.req.(pauseOrder := d.req.pauseOrder, pauseOrderId := d.req.pauseOrderId)
    && Cancels(d.calls) == Cancels(c.calls)
  }

  /** The first half of ExecuteAction: the action is marked RUNNING and handed over. */
  lemma BeginNext(c: Client, k: nat)
    requires HasOrder(c) && k < c.pos.numActions
    ensures var a := Flat(c.order.value.nodes)[k];
            var d, v := Called(Update(c, a.id, RUNNING), Start(a.id)), ViewOf(c);
            && HasOrder(d) && ScanFrame(c, d)
            && ViewOf(d) == v.(status := v.status[k := RUNNING], started := v.started + [a.id])
  {
    var a := Flat(c.order.value.nodes)[k];
    UpdateOwn(c, k, RUNNING);
    OneMoreCall(c.calls, Start(a.id));
  }

  /** The second half: the status the handler (or its absence) leaves the action in. */
  lemma SettleNext(c: Client, k: nat, s: Status, req: Requests)
    requires HasOrder(c) && k < c.pos.numActions
    requires req == c.req.(pauseOrder := req.pauseOrder, pauseOrderId := req.pauseOrderId)
    ensures var d := Update(c, Flat(c.order.value.nodes)[k].id, s).(req := req);
            && HasOrder(d) && ScanFrame(c, d)
            && ViewOf(d) == ViewOf(c).(status := ViewOf(c).status[k := s])
  {
    UpdateOwn(c, k, s);
  }

  /** ExecuteAction taken apart. */
  lemma ExecuteHalves(cfg: Config, c: Client, a: Action, outcome: map<ActionId, StartedStatus>)
    returns (s: StartedStatus, req: Requests)
    requires StatusOf(c.agv.actionStates, a.id).Some?
    ensures var d := Called(Update(c, a.id, RUNNING), Start(a.id));
            ExecuteAction(cfg, c, a, outcome) == Update(d, a.id, s).(req := req)
    ensures req == c.req.(pauseOrder := req.pauseOrder, pauseOrderId := req.pauseOrderId)
    ensures req.pauseOrderId in {c.req.pauseOrderId, a.id}
  {
    var d := Called(Update(c, a.id, RUNNING), Start(a.id));
    s := if a.kind.PauseOrder? then RUNNING else if a.kind !in cfg.handlers then FAILED
         else if a.id in outcome then outcome[a.id] else RUNNING;
    req := if a.kind.PauseOrder? then c.req.(pauseOrder := true, pauseOrderId := a.id) else c.req;
    var i := IndexOf(c.agv.actionStates, a.id);
    SetStatusKeepsIndex(c.agv.actionStates, a.id, RUNNING, a.id);
    assert Update(d, a.id, RUNNING).agv.actionStates == d.agv.actionStates;
  }

  lemma ExecuteNext(cfg: Config, c: Client, k: nat, outcome: map<ActionId, StartedStatus>) returns (s: StartedStatus)
    requires HasOrder(c) && RequestsApart(c) && k == |Starts(c.calls)| < c.pos.numActions
    ensures var a := Flat(c.order.value.nodes)[k];
            var d, v := ExecuteAction(cfg, c, a, outcome), ViewOf(c);
            && HasOrder(d) && RequestsApart(d) && ScanFrame(c, d)
            && ViewOf(d) == v.(status := v.status[k := s], started := v.started + [a.id])
            && d.calls == c.calls + [Start(a.id)]
  {
    var a := Flat(c.order.value.nodes)[k];
    var v := ViewOf(c);
    OwnIndex(c, k);
    var req;
    s, req := ExecuteHalves(cfg, c, a, outcome);
    var d := Called(Update(c, a.id, RUNNING), Start(a.id));
    BeginNext(c, k);
    SettleNext(d, k, s, req);
    assert v.status[k := RUNNING][k := s] == v.status[k := s];
    OnlyIndex(c, k);
    OneMoreCall(c.calls, Start(a.id));
  }

  lemma OnlyIndex(c: Client, k: nat)
    requires HasOrder(c) && k < c.pos.numActions
    ensures forall i | 0 <= i < |Flat(c.order.value.nodes)|
            && Flat(c.order.value.nodes)[i].id == Flat(c.order.value.nodes)[k].id :: i == k
  {
    forall i | 0 <= i < |Flat(c.order.value.nodes)|
           && Flat(c.order.value.nodes)[i].id == Flat(c.order.value.nodes)[k].id
      ensures i == k
    {
      OwnIndex(c, i);
      OwnIndex(c, k);
    }
  }

  /** The pass has seen actions 0..i-1 of the current node: none of them waits, the HARD ones are
      over, the SOFT ones too unless it must stop, and all are unless something is busy. */
  ghost predicate Passed(v: View, n: nat, i: nat, stop: bool, busy: bool) {
    && n < |v.nodes| && i <= |v.nodes[n].actions| && |v.status| == |v.Actions()|
    && forall p {:trigger v.status[p]} | Offset(v.nodes, n) <= p < Offset(v.nodes, n) + i && p < |v.status| ::
         && !v.status[p].WAITING?
         && (v.Actions()[p].Hard() ==> v.status[p].Ended())
         && (!stop && v.Actions()[p].Soft() ==> v.status[p].Ended())
         && (!busy ==> v.status[p].Ended())
  }

  ghost predicate Scanning(c: Client, i: nat, stop: bool, busy: bool) {
    && HasOrder(c) && RequestsApart(c) && CancelsOnce(c)
    && Sound(ViewOf(c), c.pos.currentNode)
    && Passed(ViewOf(c), c.pos.currentNode, i, stop, busy)
  }

  /** An action still waiting when the pass comes to it is the next one in route order. */
  lemma WaitingIsNext(v: View, n: nat, i: nat, stop: bool, busy: bool)
    requires Sound(v, n) && Passed(v, n, i, stop, busy) && i < |v.nodes[n].actions|
    requires Offset(v.nodes, n) + i < |v.status| && v.status[Offset(v.nodes, n) + i].WAITING?
    ensures v.Begun() == Offset(v.nodes, n) + i
  {
    var p := Offset(v.nodes, n) + i;
    assert p >= v.Begun();
    assert !v.CutShort();
    if i > 0 {
      assert !v.status[p - 1].WAITING?;
    }
  }

  /** Starting the action the pass has come to. */
  lemma StartOne(cfg: Config, c: Client, i: nat, stop: bool, busy: bool, outcome: map<ActionId, StartedStatus>)
    requires Scanning(c, i, stop, busy)
    requires var nodes, n := c.order.value.nodes, c.pos.currentNode;
             var p := Offset(nodes, n) + i;
             && i < |nodes[n].actions| && p < |ViewOf(c).status| && ViewOf(c).status[p].WAITING?
             && (nodes[n].actions[i].Hard() ==> !busy)
    ensures var a := c.order.value.nodes[c.pos.currentNode].actions[i];
            var d := ExecuteAction(cfg, c, a, outcome);
            && ScanFrame(c, d) && HasOrder(d) && RequestsApart(d) && CancelsOnce(d)
            && Sound(ViewOf(d), d.pos.currentNode)
            && (!a.Hard() ==> Passed(ViewOf(d), d.pos.currentNode, i + 1, stop || a.Soft(), true))
  {
    var v, n := ViewOf(c), c.pos.currentNode;
    var k := Offset(v.nodes, n) + i;
    var a := v.nodes[n].actions[i];
    FlatAt(v.nodes, n, i);
    WaitingIsNext(v, n, i, stop, busy);
    var s := ExecuteNext(cfg, c, k, outcome);
    StartSound(v, n, i, stop, busy, s);
    CancelsKept(c, ExecuteAction(cfg, c, a, outcome));
  }

  lemma StartSound(v: View, n: nat, i: nat, stop: bool, busy: bool, s: StartedStatus)
    requires Sound(v, n) && Passed(v, n, i, stop, busy) && i < |v.nodes[n].actions|
    requires v.Begun() == Offset(v.nodes, n) + i < |v.status| && v.status[v.Begun()].WAITING?
    requires v.nodes[n].actions[i].Hard() ==> !busy
    ensures var a, k := v.nodes[n].actions[i], v.Begun();
            var w := v.(status := v.status[k := s], started := v.started + [a.id]);
            Sound(w, n) && (!a.Hard() ==> Passed(w, n, i + 1, stop || a.Soft(), true))
  {
    FlatAt(v.nodes, n, i);
    StartingKeepsSound(v, n, s);
  }

  lemma PassOne(v: View, n: nat, i: nat, stop: bool, busy: bool, stop': bool, busy': bool)
    requires Passed(v, n, i, stop, busy) && i < |v.nodes[n].actions|
    requires (stop ==> stop') && (busy ==> busy')
    requires var p := Offset(v.nodes, n) + i;
             && p < |v.status|
             && !v.status[p].WAITING?
             && (v.Actions()[p].Hard() ==> v.status[p].Ended())
             && (!stop' && v.Actions()[p].Soft() ==> v.status[p].Ended())
             && (!busy' ==> v.status[p].Ended())
    ensures Passed(v, n, i + 1, stop', busy')
  {
  }

  ghost predicate ScanResult(c: Client, r: (Client, bool))
    requires HasOrder(c)
  {
    && ScanFrame(c, r.0) && HasOrder(r.0) && RequestsApart(r.0) && CancelsOnce(r.0)
    && Sound(ViewOf(r.0), r.0.pos.currentNode)
    && (r.1 ==> Passed(ViewOf(r.0), r.0.pos.currentNode, |r.0.order.value.nodes[r.0.pos.currentNode].actions|, false,
                       true))
  }

  lemma ScanResultLater(c: Client, d: Client, r: (Client, bool))
    requires HasOrder(c) && HasOrder(d) && ScanFrame(c, d) && ScanResult(d, r)
    ensures ScanResult(c, r)
  {
  }

  /** What the pass finds at action i, in terms of the view. */
  lemma ScanFinds(c: Client, i: nat, stop: bool, busy: bool)
    requires Scanning(c, i, stop, busy)
    requires i < |c.order.value.nodes[c.pos.currentNode].actions|
    ensures var a, k := c.order.value.nodes[c.pos.currentNode].actions[i],
            Offset(c.order.value.nodes, c.pos.currentNode) + i;
            && k < |ViewOf(c).status| && ViewOf(c).Actions()[k] == a
            && var s := ViewOf(c).status[k];
            && (s.WAITING? || s.Active() || s.Ended())
            && StatusOf(c.agv.actionStates, a.id) == Some(s)
  {
    FlatAt(c.order.value.nodes, c.pos.currentNode, i);
    OwnIndex(c, Offset(c.order.value.nodes, c.pos.currentNode) + i);
  }

  /** One step of the pass goes on soundly to action i + 1 or ends soundly here. */
  ghost predicate PassSound(c: Client, i: nat, p: Pass)
    requires HasOrder(c)
  {
    && ScanFrame(c, p.client)
    && (p.more ==> Scanning(p.client, i + 1, p.stop, p.busy))
    && ScanResult(c, (p.client, false))
  }

  lemma PassOver(c: Client, i: nat, stop: bool, busy: bool)
    requires Scanning(c, i, stop, busy)
    requires i < |c.order.value.nodes[c.pos.currentNode].actions|
    ensures var a, k := c.order.value.nodes[c.pos.currentNode].actions[i],
            Offset(c.order.value.nodes, c.pos.currentNode) + i;
            && k < |ViewOf(c).status|
            && PassSound(c, i, Pass(c, false, stop, busy))
            && (ViewOf(c).status[k].Active() ==> PassSound(c, i, Pass(c, !a.Hard(), stop || a.Soft(), true)))
            && (ViewOf(c).status[k].Ended() ==> PassSound(c, i, Pass(c, true, stop, busy)))
  {
    var v, n := ViewOf(c), c.pos.currentNode;
    ScanFinds(c, i, stop, busy);
    var a, s := v.nodes[n].actions[i], v.status[Offset(v.nodes, n) + i];
    if s.Ended() {
      PassOne(v, n, i, stop, busy, stop, busy);
    } else if s.Active() && !a.Hard() {
      PassOne(v, n, i, stop, busy, stop || a.Soft(), true);
    }
  }

  lemma PassStarting(cfg: Config, c: Client, i: nat, stop: bool, busy: bool, outcome: map<ActionId, StartedStatus>)
    requires Scanning(c, i, stop, busy)
    requires var nodes, n := c.order.value.nodes, c.pos.currentNode;
             var p := Offset(nodes, n) + i;
             && i < |nodes[n].actions| && p < |ViewOf(c).status| && ViewOf(c).status[p].WAITING?
             && (nodes[n].actions[i].Hard() ==> !busy)
    ensures var a := c.order.value.nodes[c.pos.currentNode].actions[i];
            var d := ExecuteAction(cfg, c, a, outcome);
            && PassSound(c, i, Pass(d, false, stop, busy))
            && (!a.Hard() ==> PassSound(c, i, Pass(d, true, stop || a.Soft(), true)))
  {
    StartOne(cfg, c, i, stop, busy, outcome);
  }

  lemma PassKeeps(cfg: Config, c: Client, i: nat, stop: bool, busy: bool, outcome: map<ActionId, StartedStatus>)
    requires Scanning(c, i, stop, busy)
    requires i < |c.order.value.nodes[c.pos.currentNode].actions|
    ensures PassSound(c, i, PassAction(cfg, c, c.order.value.nodes[c.pos.currentNode].actions[i], stop, busy, outcome))
  {
    ScanFinds(c, i, stop, busy);
    var a := c.order.value.nodes[c.pos.currentNode].actions[i];
    if StatusOf(c.agv.actionStates, a.id) == Some(Status.WAITING) && (!a.Hard() || !busy) {
      PassStarting(cfg, c, i, stop, busy, outcome);
    } else {
      PassOver(c, i, stop, busy);
    }
  }

  lemma ScanningHere(c: Client, i: nat, stop: bool, busy: bool)
    requires Scanning(c, i, stop, busy)
    ensures HasOrder(c) && c.pos.currentNode < |c.order.value.nodes|
    ensures i <= |c.order.value.nodes[c.pos.currentNode].actions|
  {
  }

  lemma ScanEnds(c: Client, stop: bool, busy: bool)
    requires HasOrder(c) && c.pos.currentNode < |c.order.value.nodes|
    requires Scanning(c, |c.order.value.nodes[c.pos.currentNode].actions|, stop, busy)
    ensures ScanResult(c, (c, !stop))
  {
  }

  /** The pass keeps the bookkeeping sound; if it lets the robot go on, the node is done. */
  lemma {:induction false} ScanKeeps(cfg: Config, c: Client, i: nat, stop: bool, busy: bool,
                                     outcome: map<ActionId, StartedStatus>)
    requires Scanning(c, i, stop, busy)
    ensures ScanResult(c, Scan(cfg, c, c.order.value.nodes[c.pos.currentNode].actions, i, stop, busy, outcome))
    decreases |c.order.value.nodes[c.pos.currentNode].actions| - i
  {
    hide PassAction, Sound, Passed, RequestsApart, CancelsOnce, ViewOf, Scanning;
    ScanningHere(c, i, stop, busy);
    var actions := c.order.value.nodes[c.pos.currentNode].actions;
    if i == |actions| {
      ScanEnds(c, stop, busy);
    } else {
      PassKeeps(cfg, c, i, stop, busy, outcome);
      var p := PassAction(cfg, c, actions[i], stop, busy, outcome);
      if p.more {
        ScanKeeps(cfg, p.client, i + 1, p.stop, p.busy, outcome);
        ScanResultLater(c, p.client, Scan(cfg, p.client, actions, i + 1, p.stop, p.busy, outcome));
      }
    }
  }

  /** All of a node's actions are begun (or failed by a cancel), and the HARD and SOFT ones over. */
  ghost predicate NodeDone(v: View, n: nat) {
    && n < |v.nodes| && |v.status| == |v.Actions()|
    && Settled(v, Offset(v.nodes, n + 1))
    && (v.Begun() == Offset(v.nodes, n + 1) || v.CutShort())
  }

  lemma PassedIsDone(v: View, n: nat)
    requires Sound(v, n) && Passed(v, n, |v.nodes[n].actions|, false, true)
    ensures NodeDone(v, n)
  {
    FlatLength(v.nodes);
    OffsetMonotone(v.nodes, n + 1, |v.nodes|);
    var end := Offset(v.nodes, n + 1);
    forall p | 0 <= p < end
      ensures v.Actions()[p].Blocks() ==> v.status[p].Ended()
    {
      if Offset(v.nodes, n) <= p {
        assert v.Actions()[p].Blocks() ==> v.status[p].Ended();
      }
    }
    if v.Begun() < end {
      if Offset(v.nodes, n) <= v.Begun() {
        assert !v.status[v.Begun()].WAITING?;
      }
    }
  }

  /** Ready to leave the current node. */
  ghost predicate AtRest(c: Client) {
    && !c.fault && HasOrder(c) && RequestsApart(c) && MissionSound(c)
    && c.mode.Running? && c.pos.reached && !FatalFirst(c)
  }

  lemma AtRestHere(c: Client)
    requires AtRest(c)
    ensures HasOrder(c) && c.order.Some? && c.pos.nextStop == c.pos.currentNode < |c.order.value.nodes|
    ensures !c.nav.Outstanding()
  {
  }

  lemma ScanFromRest(cfg: Config, c: Client, outcome: map<ActionId, StartedStatus>)
    requires AtRest(c)
    ensures var (d, go) := Scan(cfg, c, c.order.value.nodes[c.pos.currentNode].actions, 0, false, false, outcome);
            && AtRest(d) && ScanFrame(c, d)
            && (go ==> NodeDone(ViewOf(d), d.pos.currentNode))
  {
    ScanKeeps(cfg, c, 0, false, false, outcome);
    var (d, go) := Scan(cfg, c, c.order.value.nodes[c.pos.currentNode].actions, 0, false, false, outcome);
    if go {
      PassedIsDone(ViewOf(d), d.pos.currentNode);
    }
  }

  /** Nothing between the node just done and the end of the goal has actions. */
  lemma GoalSkipsNothing(nodes: seq<Node>, n: nat)
    requires n + 1 < |nodes|
    ensures var e := GoalEnd(nodes, n + 1);
            && Offset(nodes, e) == Offset(nodes, n + 1)
            && forall m | n < m < e :: nodes[m].actions == []
  {
    var e := GoalEnd(nodes, n + 1);
    forall m | n < m < e
      ensures nodes[m].actions == []
    {
      assert !StopsAt(nodes, m);
    }
    OffsetSkips(nodes, n + 1, e);
  }

  /** Leaving the order's bookkeeping alone while moving or finishing. */
  lemma OnlyMoved(c: Client, d: Client)
    requires HasOrder(c) && RequestsApart(c) && MissionSound(c)
    requires d == c.(mode := d.mode, pos := c.pos.(nextStop := d.pos.nextStop, reached := d.pos.reached),
                     agv := c.agv.(driving := d.agv.driving), nav := d.nav, calls := d.calls)
    requires Starts(d.calls) == Starts(c.calls) && Cancels(d.calls) == Cancels(c.calls)
    ensures HasOrder(d) && ViewOf(d) == ViewOf(c) && RequestsApart(d)
    ensures Sound(ViewOf(d), d.pos.currentNode) && ReportsProgress(d) && CancelsOnce(d)
  {
    CancelsKept(c, d);
  }

  /** A goal whose nodes up to its end have no actions may be sent when the node is done. */
  lemma GoalSentKeeps(c: Client, e: nat, poses: seq<nat>)
    requires AtRest(c) && NodeDone(ViewOf(c), c.pos.currentNode)
    requires c.pos.currentNode + 1 <= e < |c.order.value.nodes|
    requires Offset(c.order.value.nodes, e) == Offset(c.order.value.nodes, c.pos.currentNode + 1)
    requires forall m | c.pos.currentNode < m < e :: c.order.value.nodes[m].actions == []
    ensures Inv(GoalSent(c.(pos := c.pos.(nextStop := c.pos.currentNode + 1, reached := false)), e, poses))
  {
    hide OnRoute, Sound, ReportsProgress, CancelsOnce, RequestsApart, NodeDone, Layout;
    OneMoreCall(c.calls, SendGoal(poses));
    var d := GoalSent(c.(pos := c.pos.(nextStop := c.pos.currentNode + 1, reached := false)), e, poses);
    OnlyMoved(c, d);
    GoalOnRoute(c, d, e);
  }

  lemma GoalOnRoute(c: Client, d: Client, e: nat)
    requires HasOrder(c) && HasOrder(d) && OnRoute(c) && ViewOf(d) == ViewOf(c)
    requires c.mode.Running? && c.pos.reached && !FatalFirst(c) && Sound(ViewOf(c), c.pos.currentNode)
    requires NodeDone(ViewOf(c), c.pos.currentNode)
    requires c.pos.currentNode + 1 <= e < |c.order.value.nodes|
    requires Offset(c.order.value.nodes, e) == Offset(c.order.value.nodes, c.pos.currentNode + 1)
    requires forall m | c.pos.currentNode < m < e :: c.order.value.nodes[m].actions == []
    requires d.pos == c.pos.(nextStop := e, reached := false)
    requires d.mode == c.mode && d.agv == c.agv.(driving := true) && d.nav == c.nav.(goalRequested := true)
    ensures OnRoute(d)
  {
    hide Layout, HardAlone;
  }

  lemma GoalSentOnRoute(c: Client)
    requires AtRest(c) && NodeDone(ViewOf(c), c.pos.currentNode) && c.pos.currentNode + 1 < |c.order.value.nodes|
    ensures var nodes, n := c.order.value.nodes, c.pos.currentNode;
            var e := GoalEnd(nodes, n + 1);
            Inv(GoalSent(c.(pos := c.pos.(nextStop := n + 1, reached := false)), e, Span(n + 1, e + 1)))
  {
    hide AtRest, NodeDone, ViewOf, Inv, GoalSent;
    AtRestHere(c);
    var nodes, n := c.order.value.nodes, c.pos.currentNode;
    var e := GoalEnd(nodes, n + 1);
    GoalSkipsNothing(nodes, n);
    GoalSentKeeps(c, e, Span(n + 1, e + 1));
  }

  /** No goal is sent because the order is over. */
  lemma OrderOver(c: Client)
    requires AtRest(c) && NodeDone(ViewOf(c), c.pos.currentNode) && c.pos.currentNode + 1 >= |c.order.value.nodes|
    ensures Inv(c.(mode := Idle, pos := c.pos.(nextStop := c.pos.nextStop + 1)))
  {
    FlatLength(c.order.value.nodes);
    OnlyMoved(c, c.(mode := Idle, pos := c.pos.(nextStop := c.pos.nextStop + 1)));
  }

  /** No goal is sent because the lifecycle check fails (then the tick is retried) or because there
      is no navigation server (then it is not). */
  lemma GoalNotSent(c: Client, reached: bool)
    requires AtRest(c) && NodeDone(ViewOf(c), c.pos.currentNode) && c.pos.currentNode + 1 < |c.order.value.nodes|
    ensures var next := if reached then c.pos.currentNode else c.pos.nextStop + 1;
            Inv(c.(pos := c.pos.(nextStop := next, reached := reached)))
  {
    var next := if reached then c.pos.currentNode else c.pos.nextStop + 1;
    OnlyMoved(c, c.(pos := c.pos.(nextStop := next, reached := reached)));
  }

  lemma AdvanceKeeps(cfg: Config, c: Client, world: Surroundings)
    requires AtRest(c) && NodeDone(ViewOf(c), c.pos.currentNode)
    ensures Inv(Advance(cfg, c, c.order.value.nodes, world))
  {
    hide Inv, AtRest, NodeDone, ViewOf, HasOrder;
    AtRestHere(c);
    if c.pos.currentNode + 1 >= |c.order.value.nodes| {
      OrderOver(c);
    } else {
      GoalNotSent(c, true);
      GoalNotSent(c, false);
      GoalSentOnRoute(c);
    }
  }

  lemma AdvanceIsSafe(cfg: Config, c: Client, nodes: seq<Node>, world: Surroundings)
    ensures Advance(cfg, c, nodes, world).fault == c.fault
  {
  }

  /** The scheduling half of a tick keeps the invariant. */
  lemma ScheduleKeepsInv(cfg: Config, c: Client, world: Surroundings)
    requires Inv(c) && !c.fault && c.mode.Running?
    ensures Inv(Schedule(cfg, c, world)) && !Schedule(cfg, c, world).fault
  {
    if FatalFirst(c) || !c.pos.reached {
      var d := Schedule(cfg, c, world);
      assert ViewOf(d) == ViewOf(c);
      CancelsKept(c, d);
    } else {
      ScanFromRest(cfg, c, world.outcome);
      var (d, go) := Scan(cfg, c, c.order.value.nodes[c.pos.currentNode].actions, 0, false, false, world.outcome);
      if go {
        AdvanceKeeps(cfg, d, world);
        AdvanceIsSafe(cfg, d, d.order.value.nodes, world);
      }
    }
  }
}
