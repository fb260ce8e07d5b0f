/** What every reachable state of the mission client satisfies, and that the scheduler keeps it. */
module MissionInvariant {
  import opened Options
  import opened MissionTypes
  import opened MissionSpec
  import opened MissionViews

  /** The ids passed to ExecuteAction, in order. */
  function Starts(calls: seq<Call>): seq<ActionId> {
    if calls == [] then []
    else
      var last := calls[|calls| - 1];
      Starts(calls[..|calls| - 1]) + if last.Start? then [last.id] else []
  }

  /** The ids whose handlers were told to cancel, in order. */
  function Cancels(calls: seq<Call>): seq<ActionId> {
    if calls == [] then []
    else
      var last := calls[|calls| - 1];
      Cancels(calls[..|calls| - 1]) + if last.CancelHandler? then [last.id] else []
  }

  /** The goals sent, each as the list of its nodes, in order. */
  function GoalsSent(calls: seq<Call>): seq<seq<nat>> {
    if calls == [] then []
    else
      var last := calls[|calls| - 1];
      GoalsSent(calls[..|calls| - 1]) + if last.SendGoal? then [last.poses] else []
  }

  function Joined(goals: seq<seq<nat>>): seq<nat> {
    if goals == [] then [] else Joined(goals[..|goals| - 1]) + goals[|goals| - 1]
  }

  lemma OneMoreCall(calls: seq<Call>, call: Call)
    ensures GoalsSent(calls + [call]) == GoalsSent(calls) + if call.SendGoal? then [call.poses] else []
    ensures Starts(calls + [call]) == Starts(calls) + if call.Start? then [call.id] else []
    ensures Cancels(calls + [call]) == Cancels(calls) + if call.CancelHandler? then [call.id] else []
  {
    assert (calls + [call])[..|calls|] == calls;
  }

  lemma OneMoreGoal(goals: seq<seq<nat>>, goal: seq<nat>)
    ensures Joined(goals + [goal]) == Joined(goals) + goal
  {
    assert (goals + [goal])[..|goals|] == goals;
  }

  /** The nodes of all goals sent, put end to end. */
  function Goals(calls: seq<Call>): seq<nat> {
    Joined(GoalsSent(calls))
  }

  ghost predicate DistinctIds(s: seq<ActionState>) {
    forall i, j | 0 <= i < j < |s| :: s[i].id != s[j].id
  }

  /** The first entries of the action states are the order's actions in route order; every id is
      listed once. */
  ghost predicate Layout(c: Client) {
    && DistinctIds(c.agv.actionStates)
    && (c.order.None? ==> c.pos.numActions == 0)
    && (c.order.Some? ==>
          var flat := Flat(c.order.value.nodes);
          && |c.order.value.nodes| > 0
          && c.pos.numActions == |flat| <= |c.agv.actionStates|
          && forall i {:trigger flat[i]} {:trigger c.agv.actionStates[i]} | 0 <= i < |flat| ::
              c.agv.actionStates[i].id == flat[i].id)
  }

  ghost predicate HasOrder(c: Client) {
    Layout(c) && c.order.Some?
  }

  function Statuses(states: seq<ActionState>, n: nat): (s: seq<Status>)
    requires n <= |states|
    ensures |s| == n
    ensures forall i {:trigger s[i]} | 0 <= i < n :: s[i] == states[i].status
  {
    seq(n, i requires 0 <= i < n => states[i].status)
  }

  ghost function ViewOf(c: Client): View
    requires HasOrder(c)
  {
    View(c.order.value.nodes, Statuses(c.agv.actionStates, c.pos.numActions), Starts(c.calls))
  }

  ghost predicate Foreign(c: Client, id: ActionId) {
    c.order.Some? ==> forall i | 0 <= i < |Flat(c.order.value.nodes)| :: Flat(c.order.value.nodes)[i].id != id
  }

  /** Requests are not actions of the order; a pending pause_order action has been begun. */
  ghost predicate RequestsApart(c: Client) {
    && (c.req.cancelAction.Some? ==> Foreign(c, c.req.cancelAction.value))
    && (c.req.pauseAction.Some? ==> Foreign(c, c.req.pauseAction.value))
    && (c.order.Some? && c.req.pauseOrderId != NO_ID ==>
          var flat := Flat(c.order.value.nodes);
          forall i | 0 <= i < |flat| && flat[i].id == c.req.pauseOrderId :: i < |Starts(c.calls)|)
  }

  ghost predicate ToldToCancel(c: Client, id: ActionId)
    requires HasOrder(c)
  {
    var v := ViewOf(c);
    exists i :: 0 <= i < v.Begun() && i < |v.status| && v.Actions()[i].id == id &&
                (id in c.req.canceledIds || v.status[i].Ended())
  }

  ghost predicate Distinct(s: seq<ActionId>) {
    forall i, j | 0 <= i < j < |s| :: s[i] != s[j]
  }

  /** No handler is told twice to cancel an action, and none that was not begun. */
  ghost predicate CancelsOnce(c: Client)
    requires HasOrder(c)
  {
    && Distinct(Cancels(c.calls))
    && forall id | id in Cancels(c.calls) :: ToldToCancel(c, id)
  }

  /** Every HARD and SOFT action is over, and every action begun unless a cancel came first. */
  ghost predicate Completed(v: View) {
    && Settled(v, |v.status|)
    && (v.Begun() == |v.status| || v.CutShort())
  }

  /** Where the client is, and what it may be doing there. */
  ghost predicate OnRoute(c: Client)
    requires HasOrder(c)
  {
    var v, n := ViewOf(c), c.pos.currentNode;
    && n < |v.nodes| && n <= c.pos.nextStop <= |v.nodes|
    && (!c.mode.Idle? || c.nav.Outstanding() ==> c.pos.nextStop < |v.nodes|)
    && (c.pos.reached && c.pos.nextStop < |v.nodes| ==> c.pos.nextStop == n)
    && (c.pos.reached ==> !c.nav.Outstanding())
    && !(c.nav.goalRequested && c.nav.navHandle)
    && c.agv.driving == c.nav.Outstanding()
    && (c.pos.nextStop == |v.nodes| ==> n + 1 == |v.nodes| && Completed(v))
    && (c.nav.Outstanding() ==>
          && c.pos.nextStop > 0
          && Settled(v, v.Begun())
          && (v.Begun() == Offset(v.nodes, c.pos.nextStop) || v.CutShort())
          && (forall m | n < m < c.pos.nextStop :: v.nodes[m].actions == []))
  }

  /** The published progress is that of the current node. */
  ghost predicate ReportsProgress(c: Client)
    requires HasOrder(c)
  {
    var nodes, n := c.order.value.nodes, c.pos.currentNode;
    && n < |nodes|
    && c.agv.lastNodeId == nodes[n].nodeId
    && c.agv.nodeStates == StatesOf(nodes)[n + 1..]
  }

  ghost predicate MissionSound(c: Client)
    requires HasOrder(c)
  {
    && Sound(ViewOf(c), c.pos.currentNode)
    && OnRoute(c)
    && ReportsProgress(c)
    && CancelsOnce(c)
  }

  ghost predicate NoMission(c: Client) {
    c.order.None? && c.mode.Idle? && !c.nav.Outstanding() && !c.agv.driving
  }

  /** The invariant of all runs. */
  ghost predicate Inv(c: Client) {
    c.fault || (Layout(c) && RequestsApart(c) && if c.order.Some? then MissionSound(c) else NoMission(c))
  }

  // ----- Status updates -----

  lemma OwnIndex(c: Client, i: nat)
    requires HasOrder(c) && i < c.pos.numActions
    ensures IndexOf(c.agv.actionStates, Flat(c.order.value.nodes)[i].id) == i
    ensures StatusOf(c.agv.actionStates, Flat(c.order.value.nodes)[i].id) == Some(ViewOf(c).status[i])
  {
    var id := Flat(c.order.value.nodes)[i].id;
    assert c.agv.actionStates[i].id == id;
  }

  lemma UpdateOwn(c: Client, i: nat, s: Status)
    requires HasOrder(c) && i < c.pos.numActions
    ensures var d := Update(c, Flat(c.order.value.nodes)[i].id, s);
            Layout(d) && ViewOf(d) == ViewOf(c).(status := ViewOf(c).status[i := s])
  {
    OwnIndex(c, i);
    var d := Update(c, Flat(c.order.value.nodes)[i].id, s);
    assert Layout(d);
    assert ViewOf(d).status == ViewOf(c).status[i := s];
  }

  lemma UpdateFrame(c: Client, id: ActionId, status: Status)
    ensures Update(c, id, status) == c.(agv := c.agv.(actionStates := Update(c, id, status).agv.actionStates))
  {
  }

  lemma UpdateForeign(c: Client, id: ActionId, s: Status)
    requires Layout(c) && Foreign(c, id)
    ensures var d := Update(c, id, s);
            Layout(d) && (c.order.Some? ==> ViewOf(d) == ViewOf(c))
  {
    var d := Update(c, id, s);
    if c.order.Some? {
      var i := IndexOf(c.agv.actionStates, id);
      assert i >= c.pos.numActions;
      assert ViewOf(d).status == ViewOf(c).status;
    }
  }

  lemma SameLayout(c: Client, d: Client)
    requires HasOrder(c) && d.order == c.order && d.pos.numActions == c.pos.numActions
    requires d.agv.actionStates == c.agv.actionStates && Starts(d.calls) == Starts(c.calls)
    ensures HasOrder(d) && ViewOf(d) == ViewOf(c)
  {
  }

  /** States that differ only in what the invariant does not constrain. */
  ghost predicate SameMission(c: Client, d: Client) {
    && HasOrder(c) && HasOrder(d)
    && ViewOf(c) == ViewOf(d)
    && d.mode == c.mode && d.order == c.order && d.pos == c.pos && d.nav == c.nav
    && d.agv == c.agv.(actionStates := d.agv.actionStates, lastSequenceId := d.agv.lastSequenceId)
    && Cancels(d.calls) == Cancels(c.calls)
    && c.req.canceledIds <= d.req.canceledIds
  }

  lemma SameMissionSound(c: Client, d: Client)
    requires SameMission(c, d) && MissionSound(c)
    ensures MissionSound(d)
  {
    CancelsKept(c, d);
  }

  /** Told actions stay told while the order's actions move on. */
  lemma CancelsKept(c: Client, d: Client)
    requires HasOrder(c) && HasOrder(d) && d.order == c.order && CancelsOnce(c)
    requires Cancels(d.calls) == Cancels(c.calls) && c.req.canceledIds <= d.req.canceledIds
    requires var v, w := ViewOf(c), ViewOf(d);
             v.Begun() <= w.Begun() && |v.status| == |w.status| &&
             forall i {:trigger w.status[i]} | 0 <= i < v.Begun() && i < |v.status| ::
               v.status[i].Ended() ==> w.status[i].Ended()
    ensures CancelsOnce(d)
  {
    forall id | id in Cancels(d.calls)
      ensures ToldToCancel(d, id)
    {
      assert ToldToCancel(c, id);
      var v, w := ViewOf(c), ViewOf(d);
      var i :| 0 <= i < v.Begun() && i < |v.status| && v.Actions()[i].id == id &&
               (id in c.req.canceledIds || v.status[i].Ended());
      assert v.status[i].Ended() ==> w.status[i].Ended();
      assert i < w.Begun() && i < |w.status| && w.Actions()[i].id == id;
    }
  }
}
