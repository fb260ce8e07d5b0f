/** What the invariant means for every run of the client: order of execution, blocking types,
    driving, goals and the progress report. */
module MissionTheorems {
  import opened MissionTypes
  import opened MissionSpec
  import opened MissionViews
  import opened MissionInvariant
  import opened MissionRuns

  /** Execution follows the route: the ids passed to ExecuteAction for the current order are, in
      every reachable state, a prefix of the order's actions in route order, without repetition. */
  lemma StartedInRouteOrder(cfg: Config, c: Client)
    requires OnMission(cfg, c)
    ensures Starts(c.calls) <= Ids(Flat(c.order.value.nodes))
    ensures Distinct(Starts(c.calls))
  {
    hide MissionSound, Reachable;
    MissionHere(cfg, c);
    var flat := Flat(c.order.value.nodes);
    forall i, j | 0 <= i < j < |Starts(c.calls)|
      ensures Starts(c.calls)[i] != Starts(c.calls)[j]
    {
      assert c.agv.actionStates[i].id == flat[i].id && c.agv.actionStates[j].id == flat[j].id;
    }
  }

  /** An order that has been completed and not cut short by a cancel has had every action executed,
      and every HARD or SOFT action of it is finished or failed. */
  lemma CompletedMeansAllDone(cfg: Config, c: Client)
    requires OnMission(cfg, c)
    requires c.pos.nextStop == |c.order.value.nodes| && !ViewOf(c).CutShort()
    ensures Starts(c.calls) == Ids(Flat(c.order.value.nodes)) && c.mode.Idle?
    ensures forall i | 0 <= i < |Flat(c.order.value.nodes)| && Flat(c.order.value.nodes)[i].Blocks() ::
              c.agv.actionStates[i].status.Ended()
  {
    hide MissionSound, Reachable;
    MissionHere(cfg, c);
    var v, flat := ViewOf(c), Flat(c.order.value.nodes);
    assert Ids(flat)[..|flat|] == Ids(flat);
    forall i | 0 <= i < |flat| && flat[i].Blocks()
      ensures c.agv.actionStates[i].status.Ended()
    {
      assert v.status[i].Ended();
    }
  }

  /** A HARD action that is running runs alone at its node, and while one is unfinished nothing
      after it at that node has been started. */
  lemma HardRunsAlone(cfg: Config, c: Client, p: nat, q: nat)
    requires OnMission(cfg, c)
    requires var flat := Flat(c.order.value.nodes);
             p < |flat| && q < |flat| && p != q && SameNode(c.order.value.nodes, p, q) &&
             (flat[p].blocking == HARD || flat[p].blocking == Unset)
    ensures c.agv.actionStates[p].status.Active() ==> !c.agv.actionStates[q].status.Active()
    ensures p < q && !c.agv.actionStates[p].status.Ended() ==> Flat(c.order.value.nodes)[q].id !in Starts(c.calls)
  {
    hide MissionSound, Reachable, OnRoute, CancelsOnce, RequestsApart, Starts;
    MissionHere(cfg, c);
    var v, flat := ViewOf(c), Flat(c.order.value.nodes);
    assert v.status[p] == c.agv.actionStates[p].status && v.status[q] == c.agv.actionStates[q].status;
    assert SameNode(v.nodes, q, p);
    if flat[q].id in Starts(c.calls) {
      var i :| 0 <= i < v.Begun() && v.started[i] == flat[q].id;
      OwnIndex(c, i);
      OwnIndex(c, q);
    }
  }

  /** While a navigation goal is requested or in progress, no HARD or SOFT action of the order runs. */
  lemma NoBlockingActionWhileDriving(cfg: Config, c: Client, i: nat)
    requires OnMission(cfg, c) && c.nav.Outstanding()
    requires i < |Flat(c.order.value.nodes)| && Flat(c.order.value.nodes)[i].blocking in {HARD, SOFT, Unset}
    ensures !c.agv.actionStates[i].status.Active()
  {
    hide MissionSound, Reachable;
    MissionHere(cfg, c);
    assert ViewOf(c).status[i] == c.agv.actionStates[i].status;
  }

  /** The published progress is exact: the last node is the current one, the nodes still to be
      traversed are exactly those after it, and the driving flag tells whether a goal is outstanding. */
  lemma ProgressIsExact(cfg: Config, c: Client)
    requires OnMission(cfg, c)
    ensures var nodes, n := c.order.value.nodes, c.pos.currentNode;
            && n < |nodes|
            && c.agv.lastNodeId == nodes[n].nodeId
            && c.agv.nodeStates == StatesOf(nodes)[n + 1..]
            && c.agv.driving == c.nav.Outstanding()
  {
    hide Reachable, MissionSound;
    MissionHere(cfg, c);
  }
}
