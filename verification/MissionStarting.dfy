/** Exactly which actions a tick starts, and in what state it leaves them. */
module MissionStarting {
  import opened Options
  import opened MissionTypes
  import opened MissionSpec
  import opened MissionViews
  import opened MissionInvariant
  import opened MissionScheduling
  import opened MissionRuns
  import opened MissionGoals
  import opened MissionRequests
  import opened MissionInterruptions
  import opened MissionHistory

  // ----- What is due at a node -----

  /** The states of a node's actions, as they are listed. */
  function States(c: Client, actions: seq<Action>): (s: seq<Option<Status>>)
    ensures |s| == |actions|
    ensures forall j {:trigger s[j]} | 0 <= j < |s| :: s[j] == StatusOf(c.agv.actionStates, actions[j].id)
  {
    seq(|actions|, j requires 0 <= j < |actions| => StatusOf(c.agv.actionStates, actions[j].id))
  }

  /** Waiting to be started, or running. */
  predicate Unsettled(s: Option<Status>) {
    s == Some(WAITING) || s == Some(INITIALIZING) || s == Some(RUNNING)
  }

  /** HARD, or without a blocking type, which counts as HARD. */
  predicate Exclusive(a: Action) {
    a.blocking == HARD || a.blocking == Unset
  }

  /** The first HARD action from i on that is waiting or running, or the end of the list. */
  function FirstHard(actions: seq<Action>, s: seq<Option<Status>>, i: nat): (h: nat)
    requires i <= |actions| == |s|
    ensures i <= h <= |actions|
    ensures forall j | i <= j < h :: !(Exclusive(actions[j]) && Unsettled(s[j]))
    ensures h < |actions| ==> Exclusive(actions[h]) && Unsettled(s[h])
    decreases |actions| - i
  {
    if i == |actions| || (Exclusive(actions[i]) && Unsettled(s[i])) then i else FirstHard(actions, s, i + 1)
  }

  /** The ids of the waiting actions from i up to but not including h. */
  function WaitingIds(actions: seq<Action>, s: seq<Option<Status>>, i: nat, h: nat): seq<ActionId>
    requires i <= h <= |actions| == |s|
    decreases h - i
  {
    if i == h then [] else (if s[i] == Some(WAITING) then [actions[i].id] else []) + WaitingIds(actions, s, i + 1, h)
  }

  ghost predicate AllSettled(s: seq<Option<Status>>, i: nat, h: nat)
    requires i <= h <= |s|
  {
    forall j | i <= j < h :: !Unsettled(s[j])
  }

  /** What is to be started: every waiting action before the first HARD one that is not over; and that
      one, if it waits and nothing before it at the node is waiting or running. */
  ghost function Due(actions: seq<Action>, s: seq<Option<Status>>, i: nat, busy: bool): seq<ActionId>
    requires i <= |actions| == |s|
  {
    var h := FirstHard(actions, s, i);
    WaitingIds(actions, s, i, h) +
    if h < |actions| && s[h] == Some(WAITING) && !busy && AllSettled(s, i, h) then [actions[h].id] else []
  }

  lemma DueStep(actions: seq<Action>, s: seq<Option<Status>>, i: nat, busy: bool)
    requires i < |actions| == |s|
    ensures !Unsettled(s[i]) ==> Due(actions, s, i, busy) == Due(actions, s, i + 1, busy)
    ensures Unsettled(s[i]) && actions[i].Hard() ==>
              Due(actions, s, i, busy) == if s[i] == Some(WAITING) && !busy then [actions[i].id] else []
    ensures Unsettled(s[i]) && !actions[i].Hard() ==>
              Due(actions, s, i, busy) == (if s[i] == Some(WAITING) then [actions[i].id]
                                           else []) + Due(actions, s, i + 1, true)
  {
    var h := FirstHard(actions, s, i);
    if h > i {
      assert FirstHard(actions, s, i + 1) == h;
      assert AllSettled(s, i, h) <==> !Unsettled(s[i]) && AllSettled(s, i + 1, h);
    }
  }

  lemma {:induction false} DueSame(actions: seq<Action>, s: seq<Option<Status>>, t: seq<Option<Status>>, i: nat,
                                   busy: bool)
    requires i <= |actions| == |s| == |t| && forall j | i <= j < |s| :: s[j] == t[j]
    ensures Due(actions, s, i, busy) == Due(actions, t, i, busy)
    decreases |actions| - i
  {
    if i < |actions| {
      hide Due;
      DueStep(actions, s, i, busy);
      DueStep(actions, t, i, busy);
      DueSame(actions, s, t, i + 1, busy);
      DueSame(actions, s, t, i + 1, true);
    }
  }

  lemma {:induction false} DueIsListed(actions: seq<Action>, s: seq<Option<Status>>, i: nat, busy: bool)
    requires i <= |actions| == |s|
    ensures forall id | id in Due(actions, s, i, busy) :: exists j :: i <= j < |actions| && actions[j].id == id
    decreases |actions| - i
  {
    if i < |actions| {
      hide Due;
      DueStep(actions, s, i, busy);
      DueIsListed(actions, s, i + 1, busy);
      DueIsListed(actions, s, i + 1, true);
    } else {
      assert Due(actions, s, i, busy) == [];
    }
  }

  // ----- Starting one action -----

  /** The state an action is left in by being started: a pause_order runs until it is released, an action
      that no handler serves fails, and any other is left as its handler says, or running. */
  function LeftIn(cfg: Config, a: Action, outcome: map<ActionId, StartedStatus>): Status {
    match a.kind
    case PauseOrder => RUNNING
    case _ => if a.kind in cfg.handlers then (if a.id in outcome then outcome[a.id] else RUNNING) else FAILED
  }

  function StartCalls(ids: seq<ActionId>): (calls: seq<Call>)
    ensures |calls| == |ids| && forall k {:trigger calls[k]} | 0 <= k < |ids| :: calls[k] == Start(ids[k])
  {
    seq(|ids|, k requires 0 <= k < |ids| => Start(ids[k]))
  }

  predicate PausesAt(actions: seq<Action>, ids: seq<ActionId>, j: int) {
    0 <= j < |actions| && actions[j].id in ids && actions[j].kind.PauseOrder?
  }

  ghost predicate PausedBy(actions: seq<Action>, ids: seq<ActionId>, id: ActionId) {
    exists j :: PausesAt(actions, ids, j) && actions[j].id == id
  }

  /** Between c and d the actions with these ids have been started, in this order, and nothing else has
      happened. */
  ghost predicate HaveStarted(cfg: Config, c: Client, d: Client, actions: seq<Action>, ids: seq<ActionId>,
                              outcome: map<ActionId, StartedStatus>) {
    && d.calls == c.calls + StartCalls(ids)
    && (forall id | id !in ids :: StatusOf(d.agv.actionStates, id) == StatusOf(c.agv.actionStates, id))
    && (forall j {:trigger actions[j]} | 0 <= j < |actions| && actions[j].id in ids ::
          StatusOf(d.agv.actionStates, actions[j].id) == Some(LeftIn(cfg, actions[j], outcome)))
    && (if exists j :: PausesAt(actions, ids, j) then d.req.pauseOrder && PausedBy(actions, ids, d.req.pauseOrderId)
        else d.req == c.req)
    && d == c.(calls := d.calls, agv := c.agv.(actionStates := d.agv.actionStates),
               req := c.req.(pauseOrder := d.req.pauseOrder, pauseOrderId := d.req.pauseOrderId))
  }

  lemma StatusAfter(states: seq<ActionState>, id: ActionId, status: Status, other: ActionId)
    ensures StatusOf(SetStatus(states, id, status), other) ==
            if other == id && StatusOf(states, id).Some? then Some(status) else StatusOf(states, other)
  {
    SetStatusKeepsIndex(states, id, status, other);
    SetStatusKeepsIndex(states, id, status, id);
  }

  /** In one node no two actions have the same id, and all are listed. */
  ghost predicate AllListed(c: Client, actions: seq<Action>) {
    && (forall i, j | 0 <= i < j < |actions| :: actions[i].id != actions[j].id)
    && forall j | 0 <= j < |actions| :: StatusOf(c.agv.actionStates, actions[j].id).Some?
  }

  lemma NothingStarted(cfg: Config, c: Client, actions: seq<Action>, outcome: map<ActionId, StartedStatus>)
    ensures HaveStarted(cfg, c, c, actions, [], outcome)
  {
    assert StartCalls([]) == [];
  }

  lemma ExecuteSets(cfg: Config, c: Client, a: Action, outcome: map<ActionId, StartedStatus>, id: ActionId)
    requires StatusOf(c.agv.actionStates, a.id).Some?
    ensures StatusOf(ExecuteAction(cfg, c, a, outcome).agv.actionStates, id) ==
            if id == a.id then Some(LeftIn(cfg, a, outcome)) else StatusOf(c.agv.actionStates, id)
  {
    hide SetStatus, StatusOf;
    var first := SetStatus(c.agv.actionStates, a.id, RUNNING);
    StatusAfter(c.agv.actionStates, a.id, RUNNING, id);
    StatusAfter(c.agv.actionStates, a.id, RUNNING, a.id);
    StatusAfter(first, a.id, LeftIn(cfg, a, outcome), id);
  }

  lemma ExecuteFrame(cfg: Config, c: Client, a: Action, outcome: map<ActionId, StartedStatus>)
    ensures var d := ExecuteAction(cfg, c, a, outcome);
            && d == c.(calls := c.calls + [Start(a.id)], agv := c.agv.(actionStates := d.agv.actionStates),
                       req := if a.kind.PauseOrder? then c.req.(pauseOrder := true, pauseOrderId := a.id) else c.req)
  {
    hide SetStatus;
  }

  lemma OneStarted(cfg: Config, c: Client, actions: seq<Action>, i: nat, outcome: map<ActionId, StartedStatus>)
    requires i < |actions| && AllListed(c, actions)
    ensures var d := ExecuteAction(cfg, c, actions[i], outcome);
            HaveStarted(cfg, c, d, actions, [actions[i].id], outcome) && AllListed(d, actions)
  {
    hide ExecuteAction, StatusOf, LeftIn;
    var a := actions[i];
    var d := ExecuteAction(cfg, c, a, outcome);
    ExecuteFrame(cfg, c, a, outcome);
    forall id
      ensures StatusOf(d.agv.actionStates, id) ==
              if id == a.id then Some(LeftIn(cfg, a, outcome)) else StatusOf(c.agv.actionStates, id)
    {
      ExecuteSets(cfg, c, a, outcome, id);
    }
    assert StartCalls([a.id]) == [Start(a.id)];
    assert forall j :: PausesAt(actions, [a.id], j) <==> j == i && a.kind.PauseOrder?;
    assert a.kind.PauseOrder? ==> PausesAt(actions, [a.id], i) && PausedBy(actions, [a.id], a.id);
  }

  lemma StartedTwice(cfg: Config, c: Client, d: Client, e: Client, actions: seq<Action>, ids: seq<ActionId>,
                     more: seq<ActionId>, outcome: map<ActionId, StartedStatus>)
    requires HaveStarted(cfg, c, d, actions, ids, outcome) && HaveStarted(cfg, d, e, actions, more, outcome)
    ensures HaveStarted(cfg, c, e, actions, ids + more, outcome)
  {
    hide StatusOf, LeftIn;
    assert forall j :: PausesAt(actions, ids + more, j) <==> PausesAt(actions, ids, j) || PausesAt(actions, more, j);
    assert StartCalls(ids + more) == StartCalls(ids) + StartCalls(more);
    assert (c.calls + StartCalls(ids)) + StartCalls(more) == c.calls + (StartCalls(ids) + StartCalls(more));
  }

  // ----- The pass -----

  lemma {:induction false} ScanStarts(cfg: Config, c: Client, actions: seq<Action>, i: nat, stop: bool, busy: bool,
                                      outcome: map<ActionId, StartedStatus>)
    requires i <= |actions| && AllListed(c, actions)
    ensures HaveStarted(cfg, c, Scan(cfg, c, actions, i, stop, busy, outcome).0, actions,
                        Due(actions, States(c, actions), i, busy), outcome)
    decreases |actions| - i
  {
    hide HaveStarted, Due, ExecuteAction, StatusOf, AllListed;
    NothingStarted(cfg, c, actions, outcome);
    if i == |actions| {
      NothingDue(actions, States(c, actions), busy);
    } else {
      var a, s := actions[i], States(c, actions);
      DueStep(actions, s, i, busy);
      OneStarted(cfg, c, actions, i, outcome);
      var d := ExecuteAction(cfg, c, a, outcome);
      var p := PassAction(cfg, c, a, stop, busy, outcome);
      if p.more {
        if s[i] == Some(WAITING) {
          LaterSame(cfg, c, d, actions, i, outcome);
          DueSame(actions, s, States(d, actions), i + 1, true);
          ScanStarts(cfg, d, actions, i + 1, p.stop, true, outcome);
          StartedTwice(cfg, c, d, Scan(cfg, d, actions, i + 1, p.stop, true, outcome).0, actions, [a.id],
                       Due(actions, s, i + 1, true), outcome);
        } else {
          ScanStarts(cfg, c, actions, i + 1, p.stop, p.busy, outcome);
          assert [] + Due(actions, s, i + 1, true) == Due(actions, s, i + 1, true);
        }
      }
    }
  }

  lemma NothingDue(actions: seq<Action>, s: seq<Option<Status>>, busy: bool)
    requires |s| == |actions|
    ensures Due(actions, s, |actions|, busy) == []
  {
  }

  lemma LaterSame(cfg: Config, c: Client, d: Client, actions: seq<Action>, i: nat,
                  outcome: map<ActionId, StartedStatus>)
    requires i < |actions| && AllListed(c, actions) && HaveStarted(cfg, c, d, actions, [actions[i].id], outcome)
    ensures forall j | i < j < |actions| :: States(d, actions)[j] == States(c, actions)[j]
  {
    hide StatusOf;
  }

  // ----- The tick -----

  lemma {:induction false} StartsOfCalls(calls: seq<Call>, ids: seq<ActionId>)
    ensures Starts(calls + StartCalls(ids)) == Starts(calls) + ids
  {
    if ids == [] {
      assert calls + StartCalls(ids) == calls;
    } else {
      var front, last := ids[..|ids| - 1], ids[|ids| - 1];
      StartsOfCalls(calls, front);
      assert calls + StartCalls(ids) == (calls + StartCalls(front)) + [Start(last)];
      OneMoreCall(calls + StartCalls(front), Start(last));
    }
  }

  lemma NodeState(c: Client, j: nat)
    requires HasOrder(c) && c.pos.currentNode < |c.order.value.nodes|
    requires j < |c.order.value.nodes[c.pos.currentNode].actions|
    ensures var nodes, n := c.order.value.nodes, c.pos.currentNode;
            && Offset(nodes, n) + j < |ViewOf(c).status|
            && StatusOf(c.agv.actionStates, nodes[n].actions[j].id) == Some(ViewOf(c).status[Offset(nodes, n) + j])
  {
    hide StatusOf, ViewOf;
    StatusCount(c);
    FlatAt(c.order.value.nodes, c.pos.currentNode, j);
    OwnIndex(c, Offset(c.order.value.nodes, c.pos.currentNode) + j);
  }

  lemma NodeListed(c: Client)
    requires HasOrder(c) && c.pos.currentNode < |c.order.value.nodes|
    ensures AllListed(c, c.order.value.nodes[c.pos.currentNode].actions)
  {
    hide StatusOf, ViewOf;
    var nodes, n := c.order.value.nodes, c.pos.currentNode;
    StatusCount(c);
    forall j | 0 <= j < |nodes[n].actions|
      ensures StatusOf(c.agv.actionStates, nodes[n].actions[j].id).Some?
    {
      NodeState(c, j);
    }
    forall i, j | 0 <= i < j < |nodes[n].actions|
      ensures nodes[n].actions[i].id != nodes[n].actions[j].id
    {
      FlatAt(nodes, n, i);
      FlatAt(nodes, n, j);
      OnlyIndex(c, Offset(nodes, n) + i);
    }
  }

  /** What a tick with a pass over the node, or without one, does to the node's actions: exactly those
      with the given ids are started, and a pause_order among them is remembered. */
  ghost predicate StartsExactly(cfg: Config, c: Client, d: Client, actions: seq<Action>, ids: seq<ActionId>,
                                outcome: map<ActionId, StartedStatus>) {
    && Starts(d.calls) == Starts(c.calls) + ids
    && (if exists j :: PausesAt(actions, ids, j) then d.req.pauseOrder && PausedBy(actions, ids, d.req.pauseOrderId)
        else d.req.pauseOrder == c.req.pauseOrder && d.req.pauseOrderId == c.req.pauseOrderId)
    && forall j {:trigger actions[j]} | 0 <= j < |actions| ::
         StatusOf(d.agv.actionStates, actions[j].id) ==
         if actions[j].id in ids then Some(LeftIn(cfg, actions[j], outcome))
         else StatusOf(c.agv.actionStates, actions[j].id)
  }

  lemma ScheduleStarts(cfg: Config, c: Client, world: Surroundings)
    requires HasOrder(c) && c.pos.reached && !FatalFirst(c) && c.pos.currentNode < |c.order.value.nodes|
    ensures var actions := c.order.value.nodes[c.pos.currentNode].actions;
            StartsExactly(cfg, c, Schedule(cfg, c, world), actions, Due(actions, States(c, actions), 0, false),
                          world.outcome)
  {
    hide Scan, Advance, Due, StatusOf, LeftIn, Layout, Starts;
    var nodes := c.order.value.nodes;
    var actions := nodes[c.pos.currentNode].actions;
    var due := Due(actions, States(c, actions), 0, false);
    NodeListed(c);
    ScanStarts(cfg, c, actions, 0, false, false, world.outcome);
    var (d, go) := Scan(cfg, c, actions, 0, false, false, world.outcome);
    StartsOfCalls(c.calls, due);
    AdvanceStartsNothing(cfg, d, nodes, world);
    AdvanceLists(cfg, d, nodes, world);
  }

  lemma AdvanceLists(cfg: Config, c: Client, nodes: seq<Node>, world: Surroundings)
    ensures Advance(cfg, c, nodes, world).agv.actionStates == c.agv.actionStates
    ensures Advance(cfg, c, nodes, world).req == c.req
  {
  }

  lemma SameStates(c: Client, d: Client)
    requires HasOrder(c) && HasOrder(d) && d.order == c.order && d.pos == c.pos && ViewOf(d) == ViewOf(c)
    requires c.pos.currentNode < |c.order.value.nodes|
    ensures var actions := c.order.value.nodes[c.pos.currentNode].actions; States(d, actions) == States(c, actions)
  {
    hide ViewOf, Layout, StatusOf;
    var actions := c.order.value.nodes[c.pos.currentNode].actions;
    forall j | 0 <= j < |actions|
      ensures States(d, actions)[j] == States(c, actions)[j]
    {
      NodeState(c, j);
      NodeState(d, j);
    }
  }

  lemma NothingStartsExactly(cfg: Config, c: Client, d: Client, actions: seq<Action>,
                             outcome: map<ActionId, StartedStatus>)
    requires Starts(d.calls) == Starts(c.calls) && States(d, actions) == States(c, actions)
    requires d.req.pauseOrder == c.req.pauseOrder && d.req.pauseOrderId == c.req.pauseOrderId
    ensures StartsExactly(cfg, c, d, actions, [], outcome)
  {
    hide StatusOf;
    forall j | 0 <= j < |actions|
      ensures StatusOf(d.agv.actionStates, actions[j].id) == StatusOf(c.agv.actionStates, actions[j].id)
    {
      assert States(d, actions)[j] == States(c, actions)[j];
    }
  }

  /** A step that leaves the node's actions as they are, followed by one that starts some. */
  lemma ExactlyLater(cfg: Config, c: Client, e: Client, d: Client, actions: seq<Action>, ids: seq<ActionId>,
                     outcome: map<ActionId, StartedStatus>)
    requires StartsExactly(cfg, c, e, actions, [], outcome) && StartsExactly(cfg, e, d, actions, ids, outcome)
    ensures StartsExactly(cfg, c, d, actions, ids, outcome)
  {
    hide StatusOf, LeftIn;
  }

  lemma ScheduleWaits(cfg: Config, c: Client, world: Surroundings)
    requires FatalFirst(c) || !c.pos.reached
    ensures var d := Schedule(cfg, c, world); d.agv == c.agv && d.calls == c.calls && d.req == c.req
  {
  }

  lemma SameAGV(cfg: Config, c: Client, d: Client, actions: seq<Action>, outcome: map<ActionId, StartedStatus>)
    requires d.agv == c.agv && d.calls == c.calls && d.req == c.req
    ensures StartsExactly(cfg, c, d, actions, [], outcome)
  {
  }

  /** Does a tick with no cancel pending look at the actions of the node? */
  ghost predicate Looks(cfg: Config, c: Client, world: Surroundings)
    requires HasOrder(c)
  {
    && c.pos.reached && !FatalFirst(c) && (cfg.navigable ==> world.position)
    && (c.req.pauseAction.Some? ==> SomeRunning(c))
  }

  /** Exactly what a tick starts: nothing unless the client has arrived, no fatal error comes first, and no
      pending pause takes effect; and otherwise, with h the first HARD action of the node that is waiting or
      running, every waiting action before h in the order of the list, and h itself if it waits and nothing
      before it at the node was waiting or running.  A pause that is pending while some action runs does
      not keep others from being started. */
  lemma TickStartsExactly(cfg: Config, c: Client, world: Surroundings)
    requires Inv(c) && !c.fault && c.mode.Running? && c.req.cancelAction.None?
    requires !ExecuteOrder(cfg, c, world).fault
    ensures HasOrder(c) && c.pos.currentNode < |c.order.value.nodes|
    ensures var actions := c.order.value.nodes[c.pos.currentNode].actions;
            var s := States(c, actions);
            var h := FirstHard(actions, s, 0);
            var alone := h < |actions| && s[h] == Some(WAITING) && forall j | 0 <= j < h :: !Unsettled(s[j]);
            var due := WaitingIds(actions, s, 0, h) + if alone then [actions[h].id] else [];
            var d := ExecuteOrder(cfg, c, world);
            StartsExactly(cfg, c, d, actions, if Looks(cfg, c, world) then due else [], world.outcome)
  {
    hide Inv, Schedule, ViewOf, States, StartsExactly, WaitingIds, FirstHard, SomeRunning, AfterPause, LeftIn, Layout;
    RunningHere(c);
    AfterPauseSame(cfg, c, world);
    var actions := c.order.value.nodes[c.pos.currentNode].actions;
    var d, e := ExecuteOrder(cfg, c, world), AfterPause(cfg, c);
    if Looks(cfg, c, world) {
      ScheduleStarts(cfg, e, world);
      ExactlyLater(cfg, c, e, d, actions, Due(actions, States(e, actions), 0, false), world.outcome);
    } else {
      if d != e {
        ScheduleWaits(cfg, e, world);
      }
      SameAGV(cfg, e, d, actions, world.outcome);
      ExactlyLater(cfg, c, e, d, actions, [], world.outcome);
    }
  }

  /** Evaluating a pending pause changes nothing that the pass over the node looks at. */
  lemma AfterPauseSame(cfg: Config, c: Client, world: Surroundings)
    requires Inv(c) && !c.fault && c.mode.Running? && !AfterPause(cfg, c).fault
    ensures HasOrder(c) && c.pos.currentNode < |c.order.value.nodes|
    ensures var e, actions := AfterPause(cfg, c), c.order.value.nodes[c.pos.currentNode].actions;
            && HasOrder(e) && e.order == c.order && e.pos == c.pos && e.agv.errors == c.agv.errors
            && States(e, actions) == States(c, actions) && StartsExactly(cfg, c, e, actions, [], world.outcome)
            && (e.mode.Running? <==> (c.req.pauseAction.Some? ==> SomeRunning(c) || c.nav.navHandle))
            && (c.pos.reached ==> !c.nav.navHandle)
  {
    hide Inv, PauseOrderStep, ViewOf, States, StartsExactly, SomeRunning, LeftIn, Foreign;
    RunningHere(c);
    var actions := c.order.value.nodes[c.pos.currentNode].actions;
    NothingStartsExactly(cfg, c, c, actions, world.outcome);
    if c.req.pauseAction.Some? {
      var id := c.req.pauseAction.value;
      RequestsForeign(c);
      PauseModes(cfg, c, id);
      PauseEntersIff(cfg, c, id);
      PauseStepFrame(cfg, c, id);
      PauseStepStill(cfg, c, id);
      PauseStepKeepsErrors(cfg, c, id);
      PauseStepKeepsFlag(cfg, c, id);
      SameStates(c, PauseOrderStep(cfg, c, id));
      NothingStartsExactly(cfg, c, PauseOrderStep(cfg, c, id), actions, world.outcome);
    }
  }

  lemma {:induction false} PauseKeepsFlag(cfg: Config, c: Client, i: nat, all: bool)
    ensures var d := PauseActions(cfg, c, i, all).0;
            d.req.pauseOrder == c.req.pauseOrder && d.req.pauseOrderId == c.req.pauseOrderId
    decreases c.pos.numActions - i
  {
    hide StatusOf, FindAction;
    if !c.fault && i < c.pos.numActions && i < |c.agv.actionStates| {
      PauseKeepsFlag(cfg, PauseRunning(cfg, c, c.agv.actionStates[i].id), i + 1, false);
      PauseKeepsFlag(cfg, c, i + 1, all);
    }
  }

  lemma PauseStepKeepsFlag(cfg: Config, c: Client, id: ActionId)
    ensures var d := PauseOrderStep(cfg, c, id);
            d.req.pauseOrder == c.req.pauseOrder && d.req.pauseOrderId == c.req.pauseOrderId
  {
    hide PauseActions, StatusOf, SetStatus;
    PauseKeepsFlag(cfg, FirstEvaluation(c, id), 0, true);
  }
}
