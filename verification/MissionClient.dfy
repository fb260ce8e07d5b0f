/** The mission client as it runs: one object whose callbacks update its fields in place.  Every
    callback is proved to act on the whole state exactly as its function in MissionSpec. */
module MissionClients {
  import opened Options
  import opened MissionTypes
  import opened MissionSpec

  lemma {:induction false} FindActionFrom(actions: seq<Action>, id: ActionId, i: nat)
    requires i <= |actions| && forall j | 0 <= j < i :: actions[j].id != id
    ensures FindAction(actions, id) == FindAction(actions[i..], id)
  {
    if i > 0 {
      FindActionFrom(actions[1..], id, i - 1);
      assert actions[1..][i - 1..] == actions[i..];
    } else {
      assert actions[0..] == actions;
    }
  }

  lemma FlatMore(nodes: seq<Node>, n: nat)
    requires n < |nodes|
    ensures Flat(nodes[..n + 1]) == Flat(nodes[..n]) + nodes[n].actions
  {
    assert nodes[..n + 1][..n] == nodes[..n];
  }

  class Vda5050Client {
    const cfg: Config
    var mode: Mode
    var order: Option<Order>
    var pos: Progress
    var agv: AGVState
    var nav: Navigation
    var req: Requests
    var calls: seq<Call>
    var fault: bool

    function State(): Client
      reads this
    {
      Client(mode, order, pos, agv, nav, req, calls, fault)
    }

    constructor (cfg: Config)
      ensures State() == Initial() && this.cfg == cfg
    {
      this.cfg := cfg;
      mode, order := Idle, None;
      pos := Progress(0, 0, false, 0);
      agv := AGVState([], [], "", 0, false, []);
      nav := Navigation(false, false);
      req := Requests(None, None, {}, {}, false, NO_ID);
      calls, fault := [], false;
    }

    // ----- Action states -----

    method UpdateActionStateById(id: ActionId, status: Status)
      modifies this`agv
      ensures State() == Update(old(State()), id, status)
    {
      for i := 0 to |agv.actionStates|
        invariant agv == old(agv)
        invariant forall j | 0 <= j < i :: agv.actionStates[j].id != id
      {
        if agv.actionStates[i].id == id {
          assert IndexOf(agv.actionStates, id) == i;
          agv := agv.(actionStates := agv.actionStates[i := ActionState(agv.actionStates[i].id, status)]);
          return;
        }
      }
      assert IndexOf(agv.actionStates, id) == |agv.actionStates|;
    }

    method GetActionState(id: ActionId) returns (status: Option<Status>)
      ensures status == StatusOf(agv.actionStates, id)
    {
      for i := 0 to |agv.actionStates|
        invariant forall j | 0 <= j < i :: agv.actionStates[j].id != id
      {
        if agv.actionStates[i].id == id {
          assert IndexOf(agv.actionStates, id) == i;
          return Some(agv.actionStates[i].status);
        }
      }
      assert IndexOf(agv.actionStates, id) == |agv.actionStates|;
      return None;
    }

    method LookUpAction(id: ActionId) returns (action: Option<Action>)
      ensures action == GetAction(State(), id)
    {
      if order.None? || pos.currentNode >= |order.value.nodes| {
        return None;
      }
      var actions := order.value.nodes[pos.currentNode].actions;
      for i := 0 to |actions|
        invariant forall j | 0 <= j < i :: actions[j].id != id
      {
        if actions[i].id == id {
          FindActionFrom(actions, id, i);
          return Some(actions[i]);
        }
      }
      FindActionFrom(actions, id, |actions|);
      return None;
    }

    method AnyOrderAction(active: bool) returns (found: bool)
      requires pos.numActions <= |agv.actionStates|
      ensures found == if active then SomeActive(State()) else SomeWaiting(State())
    {
      for i := 0 to pos.numActions
        invariant forall j | 0 <= j < i ::
                    if active then !agv.actionStates[j].status.Active() else !agv.actionStates[j].status.WAITING?
      {
        if (active && agv.actionStates[i].status.Active()) || (!active && agv.actionStates[i].status.WAITING?) {
          return true;
        }
      }
      return false;
    }

    // ----- The timer -----

    method ExecuteAction(a: Action, outcome: map<ActionId, StartedStatus>)
      modifies this
      ensures State() == MissionSpec.ExecuteAction(cfg, old(State()), a, outcome)
    {
      calls := calls + [Start(a.id)];
      UpdateActionStateById(a.id, RUNNING);
      if a.kind.PauseOrder? {
        req := req.(pauseOrder := true);
        UpdateActionStateById(a.id, RUNNING);
        req := req.(pauseOrderId := a.id);
        return;
      }
      if a.kind in cfg.handlers {
        if a.id in outcome {
          UpdateActionStateById(a.id, outcome[a.id]);
        }
      } else {
        UpdateActionStateById(a.id, FAILED);
      }
    }

    /** The loop over the current node's actions. */
    method ScanNode(actions: seq<Action>, outcome: map<ActionId, StartedStatus>) returns (go: bool)
      modifies this
      ensures (State(), go) == Scan(cfg, old(State()), actions, 0, false, false, outcome)
    {
      var stop, busy := false, false;
      ghost var result := Scan(cfg, State(), actions, 0, false, false, outcome);
      for i := 0 to |actions|
        invariant Scan(cfg, State(), actions, i, stop, busy, outcome) == result
      {
        var a := actions[i];
        var status := GetActionState(a.id);
        if status.Some? && status.value.Active() {
          busy := true;
          if a.Hard() {
            return false;
          }
          if a.Soft() {
            stop := true;
          }
        } else if status == Some(Status.WAITING) {
          if a.Hard() {
            if !busy {
              ExecuteAction(a, outcome);
            }
            return false;
          }
          if a.Soft() {
            stop := true;
          }
          ExecuteAction(a, outcome);
          busy := true;
        }
      }
      return !stop;
    }

    /** The nodes of the next goal, and the stop at its end. */
    method CollectPoses(nodes: seq<Node>) returns (poses: seq<nat>, stop: nat)
      ensures pos.currentNode + 1 >= |nodes| ==> poses == [] && stop == pos.nextStop
      ensures pos.currentNode + 1 < |nodes| ==>
                stop == GoalEnd(nodes, pos.currentNode + 1) && poses == Span(pos.currentNode + 1, stop + 1)
    {
      var first := pos.currentNode + 1;
      poses, stop := [], pos.nextStop;
      var i := first;
      while i < |nodes|
        invariant first <= i && poses == Span(first, i) && stop == pos.nextStop
        invariant first < |nodes| ==> i < |nodes| && GoalEnd(nodes, first) == GoalEnd(nodes, i)
        invariant first >= |nodes| ==> i == first
      {
        poses := poses + [i];
        assert poses == Span(first, i + 1);
        if |nodes[i].actions| > 0 || i == |nodes| - 1 || nodes[i].deviation == 0.0 {
          return poses, i;
        }
        i := i + 1;
      }
    }

    method NavigateThroughPoses(nodes: seq<Node>, world: Surroundings)
      modifies this
      ensures State() == MissionSpec.NavigateThroughPoses(cfg, old(State()), nodes, world)
    {
      if cfg.statusCheck && pos.currentNode == 0 && !world.active {
        pos := pos.(nextStop := pos.currentNode);
        pos := pos.(reached := true);
        return;
      }
      if !world.server || pos.nextStop >= |nodes| {
        return;
      }
      var poses, stop := CollectPoses(nodes);
      pos := pos.(nextStop := stop);
      agv := agv.(driving := true);
      nav := nav.(goalRequested := true);
      calls := calls + [SendGoal(poses)];
    }

    method ScheduleNode(world: Surroundings)
      modifies this
      ensures State() == Schedule(cfg, old(State()), world)
    {
      hide Scan, MissionSpec.NavigateThroughPoses, SomeActive;
      if |agv.errors| > 0 && agv.errors[0] == FATAL {
        if pos.numActions > |agv.actionStates| {
          fault := true;
          return;
        }
        var active := AnyOrderAction(true);
        if active {
          return;
        }
        if order.None? {
          fault := true;
        } else {
          mode := Idle;
        }
        return;
      }
      if !pos.reached {
        return;
      }
      if order.None? || pos.currentNode >= |order.value.nodes| {
        fault := true;
        return;
      }
      var nodes := order.value.nodes;
      var go := ScanNode(nodes[pos.currentNode].actions, world.outcome);
      if !go {
        return;
      }
      pos := pos.(nextStop := pos.nextStop + 1);
      if pos.nextStop >= |nodes| {
        mode := Idle;
      } else {
        pos := pos.(reached := false);
        NavigateThroughPoses(nodes, world);
      }
    }

    method ExecuteOrderCallback(world: Surroundings)
      requires !fault
      modifies this
      ensures State() == ExecuteOrder(cfg, old(State()), world)
    {
      if req.cancelAction.Some? {
        CancelOrder(req.cancelAction.value, world.interrupted);
        if fault {
          return;
        }
      }
      if req.pauseAction.Some? {
        PauseOrder(req.pauseAction.value);
        if fault {
          return;
        }
      }
      if cfg.navigable && !world.position {
        return;
      }
      if mode.Running? {
        ScheduleNode(world);
      }
    }

    // ----- Cancel, pause, resume -----

    method EvaluateFirst(id: ActionId)
      modifies this
      ensures State() == FirstEvaluation(old(State()), id)
    {
      var status := GetActionState(id);
      if status == Some(Status.WAITING) {
        UpdateActionStateById(id, RUNNING);
        if nav.navHandle {
          calls := calls + [CancelGoal];
        }
      }
    }

    method CancelOne(id: ActionId, interrupted: set<ActionId>)
      modifies this
      ensures State() == CancelRunning(cfg, old(State()), id, interrupted)
    {
      if id in req.canceledIds {
        return;
      }
      req := req.(canceledIds := req.canceledIds + {id});
      var action := LookUpAction(id);
      if action.None? {
        fault := true;
        return;
      }
      if action.value.kind in cfg.handlers {
        calls := calls + [CancelHandler(id)];
        if id in interrupted {
          UpdateActionStateById(id, FAILED);
        }
      }
    }

    /** The loop over the order's actions. */
    method CancelOrderActions(interrupted: set<ActionId>) returns (all: bool)
      modifies this
      ensures (State(), all) == CancelActions(cfg, old(State()), 0, true, interrupted)
    {
      ghost var result := CancelActions(cfg, State(), 0, true, interrupted);
      all := true;
      var i := 0;
      while i < pos.numActions && !fault
        invariant CancelActions(cfg, State(), i, all, interrupted) == result
        decreases pos.numActions - i, !fault
      {
        if i >= |agv.actionStates| {
          fault := true;
        } else {
          var action := agv.actionStates[i].id;
          var status := GetActionState(action);
          if status == Some(Status.WAITING) {
            UpdateActionStateById(action, FAILED);
          } else if status.Some? && status.value.Active() {
            all := false;
            CancelOne(action, interrupted);
          }
          i := i + 1;
        }
      }
    }

    method CancelOrder(id: ActionId, interrupted: set<ActionId>)
      modifies this
      ensures State() == CancelOrderStep(cfg, old(State()), id, interrupted)
    {
      if mode.Idle? {
        agv := agv.(errors := agv.errors + [Level.WARNING]);
        req := req.(cancelAction := None);
        fault := true;
        return;
      }
      EvaluateFirst(id);
      var all := CancelOrderActions(interrupted);
      if !fault && all && !nav.navHandle {
        UpdateActionStateById(id, FINISHED);
        req := req.(cancelAction := None, canceledIds := {});
        mode := Idle;
      }
    }

    method PauseOne(id: ActionId)
      modifies this
      ensures State() == PauseRunning(cfg, old(State()), id)
    {
      if id in req.pausedIds {
        return;
      }
      req := req.(pausedIds := req.pausedIds + {id});
      var action := LookUpAction(id);
      if action.None? || action.value.kind !in cfg.handlers {
        fault := true;
        return;
      }
      calls := calls + [PauseHandler(id)];
    }

    method PauseOrderActions() returns (all: bool)
      modifies this
      ensures (State(), all) == PauseActions(cfg, old(State()), 0, true)
    {
      ghost var result := PauseActions(cfg, State(), 0, true);
      all := true;
      var i := 0;
      while i < pos.numActions && !fault
        invariant PauseActions(cfg, State(), i, all) == result
        decreases pos.numActions - i, !fault
      {
        if i >= |agv.actionStates| {
          fault := true;
        } else {
          var action := agv.actionStates[i].id;
          var status := GetActionState(action);
          if status.Some? && status.value.Active() {
            all := false;
            PauseOne(action);
          }
          i := i + 1;
        }
      }
    }

    method PauseOrder(id: ActionId)
      modifies this
      ensures State() == PauseOrderStep(cfg, old(State()), id)
    {
      if mode.Idle? {
        UpdateActionStateById(id, FAILED);
        req := req.(pauseAction := None);
        return;
      }
      if mode.Paused? {
        UpdateActionStateById(id, FINISHED);
        req := req.(pauseAction := None);
        return;
      }
      EvaluateFirst(id);
      var all := PauseOrderActions();
      if !fault && all && !nav.navHandle {
        UpdateActionStateById(id, FINISHED);
        req := req.(pauseAction := None, pausedIds := {});
        mode := Mode.Paused;
      }
    }

    method ResumeOrderActions()
      modifies this
      ensures State() == ResumeActions(cfg, old(State()), 0)
    {
      ghost var result := ResumeActions(cfg, State(), 0);
      var i := 0;
      while i < pos.numActions && !fault
        invariant ResumeActions(cfg, State(), i) == result
        decreases pos.numActions - i, !fault
      {
        if i >= |agv.actionStates| {
          fault := true;
        } else {
          var action := agv.actionStates[i].id;
          var status := GetActionState(action);
          if status == Some(Status.PAUSED) {
            UpdateActionStateById(action, RUNNING);
            var found := LookUpAction(action);
            if found.None? || found.value.kind !in cfg.handlers {
              fault := true;
            } else {
              calls := calls + [ResumeHandler(action)];
            }
          }
          i := i + 1;
        }
      }
    }

    method ResumeOrder(id: ActionId)
      modifies this
      ensures State() == MissionSpec.ResumeOrder(cfg, old(State()), id)
    {
      if !mode.Paused? {
        UpdateActionStateById(id, FAILED);
        return;
      }
      UpdateActionStateById(id, RUNNING);
      ResumeOrderActions();
      if fault {
        return;
      }
      pos := pos.(nextStop := pos.currentNode, reached := true);
      mode := Running;
      UpdateActionStateById(id, FINISHED);
    }

    // ----- Orders -----

    method AcceptsOrder() returns (accepted: bool)
      modifies this
      ensures (accepted, State()) == CanAcceptOrder(old(State()))
    {
      if mode.Idle? {
        return true;
      }
      if mode.Paused? {
        return false;
      }
      if pos.numActions > |agv.actionStates| {
        fault := true;
        return false;
      }
      var active := AnyOrderAction(true);
      if active {
        return false;
      }
      if order.None? {
        fault := true;
        return false;
      }
      if |agv.errors| > 0 && agv.errors[0] == FATAL {
        mode := Idle;
        return true;
      }
      if pos.currentNode + 1 == |order.value.nodes| {
        var waiting := AnyOrderAction(false);
        return !waiting;
      }
      return false;
    }

    method CountActions(nodes: seq<Node>) returns (count: nat)
      ensures count == |Flat(nodes)|
    {
      count := 0;
      for n := 0 to |nodes|
        invariant count == |Flat(nodes[..n])|
      {
        FlatMore(nodes, n);
        count := count + |nodes[n].actions|;
      }
      assert nodes[..|nodes|] == nodes;
    }

    /** Drops the last order's action states and the instant actions that are done. */
    method DropOldStates(last: nat)
      requires last == pos.numActions
      modifies this`agv
      ensures agv == old(agv).(actionStates := Carried(old(State())))
    {
      if last > 0 && |agv.actionStates| >= last {
        agv := agv.(actionStates := agv.actionStates[last..]);
      }
      assert old(agv).actionStates[0..] == old(agv).actionStates;
      RemoveEnded();
    }

    /** Removes the states of actions that are over: the others are moved up one by one, and the rest is
        cut off. */
    method RemoveEnded()
      modifies this`agv
      ensures agv == old(agv).(actionStates := Unfinished(old(agv.actionStates)))
    {
      ghost var states := agv.actionStates;
      var kept := 0;
      for i := 0 to |agv.actionStates|
        invariant kept <= i && |agv.actionStates| == |states|
        invariant agv == old(agv).(actionStates := agv.actionStates)
        invariant agv.actionStates[..kept] == Unfinished(states[..i])
        invariant forall k | i <= k < |states| :: agv.actionStates[k] == states[k]
      {
        var state := agv.actionStates[i];
        assert states[..i + 1][..i] == states[..i];
        if !state.status.Ended() {
          agv := agv.(actionStates := agv.actionStates[kept := state]);
          kept := kept + 1;
        }
      }
      assert states[..|states|] == states;
      agv := agv.(actionStates := agv.actionStates[..kept]);
    }

    /** Inserts one node's actions, each as WAITING, at its place among the action states. */
    method InsertFresh(nodes: seq<Node>, n: nat, at: nat, ghost carried: seq<ActionState>)
      requires n < |nodes| && at == |Flat(nodes[..n])|
      requires agv.actionStates == Fresh(Flat(nodes[..n])) + carried
      modifies this`agv
      ensures agv == old(agv).(actionStates := Fresh(Flat(nodes[..n + 1])) + carried)
    {
      ghost var before := Flat(nodes[..n]);
      var actions := nodes[n].actions;
      assert before + actions[..0] == before;
      for j := 0 to |actions|
        invariant agv == old(agv).(actionStates := Fresh(before + actions[..j]) + carried)
      {
        ghost var was := agv.actionStates;
        agv := agv.(actionStates := agv.actionStates[..at + j] + [ActionState(actions[j].id,
                                                                              WAITING)] + agv.actionStates[at + j..]);
        assert before + actions[..j + 1] == (before + actions[..j]) + [actions[j]];
        assert was[..at + j] == Fresh(before + actions[..j]) && was[at + j..] == carried;
        assert Fresh(before + actions[..j + 1]) == was[..at + j] + [ActionState(actions[j].id, WAITING)];
      }
      FlatMore(nodes, n);
      assert actions[..|actions|] == actions;
    }

    /** Fills in the node and action states of a new order, node by node. */
    method AddOrderStates(nodes: seq<Node>)
      requires |nodes| > 0
      modifies this`agv
      ensures agv == old(agv).(actionStates := Fresh(Flat(nodes)) + old(agv).actionStates,
                               nodeStates := StatesOf(nodes)[1..])
    {
      ghost var carried := agv.actionStates;
      agv := agv.(nodeStates := []);
      var at := 0;
      for n := 0 to |nodes|
        invariant at == |Flat(nodes[..n])|
        invariant agv == old(agv).(actionStates := Fresh(Flat(nodes[..n])) + carried,
                                   nodeStates := StatesOf(nodes[..n]))
      {
        agv := agv.(nodeStates := agv.nodeStates + [NodeState(nodes[n].nodeId, nodes[n].sequenceId)]);
        assert agv.nodeStates == StatesOf(nodes[..n + 1]);
        FlatMore(nodes, n);
        InsertFresh(nodes, n, at, carried);
        at := at + |nodes[n].actions|;
      }
      assert nodes[..|nodes|] == nodes;
      agv := agv.(nodeStates := agv.nodeStates[1..]);
    }

    method InitOrder(newOrder: Order)
      requires |newOrder.nodes| > 0
      modifies this
      ensures State() == InitAGVState(old(State()), newOrder)
    {
      var nodes := newOrder.nodes;
      var last := pos.numActions;
      var count := CountActions(nodes);
      DropOldStates(last);
      AddOrderStates(nodes);
      order, mode, calls := Some(newOrder), Running, [];
      pos := Progress(0, 0, true, count);
      agv := agv.(lastNodeId := nodes[0].nodeId, driving := false, errors := []);
    }

    method OrderCallback(newOrder: Order)
      requires !fault
      modifies this
      ensures State() == ReceiveOrder(old(State()), newOrder)
    {
      var accepted := AcceptsOrder();
      if fault {
        return;
      }
      if !accepted {
        if order.None? {
          fault := true;
        } else if newOrder.orderId != order.value.orderId {
          agv := agv.(errors := agv.errors + [Level.WARNING]);
        }
      } else if |newOrder.nodes| > 0 {
        InitOrder(newOrder);
      }
    }

    // ----- Instant actions -----

    method TeleopActionHandler(a: Action)
      modifies this
      ensures State() == TeleopAction(old(State()), a)
    {
      UpdateActionStateById(a.id, RUNNING);
      if a.kind.StartTeleop? {
        req := req.(pauseOrder := true);
        mode := Mode.Paused;
        if nav.navHandle {
          calls := calls + [CancelGoal];
        }
      } else {
        req := req.(pauseOrder := false);
        mode := Running;
        if req.pauseOrderId != NO_ID {
          UpdateActionStateById(req.pauseOrderId, FINISHED);
          req := req.(pauseOrderId := NO_ID);
        }
        pos := pos.(nextStop := pos.currentNode);
        pos := pos.(reached := true);
      }
      UpdateActionStateById(a.id, FINISHED);
    }

    method ProcessInstantAction(a: Action, outcome: map<ActionId, StartedStatus>)
      modifies this
      ensures State() == InstantAction(cfg, old(State()), a, outcome)
    {
      match a.kind {
        case CancelOrder =>
          if req.cancelAction.Some? {
            UpdateActionStateById(a.id, FAILED);
          }
          req := req.(cancelAction := Some(a.id));
        case StartTeleop => TeleopActionHandler(a);
        case StopTeleop => TeleopActionHandler(a);
        case FactsheetRequest =>
          UpdateActionStateById(a.id, RUNNING);
          calls := calls + [PublishFactsheet];
          UpdateActionStateById(a.id, FINISHED);
        case StartPause =>
          req := req.(pauseAction := Some(a.id));
          PauseOrder(a.id);
        case StopPause => ResumeOrder(a.id);
        case _ =>
          if a.kind in cfg.handlers {
            calls := calls + [ExecuteInstant(a.id)];
            if a.id in outcome {
              UpdateActionStateById(a.id, outcome[a.id]);
            }
          }
      }
    }

    method InstantActionsCallback(actions: seq<Action>, outcome: map<ActionId, StartedStatus>)
      requires !fault
      modifies this
      ensures State() == InstantActions(cfg, old(State()), actions, 0, true, outcome)
    {
      ghost var result := InstantActions(cfg, State(), actions, 0, true, outcome);
      var locked, i := true, 0;
      while i < |actions| && !fault
        invariant i <= |actions|
        invariant InstantActions(cfg, State(), actions, i, locked, outcome) == result
        decreases |actions| - i, !fault
      {
        var a := actions[i];
        var known := GetActionState(a.id);
        if known.None? {
          agv := agv.(actionStates := agv.actionStates + [ActionState(a.id, WAITING)]);
          if !locked {
            fault := true;
          } else {
            locked := false;
            ProcessInstantAction(a, outcome);
            i := i + 1;
          }
        } else {
          i := i + 1;
        }
      }
    }

    // ----- Navigation -----

    method NavGoalResponseCallback(accepted: bool)
      requires !fault
      modifies this
      ensures State() == GoalResponded(old(State()), accepted)
    {
      nav := nav.(goalRequested := false);
      if accepted {
        nav := nav.(navHandle := true);
        agv := agv.(driving := true);
      } else if order.None? || pos.currentNode >= |order.value.nodes| {
        fault := true;
      } else {
        agv := agv.(driving := false);
        agv := agv.(errors := agv.errors + [FATAL]);
        nav := nav.(navHandle := false);
        mode := Idle;
      }
    }

    /** Drops the states of the nodes already passed, one by one. */
    method DropPassedNodes(left: nat)
      modifies this`agv
      ensures agv == old(agv).(nodeStates := Trim(old(agv).nodeStates, left))
    {
      while |agv.nodeStates| > left
        invariant agv == old(agv).(nodeStates := agv.nodeStates)
        invariant Trim(agv.nodeStates, left) == Trim(old(agv).nodeStates, left)
      {
        agv := agv.(nodeStates := agv.nodeStates[1..]);
      }
    }

    method NavFeedbackCallback(remaining: nat)
      requires !fault && remaining <= 0x1_0000_0000_0000_0000
      modifies this
      ensures State() == FeedbackReceived(old(State()), remaining)
    {
      pos := pos.(currentNode := SizeSub(pos.nextStop, remaining));
      if order.None? || pos.currentNode >= |order.value.nodes| {
        fault := true;
        return;
      }
      agv := agv.(lastNodeId := order.value.nodes[pos.currentNode].nodeId);
      agv := agv.(lastSequenceId := order.value.nodes[pos.currentNode].sequenceId);
      agv := agv.(driving := true);
      DropPassedNodes(|order.value.nodes| - pos.currentNode - 1);
    }

    method NavResultCallback(code: ResultCode)
      requires !fault
      modifies this
      ensures State() == GoalFinished(old(State()), code)
    {
      nav := nav.(navHandle := false);
      agv := agv.(driving := false);
      match code {
        case Succeeded =>
          pos := pos.(currentNode := pos.nextStop);
          if order.None? || pos.currentNode >= |order.value.nodes| {
            fault := true;
            return;
          }
          DropPassedNodes(|order.value.nodes| - pos.currentNode - 1);
          agv := agv.(lastNodeId := order.value.nodes[pos.currentNode].nodeId);
          agv := agv.(lastSequenceId := order.value.nodes[pos.currentNode].sequenceId);
          pos := pos.(reached := true);
        case Aborted =>
          pos := pos.(currentNode := 1);
          if order.None? || 1 >= |order.value.nodes| {
            fault := true;
          } else {
            agv := agv.(errors := agv.errors + [FATAL]);
          }
        case Canceled =>
          if !req.pauseOrder && req.cancelAction.None? && req.pauseAction.None? {
            if order.None? || pos.currentNode >= |order.value.nodes| {
              fault := true;
            } else {
              agv := agv.(errors := agv.errors + [FATAL]);
            }
          }
        case UnknownCode =>
      }
    }

    method OrderValidErrorCallback()
      requires !fault
      modifies this
      ensures State() == Step(cfg, old(State()), InvalidOrder)
    {
      AddError(WARNING);
    }

    /** Called by handlers, too. */
    method AddError(level: Level)
      modifies this`agv
      ensures State() == ErrorAdded(old(State()), level)
    {
      agv := agv.(errors := agv.errors + [level]);
    }
  }
}
