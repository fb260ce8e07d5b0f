/** What a cancel and a pause tell the navigation server and the handlers: exactly which calls one
    evaluation makes, and that they stand in the record of every later state. */
module MissionTelling {
  import opened Options
  import opened MissionTypes
  import opened MissionSpec
  import opened MissionViews
  import opened MissionInvariant
  import opened MissionScheduling
  import opened MissionCanceling
  import opened MissionPausing
  import opened MissionRuns
  import opened MissionGoals
  import opened MissionRequests
  import opened MissionInterruptions

  // ----- What the handlers are told -----

  /** From action i on, the actions that run, are not among those told, and have a handler. */
  ghost function ToBeTold(cfg: Config, c: Client, told: set<ActionId>, i: nat): seq<ActionId>
    requires HasOrder(c) && i <= c.pos.numActions
    decreases c.pos.numActions - i
  {
    if i == c.pos.numActions then []
    else
      var a := Flat(c.order.value.nodes)[i];
      (if ViewOf(c).status[i].Active() && a.id !in told && a.kind in cfg.handlers then [a.id] else []) +
      ToBeTold(cfg, c, told, i + 1)
  }

  function CancelCalls(ids: seq<ActionId>): (calls: seq<Call>)
    ensures |calls| == |ids| && forall k {:trigger calls[k]} | 0 <= k < |ids| :: calls[k] == CancelHandler(ids[k])
  {
    seq(|ids|, k requires 0 <= k < |ids| => CancelHandler(ids[k]))
  }

  function PauseCalls(ids: seq<ActionId>): (calls: seq<Call>)
    ensures |calls| == |ids| && forall k {:trigger calls[k]} | 0 <= k < |ids| :: calls[k] == PauseHandler(ids[k])
  {
    seq(|ids|, k requires 0 <= k < |ids| => PauseHandler(ids[k]))
  }

  lemma MoreCalls(ids: seq<ActionId>, more: seq<ActionId>)
    ensures CancelCalls(ids + more) == CancelCalls(ids) + CancelCalls(more)
    ensures PauseCalls(ids + more) == PauseCalls(ids) + PauseCalls(more)
  {
  }

  /** d has made these calls since c; if it broke, the first of them. */
  ghost predicate Calls(c: Client, d: Client, calls: seq<Call>) {
    c.calls <= d.calls && d.calls <= c.calls + calls && (!d.fault ==> d.calls == c.calls + calls)
  }

  lemma CallsMore(c: Client, d: Client, e: Client, calls: seq<Call>, more: seq<Call>)
    requires d.calls == c.calls + calls && Calls(d, e, more)
    ensures Calls(c, e, calls + more)
  {
    assert (c.calls + calls) + more == c.calls + (calls + more);
  }

  lemma TellingCalls(cfg: Config, c: Client, d: Client, interrupted: set<ActionId>, i: nat)
    requires Sweeping(c, d, i) && i < c.pos.numActions && !d.fault && ViewOf(c).status[i].Active()
    requires HasOrder(d) && d.pos.numActions == c.pos.numActions && Stopped(cfg, c, d, interrupted, i)
    ensures var a := Flat(c.order.value.nodes)[i];
            var e := CancelRunning(cfg, d, a.id, interrupted);
            if e.fault then e.calls == d.calls
            else e.calls == d.calls +
                   CancelCalls(if a.id !in c.req.canceledIds && a.kind in cfg.handlers then [a.id] else [])
  {
    SweepingFrame(c, d, i);
    SweepingNode(c, d, i);
    hide Sound, CancelsOnce, InRouteOrder, Swept, SetStatus;
    var id := Flat(c.order.value.nodes)[i].id;
    FoundHere(d, i);
    assert id in d.req.canceledIds <==> id in c.req.canceledIds;
    var f := d.(req := d.req.(canceledIds := d.req.canceledIds + {id}));
    assert GetAction(f, id) == GetAction(d, id);
    assert CancelCalls([id]) == [CancelHandler(id)] && CancelCalls([]) == [];
  }

  /** The sweep tells these handlers, in route order, and calls nothing else. */
  lemma {:induction false} SweepCalls(cfg: Config, c: Client, d: Client, i: nat, all: bool, interrupted: set<ActionId>)
    requires Sweeping(c, d, i) && i <= c.pos.numActions && !d.fault
    requires HasOrder(c) && HasOrder(d) && c.pos.numActions == d.pos.numActions && Stopped(cfg, c, d, interrupted, i)
    ensures Calls(d, CancelActions(cfg, d, i, all, interrupted).0, CancelCalls(ToBeTold(cfg, c, c.req.canceledIds, i)))
    decreases c.pos.numActions - i
  {
    hide Sweeping, ViewOf, CancelRunning, SetStatus, Layout, Stopped;
    SweepingHere(c, d, i);
    SweepingFrame(c, d, i);
    if i < c.pos.numActions {
      var a, s := Flat(c.order.value.nodes)[i], ViewOf(c).status[i];
      var later := ToBeTold(cfg, c, c.req.canceledIds, i + 1);
      assert [] + later == later;
      if s.WAITING? {
        SweepFails(c, d, i);
        StoppedWaiting(cfg, c, d, interrupted, i);
        SweepCalls(cfg, c, Update(d, a.id, FAILED), i + 1, all, interrupted);
      } else if s.Active() {
        SweepTells(cfg, c, d, i, interrupted);
        TellingCalls(cfg, c, d, interrupted, i);
        var e := CancelRunning(cfg, d, a.id, interrupted);
        var now := if a.id !in c.req.canceledIds && a.kind in cfg.handlers then [a.id] else [];
        MoreCalls(now, later);
        if !e.fault {
          TellingStops(cfg, c, d, interrupted, i);
          SweepCalls(cfg, c, e, i + 1, false, interrupted);
          CallsMore(d, e, CancelActions(cfg, e, i + 1, false, interrupted).0, CancelCalls(now), CancelCalls(later));
        }
      } else {
        SweepLeaves(c, d, i);
        StoppedPast(cfg, c, d, d, interrupted, i);
        SweepCalls(cfg, c, d, i + 1, all, interrupted);
      }
    }
  }

  // ----- Pausing -----

  lemma PausingCalls(cfg: Config, c: Client, d: Client, i: nat)
    requires HasOrder(c) && InRouteOrder(ViewOf(c), c.pos.currentNode) && PauseFrame(c, d)
    requires i < c.pos.numActions && !d.fault && ViewOf(c).status[i].Active()
    ensures var a := Flat(c.order.value.nodes)[i];
            var e := PauseRunning(cfg, d, a.id);
            if e.fault then e.calls == d.calls
            else e.calls == d.calls +
                   PauseCalls(if a.id !in d.req.pausedIds && a.kind in cfg.handlers then [a.id] else [])
  {
    var id := Flat(c.order.value.nodes)[i].id;
    FoundHere(c, i);
    assert GetAction(d.(req := d.req.(pausedIds := d.req.pausedIds + {id})), id) == GetAction(c, id);
    assert PauseCalls([id]) == [PauseHandler(id)] && PauseCalls([]) == [];
  }

  ghost predicate PausedUpTo(c: Client, d: Client, i: nat)
    requires HasOrder(c)
  {
    forall j | i <= j < |Flat(c.order.value.nodes)| ::
      Flat(c.order.value.nodes)[j].id in d.req.pausedIds <==> Flat(c.order.value.nodes)[j].id in c.req.pausedIds
  }

  lemma PausedOne(cfg: Config, c: Client, d: Client, i: nat)
    requires HasOrder(c) && InRouteOrder(ViewOf(c), c.pos.currentNode) && PauseFrame(c, d) && PausedUpTo(c, d, i)
    requires i < c.pos.numActions && !d.fault && ViewOf(c).status[i].Active()
    ensures PausedUpTo(c, PauseRunning(cfg, d, Flat(c.order.value.nodes)[i].id), i + 1)
  {
    hide PauseRunning, InRouteOrder;
    PauseRunningFaults(cfg, c, d, i);
    OnlyIndex(c, i);
  }

  lemma {:induction false} PassCalls(cfg: Config, c: Client, d: Client, i: nat, all: bool)
    requires HasOrder(c) && InRouteOrder(ViewOf(c), c.pos.currentNode) && PauseFrame(c, d) && PausedUpTo(c, d, i)
    requires i <= c.pos.numActions && !d.fault
    ensures Calls(d, PauseActions(cfg, d, i, all).0, PauseCalls(ToBeTold(cfg, c, c.req.pausedIds, i)))
    decreases c.pos.numActions - i
  {
    hide PauseRunning, SetStatus, InRouteOrder, PausedUpTo;
    if i < c.pos.numActions {
      OwnIndex(c, i);
      var a := Flat(c.order.value.nodes)[i];
      assert c.agv.actionStates[i].id == a.id;
      var later := ToBeTold(cfg, c, c.req.pausedIds, i + 1);
      assert [] + later == later;
      if ViewOf(c).status[i].Active() {
        PausingCalls(cfg, c, d, i);
        PauseOneLeaves(cfg, d, a.id);
        PausedOne(cfg, c, d, i);
        PausedHere(c, d, i);
        var e := PauseRunning(cfg, d, a.id);
        var now := if a.id !in c.req.pausedIds && a.kind in cfg.handlers then [a.id] else [];
        MoreCalls(now, later);
        if !e.fault {
          PassCalls(cfg, c, e, i + 1, false);
          CallsMore(d, e, PauseActions(cfg, e, i + 1, false).0, PauseCalls(now), PauseCalls(later));
        }
      } else {
        PausedPast(c, d, i);
        PassCalls(cfg, c, d, i + 1, all);
      }
    }
  }

  lemma PausedHere(c: Client, d: Client, i: nat)
    requires HasOrder(c) && PausedUpTo(c, d, i) && i < |Flat(c.order.value.nodes)|
    ensures Flat(c.order.value.nodes)[i].id in d.req.pausedIds <==> Flat(c.order.value.nodes)[i].id in c.req.pausedIds
  {
  }

  lemma PausedPast(c: Client, d: Client, i: nat)
    requires HasOrder(c) && PausedUpTo(c, d, i)
    ensures PausedUpTo(c, d, i + 1)
  {
  }

  // ----- One evaluation -----

  /** The call that stops the robot: made when a request that is still waiting is first evaluated, if a
      goal is in progress. */
  function StopCalls(c: Client, id: ActionId): seq<Call> {
    if c.nav.navHandle && StatusOf(c.agv.actionStates, id) == Some(WAITING) then [CancelGoal] else []
  }

  lemma FirstCalls(c: Client, id: ActionId)
    ensures FirstEvaluation(c, id).calls == c.calls + StopCalls(c, id)
  {
    hide StatusOf;
    assert c.calls + [] == c.calls;
  }

  lemma {:induction false} ToldTheSame(cfg: Config, c: Client, e: Client, told: set<ActionId>, i: nat)
    requires HasOrder(c) && HasOrder(e) && e.order == c.order && e.pos == c.pos && ViewOf(e) == ViewOf(c)
    requires i <= c.pos.numActions
    ensures ToBeTold(cfg, e, told, i) == ToBeTold(cfg, c, told, i)
    decreases c.pos.numActions - i
  {
    hide ViewOf, Layout;
    StatusCount(c);
    StatusCount(e);
    if i < c.pos.numActions {
      ToldTheSame(cfg, c, e, told, i + 1);
    }
  }

  /** Exactly what a cancel calls when it is evaluated: if it is still waiting and a goal is in progress,
      it first cancels that goal, once; and then it tells, in route order, the handlers of the actions that
      run and have not been told.  If it breaks, it has made the first of these calls, the goal's included. */
  lemma CancelTells(cfg: Config, c: Client, id: ActionId, interrupted: set<ActionId>)
    requires Inv(c) && !c.fault && Foreign(c, id) && !c.mode.Idle?
    ensures HasOrder(c)
    ensures var d := CancelOrderStep(cfg, c, id, interrupted);
            && Calls(c, d, StopCalls(c, id) + CancelCalls(ToBeTold(cfg, c, c.req.canceledIds, 0)))
            && c.calls + StopCalls(c, id) <= d.calls
  {
    hide CancelActions, Sweeping, MissionSound, RequestsApart, FirstEvaluation, SetStatus, StatusOf, Stopped,
         StopCalls, CancelCalls, ViewOf;
    var e := FirstEvaluation(c, id);
    FirstEvaluationKeeps(c, id);
    FirstCalls(c, id);
    SweepFromRest(e);
    StoppedFrom(cfg, e, interrupted);
    SweepCalls(cfg, e, e, 0, true, interrupted);
    SameMissionOrder(c, e);
    ToldTheSame(cfg, c, e, c.req.canceledIds, 0);
    CallsMore(c, e, CancelActions(cfg, e, 0, true, interrupted).0, StopCalls(c, id),
              CancelCalls(ToBeTold(cfg, c, c.req.canceledIds, 0)));
  }

  lemma SameMissionOrder(c: Client, e: Client)
    requires SameMission(c, e)
    ensures HasOrder(c) && HasOrder(e) && e.order == c.order && e.pos == c.pos && ViewOf(e) == ViewOf(c)
  {
  }

  /** The same for a pause of a running client. */
  lemma PauseTells(cfg: Config, c: Client, id: ActionId)
    requires Inv(c) && !c.fault && Foreign(c, id) && c.mode.Running?
    ensures HasOrder(c)
    ensures var d := PauseOrderStep(cfg, c, id);
            && Calls(c, d, StopCalls(c, id) + PauseCalls(ToBeTold(cfg, c, c.req.pausedIds, 0)))
            && c.calls + StopCalls(c, id) <= d.calls
  {
    hide PauseActions, MissionSound, RequestsApart, FirstEvaluation, SetStatus, StatusOf, StopCalls, PauseCalls,
         ViewOf, SameMission;
    var e := FirstEvaluation(c, id);
    FirstEvaluationKeeps(c, id);
    FirstCalls(c, id);
    SameMissionOrder(c, e);
    OnRouteHere(e);
    PassCalls(cfg, e, e, 0, true);
    ToldTheSame(cfg, c, e, c.req.pausedIds, 0);
    CallsMore(c, e, PauseActions(cfg, e, 0, true).0, StopCalls(c, id),
              PauseCalls(ToBeTold(cfg, c, c.req.pausedIds, 0)));
  }

  lemma OnRouteHere(e: Client)
    requires HasOrder(e) && MissionSound(e)
    ensures InRouteOrder(ViewOf(e), e.pos.currentNode)
  {
  }

  // ----- What is remembered -----

  /** From action i on, those that run. */
  ghost function RunningIds(c: Client, i: nat): set<ActionId>
    requires HasOrder(c) && i <= c.pos.numActions
    decreases c.pos.numActions - i
  {
    if i == c.pos.numActions then {}
    else (if ViewOf(c).status[i].Active() then {Flat(c.order.value.nodes)[i].id} else {}) + RunningIds(c, i + 1)
  }

  lemma RunningIdsSame(c: Client, e: Client, i: nat)
    requires HasOrder(c) && HasOrder(e) && e.order == c.order && e.pos == c.pos && ViewOf(e) == ViewOf(c)
    requires i <= c.pos.numActions
    ensures RunningIds(e, i) == RunningIds(c, i)
    decreases c.pos.numActions - i
  {
    hide ViewOf, Layout;
    if i < c.pos.numActions {
      RunningIdsSame(c, e, i + 1);
    }
  }

  lemma {:induction false} SweepRemembers(cfg: Config, c: Client, d: Client, i: nat, all: bool,
                                          interrupted: set<ActionId>)
    requires Sweeping(c, d, i) && i <= c.pos.numActions && !d.fault
    requires HasOrder(c)
    ensures var e := CancelActions(cfg, d, i, all, interrupted).0;
            !e.fault ==> e.req.canceledIds == d.req.canceledIds + RunningIds(c, i)
    decreases c.pos.numActions - i
  {
    hide Sweeping, ViewOf, CancelRunning, SetStatus, Layout;
    SweepingHere(c, d, i);
    if i < c.pos.numActions {
      var id, s := Flat(c.order.value.nodes)[i].id, ViewOf(c).status[i];
      if s.WAITING? {
        SweepFails(c, d, i);
        SweepRemembers(cfg, c, Update(d, id, FAILED), i + 1, all, interrupted);
      } else if s.Active() {
        SweepTells(cfg, c, d, i, interrupted);
        CancelRunningFaults(cfg, c, d, i, interrupted);
        var e := CancelRunning(cfg, d, id, interrupted);
        if !e.fault {
          SweepRemembers(cfg, c, e, i + 1, false, interrupted);
        }
      } else {
        SweepLeaves(c, d, i);
        SweepRemembers(cfg, c, d, i + 1, all, interrupted);
      }
    }
  }

  lemma {:induction false} PassRemembers(cfg: Config, c: Client, d: Client, i: nat, all: bool)
    requires HasOrder(c) && InRouteOrder(ViewOf(c), c.pos.currentNode) && PauseFrame(c, d)
    requires i <= c.pos.numActions && !d.fault
    ensures var e := PauseActions(cfg, d, i, all).0;
            !e.fault ==> e.req.pausedIds == d.req.pausedIds + RunningIds(c, i)
    decreases c.pos.numActions - i
  {
    hide PauseRunning, SetStatus, InRouteOrder;
    if i < c.pos.numActions {
      OwnIndex(c, i);
      var id := Flat(c.order.value.nodes)[i].id;
      assert c.agv.actionStates[i].id == id;
      if ViewOf(c).status[i].Active() {
        PauseRunningFaults(cfg, c, d, i);
        PauseOneLeaves(cfg, d, id);
        var e := PauseRunning(cfg, d, id);
        if !e.fault {
          PassRemembers(cfg, c, e, i + 1, false);
        }
      } else {
        PassRemembers(cfg, c, d, i + 1, all);
      }
    }
  }

  /** Who has been told is remembered as long as the request is pending, and forgotten when it is finished,
      so that the next request tells everyone again. */
  lemma CancelRemembers(cfg: Config, c: Client, id: ActionId, interrupted: set<ActionId>)
    requires Inv(c) && !c.fault && Foreign(c, id) && !c.mode.Idle?
    ensures HasOrder(c)
    ensures var d := CancelOrderStep(cfg, c, id, interrupted);
            !d.fault ==> d.req.canceledIds == if d.mode.Idle? then {} else c.req.canceledIds + RunningIds(c, 0)
  {
    hide CancelActions, Sweeping, MissionSound, RequestsApart, FirstEvaluation, SetStatus, StatusOf, ViewOf,
         SameMission;
    var e := FirstEvaluation(c, id);
    FirstEvaluationKeeps(c, id);
    FirstEvaluationQuiet(c, id);
    SweepFromRest(e);
    SweepRemembers(cfg, e, e, 0, true, interrupted);
    SweepQuiet(cfg, e, 0, true, interrupted);
    SameMissionOrder(c, e);
    RunningIdsSame(c, e, 0);
  }

  lemma PauseRemembers(cfg: Config, c: Client, id: ActionId)
    requires Inv(c) && !c.fault && Foreign(c, id) && c.mode.Running?
    ensures HasOrder(c)
    ensures var d := PauseOrderStep(cfg, c, id);
            !d.fault ==> d.req.pausedIds == if d.mode.Paused? then {} else c.req.pausedIds + RunningIds(c, 0)
  {
    hide PauseActions, MissionSound, RequestsApart, FirstEvaluation, SetStatus, StatusOf, ViewOf, SameMission;
    var e := FirstEvaluation(c, id);
    FirstEvaluationKeeps(c, id);
    FirstEvaluationQuiet(c, id);
    SameMissionOrder(c, e);
    OnRouteHere(e);
    PassRemembers(cfg, e, e, 0, true);
    PauseQuiet(cfg, e, 0, true);
    RunningIdsSame(c, e, 0);
  }

  // ----- Resuming -----

  /** The actions of the order, from the i-th on, that are paused. */
  ghost function PausedIds(c: Client, i: nat): seq<ActionId>
    requires HasOrder(c) && i <= c.pos.numActions
    decreases c.pos.numActions - i
  {
    if i == c.pos.numActions then []
    else (if ViewOf(c).status[i].PAUSED? then [Flat(c.order.value.nodes)[i].id] else []) + PausedIds(c, i + 1)
  }

  function ResumeCalls(ids: seq<ActionId>): (calls: seq<Call>)
    ensures |calls| == |ids| && forall k {:trigger calls[k]} | 0 <= k < |ids| :: calls[k] == ResumeHandler(ids[k])
  {
    seq(|ids|, k requires 0 <= k < |ids| => ResumeHandler(ids[k]))
  }

  /** Paused actions run again, from the i-th on; the other statuses are the same. */
  ghost predicate RunAgain(c: Client, d: Client, i: nat)
    requires HasOrder(c) && HasOrder(d)
  {
    && |ViewOf(d).status| == |ViewOf(c).status|
    && forall j {:trigger ViewOf(d).status[j]} | 0 <= j < |ViewOf(c).status| ::
         ViewOf(d).status[j] == if j >= i && ViewOf(c).status[j].PAUSED? then RUNNING else ViewOf(c).status[j]
  }

  lemma PausedIdsSame(c: Client, d: Client, i: nat)
    requires HasOrder(c) && HasOrder(d) && d.order == c.order && i <= c.pos.numActions == d.pos.numActions
    requires forall j | i <= j < |ViewOf(c).status|
             && j < |ViewOf(d).status| :: ViewOf(d).status[j] == ViewOf(c).status[j]
    ensures PausedIds(d, i) == PausedIds(c, i)
    decreases c.pos.numActions - i
  {
    hide ViewOf, Layout;
    StatusCount(c);
    StatusCount(d);
    if i < c.pos.numActions {
      PausedIdsSame(c, d, i + 1);
    }
  }

  lemma OneResumed(c: Client, i: nat)
    requires HasOrder(c) && i < c.pos.numActions
    ensures var id := Flat(c.order.value.nodes)[i].id;
            var d := Called(Update(c, id, RUNNING), ResumeHandler(id));
            && HasOrder(d) && ViewOf(d).status == ViewOf(c).status[i := RUNNING] && d.order == c.order && d.pos == c.pos
  {
    UpdateOwn(c, i, RUNNING);
  }

  /** Resuming hands every paused action of the order back to its handler, in route order, and sets it
      running, unless one is not found at the current node or has no handler.  (No action of an order is ever
      paused, see NothingToResume; but this is what would be done.) */
  lemma {:induction false} ResumeTells(cfg: Config, c: Client, i: nat)
    requires HasOrder(c) && i <= c.pos.numActions && !c.fault
    ensures var d := ResumeActions(cfg, c, i);
            !d.fault ==> d.calls == c.calls + ResumeCalls(PausedIds(c, i)) && HasOrder(d) && RunAgain(c, d, i)
    decreases c.pos.numActions - i
  {
    hide ViewOf, Layout, ResumeActions, RunAgain, Update;
    StatusCount(c);
    ResumeStep(cfg, c, i);
    if i == c.pos.numActions {
      AgainNone(c);
      assert c.calls + ResumeCalls([]) == c.calls;
    } else if ViewOf(c).status[i].PAUSED? {
      var id := Flat(c.order.value.nodes)[i].id;
      OneResumed(c, i);
      var d := Called(Update(c, id, RUNNING), ResumeHandler(id));
      if !ResumeActions(cfg, c, i).fault {
        ResumeTells(cfg, d, i + 1);
        StatusCount(d);
        PausedIdsSame(c, d, i + 1);
        AgainFirst(c, d, ResumeActions(cfg, d, i + 1), i);
        FirstResumed(c, id, PausedIds(c, i + 1));
      }
    } else {
      ResumeTells(cfg, c, i + 1);
      AgainPast(c, ResumeActions(cfg, c, i + 1), i);
      assert [] + PausedIds(c, i + 1) == PausedIds(c, i + 1);
    }
  }

  lemma FirstResumed(c: Client, id: ActionId, later: seq<ActionId>)
    ensures (c.calls + [ResumeHandler(id)]) + ResumeCalls(later) == c.calls + ResumeCalls([id] + later)
  {
    assert ResumeCalls([id] + later) == [ResumeHandler(id)] + ResumeCalls(later);
  }

  /** The pass comes to action i. */
  lemma ResumeStep(cfg: Config, c: Client, i: nat)
    requires HasOrder(c) && i <= c.pos.numActions && !c.fault
    ensures i == c.pos.numActions ==> ResumeActions(cfg, c, i) == c
    ensures i < c.pos.numActions ==>
              var id := Flat(c.order.value.nodes)[i].id;
              var d := Called(Update(c, id, RUNNING), ResumeHandler(id));
              && d.calls == c.calls + [ResumeHandler(id)] && d.fault == c.fault
              && i < |ViewOf(c).status|
              && if ViewOf(c).status[i].PAUSED?
                 then ResumeActions(cfg, c, i).fault || ResumeActions(cfg, c, i) == ResumeActions(cfg, d, i + 1)
                 else ResumeActions(cfg, c, i) == ResumeActions(cfg, c, i + 1)
  {
    hide ViewOf, Layout, GetAction, SetStatus, StatusOf;
    StatusCount(c);
    if i < c.pos.numActions {
      OwnIndex(c, i);
      IdHere(c, i);
    }
  }

  lemma AgainNone(c: Client)
    requires HasOrder(c)
    ensures RunAgain(c, c, c.pos.numActions)
  {
  }

  lemma AgainFirst(c: Client, d: Client, e: Client, i: nat)
    requires HasOrder(c) && HasOrder(d) && i < |ViewOf(c).status| && ViewOf(c).status[i].PAUSED?
    requires ViewOf(d).status == ViewOf(c).status[i := RUNNING]
    ensures HasOrder(e) && RunAgain(d, e, i + 1) ==> RunAgain(c, e, i)
  {
    hide ViewOf, Layout;
  }

  lemma AgainPast(c: Client, e: Client, i: nat)
    requires HasOrder(c) && i < |ViewOf(c).status| && !ViewOf(c).status[i].PAUSED?
    ensures HasOrder(e) && RunAgain(c, e, i + 1) ==> RunAgain(c, e, i)
  {
    hide ViewOf, Layout;
  }

  lemma IdHere(c: Client, i: nat)
    requires HasOrder(c) && i < c.pos.numActions
    ensures i < |c.agv.actionStates| && c.agv.actionStates[i].id == Flat(c.order.value.nodes)[i].id
  {
  }

  // ----- The record of calls -----

  ghost predicate Grows(c: Client, d: Client) {
    c.calls <= d.calls
  }

  lemma ExecuteGrows(cfg: Config, c: Client, a: Action, outcome: map<ActionId, StartedStatus>)
    ensures Grows(c, ExecuteAction(cfg, c, a, outcome))
  {
    hide SetStatus;
  }

  lemma {:induction false} ScanGrows(cfg: Config, c: Client, actions: seq<Action>, i: nat, stop: bool, busy: bool,
                                     outcome: map<ActionId, StartedStatus>)
    requires i <= |actions|
    ensures Grows(c, Scan(cfg, c, actions, i, stop, busy, outcome).0)
    decreases |actions| - i
  {
    hide ExecuteAction, StatusOf;
    if i < |actions| {
      ExecuteGrows(cfg, c, actions[i], outcome);
      var p := PassAction(cfg, c, actions[i], stop, busy, outcome);
      if p.more {
        ScanGrows(cfg, p.client, actions, i + 1, p.stop, p.busy, outcome);
      }
    }
  }

  lemma ScheduleGrows(cfg: Config, c: Client, world: Surroundings)
    ensures Grows(c, Schedule(cfg, c, world))
  {
    hide Scan, GoalEnd, Span;
    if c.order.Some? && c.pos.currentNode < |c.order.value.nodes| {
      ScanGrows(cfg, c, c.order.value.nodes[c.pos.currentNode].actions, 0, false, false, world.outcome);
    }
  }

  lemma {:induction false} SweepGrows(cfg: Config, c: Client, i: nat, all: bool, interrupted: set<ActionId>)
    ensures Grows(c, CancelActions(cfg, c, i, all, interrupted).0)
    decreases c.pos.numActions - i
  {
    hide SetStatus, StatusOf, GetAction;
    if !c.fault && i < c.pos.numActions && i < |c.agv.actionStates| {
      var x := c.agv.actionStates[i].id;
      SweepGrows(cfg, Update(c, x, FAILED), i + 1, all, interrupted);
      SweepGrows(cfg, CancelRunning(cfg, c, x, interrupted), i + 1, false, interrupted);
      SweepGrows(cfg, c, i + 1, all, interrupted);
    }
  }

  lemma CancelGrows(cfg: Config, c: Client, id: ActionId, interrupted: set<ActionId>)
    ensures Grows(c, CancelOrderStep(cfg, c, id, interrupted))
  {
    hide CancelActions, SetStatus, StatusOf;
    SweepGrows(cfg, FirstEvaluation(c, id), 0, true, interrupted);
  }

  lemma {:induction false} PassGrows(cfg: Config, c: Client, i: nat, all: bool)
    ensures Grows(c, PauseActions(cfg, c, i, all).0)
    decreases c.pos.numActions - i
  {
    hide StatusOf, GetAction;
    if !c.fault && i < c.pos.numActions && i < |c.agv.actionStates| {
      PassGrows(cfg, PauseRunning(cfg, c, c.agv.actionStates[i].id), i + 1, false);
      PassGrows(cfg, c, i + 1, all);
    }
  }

  lemma PauseGrows(cfg: Config, c: Client, id: ActionId)
    ensures Grows(c, PauseOrderStep(cfg, c, id))
  {
    hide PauseActions, SetStatus, StatusOf;
    PassGrows(cfg, FirstEvaluation(c, id), 0, true);
  }

  lemma {:induction false} ResumeGrows(cfg: Config, c: Client, i: nat)
    ensures Grows(c, ResumeActions(cfg, c, i))
    decreases c.pos.numActions - i
  {
    hide StatusOf, SetStatus, GetAction;
    if !c.fault && i < c.pos.numActions && i < |c.agv.actionStates| {
      var d := Update(c, c.agv.actionStates[i].id, RUNNING);
      ResumeGrows(cfg, c, i + 1);
      ResumeGrows(cfg, Called(d, ResumeHandler(c.agv.actionStates[i].id)), i + 1);
    }
  }

  lemma InstantGrows(cfg: Config, c: Client, a: Action, outcome: map<ActionId, StartedStatus>)
    ensures Grows(c, InstantAction(cfg, c, a, outcome))
  {
    hide SetStatus, PauseOrderStep, ResumeActions;
    PauseGrows(cfg, c.(req := c.req.(pauseAction := Some(a.id))), a.id);
    ResumeGrows(cfg, Update(c, a.id, RUNNING), 0);
  }

  lemma {:induction false} InstantsGrow(cfg: Config, c: Client, actions: seq<Action>, i: nat, locked: bool,
                                        outcome: map<ActionId, StartedStatus>)
    requires i <= |actions|
    ensures Grows(c, InstantActions(cfg, c, actions, i, locked, outcome))
    decreases |actions| - i
  {
    hide InstantAction;
    if !c.fault && i < |actions| {
      var d := c.(agv := c.agv.(actionStates := c.agv.actionStates + [ActionState(actions[i].id, WAITING)]));
      InstantGrows(cfg, d, actions[i], outcome);
      InstantsGrow(cfg, c, actions, i + 1, locked, outcome);
      InstantsGrow(cfg, InstantAction(cfg, d, actions[i], outcome), actions, i + 1, false, outcome);
    }
  }

  lemma TickGrows(cfg: Config, c: Client, world: Surroundings)
    ensures Grows(c, ExecuteOrder(cfg, c, world))
  {
    hide CancelOrderStep, PauseOrderStep, Schedule;
    var d := AfterCancel(cfg, c, world);
    if c.req.cancelAction.Some? {
      CancelGrows(cfg, c, c.req.cancelAction.value, world.interrupted);
    }
    if d.req.pauseAction.Some? {
      PauseGrows(cfg, d, d.req.pauseAction.value);
    }
    ScheduleGrows(cfg, AfterPause(cfg, d), world);
  }

  /** As long as the order stays, no callback takes a call out of the record. */
  lemma StepGrows(cfg: Config, c: Client, e: Event)
    requires KeepsOrder(c, e)
    requires e.Feedback? ==> e.remaining <= 0x1_0000_0000_0000_0000
    ensures Grows(c, Step(cfg, c, e))
  {
    hide ExecuteOrder, InstantActions, SetStatus, Trim;
    match e
    case Tick(world) => TickGrows(cfg, c, world);
    case InstantMsg(actions, outcome) => InstantsGrow(cfg, c, actions, 0, true, outcome);
    case _ =>
  }

  lemma {:induction false} RunGrows(cfg: Config, c: Client, events: seq<Event>)
    requires AllowedRun(cfg, c, events) && KeepsOrderRun(cfg, c, events)
    ensures Grows(c, Run(cfg, c, events))
  {
    hide Step, Allowed, KeepsOrder;
    if events != [] {
      RunGrows(cfg, c, events[..|events| - 1]);
      StepGrows(cfg, Run(cfg, c, events[..|events| - 1]), events[|events| - 1]);
    }
  }

  // ----- The robot is stopped -----

  /** A cancel stops the robot: in every reachable state in which a cancel has not been evaluated yet and a
      goal is in progress, the next tick cancels the goal before it calls anything else; and the call then
      stands in the record of every later state of the order, behind all the goals sent before. */
  lemma CancelStopsTheRobot(cfg: Config, c: Client, world: Surroundings, events: seq<Event>)
    requires OnMission(cfg, c) && !c.mode.Idle? && c.nav.navHandle && c.req.cancelAction.Some?
    requires StatusOf(c.agv.actionStates, c.req.cancelAction.value) == Some(WAITING)
    requires var d := Step(cfg, c, Tick(world)); AllowedRun(cfg, d, events) && KeepsOrderRun(cfg, d, events)
    ensures c.calls + [CancelGoal] <= Run(cfg, Step(cfg, c, Tick(world)), events).calls
  {
    hide Reachable, Inv, CancelOrderStep, PauseOrderStep, Schedule, AllowedRun, KeepsOrderRun, Foreign, CancelCalls,
         ToBeTold, StatusOf;
    ReachableInv(cfg, c);
    RequestsForeign(c);
    var id := c.req.cancelAction.value;
    CancelTells(cfg, c, id, world.interrupted);
    var d := AfterCancel(cfg, c, world);
    if d.req.pauseAction.Some? {
      PauseGrows(cfg, d, d.req.pauseAction.value);
    }
    ScheduleGrows(cfg, AfterPause(cfg, d), world);
    RunGrows(cfg, Step(cfg, c, Tick(world)), events);
  }
}
