/** What each kind of message and result does: statuses, calls, modes and errors, one by one. */
module MissionEffects {
  import opened Options
  import opened MissionTypes
  import opened MissionSpec
  import opened MissionViews
  import opened MissionInvariant
  import opened MissionCanceling
  import opened MissionRuns
  import opened MissionGoals
  import opened MissionRequests
  import opened MissionInterruptions
  import opened MissionResuming
  import opened MissionStarting
  import opened MissionTelling

  // ----- A message with one new action -----

  function Listed(c: Client, id: ActionId): Client {
    c.(agv := c.agv.(actionStates := c.agv.actionStates + [ActionState(id, WAITING)]))
  }

  ghost predicate Unlisted(c: Client, id: ActionId) {
    IndexOf(c.agv.actionStates, id) == |c.agv.actionStates|
  }

  lemma MessageComes(cfg: Config, c: Client, a: Action, outcome: map<ActionId, StartedStatus>)
    requires !c.fault && Unlisted(c, a.id)
    ensures Step(cfg, c, InstantMsg([a], outcome)) == InstantAction(cfg, Listed(c, a.id), a, outcome)
  {
    hide InstantAction;
    var d := InstantAction(cfg, Listed(c, a.id), a, outcome);
    assert InstantActions(cfg, d, [a], 1, false, outcome) == d;
  }

  /** An instant action whose id is listed already is ignored. */
  lemma ListedIsIgnored(cfg: Config, c: Client, a: Action, outcome: map<ActionId, StartedStatus>)
    requires !Unlisted(c, a.id)
    ensures Step(cfg, c, InstantMsg([a], outcome)) == c
  {
    hide InstantAction;
    assert InstantActions(cfg, c, [a], 1, true, outcome) == c;
  }

  lemma {:induction false} StatusListed(states: seq<ActionState>, id: ActionId, other: ActionId)
    requires IndexOf(states, id) == |states|
    ensures StatusOf(states + [ActionState(id, WAITING)], other) ==
            if other == id then Some(WAITING) else StatusOf(states, other)
  {
    if states != [] {
      assert (states + [ActionState(id, WAITING)])[1..] == states[1..] + [ActionState(id, WAITING)];
      StatusListed(states[1..], id, other);
    }
  }

  /** Of the actions listed, d differs from c at most in the one with this id, which is in the given state. */
  ghost predicate Sets(c: Client, d: Client, id: ActionId, status: Status) {
    forall x {:trigger StatusOf(d.agv.actionStates, x)} ::
      StatusOf(d.agv.actionStates, x) == if x == id then Some(status) else StatusOf(c.agv.actionStates, x)
  }

  lemma ListedSets(c: Client, id: ActionId)
    requires Unlisted(c, id)
    ensures Sets(c, Listed(c, id), id, WAITING)
  {
    hide StatusOf, IndexOf;
    forall x
      ensures StatusOf(Listed(c, id).agv.actionStates, x) == if x == id then Some(WAITING)
              else StatusOf(c.agv.actionStates, x)
    {
      StatusListed(c.agv.actionStates, id, x);
    }
  }

  lemma UpdateSets(c: Client, d: Client, id: ActionId, was: Status, status: Status)
    requires Sets(c, d, id, was)
    ensures Sets(c, Update(d, id, status), id, status)
  {
    hide StatusOf, SetStatus;
    forall x
      ensures StatusOf(Update(d, id, status).agv.actionStates, x) ==
              if x == id then Some(status) else StatusOf(c.agv.actionStates, x)
    {
      StatusAfter(d.agv.actionStates, id, status, x);
      assert StatusOf(d.agv.actionStates, id) == Some(was);
    }
  }

  lemma SameSets(c: Client, d: Client, e: Client, id: ActionId, status: Status)
    requires Sets(c, d, id, status) && e.agv.actionStates == d.agv.actionStates
    ensures Sets(c, e, id, status)
  {
  }

  /** cancelOrder becomes the pending cancel; it waits for the next tick, unless it replaces a cancel that is
      pending: then it counts as failed from the start. */
  lemma CancelMessage(cfg: Config, c: Client, a: Action, outcome: map<ActionId, StartedStatus>)
    requires !c.fault && Unlisted(c, a.id) && a.kind.CancelOrder?
    ensures var d := Step(cfg, c, InstantMsg([a], outcome));
            && d == c.(agv := c.agv.(actionStates := d.agv.actionStates), req := c.req.(cancelAction := Some(a.id)))
            && Sets(c, d, a.id, if c.req.cancelAction.None? then WAITING else FAILED)
  {
    MessageComes(cfg, c, a, outcome);
    ListedSets(c, a.id);
    UpdateSets(c, Listed(c, a.id), a.id, WAITING, FAILED);
    hide StatusOf, SetStatus, Sets;
    if c.req.cancelAction.None? {
      SameSets(c, Listed(c, a.id), InstantAction(cfg, Listed(c, a.id), a, outcome), a.id, WAITING);
    } else {
      SameSets(c, Update(Listed(c, a.id), a.id, FAILED), InstantAction(cfg, Listed(c, a.id), a, outcome), a.id, FAILED);
    }
  }

  /** startTeleop pauses the client and cancels the goal in progress, if there is one. */
  lemma StartTeleopMessage(cfg: Config, c: Client, a: Action, outcome: map<ActionId, StartedStatus>)
    requires !c.fault && Unlisted(c, a.id) && a.kind.StartTeleop?
    ensures var d := Step(cfg, c, InstantMsg([a], outcome));
            && d == c.(mode := Mode.Paused, agv := c.agv.(actionStates := d.agv.actionStates),
                       req := c.req.(pauseOrder := true), calls := d.calls)
            && d.calls == c.calls + (if c.nav.navHandle then [CancelGoal] else [])
            && Sets(c, d, a.id, FINISHED)
  {
    MessageComes(cfg, c, a, outcome);
    ListedSets(c, a.id);
    var l := Listed(c, a.id);
    UpdateSets(c, l, a.id, WAITING, RUNNING);
    var u := Update(l, a.id, RUNNING);
    var e := u.(mode := Mode.Paused, req := u.req.(pauseOrder := true));
    var f := if e.nav.navHandle then Called(e, CancelGoal) else e;
    hide StatusOf, SetStatus, Sets;
    SameSets(c, u, f, a.id, RUNNING);
    UpdateSets(c, f, a.id, RUNNING, FINISHED);
    assert c.calls + [] == c.calls;
  }

  /** stopTeleop sets the client running at its node, and ends the pause_order action that was on. */
  lemma StopTeleopMessage(cfg: Config, c: Client, a: Action, outcome: map<ActionId, StartedStatus>)
    requires !c.fault && Unlisted(c, a.id) && a.kind.StopTeleop? && a.id != c.req.pauseOrderId
    ensures var d := Step(cfg, c, InstantMsg([a], outcome));
            && d == c.(mode := Running, agv := c.agv.(actionStates := d.agv.actionStates),
                       pos := c.pos.(nextStop := c.pos.currentNode, reached := true),
                       req := c.req.(pauseOrder := false, pauseOrderId := NO_ID))
            && forall x {:trigger StatusOf(d.agv.actionStates, x)} ::
                 StatusOf(d.agv.actionStates, x) ==
                 if x == a.id || EndedByStop(c, x) then Some(FINISHED) else StatusOf(c.agv.actionStates, x)
  {
    MessageComes(cfg, c, a, outcome);
    ListedSets(c, a.id);
    var l, p := Listed(c, a.id), c.req.pauseOrderId;
    UpdateSets(c, l, a.id, WAITING, RUNNING);
    var u := Update(l, a.id, RUNNING);
    var v := if p != NO_ID then Update(u, p, FINISHED) else u;
    hide StatusOf, SetStatus, EndedByStop;
    var d := Step(cfg, c, InstantMsg([a], outcome));
    assert d.agv.actionStates == Update(v, a.id, FINISHED).agv.actionStates;
    forall x
      ensures StatusOf(d.agv.actionStates, x) ==
              if x == a.id || EndedByStop(c, x) then Some(FINISHED) else StatusOf(c.agv.actionStates, x)
    {
      StopEnds(c, u, a.id, x);
    }
  }

  /** The pause_order action that stopTeleop ends. */
  predicate EndedByStop(c: Client, x: ActionId) {
    x == c.req.pauseOrderId && x != NO_ID && StatusOf(c.agv.actionStates, x).Some?
  }

  lemma StopEnds(c: Client, u: Client, id: ActionId, x: ActionId)
    requires Sets(c, u, id, RUNNING) && id != c.req.pauseOrderId
    ensures var p := c.req.pauseOrderId;
            var v := if p != NO_ID then Update(u, p, FINISHED) else u;
            StatusOf(Update(v, id, FINISHED).agv.actionStates, x) ==
            if x == id || EndedByStop(c, x) then Some(FINISHED) else StatusOf(c.agv.actionStates, x)
  {
    hide StatusOf, SetStatus;
    var p := c.req.pauseOrderId;
    var v := if p != NO_ID then Update(u, p, FINISHED) else u;
    assert StatusOf(u.agv.actionStates, x) == if x == id then Some(RUNNING) else StatusOf(c.agv.actionStates, x);
    assert StatusOf(u.agv.actionStates, id) == Some(RUNNING);
    assert StatusOf(u.agv.actionStates, p) == StatusOf(c.agv.actionStates, p);
    StatusAfter(u.agv.actionStates, p, FINISHED, x);
    StatusAfter(u.agv.actionStates, p, FINISHED, id);
    StatusAfter(v.agv.actionStates, id, FINISHED, x);
  }

  /** factsheetRequest publishes the factsheet, once. */
  lemma FactsheetMessage(cfg: Config, c: Client, a: Action, outcome: map<ActionId, StartedStatus>)
    requires !c.fault && Unlisted(c, a.id) && a.kind.FactsheetRequest?
    ensures var d := Step(cfg, c, InstantMsg([a], outcome));
            && d == c.(agv := c.agv.(actionStates := d.agv.actionStates), calls := c.calls + [PublishFactsheet])
            && Sets(c, d, a.id, FINISHED)
  {
    MessageComes(cfg, c, a, outcome);
    ListedSets(c, a.id);
    var l := Listed(c, a.id);
    UpdateSets(c, l, a.id, WAITING, RUNNING);
    var u := Update(l, a.id, RUNNING);
    hide StatusOf, SetStatus, Sets;
    SameSets(c, u, Called(u, PublishFactsheet), a.id, RUNNING);
    UpdateSets(c, Called(u, PublishFactsheet), a.id, RUNNING, FINISHED);
  }

  /** An instant action of any other type is handed to its handler, once, which leaves it in a state of its
      choice; without a handler it is only listed, and waits for ever. */
  lemma CustomMessage(cfg: Config, c: Client, a: Action, outcome: map<ActionId, StartedStatus>)
    requires !c.fault && Unlisted(c, a.id) && (a.kind.Custom? || a.kind.PauseOrder?)
    ensures var d := Step(cfg, c, InstantMsg([a], outcome));
            var served := a.kind in cfg.handlers;
            && d == c.(agv := c.agv.(actionStates := d.agv.actionStates), calls := d.calls)
            && d.calls == c.calls + (if served then [ExecuteInstant(a.id)] else [])
            && Sets(c, d, a.id, if served && a.id in outcome then outcome[a.id] else WAITING)
  {
    MessageComes(cfg, c, a, outcome);
    ListedSets(c, a.id);
    var l := Listed(c, a.id);
    var u := Called(l, ExecuteInstant(a.id));
    hide StatusOf, SetStatus, Sets;
    SameSets(c, l, u, a.id, WAITING);
    if a.id in outcome {
      UpdateSets(c, u, a.id, WAITING, outcome[a.id]);
    }
    assert c.calls + [] == c.calls;
  }

  /** stopPause resumes a paused client without calling anything, and fails in any other. */
  lemma StopPauseMessage(cfg: Config, c: Client, a: Action, outcome: map<ActionId, StartedStatus>)
    requires Inv(c) && !c.fault && Unlisted(c, a.id) && a.kind.StopPause?
    ensures var d := Step(cfg, c, InstantMsg([a], outcome));
            && Sets(c, d, a.id, if c.mode.Paused? then FINISHED else FAILED)
            && d == if c.mode.Paused?
                    then c.(mode := Running, agv := c.agv.(actionStates := d.agv.actionStates),
                            pos := c.pos.(nextStop := c.pos.currentNode, reached := true))
                    else c.(agv := c.agv.(actionStates := d.agv.actionStates))
  {
    hide Inv, ResumeActions;
    MessageComes(cfg, c, a, outcome);
    ListedSets(c, a.id);
    AppendKeepsInv(c, a.id);
    var l := Listed(c, a.id);
    UpdateSets(c, l, a.id, WAITING, FAILED);
    UpdateSets(c, l, a.id, WAITING, RUNNING);
    hide StatusOf, SetStatus, Sets, Foreign;
    if c.mode.Paused? {
      ResumesAsIs(cfg, l, a.id);
      var u := Update(l, a.id, RUNNING);
      var e := u.(mode := Running, pos := u.pos.(nextStop := u.pos.currentNode, reached := true));
      SameSets(c, u, e, a.id, RUNNING);
      UpdateSets(c, e, a.id, RUNNING, FINISHED);
    }
  }

  // ----- startPause -----

  lemma PausePassLeaves(cfg: Config, c: Client, i: nat, all: bool)
    ensures PauseActions(cfg, c, i, all).0.agv == c.agv
    decreases c.pos.numActions - i
  {
    hide StatusOf, FindAction;
    if !c.fault && i < c.pos.numActions && i < |c.agv.actionStates| {
      PausePassLeaves(cfg, PauseRunning(cfg, c, c.agv.actionStates[i].id), i + 1, false);
      PausePassLeaves(cfg, c, i + 1, all);
    }
  }

  /** One evaluation of a pause: what becomes of the request. */
  lemma PauseRequestAfter(cfg: Config, c: Client, b: Client, id: ActionId)
    requires Sets(b, c, id, WAITING)
    ensures var d := PauseOrderStep(cfg, c, id);
            Sets(b, d, id, if c.mode.Idle? then FAILED else if d.mode.Paused? then FINISHED else RUNNING) || d.fault
  {
    hide PauseActions, SetStatus;
    assert StatusOf(c.agv.actionStates, id) == Some(WAITING);
    hide StatusOf, Sets;
    UpdateSets(b, c, id, WAITING, FAILED);
    UpdateSets(b, c, id, WAITING, FINISHED);
    UpdateSets(b, c, id, WAITING, RUNNING);
    if c.mode.Idle? {
      SameSets(b, Update(c, id, FAILED), PauseOrderStep(cfg, c, id), id, FAILED);
    } else if c.mode.Paused? {
      SameSets(b, Update(c, id, FINISHED), PauseOrderStep(cfg, c, id), id, FINISHED);
    } else {
      var e := FirstEvaluation(c, id);
      var r := PauseActions(cfg, e, 0, true).0;
      PausePassLeaves(cfg, e, 0, true);
      PauseQuiet(cfg, e, 0, true);
      SameSets(b, Update(c, id, RUNNING), r, id, RUNNING);
      UpdateSets(b, r, id, RUNNING, FINISHED);
      if PauseOrderStep(cfg, c, id).mode.Paused? {
        SameSets(b, Update(r, id, FINISHED), PauseOrderStep(cfg, c, id), id, FINISHED);
      } else {
        SameSets(b, r, PauseOrderStep(cfg, c, id), id, RUNNING);
      }
    }
  }

  /** What startPause does is what evaluating it does. */
  lemma StartPauseComes(cfg: Config, c: Client, a: Action, outcome: map<ActionId, StartedStatus>)
    requires Inv(c) && !c.fault && Unlisted(c, a.id) && a.kind.StartPause?
    ensures var l := Listed(c, a.id);
            var p := l.(req := l.req.(pauseAction := Some(a.id)));
            && Step(cfg, c, InstantMsg([a], outcome)) == PauseOrderStep(cfg, p, a.id)
            && Inv(p) && Foreign(p, a.id) && Sets(c, p, a.id, WAITING)
              && StatusOf(p.agv.actionStates, a.id) == Some(WAITING)
  {
    MessageComes(cfg, c, a, outcome);
    ListedSets(c, a.id);
    AppendKeepsInv(c, a.id);
    var l := Listed(c, a.id);
    PausePending(l, a.id);
    var p := l.(req := l.req.(pauseAction := Some(a.id)));
    hide Inv, PauseOrderStep, Foreign, Sets, StatusOf;
    SameSets(c, l, p, a.id, WAITING);
    WaitsHere(p, c, a.id);
  }

  /** startPause is evaluated at once.  It fails in an idle client and is done in a paused one; neither
      calls anything. */
  lemma StartPauseElsewhere(cfg: Config, c: Client, a: Action, outcome: map<ActionId, StartedStatus>)
    requires Inv(c) && !c.fault && Unlisted(c, a.id) && a.kind.StartPause? && !c.mode.Running?
    ensures var d := Step(cfg, c, InstantMsg([a], outcome));
            && d == c.(agv := c.agv.(actionStates := d.agv.actionStates), req := c.req.(pauseAction := None))
            && Sets(c, d, a.id, if c.mode.Idle? then FAILED else FINISHED)
  {
    StartPauseComes(cfg, c, a, outcome);
    var l := Listed(c, a.id);
    var p := l.(req := l.req.(pauseAction := Some(a.id)));
    PauseRequestAfter(cfg, p, c, a.id);
    hide Inv, Foreign, Sets, SetStatus, StatusOf, PauseActions, FirstEvaluation, Step;
  }

  /** A running client cancels the goal in progress, if there is one, and then tells the handlers of what
      runs; it is paused if nothing runs and no goal is in progress, and otherwise the pause is pending. */
  lemma StartPauseMessage(cfg: Config, c: Client, a: Action, outcome: map<ActionId, StartedStatus>)
    requires Inv(c) && !c.fault && Unlisted(c, a.id) && a.kind.StartPause? && c.mode.Running?
    ensures HasOrder(c)
    ensures var d := Step(cfg, c, InstantMsg([a], outcome));
            && (d.fault || Sets(c, d, a.id, if d.mode.Paused? then FINISHED else RUNNING))
            && Calls(c, d, (if c.nav.navHandle then [CancelGoal] else []) +
                           PauseCalls(ToBeTold(cfg, c, c.req.pausedIds, 0)))
            && (c.nav.navHandle ==> c.calls + [CancelGoal] <= d.calls)
            && (!d.fault ==> if SomeRunning(c) || c.nav.navHandle then d.mode.Running? else d.mode.Paused?)
  {
    StartPauseComes(cfg, c, a, outcome);
    var l := Listed(c, a.id);
    var p := l.(req := l.req.(pauseAction := Some(a.id)));
    hide Inv, Foreign, Sets, StatusOf, PauseOrderStep, Step, SomeRunning, ViewOf, PauseCalls, ToBeTold;
    PauseRequestAfter(cfg, p, c, a.id);
    RunningHere(c);
    RunningHere(p);
    PauseTells(cfg, p, a.id);
    PauseEntersIff(cfg, p, a.id);
    PauseModes(cfg, p, a.id);
    ListedView(c, p, a.id);
    ToldTheSame(cfg, c, p, c.req.pausedIds, 0);
  }

  lemma WaitsHere(p: Client, c: Client, id: ActionId)
    requires Sets(c, p, id, WAITING)
    ensures StatusOf(p.agv.actionStates, id) == Some(WAITING)
  {
  }

  lemma ListedView(c: Client, p: Client, id: ActionId)
    requires HasOrder(c) && HasOrder(p) && p.order == c.order && p.pos == c.pos && p.calls == c.calls
    requires p.agv.actionStates == c.agv.actionStates + [ActionState(id, WAITING)]
    ensures ViewOf(p) == ViewOf(c) && (SomeRunning(p) <==> SomeRunning(c))
  {
    assert ViewOf(p).status == ViewOf(c).status;
  }

  // ----- A cancel and the tick after it -----

  lemma {:induction false} SweepLeavesOther(cfg: Config, c: Client, i: nat, all: bool, interrupted: set<ActionId>,
                                            x: ActionId)
    requires forall k | 0 <= k < c.pos.numActions && k < |c.agv.actionStates| :: c.agv.actionStates[k].id != x
    ensures StatusOf(CancelActions(cfg, c, i, all, interrupted).0.agv.actionStates, x)
            == StatusOf(c.agv.actionStates, x)
    decreases c.pos.numActions - i
  {
    hide SetStatus, StatusOf, GetAction;
    if !c.fault && i < c.pos.numActions && i < |c.agv.actionStates| {
      var id := c.agv.actionStates[i].id;
      StatusAfter(c.agv.actionStates, id, FAILED, x);
      SweepLeavesOther(cfg, Update(c, id, FAILED), i + 1, all, interrupted, x);
      SweepLeavesOther(cfg, CancelRunning(cfg, c, id, interrupted), i + 1, false, interrupted, x);
      SweepLeavesOther(cfg, c, i + 1, all, interrupted, x);
    }
  }

  /** What becomes of a pending cancel: a waiting one runs once it has been evaluated, until it is finished. */
  lemma CancelRequestAfter(cfg: Config, c: Client, id: ActionId, interrupted: set<ActionId>)
    requires Inv(c) && !c.fault && Foreign(c, id) && !c.mode.Idle? && StatusOf(c.agv.actionStates, id).Some?
    ensures var d := CancelOrderStep(cfg, c, id, interrupted);
            var was := StatusOf(c.agv.actionStates, id);
            !d.fault ==>
              StatusOf(d.agv.actionStates, id) ==
              if d.mode.Idle? then Some(FINISHED) else if was == Some(WAITING) then Some(RUNNING) else was
  {
    hide CancelActions, SetStatus, StatusOf, MissionSound, RequestsApart, SomeRunning;
    CancelFinishesIff(cfg, c, id, interrupted);
    var e := FirstEvaluation(c, id);
    FirstEvaluationKeeps(c, id);
    FirstEvaluationQuiet(c, id);
    StatusAfter(c.agv.actionStates, id, RUNNING, id);
    SweepLeavesOther(cfg, e, 0, true, interrupted, id);
    SweepQuiet(cfg, e, 0, true, interrupted);
  }

  /** A cancel that is still pending when the client is idle records a warning, and then breaks the client. */
  lemma NothingToCancel(cfg: Config, c: Client, world: Surroundings)
    requires !c.fault && c.mode.Idle? && c.req.cancelAction.Some?
    ensures Step(cfg, c, Tick(world)) ==
            c.(fault := true, agv := c.agv.(errors := c.agv.errors + [WARNING]), req := c.req.(cancelAction := None))
  {
  }

  lemma NoGoalCanceled(ids: seq<ActionId>)
    ensures CancelGoal !in CancelCalls(ids)
  {
  }

  /** With a goal in progress, evaluating a pending cancel cancels the goal exactly if the request is still
      waiting. */
  lemma StopsIffWaiting(cfg: Config, c: Client, world: Surroundings)
    requires Inv(c) && !c.fault && !c.mode.Idle? && c.nav.navHandle && c.req.cancelAction.Some?
    ensures var e := AfterCancel(cfg, c, world);
            && c.calls <= e.calls
            && (CancelGoal in e.calls[|c.calls|..] <==>
                StatusOf(c.agv.actionStates, c.req.cancelAction.value) == Some(WAITING))
  {
    hide Inv, CancelOrderStep, ToBeTold, StatusOf, CancelCalls, Foreign;
    RequestsForeign(c);
    CancelTells(cfg, c, c.req.cancelAction.value, world.interrupted);
    var told := ToBeTold(cfg, c, c.req.canceledIds, 0);
    var e := AfterCancel(cfg, c, world);
    NoGoalCanceled(told);
    if StatusOf(c.agv.actionStates, c.req.cancelAction.value) == Some(WAITING) {
      assert (c.calls + [CancelGoal])[|c.calls|] == CancelGoal;
    } else {
      assert [] + CancelCalls(told) == CancelCalls(told);
      assert e.calls[|c.calls|..] <= CancelCalls(told);
    }
  }

  /** A finding: with a goal in progress, the evaluation of a cancel in the tick after its message cancels the
      goal exactly if no cancel was pending when the message came.  A second cancel replaces one that has
      not been evaluated, and then the robot is never told to stop. */
  lemma CancelMessageStopsIff(cfg: Config, c: Client, a: Action, outcome: map<ActionId, StartedStatus>,
                              world: Surroundings)
    requires Inv(c) && !c.fault && Unlisted(c, a.id) && a.kind.CancelOrder? && !c.mode.Idle? && c.nav.navHandle
    ensures var e := AfterCancel(cfg, Step(cfg, c, InstantMsg([a], outcome)), world);
            && c.calls <= e.calls
            && (CancelGoal in e.calls[|c.calls|..] <==> c.req.cancelAction.None?)
  {
    var d := Step(cfg, c, InstantMsg([a], outcome));
    CancelMessage(cfg, c, a, outcome);
    assert InstantAllowed(c, a);
    hide Inv, Step, StatusOf, AfterCancel;
    StepKeepsInv(cfg, c, InstantMsg([a], outcome));
    StatusHere(c, d, a.id, if c.req.cancelAction.None? then WAITING else FAILED);
    StopsIffWaiting(cfg, d, world);
  }

  lemma StatusHere(c: Client, d: Client, id: ActionId, status: Status)
    requires Sets(c, d, id, status)
    ensures StatusOf(d.agv.actionStates, id) == Some(status)
  {
  }

  // ----- New orders -----

  /** When an order is taken: in an idle client, and in a running one in which no action of the order runs
      and either a fatal error comes first or the robot is at the last node with no action waiting. */
  lemma AcceptsIff(c: Client)
    requires Inv(c) && !c.fault
    ensures c.mode.Running? ==> HasOrder(c)
    ensures CanAcceptOrder(c).0 <==>
            c.mode.Idle? ||
            (c.mode.Running? && !SomeRunning(c) &&
             (FatalFirst(c) || (c.pos.currentNode + 1 == |c.order.value.nodes| && NothingWaits(c))))
  {
    if c.mode.Running? {
      RunningHere(c);
      ActiveIffRunning(c);
    }
  }

  lemma ActiveIffRunning(c: Client)
    requires HasOrder(c)
    ensures SomeActive(c) <==> SomeRunning(c)
    ensures SomeWaiting(c) <==> !NothingWaits(c)
  {
    assert forall i | 0 <= i < c.pos.numActions :: ViewOf(c).status[i] == c.agv.actionStates[i].status;
    if SomeRunning(c) {
      var i :| 0 <= i < |ViewOf(c).status| && ViewOf(c).status[i].Active();
      assert c.agv.actionStates[i].status.Active();
    }
  }

  /** An order that is taken by a running client with no fatal error first drops nothing: every action of the
      current order is over. */
  lemma TakenOrderDropsNothing(c: Client)
    requires Inv(c) && !c.fault && c.mode.Running? && CanAcceptOrder(c).0 && !FatalFirst(c)
    ensures HasOrder(c) && forall i | 0 <= i < c.pos.numActions :: c.agv.actionStates[i].status.Ended()
  {
    AcceptsIff(c);
    RunningHere(c);
    forall i | 0 <= i < c.pos.numActions
      ensures c.agv.actionStates[i].status.Ended()
    {
      AtLastNode(c, i);
    }
  }

  lemma AtLastNode(c: Client, i: nat)
    requires HasOrder(c) && i < c.pos.numActions && !SomeRunning(c) && NothingWaits(c)
    requires InRouteOrder(ViewOf(c), c.pos.currentNode)
    ensures c.agv.actionStates[i].status.Ended()
  {
    assert ViewOf(c).status[i] == c.agv.actionStates[i].status;
    assert !ViewOf(c).status[i].Active() && !ViewOf(c).status[i].WAITING?;
  }

  /** What an order that is not taken does: one with another id adds a warning, one with the same id nothing;
      and an empty one that would be taken does nothing, except that with a fatal error first the client is
      idle afterwards. */
  lemma RefusedOrder(cfg: Config, c: Client, order: Order)
    requires Inv(c) && !c.fault && (!CanAcceptOrder(c).0 || |order.nodes| == 0)
    ensures !CanAcceptOrder(c).0 ==> c.order.Some?
    ensures var d := Step(cfg, c, OrderMsg(order));
            if CanAcceptOrder(c).0 then d == if FatalFirst(c) then c.(mode := Idle) else c
            else d == if order.orderId == c.order.value.orderId then c else ErrorAdded(c, WARNING)
  {
    AcceptIsSafe(c);
    hide MissionSound, Layout, RequestsApart;
  }

  // ----- Errors, answers and results -----

  /** A tick of a running client with a fatal error first, and no request pending, starts nothing and sends
      nothing, wherever the robot is: it ends the order if nothing runs, and else leaves everything as it is. */
  lemma FatalTick(cfg: Config, c: Client, world: Surroundings)
    requires Inv(c) && !c.fault && c.mode.Running? && FatalFirst(c)
    requires c.req.cancelAction.None? && c.req.pauseAction.None?
    ensures HasOrder(c)
    ensures ExecuteOrder(cfg, c, world) ==
            if SomeRunning(c) || (cfg.navigable && !world.position) then c else c.(mode := Idle)
  {
    hide Inv, Scan, Layout, SomeActive, SomeRunning;
    RunningHere(c);
    ActiveIffRunning(c);
    StatusCount(c);
    EnoughStates(c);
  }

  lemma EnoughStates(c: Client)
    requires HasOrder(c)
    ensures c.pos.numActions <= |c.agv.actionStates|
  {
  }

  /** A malformed order is a warning, and what a handler reports is an error of its level; it comes after the
      errors there are, and nothing else changes. */
  lemma ErrorReported(cfg: Config, c: Client, level: Level)
    requires !c.fault
    ensures Step(cfg, c, HandlerError(level)) == c.(agv := c.agv.(errors := c.agv.errors + [level]))
    ensures Step(cfg, c, InvalidOrder) == c.(agv := c.agv.(errors := c.agv.errors + [WARNING]))
  {
  }

  /** A goal that is refused ends the order with a fatal error; one that is accepted is driven. */
  lemma Answered(cfg: Config, c: Client, accepted: bool)
    requires Inv(c) && !c.fault && c.nav.goalRequested
    ensures Step(cfg, c, GoalResponse(accepted)) ==
            if accepted then c.(nav := Navigation(false, true))
            else c.(mode := Idle, nav := Navigation(false, false),
                    agv := c.agv.(driving := false, errors := c.agv.errors + [FATAL]))
  {
    NotBoth(c);
    HasNodes(c);
    DrivesHere(c);
  }

  lemma DrivesHere(c: Client)
    requires Inv(c) && !c.fault && c.nav.Outstanding()
    ensures c.agv.driving
  {
  }

  /** When a goal ends badly: an aborted one is a fatal error, and so is one that was canceled, unless the
      client is in teleoperation or a pause_order, or a cancel or a pause is pending; then and otherwise the
      order, the statuses, the mode and the record of calls stay. */
  lemma BadResult(cfg: Config, c: Client, code: ResultCode)
    requires Inv(c) && !c.fault && c.nav.navHandle && !code.Succeeded?
    ensures var d := Step(cfg, c, GoalResult(code));
            var expected := c.req.pauseOrder || c.req.cancelAction.Some? || c.req.pauseAction.Some?;
            && d == c.(nav := Navigation(false, false), pos := d.pos,
                       agv := c.agv.(driving := false, errors := d.agv.errors))
            && d.pos == (if code.Aborted? then c.pos.(currentNode := 1) else c.pos)
            && d.agv.errors == c.agv.errors +
                 if code.Aborted? || (code.Canceled? && !expected) then [FATAL] else []
  {
    NotBoth(c);
    HasNodes(c);
    NeedsTwoNodes(c);
    assert c.agv.errors + [] == c.agv.errors;
  }

  lemma NeedsTwoNodes(c: Client)
    requires Inv(c) && !c.fault && c.nav.Outstanding()
    ensures c.order.Some? && 1 < |c.order.value.nodes|
  {
  }

  /** The sequence id reported is that of the node the robot is at as soon as feedback or a result comes; but
      a new order leaves the one of the order before. */
  lemma SequenceIdLags(cfg: Config, c: Client, e: Event)
    requires Inv(c) && !c.fault && Allowed(c, e)
    requires e.Feedback? ==> e.remaining <= 0x1_0000_0000_0000_0000
    ensures var d := Step(cfg, c, e);
            && (e.Feedback? || (e.GoalResult? && e.code.Succeeded?) ==>
                  && d.order.Some? && d.pos.currentNode < |d.order.value.nodes|
                  && d.agv.lastSequenceId == d.order.value.nodes[d.pos.currentNode].sequenceId)
            && (e.OrderMsg? ==> d.agv.lastSequenceId == c.agv.lastSequenceId)
  {
    hide MissionSound, Layout, RequestsApart, ExecuteOrder, InstantActions, Trim;
    if e.Feedback? || e.GoalResult? {
      HasNodes(c);
    } else if e.OrderMsg? {
      AcceptIsSafe(c);
    }
  }

  // ----- When no goal can be sent -----

  /** A tick that would send a goal, and cannot.  If the lifecycle check fails, the client stays at its node,
      to try again.  A finding: if the navigation server is not there, the client leaves the node without a
      goal, and no later tick does anything, whatever the surroundings are then. */
  lemma NoServerStrands(cfg: Config, c: Client, world: Surroundings)
    requires Inv(c) && !c.fault && c.mode.Running? && c.pos.reached && !FatalFirst(c)
    requires c.req.cancelAction.None? && c.req.pauseAction.None?
    requires HasOrder(c) && c.pos.currentNode + 1 < |c.order.value.nodes| && NodeClear(c, 0)
    requires cfg.navigable ==> world.position
    ensures var d := ExecuteOrder(cfg, c, world);
            var retried := cfg.statusCheck && c.pos.currentNode == 0 && !world.active;
            && d.mode.Running? && d.order == c.order
            && (retried ==> d.pos == c.pos && d.nav == c.nav)
            && (!retried && !world.server ==>
                  && !d.pos.reached && !d.nav.Outstanding() && d.pos.nextStop == c.pos.currentNode + 1
                  && forall later: Surroundings :: ExecuteOrder(cfg, d, later) == d)
            && (!retried && world.server ==> d.nav.goalRequested)
  {
    hide Inv, NodeClear, Layout, ExecuteOrder, Advance;
    RunningHere(c);
    var e := Departs(cfg, c, world);
    Stranded(cfg, c, e, world);
  }

  /** Such a tick is a pass over the node, and then the departure. */
  lemma Departs(cfg: Config, c: Client, world: Surroundings) returns (e: Client)
    requires Inv(c) && !c.fault && c.mode.Running? && c.pos.reached && !FatalFirst(c)
    requires c.req.cancelAction.None? && c.req.pauseAction.None?
    requires HasOrder(c) && c.pos.currentNode + 1 < |c.order.value.nodes| && NodeClear(c, 0)
    requires cfg.navigable ==> world.position
    ensures ExecuteOrder(cfg, c, world) == Advance(cfg, e, c.order.value.nodes, world)
    ensures e == c.(calls := e.calls, agv := c.agv.(actionStates := e.agv.actionStates),
                    req := c.req.(pauseOrder := e.req.pauseOrder, pauseOrderId := e.req.pauseOrderId))
  {
    hide Inv, Scan, NodeClear, Layout, Advance, Due, LeftIn, StatusOf;
    var actions := c.order.value.nodes[c.pos.currentNode].actions;
    ScanGoesIff(cfg, c, 0, false, false, world.outcome);
    NodeListed(c);
    ScanStarts(cfg, c, actions, 0, false, false, world.outcome);
    e := Scan(cfg, c, actions, 0, false, false, world.outcome).0;
  }

  lemma Stranded(cfg: Config, c: Client, e: Client, world: Surroundings)
    requires !c.nav.Outstanding() && c.order.Some? && c.pos.nextStop == c.pos.currentNode
    requires c.mode.Running? && c.pos.currentNode + 1 < |c.order.value.nodes| && !FatalFirst(c) && !c.fault
    requires c.req.cancelAction.None? && c.req.pauseAction.None?
    requires e == c.(calls := e.calls, agv := c.agv.(actionStates := e.agv.actionStates),
                     req := c.req.(pauseOrder := e.req.pauseOrder, pauseOrderId := e.req.pauseOrderId))
    requires c.pos.reached
    ensures var d := Advance(cfg, e, c.order.value.nodes, world);
            var retried := cfg.statusCheck && c.pos.currentNode == 0 && !world.active;
            && d.mode.Running? && d.order == c.order
            && (retried ==> d.pos == c.pos && d.nav == c.nav)
            && (!retried && !world.server ==>
                  && !d.pos.reached && !d.nav.Outstanding() && d.pos.nextStop == c.pos.currentNode + 1
                  && forall later: Surroundings :: ExecuteOrder(cfg, d, later) == d)
            && (!retried && world.server ==> d.nav.goalRequested)
  {
    hide Scan, GoalEnd, Span, CancelOrderStep, PauseOrderStep;
  }
}
