/** Requests are answered: in every fair behaviour a pending cancel is finished and a pending pause is
    decided, whatever else happens meanwhile short of a fault, a new order or a resume. */
module MissionAnswers {
  import opened Options
  import opened MissionTypes
  import opened MissionSpec
  import opened MissionViews
  import opened MissionInvariant
  import opened MissionScheduling
  import opened MissionCanceling
  import opened MissionPausing
  import opened MissionRuns
  import opened MissionGoals
  import opened MissionRequests
  import opened MissionInterruptions
  import opened MissionLiveness
  import opened MissionHistory

  // ----- What is left wanes -----

  ghost predicate Live(c: Client) {
    Inv(c) && !c.fault && c.order.Some?
  }

  lemma LiveHere(c: Client)
    requires Live(c)
    ensures HasOrder(c) && RequestsApart(c) && MissionSound(c)
    ensures c.pos.currentNode < |c.order.value.nodes| && c.pos.nextStop <= |c.order.value.nodes|
    ensures InRouteOrder(ViewOf(c), c.pos.currentNode)
  {
  }

  /** Route still to be driven to, state of the goal, actions to be started and to be ended. */
  ghost function Left(c: Client): nat
    requires HasOrder(c) && c.pos.nextStop <= |c.order.value.nodes|
  {
    3 * (|c.order.value.nodes| - c.pos.nextStop) + Phase(c.nav) + Efforts(ViewOf(c).status)
  }

  ghost predicate NoHarder(s: seq<Status>, t: seq<Status>) {
    |s| == |t| && forall i {:trigger t[i]} | 0 <= i < |s| :: Effort(t[i]) <= Effort(s[i])
  }

  lemma {:induction false} EffortsFall(s: seq<Status>, t: seq<Status>)
    requires NoHarder(s, t)
    ensures Efforts(t) <= Efforts(s)
    ensures Efforts(t) == Efforts(s) ==> forall i {:trigger t[i]} | 0 <= i < |s| :: Effort(t[i]) == Effort(s[i])
  {
    if s != [] {
      var n := |s| - 1;
      assert NoHarder(s[..n], t[..n]) by {
        assert forall i | 0 <= i < n :: t[..n][i] == t[i] && s[..n][i] == s[i];
      }
      EffortsFall(s[..n], t[..n]);
      if Efforts(t) == Efforts(s) {
        forall i | 0 <= i < |s|
          ensures Effort(t[i]) == Effort(s[i])
        {
          if i < n { assert t[..n][i] == t[i] && s[..n][i] == s[i]; }
        }
      }
    }
  }

  /** What runs goes on running. */
  ghost predicate RunningKept(c: Client, d: Client)
    requires HasOrder(c) && HasOrder(d)
  {
    && |ViewOf(d).status| == |ViewOf(c).status|
    && forall i {:trigger ViewOf(d).status[i]} | 0 <= i < |ViewOf(c).status| && ViewOf(c).status[i].Active() ::
         ViewOf(d).status[i].Active()
  }

  /** From c to d there is no more left; and if there is as much, what runs goes on running. */
  ghost predicate Wanes(c: Client, d: Client)
    requires HasOrder(c) && HasOrder(d)
    requires c.pos.nextStop <= |c.order.value.nodes| && d.pos.nextStop <= |d.order.value.nodes|
  {
    Left(d) <= Left(c) && (Left(d) == Left(c) ==> RunningKept(c, d))
  }

  lemma WanesTwice(c: Client, d: Client, e: Client)
    requires HasOrder(c) && HasOrder(d) && HasOrder(e)
    requires c.pos.nextStop <= |c.order.value.nodes| && d.pos.nextStop <= |d.order.value.nodes|
    requires e.pos.nextStop <= |e.order.value.nodes| && Wanes(c, d) && Wanes(d, e)
    ensures Wanes(c, e)
  {
    hide Left;
  }

  /** Only statuses change, and none becomes harder. */
  lemma EasierWanes(c: Client, d: Client)
    requires HasOrder(c) && HasOrder(d) && d.order == c.order && d.pos == c.pos && d.nav == c.nav
    requires c.pos.nextStop <= |c.order.value.nodes| && NoHarder(ViewOf(c).status, ViewOf(d).status)
    ensures Wanes(c, d)
  {
    hide ViewOf, Efforts;
    EffortsFall(ViewOf(c).status, ViewOf(d).status);
  }

  /** No status changes, and the position and the goal only come nearer. */
  lemma NearerWanes(c: Client, d: Client)
    requires HasOrder(c) && HasOrder(d) && d.order == c.order && ViewOf(d).status == ViewOf(c).status
    requires c.pos.nextStop <= d.pos.nextStop <= |c.order.value.nodes|
    requires 3 * c.pos.nextStop + Phase(d.nav) <= 3 * d.pos.nextStop + Phase(c.nav)
    ensures Wanes(c, d)
    ensures 3 * c.pos.nextStop + Phase(d.nav) < 3 * d.pos.nextStop + Phase(c.nav) ==> Left(d) < Left(c)
  {
    hide ViewOf, Efforts;
  }

  // ----- Ticks -----

  lemma SweptEasier(s: seq<Status>, t: seq<Status>)
    requires Swept(s, t, |s|)
    ensures NoHarder(s, t)
    ensures forall i {:trigger t[i]} | 0 <= i < |t| && t[i].Active() :: s[i].Active()
  {
    forall i | 0 <= i < |s|
      ensures Effort(t[i]) <= Effort(s[i]) && (t[i].Active() ==> s[i].Active())
    {
      assert if s[i].WAITING? then t[i].FAILED? else t[i] == s[i] || (s[i].Active() && t[i].FAILED?);
    }
  }

  /** Evaluating a pending cancel: it stays pending, or is finished. */
  lemma CancelWanes(cfg: Config, c: Client, id: ActionId, interrupted: set<ActionId>)
    requires Live(c) && Foreign(c, id) && !CancelOrderStep(cfg, c, id, interrupted).fault
    ensures var d := CancelOrderStep(cfg, c, id, interrupted);
            && HasOrder(c) && HasOrder(d) && d.order == c.order && d.pos == c.pos && d.nav == c.nav && Live(d)
            && c.pos.nextStop <= |c.order.value.nodes| && Wanes(c, d) && (SomeRunning(d) ==> SomeRunning(c))
            && d.req.pauseAction == c.req.pauseAction && !c.mode.Idle?
            && (d.mode.Idle? || (d.mode == c.mode && d.req.cancelAction == c.req.cancelAction))
  {
    hide CancelActions, FirstEvaluation, Sweeping, MissionSound, RequestsApart, Wanes, Inv, SomeRunning;
    LiveHere(c);
    CancelKeepsInv(cfg, c, id, interrupted);
    CancelLeavesRequest(cfg, c, id, interrupted);
    CancelFaultsIff(cfg, c, id, interrupted);
    var e := FirstEvaluation(c, id);
    FirstEvaluationKeeps(c, id);
    FirstEvaluationQuiet(c, id);
    SweepFromRest(e);
    SweepKeeps(cfg, e, e, 0, true, interrupted);
    SweepQuiet(cfg, e, 0, true, interrupted);
    var f := CancelActions(cfg, e, 0, true, interrupted).0;
    SweepingFrame(e, f, e.pos.numActions);
    SweepingRequest(e, f);
    SweptView(e, f);
    UpdateForeign(f, id, FINISHED);
    UpdateFrame(f, id, FINISHED);
    var u := Update(f, id, FINISHED);
    SameLayout(u, u.(mode := Idle, req := u.req.(cancelAction := None, canceledIds := {})));
    var d := CancelOrderStep(cfg, c, id, interrupted);
    assert ViewOf(d).status == ViewOf(f).status;
    EasierWanes(c, d);
    StillRunning(c, d);
  }

  lemma SweepingRequest(e: Client, f: Client)
    requires Sweeping(e, f, e.pos.numActions)
    ensures f.req == e.req.(canceledIds := f.req.canceledIds) && HasOrder(f)
  {
  }

  lemma SweptView(e: Client, f: Client)
    requires Sweeping(e, f, e.pos.numActions) && HasOrder(e) && HasOrder(f)
    ensures NoHarder(ViewOf(e).status, ViewOf(f).status)
    ensures forall i {:trigger ViewOf(f).status[i]} | 0 <= i < |ViewOf(f).status| && ViewOf(f).status[i].Active() ::
              ViewOf(e).status[i].Active()
  {
    SweptEasier(ViewOf(e).status, ViewOf(f).status);
  }

  lemma StillRunning(c: Client, d: Client)
    requires HasOrder(c) && HasOrder(d) && |ViewOf(c).status| == |ViewOf(d).status|
    requires forall i {:trigger ViewOf(d).status[i]} | 0 <= i < |ViewOf(d).status| && ViewOf(d).status[i].Active() ::
               ViewOf(c).status[i].Active()
    ensures SomeRunning(d) ==> SomeRunning(c)
  {
  }

  /** Evaluating a pending pause: it stays pending, or is answered in a client that does not run. */
  lemma PauseWanes(cfg: Config, c: Client, id: ActionId)
    requires Live(c) && c.req.pauseAction == Some(id) && !PauseOrderStep(cfg, c, id).fault
    ensures var d := PauseOrderStep(cfg, c, id);
            && HasOrder(c) && HasOrder(d) && d.order == c.order && d.pos == c.pos && d.nav == c.nav && Live(d)
            && c.pos.nextStop <= |c.order.value.nodes| && Wanes(c, d) && ViewOf(d) == ViewOf(c)
            && d.req.cancelAction == c.req.cancelAction
            && (d.req.pauseAction.None? <==> !d.mode.Running?)
            && (c.mode.Idle? ==> d.mode.Idle?)
            && (c.mode.Running? ==> (d.mode.Running? <==> SomeRunning(c) || c.nav.navHandle))
            && (!c.mode.Running? ==> !d.mode.Running?)
  {
    hide PauseActions, FirstEvaluation, MissionSound, RequestsApart, Wanes, Inv, SomeRunning;
    LiveHere(c);
    RequestsForeign(c);
    PauseKeepsInv(cfg, c, id);
    PauseStepFrame(cfg, c, id);
    PauseStepStill(cfg, c, id);
    if c.mode.Running? {
      PauseEntersIff(cfg, c, id);
      var e := FirstEvaluation(c, id);
      FirstEvaluationCancel(c, id);
      FirstEvaluationQuiet(c, id);
      PauseQuiet(cfg, e, 0, true);
      PausePassKeepsRequest(cfg, e, 0, true);
      var r := PauseActions(cfg, e, 0, true).0;
      UpdateFrame(r, id, FINISHED);
    }
    EasierWanes(c, PauseOrderStep(cfg, c, id));
  }

  lemma {:induction false} PausePassKeepsRequest(cfg: Config, c: Client, i: nat, all: bool)
    ensures PauseActions(cfg, c, i, all).0.req.pauseAction == c.req.pauseAction
    decreases c.pos.numActions - i
  {
    hide StatusOf, FindAction;
    if !c.fault && i < c.pos.numActions && i < |c.agv.actionStates| {
      var id := c.agv.actionStates[i].id;
      PausePassKeepsRequest(cfg, PauseRunning(cfg, c, id), i + 1, false);
      PausePassKeepsRequest(cfg, c, i + 1, all);
    }
  }

  /** The rest of the order waits, or nothing does. */
  lemma WholeOrSwept(c: Client)
    requires Live(c)
    ensures HasOrder(c) && (NoneCut(ViewOf(c)) || NothingWaits(c))
  {
    LiveHere(c);
    hide MissionSound, RequestsApart;
    assert forall i | 0 <= i < c.pos.numActions :: ViewOf(c).status[i] == c.agv.actionStates[i].status;
  }

  /** The pass over a node: less to be done, or nothing changed. */
  lemma ScanWanes(cfg: Config, c: Client, outcome: map<ActionId, StartedStatus>)
    requires Live(c) && AtRest(c)
    ensures c.pos.currentNode < |c.order.value.nodes|
    ensures var d := Scan(cfg, c, c.order.value.nodes[c.pos.currentNode].actions, 0, false, false, outcome).0;
            && ScanFrame(c, d) && HasOrder(d) && AtRest(d)
            && Efforts(ViewOf(d).status) <= Efforts(ViewOf(c).status)
            && (Efforts(ViewOf(d).status) == Efforts(ViewOf(c).status) ==> d == c)
  {
    hide Scan, NothingWaits, NoneCut, Inv, MissionSound, Scanning, Efforts;
    LiveHere(c);
    WholeOrSwept(c);
    ScanFromRest(cfg, c, outcome);
    if NoneCut(ViewOf(c)) {
      AtRestScanning(c);
      ScanProceeds(cfg, c, 0, false, false, outcome);
    } else {
      ScanIdles(cfg, c, 0, false, false, outcome);
    }
  }

  lemma AdvanceNears(cfg: Config, c: Client, world: Surroundings)
    requires AtRest(c)
    ensures var d := Advance(cfg, c, c.order.value.nodes, world);
            && d.order == c.order && c.pos.nextStop <= d.pos.nextStop <= |c.order.value.nodes|
            && d.pos.numActions == c.pos.numActions && d.agv.actionStates == c.agv.actionStates
            && Starts(d.calls) == Starts(c.calls) && d.req == c.req
            && 3 * c.pos.nextStop + Phase(d.nav) <= 3 * d.pos.nextStop + Phase(c.nav)
  {
    AtRestHere(c);
    AdvanceStartsNothing(cfg, c, c.order.value.nodes, world);
    hide AtRest, Starts;
  }

  lemma ScheduleWanes(cfg: Config, c: Client, world: Surroundings)
    requires Live(c) && c.mode.Running?
    ensures var d := Schedule(cfg, c, world);
            && HasOrder(c) && HasOrder(d) && d.order == c.order && Live(d)
            && c.pos.nextStop <= |c.order.value.nodes| && d.pos.nextStop <= |d.order.value.nodes| && Wanes(c, d)
            && d.req.cancelAction == c.req.cancelAction && d.req.pauseAction == c.req.pauseAction
  {
    hide Inv, AtRest, Scan, Advance, MissionSound, RequestsApart, Wanes, Efforts, ViewOf;
    LiveHere(c);
    ScheduleKeepsInv(cfg, c, world);
    var d := Schedule(cfg, c, world);
    if FatalFirst(c) || !c.pos.reached {
      SameLayout(c, d);
      NearerWanes(c, d);
    } else {
      MakesAtRest(c);
      ScanWanes(cfg, c, world.outcome);
      var (e, go) := Scan(cfg, c, c.order.value.nodes[c.pos.currentNode].actions, 0, false, false, world.outcome);
      ScanLess(c, e);
      if go {
        AdvanceNears(cfg, e, world);
        SameStatuses(e, d);
        NearerWanes(e, d);
        WanesTwice(c, e, d);
      }
    }
  }

  lemma ScanLess(c: Client, e: Client)
    requires HasOrder(c) && HasOrder(e) && ScanFrame(c, e) && c.pos.nextStop <= |c.order.value.nodes|
    requires Efforts(ViewOf(e).status) <= Efforts(ViewOf(c).status)
    requires Efforts(ViewOf(e).status) == Efforts(ViewOf(c).status) ==> e == c
    ensures Wanes(c, e)
  {
    hide ViewOf, Efforts;
  }

  lemma SameStatuses(c: Client, d: Client)
    requires HasOrder(c) && d.order == c.order && d.pos.numActions == c.pos.numActions
    requires d.agv.actionStates == c.agv.actionStates
    ensures HasOrder(d) && ViewOf(d).status == ViewOf(c).status
  {
  }

  // ----- Requests -----

  datatype Request = Canceling | Pausing

  predicate IsPending(c: Client, r: Request) {
    match r
    case Canceling => c.req.cancelAction.Some?
    case Pausing => c.req.pauseAction.Some?
  }

  /** A cancel leaves the client idle, all actions of the order over, and no goal in progress; a pause
      leaves it not running: paused, or idle if the order has ended meanwhile. */
  ghost predicate IsAnswered(c: Client, r: Request) {
    && !IsPending(c, r)
    && match r
       case Canceling =>
         && c.mode.Idle? && !c.nav.navHandle && HasOrder(c)
         && forall i | 0 <= i < c.pos.numActions && i < |c.agv.actionStates| :: c.agv.actionStates[i].status.Ended()
       case Pausing => !c.mode.Running?
  }

  /** One step of a behaviour: anything allowed, short of a fault, a new order, a resume or an end of
      teleoperation. */
  ghost predicate Endures(cfg: Config, c: Client, e: Event, d: Client) {
    && Allowed(c, e) && KeepsOrder(c, e) && NoRestart(e)
    && (e.Feedback? ==> e.remaining <= 0x1_0000_0000_0000_0000)
    && d == Step(cfg, c, e) && !d.fault
  }

  /** A step: there is no more left; requests stay pending or are answered. */
  ghost predicate StepWanes(c: Client, e: Event, d: Client) {
    && Live(c) && Live(d) && d.order == c.order && HasOrder(c) && HasOrder(d)
    && c.pos.nextStop <= |c.order.value.nodes| && d.pos.nextStop <= |d.order.value.nodes| && Wanes(c, d)
    && (e.GoalResponse? || e.GoalResult? ==> Left(d) < Left(c))
    && (forall r | IsPending(c, r) :: IsPending(d, r) || IsAnswered(d, r))
    && (e.Tick? && !SomeRunning(c) && !c.nav.navHandle ==> forall r | IsPending(c, r) :: IsAnswered(d, r))
  }

  lemma FinishedIsAnswered(c: Client, d: Client)
    requires HasOrder(c) && HasOrder(d) && ViewOf(d) == ViewOf(c) && d.mode.Idle? && d.nav == c.nav
    requires d.req.cancelAction.None? && !c.nav.navHandle
    requires forall i | 0 <= i < c.pos.numActions :: c.agv.actionStates[i].status.Ended()
    ensures IsAnswered(d, Canceling)
  {
    forall i | 0 <= i < d.pos.numActions && i < |d.agv.actionStates|
      ensures d.agv.actionStates[i].status.Ended()
    {
      assert ViewOf(d).status[i] == ViewOf(c).status[i];
      assert ViewOf(c).status[i] == c.agv.actionStates[i].status && ViewOf(d).status[i] == d.agv.actionStates[i].status;
    }
  }

  /** The cancel half of a tick. */
  ghost predicate CancelHalf(c: Client, d: Client)
  {
    && Live(c) && Live(d) && d.order == c.order && HasOrder(c) && HasOrder(d) && d.pos == c.pos && d.nav == c.nav
    && c.pos.nextStop <= |c.order.value.nodes| && Wanes(c, d) && (SomeRunning(d) ==> SomeRunning(c))
    && d.req.pauseAction == c.req.pauseAction
    && (c.req.cancelAction.Some? ==>
          if d.req.cancelAction.None? then IsAnswered(d, Canceling)
          else (SomeRunning(c) || c.nav.navHandle) && !d.mode.Idle?)
    && (c.req.cancelAction.None? ==> d == c)
  }

  lemma CancelHalfOf(cfg: Config, c: Client, world: Surroundings)
    requires Live(c)
    requires !AfterCancel(cfg, c, world).fault
    ensures CancelHalf(c, AfterCancel(cfg, c, world))
  {
    hide CancelOrderStep, Inv, Wanes, SomeRunning, ViewOf, Foreign;
    LiveHere(c);
    if c.req.cancelAction.Some? {
      var id := c.req.cancelAction.value;
      var d := CancelOrderStep(cfg, c, id, world.interrupted);
      RequestsForeign(c);
      CancelWanes(cfg, c, id, world.interrupted);
      CancelFinishesIff(cfg, c, id, world.interrupted);
      if d.mode.Idle? {
        FinishedIsAnswered(d, d);
      }
    } else {
      WanesSelf(c);
    }
  }

  lemma WanesSelf(c: Client)
    requires HasOrder(c) && c.pos.nextStop <= |c.order.value.nodes|
    ensures Wanes(c, c)
  {
  }

  /** The pause half. */
  ghost predicate PauseHalf(c: Client, d: Client)
  {
    && Live(c) && Live(d) && d.order == c.order && HasOrder(c) && HasOrder(d) && d.pos == c.pos && d.nav == c.nav
    && c.pos.nextStop <= |c.order.value.nodes| && Wanes(c, d) && ViewOf(d) == ViewOf(c)
    && d.req.cancelAction == c.req.cancelAction
    && (c.mode.Idle? ==> d.mode.Idle?)
    && (c.req.pauseAction.Some? ==>
          if d.req.pauseAction.None? then !d.mode.Running? else d.mode.Running? && (SomeRunning(c) || c.nav.navHandle))
    && (c.req.pauseAction.None? ==> d == c)
  }

  lemma PauseHalfOf(cfg: Config, c: Client)
    requires Live(c)
    requires !AfterPause(cfg, c).fault
    ensures PauseHalf(c, AfterPause(cfg, c))
  {
    hide PauseOrderStep, Inv, Wanes, SomeRunning, ViewOf;
    LiveHere(c);
    if c.req.pauseAction.Some? {
      PauseWanes(cfg, c, c.req.pauseAction.value);
    } else {
      WanesSelf(c);
    }
  }

  lemma TickWanes(cfg: Config, c: Client, world: Surroundings)
    requires Live(c) && !ExecuteOrder(cfg, c, world).fault
    ensures StepWanes(c, Tick(world), ExecuteOrder(cfg, c, world))
  {
    hide CancelOrderStep, PauseOrderStep, Schedule, Inv, Wanes, SomeRunning, ViewOf, Left, IsAnswered, HasOrder;
    var d := AfterCancel(cfg, c, world);
    CancelHalfOf(cfg, c, world);
    var e := AfterPause(cfg, d);
    PauseHalfOf(cfg, d);
    WanesTwice(c, d, e);
    var f := ExecuteOrder(cfg, c, world);
    if e.mode.Running? && f != e {
      ScheduleWanes(cfg, e, world);
      WanesTwice(c, e, f);
    }
    AnsweredAfterPause(d, e);
    PauseAnswered(e);
    forall r | IsPending(c, r)
      ensures IsPending(f, r) || IsAnswered(f, r)
      ensures !SomeRunning(c) && !c.nav.navHandle ==> IsAnswered(f, r)
    {
      match r
      case Canceling => assert d.req.cancelAction.Some? ==> f.req.cancelAction.Some?;
      case Pausing => assert d.req.pauseAction == c.req.pauseAction;
    }
  }

  /** A cancel answered in d stays so in e, which is then the end of the tick. */
  lemma AnsweredAfterPause(d: Client, e: Client)
    requires PauseHalf(d, e)
    ensures IsAnswered(d, Canceling) ==> IsAnswered(e, Canceling) && e.mode.Idle?
  {
    if IsAnswered(d, Canceling) {
      FinishedIsAnswered(d, e);
    }
  }

  lemma PauseAnswered(e: Client)
    ensures e.req.pauseAction.None? && !e.mode.Running? ==> IsAnswered(e, Pausing)
  {
  }

  // ----- Instant actions -----

  /** The order, the position, the goal and the statuses are the same, and the requests still pending,
      or the pause answered. */
  ghost predicate Stays(c: Client, d: Client) {
    && HasOrder(c) && HasOrder(d) && d.order == c.order && d.pos == c.pos && d.nav == c.nav
    && ViewOf(d).status == ViewOf(c).status
    && (c.req.cancelAction.Some? ==> d.req.cancelAction.Some?)
    && (c.req.pauseAction.Some? ==> d.req.pauseAction.Some? || !d.mode.Running?)
  }

  lemma StaysTwice(c: Client, d: Client, e: Client)
    requires Stays(c, d) && Stays(d, e) && (!d.mode.Running? ==> !e.mode.Running?)
    ensures Stays(c, e)
  {
    hide ViewOf, HasOrder;
  }

  lemma ForeignStays(c: Client, id: ActionId, s: Status)
    requires HasOrder(c) && Foreign(c, id)
    ensures Stays(c, Update(c, id, s)) && Foreign(Update(c, id, s), id) && Update(c, id, s).mode == c.mode
  {
    UpdateForeign(c, id, s);
    UpdateFrame(c, id, s);
    hide Update;
  }

  lemma CallStays(c: Client, call: Call, mode: Mode, req: Requests)
    requires HasOrder(c)
    requires c.req.cancelAction.Some? ==> req.cancelAction.Some?
    requires c.req.pauseAction.Some? ==> req.pauseAction.Some?
    ensures Stays(c, c.(mode := mode, req := req)) && Stays(c, Called(c.(mode := mode, req := req), call))
  {
  }

  lemma StartTeleopStays(c: Client, a: Action)
    requires HasOrder(c) && Foreign(c, a.id) && a.kind.StartTeleop?
    ensures Stays(c, TeleopAction(c, a))
  {
    hide Stays, Update, HasOrder, Foreign;
    ForeignStays(c, a.id, RUNNING);
    var d := Update(c, a.id, RUNNING);
    UpdateFrame(c, a.id, RUNNING);
    StaysHere(c, d);
    var req := d.req.(pauseOrder := true);
    CallStays(d, CancelGoal, Paused, req);
    var e := d.(mode := Paused, req := req);
    var f := if e.nav.navHandle then Called(e, CancelGoal) else e;
    StaysHere(d, f);
    ForeignSame(d, f, a.id);
    ForeignStays(f, a.id, FINISHED);
    StaysTwice(d, f, Update(f, a.id, FINISHED));
    StaysTwice(c, d, Update(f, a.id, FINISHED));
  }

  lemma StaysHere(c: Client, d: Client)
    requires Stays(c, d)
    ensures HasOrder(c) && HasOrder(d) && d.order == c.order
  {
  }

  lemma StartPauseStays(cfg: Config, c: Client, id: ActionId)
    requires Live(c) && Foreign(c, id)
    ensures var d := PauseOrderStep(cfg, c.(req := c.req.(pauseAction := Some(id))), id); d.fault || Stays(c, d)
  {
    hide Inv, PauseOrderStep, Foreign, Wanes;
    LiveHere(c);
    PausePending(c, id);
    var p := c.(req := c.req.(pauseAction := Some(id)));
    CallStays(c, CancelGoal, c.mode, p.req);
    assert p == c.(mode := c.mode, req := p.req);
    if !PauseOrderStep(cfg, p, id).fault {
      PauseWanes(cfg, p, id);
    }
  }

  lemma InstantStays(cfg: Config, c: Client, a: Action, outcome: map<ActionId, StartedStatus>)
    requires Live(c) && Foreign(c, a.id) && !a.kind.StopTeleop? && !a.kind.StopPause?
    ensures var d := InstantAction(cfg, c, a, outcome); d.fault || Stays(c, d)
  {
    hide Inv, PauseOrderStep, Foreign, Stays, HasOrder, TeleopAction, Update;
    LiveHere(c);
    match a.kind
    case CancelOrder =>
      ForeignStays(c, a.id, FAILED);
      var u := if c.req.cancelAction.Some? then Update(c, a.id, FAILED) else c;
      CallStays(c, CancelGoal, c.mode, c.req);
      StaysHere(c, u);
      CallStays(u, CancelGoal, u.mode, u.req.(cancelAction := Some(a.id)));
      StaysTwice(c, u, u.(mode := u.mode, req := u.req.(cancelAction := Some(a.id))));
    case StartTeleop => StartTeleopStays(c, a);
    case FactsheetRequest =>
      ForeignStays(c, a.id, RUNNING);
      var u := Update(c, a.id, RUNNING);
      StaysHere(c, u);
      CallStays(u, PublishFactsheet, u.mode, u.req);
      FactsheetStays(c, u, a.id);
    case StartPause => StartPauseStays(cfg, c, a.id);
    case _ => ExecutedStays(c, a.id, outcome);
  }

  lemma ExecutedStays(c: Client, id: ActionId, outcome: map<ActionId, StartedStatus>)
    requires HasOrder(c) && Foreign(c, id)
    ensures Stays(c, c) && Stays(c, Called(c, ExecuteInstant(id)))
    ensures id in outcome ==> Stays(c, Update(Called(c, ExecuteInstant(id)), id, outcome[id]))
  {
    hide Foreign, Stays, HasOrder, Update;
    CallStays(c, ExecuteInstant(id), c.mode, c.req);
    var u := Called(c, ExecuteInstant(id));
    if id in outcome {
      StaysHere(c, u);
      ForeignSame(c, u, id);
      ForeignStays(u, id, outcome[id]);
      StaysTwice(c, u, Update(u, id, outcome[id]));
    }
  }

  lemma FactsheetStays(c: Client, u: Client, id: ActionId)
    requires Stays(c, u) && Foreign(c, id) && u.mode == c.mode
    ensures Stays(c, Update(Called(u, PublishFactsheet), id, FINISHED))
  {
    hide Stays, HasOrder, Foreign, Update;
    StaysHere(c, u);
    CallStays(u, PublishFactsheet, u.mode, u.req);
    var f := Called(u, PublishFactsheet);
    assert f == Called(u.(mode := u.mode, req := u.req), PublishFactsheet);
    StaysHere(u, f);
    ForeignSame(c, f, id);
    ForeignStays(f, id, FINISHED);
    StaysTwice(u, f, Update(f, id, FINISHED));
    StaysTwice(c, u, Update(f, id, FINISHED));
  }

  lemma AppendStays(c: Client, id: ActionId)
    requires Live(c) && IndexOf(c.agv.actionStates, id) == |c.agv.actionStates|
    ensures var d := c.(agv := c.agv.(actionStates := c.agv.actionStates + [ActionState(id, WAITING)]));
            Live(d) && Foreign(d, id) && Stays(c, d) && d.mode == c.mode
  {
    var d := c.(agv := c.agv.(actionStates := c.agv.actionStates + [ActionState(id, WAITING)]));
    AppendKeepsInv(c, id);
    hide MissionSound, RequestsApart;
    assert ViewOf(d).status == ViewOf(c).status;
  }

  lemma SelfStays(c: Client)
    requires HasOrder(c)
    ensures Stays(c, c)
  {
  }

  lemma {:induction false} InstantsStay(cfg: Config, c: Client, actions: seq<Action>, i: nat,
                                        outcome: map<ActionId, StartedStatus>)
    requires Live(c) && i <= |actions| && NoRestart(InstantMsg(actions, outcome))
    ensures var d := InstantActions(cfg, c, actions, i, true, outcome); d.fault || Stays(c, d)
    decreases |actions| - i
  {
    hide Inv, InstantAction, Stays, HasOrder;
    LiveHere(c);
    SelfStays(c);
    if i < |actions| {
      if IndexOf(c.agv.actionStates, actions[i].id) < |c.agv.actionStates| {
        InstantsStay(cfg, c, actions, i + 1, outcome);
      } else {
        AppendStays(c, actions[i].id);
        var d := c.(agv := c.agv.(actionStates := c.agv.actionStates + [ActionState(actions[i].id, WAITING)]));
        assert actions[i] in actions;
        InstantStays(cfg, d, actions[i], outcome);
        var e := InstantAction(cfg, d, actions[i], outcome);
        NothingMore(cfg, e, actions, i + 1, outcome);
        if !e.fault {
          AppendThenStays(c, d, e);
        }
      }
    }
  }

  lemma AppendThenStays(c: Client, d: Client, e: Client)
    requires Stays(c, d) && Stays(d, e) && d == c.(agv := d.agv)
    ensures Stays(c, e)
  {
    hide ViewOf, HasOrder;
  }

  lemma StaysWanes(c: Client, e: Event, d: Client)
    requires Live(c) && Live(d) && Stays(c, d) && !e.Tick? && !e.GoalResponse? && !e.GoalResult?
    ensures StepWanes(c, e, d)
  {
    hide Inv, ViewOf, Efforts, HasOrder;
    LiveHere(c);
    NearerWanes(c, d);
    forall r | IsPending(c, r)
      ensures IsPending(d, r) || IsAnswered(d, r)
    {
    }
  }

  // ----- Handlers and navigation -----

  /** Action i of the order was begun, and stays running, ends, or has ended. */
  lemma OwnWanes(c: Client, i: nat, status: Status)
    requires Live(c) && i < c.pos.numActions && i < |Starts(c.calls)|
    requires MovesOn(true, ViewOf(c).status[i], status) && Inv(Update(c, Flat(c.order.value.nodes)[i].id, status))
    ensures var id := Flat(c.order.value.nodes)[i].id; StepWanes(c, HandlerUpdate(id, status), Update(c, id, status))
  {
    hide Inv, Update, Efforts, RequestsApart, MissionSound, InRouteOrder;
    LiveHere(c);
    UpdateOwn(c, i, status);
    var id := Flat(c.order.value.nodes)[i].id;
    var d := Update(c, id, status);
    UpdateFrame(c, id, status);
    EffortsUpdate(ViewOf(c).status, i, status);
  }

  lemma HandlerWanes(c: Client, id: ActionId, status: Status)
    requires Live(c) && Allowed(c, HandlerUpdate(id, status))
    ensures StepWanes(c, HandlerUpdate(id, status), Update(c, id, status))
  {
    hide Inv, Update, StepWanes, RequestsApart;
    HandlerKeepsInv(c, id, status);
    LiveHere(c);
    UpdateFrame(c, id, status);
    if i :| 0 <= i < |Flat(c.order.value.nodes)| && Flat(c.order.value.nodes)[i].id == id {
      assert c.agv.actionStates[i].id == id;
      BegunMoves(c, i, status);
      OwnWanes(c, i, status);
    } else {
      ForeignStays(c, id, status);
      StaysWanes(c, HandlerUpdate(id, status), Update(c, id, status));
    }
  }

  /** An answer or a result: the goal is nearer its end. */
  lemma NavigationWanes(c: Client, e: Event, d: Client)
    requires Live(c) && Live(d) && d.order == c.order && OnlyGoal(c, d)
    requires if e.GoalResponse? || e.GoalResult? then Phase(d.nav) < Phase(c.nav) else !e.Tick? && d.nav == c.nav
    ensures StepWanes(c, e, d)
  {
    hide Inv, Efforts, ViewOf, HasOrder;
    LiveHere(c);
    SameStatuses(c, d);
    NearerWanes(c, d);
    RunsSame(c, d);
  }

  lemma RunsSame(c: Client, d: Client)
    requires HasOrder(c) && HasOrder(d) && ViewOf(c).status == ViewOf(d).status
    ensures RunningKept(c, d)
  {
  }

  ghost predicate OnlyGoal(c: Client, d: Client) {
    && d.req == c.req && d.agv.actionStates == c.agv.actionStates && d.calls == c.calls
    && d.pos.nextStop == c.pos.nextStop && d.pos.numActions == c.pos.numActions
  }

  lemma ResponseMoves(c: Client, accepted: bool)
    ensures var d := GoalResponded(c, accepted); OnlyGoal(c, d) && (c.nav.goalRequested ==> Phase(d.nav) < Phase(c.nav))
  {
  }

  lemma ResultMoves(c: Client, code: ResultCode)
    ensures var d := GoalFinished(c, code);
            OnlyGoal(c, d) && (c.nav.navHandle && !c.nav.goalRequested ==> Phase(d.nav) < Phase(c.nav))
  {
    hide Trim;
  }

  lemma NavigationMoves(cfg: Config, c: Client, e: Event)
    requires Live(c) && Allowed(c, e) && (e.GoalResponse? || e.Feedback? || e.GoalResult?)
    requires e.Feedback? ==> e.remaining <= 0x1_0000_0000_0000_0000
    ensures var d := Step(cfg, c, e);
            OnlyGoal(c, d) && if e.Feedback? then d.nav == c.nav else Phase(d.nav) < Phase(c.nav)
  {
    NotBoth(c);
    if e.GoalResponse? {
      ResponseMoves(c, e.accepted);
    } else if e.GoalResult? {
      ResultMoves(c, e.code);
    }
    hide Inv, Phase, GoalResponded, GoalFinished, Trim, ExecuteOrder, ReceiveOrder, InstantActions, Update, FreshOrder;
  }

  lemma OrderWanes(cfg: Config, c: Client, e: Event)
    requires Live(c) && Allowed(c, e) && KeepsOrder(c, e) && (e.OrderMsg? || e.InvalidOrder? || e.HandlerError?)
    requires Live(Step(cfg, c, e))
    ensures StepWanes(c, e, Step(cfg, c, e))
  {
    hide Inv, CanAcceptOrder, ViewOf;
    LiveHere(c);
    AcceptIsSafe(c);
    var d := Step(cfg, c, e);
    SameStatuses(c, d);
    StaysWanes(c, e, d);
  }

  /** Every step short of a fault, a new order or a restart leaves no more to be done; it leaves less
      when the navigation server answers; and a tick that finds nothing running and no goal in
      progress answers the pending requests. */
  lemma EnduringStepWanes(cfg: Config, c: Client, e: Event)
    requires e.Feedback? ==> e.remaining <= 0x1_0000_0000_0000_0000
    requires Live(c) && Endures(cfg, c, e, Step(cfg, c, e))
    ensures StepWanes(c, e, Step(cfg, c, e))
  {
    hide Inv, ExecuteOrder, InstantActions, Update, StepWanes, ReceiveOrder, GoalResponded, FeedbackReceived,
         GoalFinished;
    StepKeepsInv(cfg, c, e);
    StepKeepsOrder(cfg, c, e);
    var d := Step(cfg, c, e);
    if e.GoalResponse? || e.Feedback? || e.GoalResult? {
      NavigationMoves(cfg, c, e);
      NavigationWanes(c, e, d);
    } else if e.Tick? {
      TickWanes(cfg, c, e.world);
    } else if e.InstantMsg? {
      InstantsStay(cfg, c, e.actions, 0, e.outcome);
      StaysWanes(c, e, d);
    } else if e.HandlerUpdate? {
      HandlerWanes(c, e.id, e.status);
    } else {
      OrderWanes(cfg, c, e);
    }
  }

  // ----- Unending behaviours -----

  ghost predicate Enduring(cfg: Config, states: nat -> Client, events: nat -> Event) {
    forall k: nat {:trigger events(k)} :: Endures(cfg, states(k), events(k), states(k + 1))
  }

  /** From c to d there is no more left, and r is still pending. */
  ghost predicate StillPending(c: Client, d: Client, r: Request) {
    && Live(c) && Live(d) && HasOrder(c) && HasOrder(d) && IsPending(d, r)
    && c.pos.nextStop <= |c.order.value.nodes| && d.pos.nextStop <= |d.order.value.nodes| && Wanes(c, d)
  }

  lemma PendingSelf(c: Client, r: Request)
    requires Live(c) && IsPending(c, r)
    ensures StillPending(c, c, r)
  {
    LiveHere(c);
    WanesSelf(c);
  }

  lemma PendingOn(c: Client, d: Client, ev: Event, e: Client, r: Request)
    requires StillPending(c, d, r) && StepWanes(d, ev, e)
    ensures StillPending(c, e, r) || IsAnswered(e, r)
    ensures Live(c) && Live(e) && HasOrder(c) && HasOrder(e)
    ensures c.pos.nextStop <= |c.order.value.nodes| && e.pos.nextStop <= |e.order.value.nodes|
    ensures ev.GoalResult? ==> Left(e) < Left(c)
    ensures ev.Tick? && !SomeRunning(d) && !d.nav.navHandle ==> IsAnswered(e, r)
  {
    hide Inv, HasOrder, Left, IsAnswered, SomeRunning, RunningKept;
    WanesTwice(c, d, e);
  }

  lemma {:induction false} StaysLive(cfg: Config, states: nat -> Client, events: nat -> Event, k: nat)
    requires Enduring(cfg, states, events) && Live(states(0))
    ensures Live(states(k))
  {
    hide Inv, Step, Allowed, KeepsOrder, StepWanes;
    if k > 0 {
      StaysLive(cfg, states, events, k - 1);
      StepHere(cfg, states, events, k - 1);
      LiveAfter(states(k - 1), events(k - 1), states(k));
    }
  }

  lemma LiveAfter(c: Client, e: Event, d: Client)
    requires StepWanes(c, e, d)
    ensures Live(d)
  {
  }

  lemma StepHere(cfg: Config, states: nat -> Client, events: nat -> Event, k: nat)
    requires Enduring(cfg, states, events) && Live(states(k))
    ensures StepWanes(states(k), events(k), states(k + 1))
  {
    hide Inv, Step, Allowed, KeepsOrder, StepWanes;
    assert Endures(cfg, states(k), events(k), states(k + 1));
    EnduringStepWanes(cfg, states(k), events(k));
  }

  /** From k to j: the request is answered on the way, or still pending with no more left. */
  lemma {:induction false} WalkPending(cfg: Config, states: nat -> Client, events: nat -> Event, r: Request, k: nat,
                                       j: nat)
    returns (m: nat)
    requires Enduring(cfg, states, events) && Live(states(0)) && IsPending(states(k), r) && k <= j
    ensures k <= m <= j && (IsAnswered(states(m), r) || (m == j && StillPending(states(k), states(j), r)))
    decreases j - k
  {
    hide Live, Endures, StepWanes, StillPending, IsPending, IsAnswered, Enduring;
    StaysLive(cfg, states, events, k);
    if k == j {
      m := j;
      PendingSelf(states(k), r);
    } else {
      m := WalkPending(cfg, states, events, r, k, j - 1);
      if !IsAnswered(states(m), r) {
        StaysLive(cfg, states, events, j - 1);
        StepHere(cfg, states, events, j - 1);
        PendingOn(states(k), states(j - 1), events(j - 1), states(j), r);
        m := j;
      }
    }
  }

  /** From c to d there is less left, and r is still pending. */
  ghost predicate LessPending(c: Client, d: Client, r: Request) {
    && Live(c) && Live(d) && HasOrder(c) && HasOrder(d) && IsPending(d, r)
    && c.pos.nextStop <= |c.order.value.nodes| && d.pos.nextStop <= |d.order.value.nodes| && Left(d) < Left(c)
  }

  lemma StoppedLess(c: Client, d: Client, r: Request, i: nat)
    requires StillPending(c, d, r) && RunsAt(c, i) && !RunsAt(d, i)
    ensures LessPending(c, d, r)
  {
    hide Inv, Left, RunsAt, RunningKept;
    RunsOnAt(c, d, i);
  }

  lemma RunsOnAt(c: Client, d: Client, i: nat)
    requires HasOrder(c) && HasOrder(d)
    ensures RunningKept(c, d) && RunsAt(c, i) ==> RunsAt(d, i)
  {
    StatusCount(c);
    StatusCount(d);
    if RunningKept(c, d) && RunsAt(c, i) {
      assert ViewOf(c).status[i] == c.agv.actionStates[i].status;
      assert ViewOf(d).status[i] == d.agv.actionStates[i].status;
    }
  }

  lemma ActionRuns(c: Client) returns (i: nat)
    requires HasOrder(c) && SomeRunning(c)
    ensures RunsAt(c, i)
  {
    i :| 0 <= i < |ViewOf(c).status| && ViewOf(c).status[i].Active();
  }

  /** While an action runs or a goal is in progress, the request is answered or there is less left at
      some later time. */
  lemma LessIsLeft(cfg: Config, states: nat -> Client, events: nat -> Event, r: Request, k: nat) returns (m: nat)
    requires Enduring(cfg, states, events) && KeepsGoing(states, events) && Live(states(0)) && IsPending(states(k), r)
    requires HasOrder(states(k)) && (SomeRunning(states(k)) || states(k).nav.navHandle)
    ensures k <= m && (IsAnswered(states(m), r) || LessPending(states(k), states(m), r))
  {
    hide Live, Endures, StepWanes, StillPending, IsPending, IsAnswered, Enduring, HasOrder, SomeRunning, LessPending,
         Left;
    var j: nat;
    if states(k).nav.navHandle {
      j :| k <= j && events(j).GoalResult?;
      m := WalkPending(cfg, states, events, r, k, j);
      if !IsAnswered(states(m), r) {
        StaysLive(cfg, states, events, j);
        StepHere(cfg, states, events, j);
        PendingOn(states(k), states(j), events(j), states(j + 1), r);
        m := j + 1;
        PendingLess(states(k), states(m), r);
      }
    } else {
      var i := ActionRuns(states(k));
      j :| k <= j && !RunsAt(states(j), i);
      m := WalkPending(cfg, states, events, r, k, j);
      if !IsAnswered(states(m), r) {
        StoppedLess(states(k), states(m), r, i);
      }
    }
  }

  lemma PendingLess(c: Client, d: Client, r: Request)
    requires Live(c) && Live(d) && HasOrder(c) && HasOrder(d)
    requires c.pos.nextStop <= |c.order.value.nodes| && d.pos.nextStop <= |d.order.value.nodes| && Left(d) < Left(c)
    ensures StillPending(c, d, r) ==> LessPending(c, d, r)
  {
    hide Live, HasOrder, Left;
  }

  /** What remains of a behaviour at k, as a measure. */
  ghost function LeftOf(c: Client): nat {
    if Live(c) && HasOrder(c) && c.pos.nextStop <= |c.order.value.nodes| then Left(c) else 0
  }

  lemma PendingOf(c: Client, d: Client, r: Request)
    requires Live(c)
    ensures HasOrder(c)
    ensures StillPending(c, d, r) ==> IsPending(d, r) && LeftOf(d) <= LeftOf(c)
    ensures LessPending(c, d, r) ==> IsPending(d, r) && LeftOf(d) < LeftOf(c)
  {
    hide Inv, Left;
    LiveHere(c);
  }

  /** Requests are answered: in every unending behaviour without a fault, a new order or a restart, in
      which the timer keeps ticking, goals in progress end and actions end, every pending cancel and
      every pending pause is answered, however many goals are sent meanwhile. */
  lemma {:induction false} EveryRequestIsAnswered(cfg: Config, states: nat -> Client, events: nat -> Event, r: Request,
                                                  k: nat)
    returns (m: nat)
    requires Enduring(cfg, states, events) && KeepsGoing(states, events) && Live(states(0)) && IsPending(states(k), r)
    ensures k <= m && IsAnswered(states(m), r)
    decreases LeftOf(states(k))
  {
    hide Live, Endures, StepWanes, StillPending, IsPending, IsAnswered, Enduring, HasOrder, SomeRunning, LessPending,
         LeftOf, Left;
    StaysLive(cfg, states, events, k);
    assert TicksFrom(events, k);
    var t: nat :| k <= t && events(t).Tick?;
    m := WalkPending(cfg, states, events, r, k, t);
    if !IsAnswered(states(m), r) {
      StaysLive(cfg, states, events, t);
      PendingOf(states(k), states(t), r);
      PendingOf(states(t), states(t), r);
      if SomeRunning(states(t)) || states(t).nav.navHandle {
        m := LessIsLeft(cfg, states, events, r, t);
        if !IsAnswered(states(m), r) {
          PendingOf(states(t), states(m), r);
          m := EveryRequestIsAnswered(cfg, states, events, r, m);
        }
      } else {
        PendingSelf(states(t), r);
        StepHere(cfg, states, events, t);
        PendingOn(states(t), states(t), events(t), states(t + 1), r);
        m := t + 1;
      }
    }
  }
}
