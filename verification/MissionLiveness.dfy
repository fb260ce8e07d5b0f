/** Termination of orders: with an environment that answers and lets actions end, every order is
    carried out to its end. */
module MissionLiveness {
  import opened Options
  import opened MissionTypes
  import opened MissionSpec
  import opened MissionViews
  import opened MissionInvariant
  import opened MissionScheduling
  import opened MissionRuns
  import opened MissionGoals
  import opened MissionRequests

  // ----- How much is left to do -----

  function Effort(s: Status): nat {
    if s.WAITING? then 2 else if s.Active() then 1 else 0
  }

  function Efforts(s: seq<Status>): nat {
    if s == [] then 0 else Efforts(s[..|s| - 1]) + Effort(s[|s| - 1])
  }

  lemma {:induction false} EffortsUpdate(s: seq<Status>, k: nat, t: Status)
    requires k < |s|
    ensures Efforts(s[k := t]) == Efforts(s) - Effort(s[k]) + Effort(t)
  {
    var front, r := s[..|s| - 1], s[k := t];
    if k < |s| - 1 {
      EffortsUpdate(front, k, t);
      assert r[..|r| - 1] == front[k := t];
    } else {
      assert r[..|r| - 1] == front;
    }
  }

  function Phase(nav: Navigation): nat {
    if nav.goalRequested then 2 else if nav.navHandle then 1 else 0
  }

  /** Route still to be driven to, state of the goal, actions to be started and to be ended. */
  ghost function Work(c: Client): nat
    requires HasOrder(c) && c.pos.nextStop <= |c.order.value.nodes|
  {
    if c.mode.Idle? then 0
    else 1 + 3 * (|c.order.value.nodes| - c.pos.nextStop) + Phase(c.nav) + Efforts(ViewOf(c).status)
  }

  // ----- Undisturbed operation -----

  /** An order being carried out, or carried out to its end, with nothing in the way. */
  ghost predicate Calm(c: Client) {
    && Inv(c) && !c.fault && c.order.Some?
    && c.req.cancelAction.None? && c.req.pauseAction.None? && !FatalFirst(c) && !c.mode.Paused?
    && (c.mode.Running? ==> c.pos.reached || c.nav.Outstanding())
    && (c.mode.Idle? ==> c.pos.nextStop == |c.order.value.nodes|)
    && NoneCut(ViewOf(c))
  }

  /** The environment is there when it is asked: the position is known, the lifecycle check passes,
      the navigation server is available, goals are accepted and succeed; no instant actions arrive, no
      fatal error, and no order that would replace the current one. */
  ghost predicate Benign(cfg: Config, c: Client, e: Event) {
    && Allowed(c, e)
    && match e
       case Tick(world) => (cfg.navigable ==> world.position) && (cfg.statusCheck ==> world.active) && world.server
       case OrderMsg(order) => KeepsOrder(c, e)
       case InstantMsg(actions, outcome) => false
       case GoalResponse(accepted) => accepted
       case GoalResult(code) => code.Succeeded?
       case HandlerError(level) => level.WARNING?
       case _ => true
  }

  lemma CalmHere(c: Client)
    requires Calm(c)
    ensures HasOrder(c) && RequestsApart(c) && c.pos.currentNode < |c.order.value.nodes|
            && c.pos.nextStop <= |c.order.value.nodes|
    ensures InRouteOrder(ViewOf(c), c.pos.currentNode)
  {
  }

  // ----- The scheduler makes progress -----

  /** What a pass does to the order's actions: nothing, or it starts some of them. */
  ghost predicate Proceeds(c: Client, d: Client)
    requires HasOrder(c) && HasOrder(d)
  {
    && NoneCut(ViewOf(d))
    && Efforts(ViewOf(d).status) <= Efforts(ViewOf(c).status)
    && (Efforts(ViewOf(d).status) == Efforts(ViewOf(c).status) ==> d == c)
  }

  lemma StartProceeds(cfg: Config, c: Client, i: nat, stop: bool, busy: bool, outcome: map<ActionId, StartedStatus>)
    requires Scanning(c, i, stop, busy) && NoneCut(ViewOf(c))
    requires var nodes, n := c.order.value.nodes, c.pos.currentNode;
             && i < |nodes[n].actions| && Offset(nodes, n) + i < |ViewOf(c).status|
             && ViewOf(c).status[Offset(nodes, n) + i].WAITING?
    ensures var d := ExecuteAction(cfg, c, c.order.value.nodes[c.pos.currentNode].actions[i], outcome);
            HasOrder(d) && Proceeds(c, d) && Efforts(ViewOf(d).status) < Efforts(ViewOf(c).status)
  {
    hide ExecuteAction, Sound, Passed, RequestsApart, CancelsOnce, Efforts;
    ScanningHere(c, i, stop, busy);
    ScanFinds(c, i, stop, busy);
    var v, n := ViewOf(c), c.pos.currentNode;
    var k := Offset(v.nodes, n) + i;
    FlatAt(v.nodes, n, i);
    WaitingIsNext(v, n, i, stop, busy);
    var s := ExecuteNext(cfg, c, k, outcome);
    EffortsUpdate(v.status, k, s);
    StartedUncut(v, k, s);
  }

  lemma StartedUncut(v: View, k: nat, s: Status)
    requires NoneCut(v) && v.Begun() == k < |v.status| && k < |v.Actions()|
    ensures NoneCut(v.(status := v.status[k := s], started := v.started + [v.Actions()[k].id]))
  {
  }

  /** No action of the current node from the i-th on is running. */
  ghost predicate QuietFrom(c: Client, i: nat)
    requires HasOrder(c) && c.pos.currentNode < |c.order.value.nodes|
  {
    var nodes, n := c.order.value.nodes, c.pos.currentNode;
    forall p {:trigger ViewOf(c).status[p]} | Offset(nodes, n) + i <= p < c.pos.numActions ::
             !ViewOf(c).status[p].Active()
  }

  lemma PassRests(cfg: Config, c: Client, i: nat, stop: bool, busy: bool, outcome: map<ActionId, StartedStatus>)
    requires Scanning(c, i, stop, busy) && NoneCut(ViewOf(c))
    requires i < |c.order.value.nodes[c.pos.currentNode].actions|
    requires StatusOf(c.agv.actionStates, c.order.value.nodes[c.pos.currentNode].actions[i].id) != Some(Status.WAITING)
    ensures var p := PassAction(cfg, c, c.order.value.nodes[c.pos.currentNode].actions[i], stop, busy, outcome);
            p.client == c && (QuietFrom(c, i) && !busy ==> p == Pass(c, true, stop, false))
  {
    hide ExecuteAction, Sound, CancelsOnce, RequestsApart, NoneCut;
    ScanFinds(c, i, stop, busy);
  }

  /** One step of the pass; where nothing waits and nothing runs it just goes on. */
  lemma PassProceeds(cfg: Config, c: Client, i: nat, stop: bool, busy: bool, outcome: map<ActionId, StartedStatus>)
    requires Scanning(c, i, stop, busy) && NoneCut(ViewOf(c))
    requires i < |c.order.value.nodes[c.pos.currentNode].actions|
    ensures var p := PassAction(cfg, c, c.order.value.nodes[c.pos.currentNode].actions[i], stop, busy, outcome);
            && HasOrder(p.client) && Proceeds(c, p.client)
            && (p.client == c && QuietFrom(c, i) && !busy ==> p == Pass(c, true, stop, false))
  {
    hide ExecuteAction, Scanning, NoneCut, ViewOf, HasOrder, Offset, QuietFrom, Efforts;
    ScanningHere(c, i, stop, busy);
    var a := c.order.value.nodes[c.pos.currentNode].actions[i];
    ProceedsSelf(c);
    if StatusOf(c.agv.actionStates, a.id) == Some(Status.WAITING) {
      ScanFinds(c, i, stop, busy);
      StartProceeds(cfg, c, i, stop, busy, outcome);
    } else {
      PassRests(cfg, c, i, stop, busy, outcome);
    }
  }

  lemma ProceedsLater(c: Client, d: Client, e: Client)
    requires HasOrder(c) && HasOrder(d) && HasOrder(e) && Proceeds(c, d) && Proceeds(d, e)
    ensures Proceeds(c, e) && (e == c ==> d == c)
  {
  }

  lemma {:induction false} ScanProceeds(cfg: Config, c: Client, i: nat, stop: bool, busy: bool,
                                        outcome: map<ActionId, StartedStatus>)
    requires Scanning(c, i, stop, busy) && NoneCut(ViewOf(c))
    ensures c.pos.currentNode < |c.order.value.nodes|
    ensures var r := Scan(cfg, c, c.order.value.nodes[c.pos.currentNode].actions, i, stop, busy, outcome);
            && HasOrder(r.0) && Proceeds(c, r.0)
            && (r.0 == c && QuietFrom(c, i) && !busy && !stop ==> r.1)
    decreases |c.order.value.nodes[c.pos.currentNode].actions| - i
  {
    hide PassAction, Sound, Passed, RequestsApart, CancelsOnce, ViewOf, Scanning, Proceeds, NoneCut;
    ScanningHere(c, i, stop, busy);
    var actions := c.order.value.nodes[c.pos.currentNode].actions;
    if i == |actions| {
      ProceedsSelf(c);
    } else {
      PassKeeps(cfg, c, i, stop, busy, outcome);
      PassProceeds(cfg, c, i, stop, busy, outcome);
      var p := PassAction(cfg, c, actions[i], stop, busy, outcome);
      if p.more {
        ProceedsUncut(c, p.client);
        ScanProceeds(cfg, p.client, i + 1, p.stop, p.busy, outcome);
        ProceedsLater(c, p.client, Scan(cfg, p.client, actions, i + 1, p.stop, p.busy, outcome).0);
      }
    }
  }

  lemma ProceedsSelf(c: Client)
    requires HasOrder(c) && NoneCut(ViewOf(c))
    ensures Proceeds(c, c)
  {
  }

  lemma ProceedsUncut(c: Client, d: Client)
    requires HasOrder(c) && HasOrder(d) && Proceeds(c, d)
    ensures NoneCut(ViewOf(d))
  {
  }

  /** The tick leaves things as they are only while something runs; otherwise there is less to do. */
  ghost predicate TickProgress(c: Client, d: Client)
    requires Calm(c)
  {
    && Calm(d) && d.order == c.order
    && (d == c || Work(d) < Work(c))
    && (d == c ==> SomeRunning(c) || c.nav.Outstanding() || c.mode.Idle?)
  }

  lemma CalmAtRest(c: Client)
    requires Calm(c) && c.mode.Running? && c.pos.reached
    ensures AtRest(c) && Scanning(c, 0, false, false) && !c.nav.Outstanding() && NoneCut(ViewOf(c))
    ensures c.pos.nextStop == c.pos.currentNode < |c.order.value.nodes|
  {
  }

  /** Leaving a node: the order ends, or a goal to a later node is requested. */
  lemma AdvanceProgress(cfg: Config, c: Client, d: Client, world: Surroundings)
    requires Calm(c) && c.mode.Running? && c.pos.reached
    requires HasOrder(d) && Proceeds(c, d) && ScanFrame(c, d)
    requires Benign(cfg, c, Tick(world))
    requires Inv(Advance(cfg, d, d.order.value.nodes, world))
    ensures var e := Advance(cfg, d, d.order.value.nodes, world);
            Calm(e) && e.order == c.order && Work(e) < Work(c)
  {
    hide Inv, Efforts;
    CalmAtRest(c);
    var nodes, n := c.order.value.nodes, c.pos.currentNode;
    var e := Advance(cfg, d, nodes, world);
    if n + 1 < |nodes| {
      OneMoreCall(d.calls, SendGoal(Span(n + 1, GoalEnd(nodes, n + 1) + 1)));
    }
    assert ViewOf(e) == ViewOf(d);
  }

  lemma ScheduleProgress(cfg: Config, c: Client, world: Surroundings)
    requires Calm(c) && c.mode.Running? && Benign(cfg, c, Tick(world))
    ensures TickProgress(c, Schedule(cfg, c, world))
  {
    hide Advance, Scan, Inv, Sound, Efforts, Scanning, AtRest;
    if c.pos.reached {
      CalmAtRest(c);
      AtRestHere(c);
      var actions := c.order.value.nodes[c.pos.currentNode].actions;
      ScanFromRest(cfg, c, world.outcome);
      ScanProceeds(cfg, c, 0, false, false, world.outcome);
      var (d, go) := Scan(cfg, c, actions, 0, false, false, world.outcome);
      if go {
        AdvanceKeeps(cfg, d, world);
        AdvanceProgress(cfg, c, d, world);
      } else {
        AtRestInv(d);
        WaitingProgress(c, d);
      }
    }
  }

  lemma AtRestInv(d: Client)
    requires AtRest(d)
    ensures Inv(d)
  {
  }

  lemma WaitingProgress(c: Client, d: Client)
    requires Calm(c) && c.mode.Running? && c.pos.reached && HasOrder(d) && Inv(d) && Proceeds(c, d) && ScanFrame(c, d)
    requires d == c ==> !QuietFrom(c, 0)
    ensures TickProgress(c, d)
  {
    hide Inv, Efforts;
    CalmHere(c);
  }

  // ----- Every step makes progress or leaves what runs running -----

  ghost predicate StepProgress(c: Client, e: Event, d: Client)
    requires Calm(c)
  {
    && Calm(d) && d.order == c.order
    && Work(d) <= Work(c)
    && (e.GoalResponse? || e.GoalResult? ==> Work(d) < Work(c))
    && (e.Tick? && c.mode.Running? && !SomeRunning(c) && !c.nav.Outstanding() ==> Work(d) < Work(c))
    && (c.mode.Running? && Work(d) == Work(c) ==>
          |ViewOf(c).status| == |ViewOf(d).status| &&
          forall i | 0 <= i < |ViewOf(c).status| && ViewOf(c).status[i].Active() :: ViewOf(d).status[i].Active())
  }

  /** Action i of the order was begun, and stays running, ends, or has ended. */
  lemma OwnProgress(c: Client, i: nat, status: Status)
    requires Calm(c) && i < |ViewOf(c).status| && i < ViewOf(c).Begun() && MovesOn(true, ViewOf(c).status[i], status)
    requires Inv(Update(c, Flat(c.order.value.nodes)[i].id, status))
    ensures var id := Flat(c.order.value.nodes)[i].id;
            StepProgress(c, HandlerUpdate(id, status), Update(c, id, status))
  {
    hide Inv, Update, Foreign, RequestsApart;
    CalmHere(c);
    UpdateOwn(c, i, status);
    EffortsUpdate(ViewOf(c).status, i, status);
    UpdateFrame(c, Flat(c.order.value.nodes)[i].id, status);
  }

  lemma ForeignProgress(c: Client, id: ActionId, status: Status)
    requires Calm(c) && Foreign(c, id) && Inv(Update(c, id, status))
    ensures StepProgress(c, HandlerUpdate(id, status), Update(c, id, status))
  {
    hide Inv, Update, Foreign, RequestsApart;
    CalmHere(c);
    UpdateForeign(c, id, status);
    UpdateFrame(c, id, status);
  }

  lemma HandlerProgress(c: Client, id: ActionId, status: Status)
    requires Calm(c) && Allowed(c, HandlerUpdate(id, status))
    ensures StepProgress(c, HandlerUpdate(id, status), Update(c, id, status))
  {
    hide Inv, Update, StepProgress, RequestsApart, NoneCut;
    HandlerKeepsInv(c, id, status);
    CalmHere(c);
    if i :| 0 <= i < |Flat(c.order.value.nodes)| && Flat(c.order.value.nodes)[i].id == id {
      assert c.agv.actionStates[i].id == id;
      BegunMoves(c, i, status);
      OwnProgress(c, i, status);
    } else {
      ForeignProgress(c, id, status);
    }
  }

  /** What an answer, feedback or a result leaves alone. */
  ghost predicate GoalOnly(c: Client, e: Event, d: Client) {
    && d.order == c.order && d.mode == c.mode && d.req == c.req && d.calls == c.calls && !d.fault
    && d.agv.actionStates == c.agv.actionStates && d.agv.errors == c.agv.errors
    && d.pos.nextStop == c.pos.nextStop && d.pos.numActions == c.pos.numActions
    && (d.pos.reached || d.nav.Outstanding())
    && if e.Feedback? then d.nav == c.nav else Phase(d.nav) < Phase(c.nav)
  }

  lemma NavigationFrame(cfg: Config, c: Client, e: Event)
    requires Calm(c) && Benign(cfg, c, e) && (e.GoalResponse? || e.Feedback? || e.GoalResult?)
    ensures e.Feedback? ==> e.remaining <= 0x1_0000_0000_0000_0000
    ensures GoalOnly(c, e, Step(cfg, c, e))
  {
    NotBoth(c);
    HasNodes(c);
    hide Calm, Trim, ExecuteOrder, ReceiveOrder, InstantActions, Update;
  }

  lemma GoalProgress(c: Client, e: Event, d: Client)
    requires Calm(c) && Inv(d) && GoalOnly(c, e, d) && !e.Tick? && c.nav.Outstanding()
    ensures StepProgress(c, e, d)
  {
    hide Inv, Efforts, NoneCut, RequestsApart;
    CalmHere(c);
    HasNodes(c);
    SameLayout(c, d);
  }

  lemma NavigationProgress(cfg: Config, c: Client, e: Event)
    requires Calm(c) && Benign(cfg, c, e) && (e.GoalResponse? || e.Feedback? || e.GoalResult?)
    ensures e.Feedback? ==> e.remaining <= 0x1_0000_0000_0000_0000
    ensures StepProgress(c, e, Step(cfg, c, e))
  {
    NavigationFrame(cfg, c, e);
    StepKeepsInv(cfg, c, e);
    hide Inv, Step, StepProgress, GoalOnly;
    GoalProgress(c, e, Step(cfg, c, e));
  }

  /** A malformed order, one that does not replace the current one, or a handler's warning adds a
      warning at most. */
  lemma OnlyWarns(cfg: Config, c: Client, e: Event)
    requires Calm(c) && Benign(cfg, c, e) && (e.OrderMsg? || e.InvalidOrder? || e.HandlerError?)
    ensures var d := Step(cfg, c, e);
            d == c.(agv := c.agv.(errors := d.agv.errors)) && !FatalFirst(d)
  {
    hide Inv, NoneCut, Allowed, InitAGVState;
    AcceptIsSafe(c);
    CalmHere(c);
  }

  lemma OrderProgress(cfg: Config, c: Client, e: Event)
    requires Calm(c) && Benign(cfg, c, e) && (e.OrderMsg? || e.InvalidOrder? || e.HandlerError?)
    ensures StepProgress(c, e, Step(cfg, c, e))
  {
    var d := Step(cfg, c, e);
    StepKeepsInv(cfg, c, e);
    OnlyWarns(cfg, c, e);
    CalmHere(c);
    hide Efforts, Step, Inv, Allowed;
    assert ViewOf(d) == ViewOf(c);
  }

  /** Order termination, one step: what is left to do never grows; it shrinks whenever the navigation
      server answers and whenever a tick finds nothing running; and as long as it does not shrink,
      running actions stay running. */
  lemma EveryStepProgresses(cfg: Config, c: Client, e: Event)
    requires Calm(c) && Benign(cfg, c, e)
    ensures e.Feedback? ==> e.remaining <= 0x1_0000_0000_0000_0000
    ensures StepProgress(c, e, Step(cfg, c, e))
  {
    hide Inv, Schedule, Update, ReceiveOrder, GoalResponded, FeedbackReceived, GoalFinished;
    CalmHere(c);
    if e.Tick? {
      if c.mode.Running? {
        ScheduleProgress(cfg, c, e.world);
      }
    } else if e.HandlerUpdate? {
      HandlerProgress(c, e.id, e.status);
    } else if e.OrderMsg? || e.InvalidOrder? || e.HandlerError? {
      OrderProgress(cfg, c, e);
    } else {
      NavigationProgress(cfg, c, e);
    }
  }

  // ----- Unending behaviours -----

  ghost predicate Follows(cfg: Config, c: Client, e: Event, d: Client) {
    Benign(cfg, c, e) && d == Step(cfg, c, e)
  }

  ghost predicate Behaviour(cfg: Config, states: nat -> Client, events: nat -> Event) {
    forall k: nat {:trigger events(k)} :: Follows(cfg, states(k), events(k), states(k + 1))
  }

  predicate RunsAt(c: Client, i: nat) {
    i < c.pos.numActions && i < |c.agv.actionStates| && c.agv.actionStates[i].status.Active()
  }

  ghost predicate TicksFrom(events: nat -> Event, k: nat) {
    exists m: nat :: k <= m && events(m).Tick?
  }

  /** The timer keeps ticking, every goal in progress has a result, and no action of the order runs for
      ever. */
  ghost predicate KeepsGoing(states: nat -> Client, events: nat -> Event) {
    && (forall k: nat :: TicksFrom(events, k))
    && (forall k: nat :: states(k).nav.navHandle ==> exists m: nat :: k <= m && events(m).GoalResult?)
    && (forall k: nat, i: nat :: RunsAt(states(k), i) ==> exists m: nat :: k <= m && !RunsAt(states(m), i))
  }

  /** Moreover every goal request is answered. */
  ghost predicate Fair(states: nat -> Client, events: nat -> Event) {
    && KeepsGoing(states, events)
    && (forall k: nat :: states(k).nav.goalRequested ==> exists m: nat :: k <= m && events(m).GoalResponse?)
  }

  lemma {:induction false} StaysCalm(cfg: Config, states: nat -> Client, events: nat -> Event, k: nat)
    requires Behaviour(cfg, states, events) && Calm(states(0))
    ensures Calm(states(k)) && states(k).order == states(0).order
    ensures Tiled(states(0)) ==> Tiled(states(k))
  {
    hide Calm, Benign, Step, Tiled;
    if k > 0 {
      StaysCalm(cfg, states, events, k - 1);
      assert Follows(cfg, states(k - 1), events(k - 1), states(k - 1 + 1));
      EveryStepProgresses(cfg, states(k - 1), events(k - 1));
      ProgressKeeps(states(k - 1), events(k - 1), states(k));
      if Tiled(states(k - 1)) {
        TilesOn(cfg, states(k - 1), events(k - 1));
      }
    }
  }

  lemma ProgressKeeps(c: Client, e: Event, d: Client)
    requires Calm(c) && StepProgress(c, e, d)
    ensures Calm(d) && d.order == c.order
  {
  }

  lemma TilesOn(cfg: Config, c: Client, e: Event)
    requires Calm(c) && Benign(cfg, c, e) && Tiled(c)
    ensures e.Feedback? ==> e.remaining <= 0x1_0000_0000_0000_0000
    ensures Tiled(Step(cfg, c, e))
  {
    hide Inv, Step, Tiled;
    EveryStepProgresses(cfg, c, e);
    StepKeepsTiled(cfg, c, e);
  }

  /** What running actions there are stay running as long as there is as much left to do. */
  ghost predicate AsBusy(c: Client, d: Client)
    requires Calm(c) && Calm(d)
  {
    && Work(d) <= Work(c)
    && (c.mode.Running? && Work(d) == Work(c) ==> d.mode.Running? && forall i: nat | RunsAt(c, i) :: RunsAt(d, i))
  }

  lemma ProgressIsBusy(c: Client, e: Event, d: Client)
    requires Calm(c) && StepProgress(c, e, d)
    ensures Calm(d) && AsBusy(c, d)
  {
    hide Inv, RequestsApart, NoneCut, Efforts;
    CalmHere(c);
    CalmHere(d);
    forall i: nat | RunsAt(c, i) && c.mode.Running? && Work(d) == Work(c)
      ensures RunsAt(d, i)
    {
      assert ViewOf(c).status[i] == c.agv.actionStates[i].status;
      assert ViewOf(d).status[i] == d.agv.actionStates[i].status;
    }
  }

  lemma BusyTwice(c: Client, d: Client, e: Client)
    requires Calm(c) && Calm(d) && Calm(e) && AsBusy(c, d) && AsBusy(d, e)
    ensures AsBusy(c, e)
  {
    hide Calm, Work;
  }

  lemma BusySelf(c: Client)
    requires Calm(c)
    ensures AsBusy(c, c)
  {
    hide Calm;
  }

  lemma {:induction false} WorkNeverGrows(cfg: Config, states: nat -> Client, events: nat -> Event, k: nat, m: nat)
    requires Behaviour(cfg, states, events) && Calm(states(0)) && k <= m
    ensures Calm(states(k)) && Calm(states(m)) && AsBusy(states(k), states(m))
    decreases m - k
  {
    hide Calm, Benign, Step, Tiled, AsBusy, StepProgress;
    StaysCalm(cfg, states, events, k);
    StaysCalm(cfg, states, events, m);
    if k < m {
      WorkNeverGrows(cfg, states, events, k, m - 1);
      assert Follows(cfg, states(m - 1), events(m - 1), states(m - 1 + 1));
      EveryStepProgresses(cfg, states(m - 1), events(m - 1));
      ProgressIsBusy(states(m - 1), events(m - 1), states(m));
      BusyTwice(states(k), states(m - 1), states(m));
    } else {
      BusySelf(states(k));
    }
  }

  lemma ShrinkHere(cfg: Config, c: Client, e: Event)
    requires Calm(c) && Benign(cfg, c, e)
    requires e.GoalResponse? || e.GoalResult? || (e.Tick? && c.mode.Running? && !SomeRunning(c) && !c.nav.Outstanding())
    ensures Calm(Step(cfg, c, e)) && Work(Step(cfg, c, e)) < Work(c)
  {
    hide Inv, Step, Work, Benign;
    EveryStepProgresses(cfg, c, e);
  }

  /** The answer, the result or the idle tick at m makes less work of it than there was at k. */
  lemma ShrinksAt(cfg: Config, states: nat -> Client, events: nat -> Event, k: nat, m: nat)
    requires Behaviour(cfg, states, events) && Calm(states(0)) && k <= m && Calm(states(k)) && Calm(states(m))
    requires events(m).GoalResponse? || events(m).GoalResult? ||
             (events(m).Tick? && states(m).mode.Running? && !SomeRunning(states(m)) && !states(m).nav.Outstanding())
    ensures Calm(states(m + 1)) && Work(states(m + 1)) < Work(states(k))
  {
    hide Calm, Benign, Step, Work, SomeRunning;
    WorkNeverGrows(cfg, states, events, k, m);
    assert Follows(cfg, states(m), events(m), states(m + 1));
    ShrinkHere(cfg, states(m), events(m));
  }

  lemma SomeRuns(c: Client) returns (i: nat)
    requires Calm(c) && SomeRunning(c)
    ensures RunsAt(c, i)
  {
    i :| 0 <= i < |ViewOf(c).status| && ViewOf(c).status[i].Active();
  }

  /** Whatever is going on at k, some later state has less left to do. */
  lemma WorkShrinks(cfg: Config, states: nat -> Client, events: nat -> Event, k: nat) returns (m: nat)
    requires Behaviour(cfg, states, events) && Fair(states, events) && Calm(states(0)) && Calm(states(k))
    requires states(k).mode.Running? && (SomeRunning(states(k)) || states(k).nav.Outstanding())
    ensures k <= m && Calm(states(m)) && Work(states(m)) < Work(states(k))
  {
    hide Calm, Work, Behaviour, SomeRunning;
    var j: nat;
    if states(k).nav.goalRequested {
      j :| k <= j && events(j).GoalResponse?;
      WorkNeverGrows(cfg, states, events, k, j);
      ShrinksAt(cfg, states, events, k, j);
      m := j + 1;
    } else if states(k).nav.navHandle {
      j :| k <= j && events(j).GoalResult?;
      WorkNeverGrows(cfg, states, events, k, j);
      ShrinksAt(cfg, states, events, k, j);
      m := j + 1;
    } else {
      var i := SomeRuns(states(k));
      m :| k <= m && !RunsAt(states(m), i);
      WorkNeverGrows(cfg, states, events, k, m);
    }
  }

  lemma RunningOrIdle(c: Client)
    requires Calm(c)
    ensures HasOrder(c) && (c.mode.Running? || c.mode.Idle?)
  {
  }

  lemma {:induction false} BecomesIdle(cfg: Config, states: nat -> Client, events: nat -> Event, k: nat)
    returns (m: nat)
    requires Behaviour(cfg, states, events) && Fair(states, events) && Calm(states(0)) && Calm(states(k))
    ensures Calm(states(m)) && states(m).mode.Idle?
    decreases Work(states(k))
  {
    hide Calm, Work, Behaviour, SomeRunning, AsBusy;
    RunningOrIdle(states(k));
    if states(k).mode.Idle? {
      m := k;
    } else if SomeRunning(states(k)) || states(k).nav.Outstanding() {
      var j := WorkShrinks(cfg, states, events, k);
      m := BecomesIdle(cfg, states, events, j);
    } else {
      assert TicksFrom(events, k);
      var t: nat :| k <= t && events(t).Tick?;
      WorkNeverGrows(cfg, states, events, k, t);
      RunningOrIdle(states(t));
      var j: nat;
      if states(t).mode.Idle? {
        m := t;
        return;
      } else if SomeRunning(states(t)) || states(t).nav.Outstanding() {
        j := WorkShrinks(cfg, states, events, t);
        NoMore(states(k), states(t));
      } else {
        ShrinksAt(cfg, states, events, k, t);
        j := t + 1;
      }
      m := BecomesIdle(cfg, states, events, j);
    }
  }

  lemma NoMore(c: Client, d: Client)
    requires Calm(c) && Calm(d) && AsBusy(c, d)
    ensures Work(d) <= Work(c)
  {
    hide Calm, Work;
  }

  /** An order carried out to its end: every action was executed, in route order, and every HARD or
      SOFT one is over. */
  ghost predicate CarriedOut(c: Client, order: Order) {
    && c.mode.Idle? && c.order == Some(order) && !c.nav.Outstanding()
    && Starts(c.calls) == Ids(Flat(order.nodes))
    && |Flat(order.nodes)| <= |c.agv.actionStates|
    && (forall i | 0 <= i < |Flat(order.nodes)|
        && Flat(order.nodes)[i].Blocks() :: c.agv.actionStates[i].status.Ended())
    && Goals(c.calls) == Span(1, |order.nodes|)
  }

  lemma CalmEnd(c: Client)
    requires Calm(c) && c.mode.Idle? && Tiled(c)
    ensures CarriedOut(c, c.order.value)
  {
    var v, flat := ViewOf(c), Flat(c.order.value.nodes);
    assert Ids(flat)[..|flat|] == Ids(flat);
    forall i | 0 <= i < |flat| && flat[i].Blocks()
      ensures c.agv.actionStates[i].status.Ended()
    {
      assert v.status[i] == c.agv.actionStates[i].status;
    }
  }

  lemma AcceptedIsCalm(cfg: Config, c: Client, order: Order)
    requires Inv(c) && !c.fault && Allowed(c, OrderMsg(order)) && CanAcceptOrder(c).0 && |order.nodes| > 0
    requires c.req.cancelAction.None? && c.req.pauseAction.None?
    ensures var d := Step(cfg, c, OrderMsg(order)); Calm(d) && Tiled(d) && d.order == Some(order)
  {
    hide MissionSound, RequestsApart, Layout;
    AcceptIsSafe(c);
    var d := Step(cfg, c, OrderMsg(order));
    StepKeepsInv(cfg, c, OrderMsg(order));
    var none: seq<Call> := [];
    assert Goals(none) == Span(1, 1);
    FreshWaits(d, order);
  }

  lemma FreshWaits(d: Client, order: Order)
    requires HasOrder(d) && d.order == Some(order) && d.calls == []
    requires Fresh(Flat(order.nodes)) <= d.agv.actionStates
    ensures NoneCut(ViewOf(d))
  {
    forall i | 0 <= i < |ViewOf(d).status|
      ensures ViewOf(d).status[i].WAITING?
    {
      assert d.agv.actionStates[i] == Fresh(Flat(order.nodes))[i];
    }
  }

  /** Order termination: every accepted order is carried out to its end, in every unending behaviour
      in which nothing disturbs it and the environment is fair. */
  lemma EveryOrderIsCarriedOut(cfg: Config, c: Client, order: Order, states: nat -> Client, events: nat -> Event)
    returns (m: nat)
    requires Inv(c) && !c.fault && Allowed(c, OrderMsg(order)) && CanAcceptOrder(c).0 && |order.nodes| > 0
    requires c.req.cancelAction.None? && c.req.pauseAction.None?
    requires states(0) == Step(cfg, c, OrderMsg(order))
    requires Behaviour(cfg, states, events) && Fair(states, events)
    ensures CarriedOut(states(m), order)
  {
    hide Calm, Work, Behaviour, Fair, Inv, Step, Allowed, CarriedOut;
    AcceptedIsCalm(cfg, c, order);
    m := BecomesIdle(cfg, states, events, 0);
    StaysCalm(cfg, states, events, m);
    CalmEnd(states(m));
  }
}
