/** Every callback of the mission client as a function from state to state. */
module MissionSpec {
  import opened Options
  import opened MissionTypes

  function Update(c: Client, id: ActionId, status: Status): Client {
    c.(agv := c.agv.(actionStates := SetStatus(c.agv.actionStates, id, status)))
  }

  function Called(c: Client, call: Call): Client {
    c.(calls := c.calls + [call])
  }

  function Faulted(c: Client): Client {
    c.(fault := true)
  }

  function ErrorAdded(c: Client, level: Level): Client {
    c.(agv := c.agv.(errors := c.agv.errors + [level]))
  }

  predicate FatalFirst(c: Client) {
    |c.agv.errors| > 0 && c.agv.errors[0] == FATAL
  }

  /** Some action of the current order is running or initializing. */
  predicate SomeActive(c: Client)
    requires c.pos.numActions <= |c.agv.actionStates|
  {
    exists i :: 0 <= i < c.pos.numActions && c.agv.actionStates[i].status.Active()
  }

  predicate SomeWaiting(c: Client)
    requires c.pos.numActions <= |c.agv.actionStates|
  {
    exists i :: 0 <= i < c.pos.numActions && c.agv.actionStates[i].status.WAITING?
  }

  // ----- Scheduling the actions of the current node -----

  function ExecuteAction(cfg: Config, c: Client, a: Action, outcome: map<ActionId, StartedStatus>): Client {
    var d := Called(Update(c, a.id, RUNNING), Start(a.id));
    if a.kind.PauseOrder? then
      var p := Update(d, a.id, RUNNING);
      p.(req := p.req.(pauseOrder := true, pauseOrderId := a.id))
    else if a.kind !in cfg.handlers then Update(d, a.id, FAILED)
    else if a.id in outcome then Update(d, a.id, outcome[a.id])
    else d
  }

  /** Where the pass stands after one action: whether it goes on, whether driving is ruled out, and
      whether something is running. */
  datatype Pass = Pass(client: Client, more: bool, stop: bool, busy: bool)

  function PassAction(cfg: Config, c: Client, a: Action, stop: bool, busy: bool,
                      outcome: map<ActionId, StartedStatus>): Pass {
    var status := StatusOf(c.agv.actionStates, a.id);
    if status.Some? && status.value.Active() then Pass(c, !a.Hard(), stop || a.Soft(), true)
    else if status != Some(Status.WAITING) then Pass(c, true, stop, busy)
    else if a.Hard() then Pass(if busy then c else ExecuteAction(cfg, c, a, outcome), false, stop, busy)
    else Pass(ExecuteAction(cfg, c, a, outcome), true, stop || a.Soft(), true)
  }

  /** One pass over the node's actions from index i.  The flag says whether the pass ran through to
      the end without meeting an action that forbids driving. */
  function Scan(cfg: Config, c: Client, actions: seq<Action>, i: nat, stop: bool, busy: bool,
                outcome: map<ActionId, StartedStatus>): (Client, bool)
    requires i <= |actions|
    decreases |actions| - i
  {
    if i == |actions| then (c, !stop)
    else
      var p := PassAction(cfg, c, actions[i], stop, busy, outcome);
      if p.more then Scan(cfg, p.client, actions, i + 1, p.stop, p.busy, outcome) else (p.client, false)
  }

  // ----- Driving -----

  function GoalSent(c: Client, stop: nat, poses: seq<nat>): Client {
    var d := Called(c, SendGoal(poses));
    d.(pos := d.pos.(nextStop := stop), agv := d.agv.(driving := true), nav := d.nav.(goalRequested := true))
  }

  predicate StopsAt(nodes: seq<Node>, i: nat)
    requires i < |nodes|
  {
    |nodes[i].actions| > 0 || i == |nodes| - 1 || nodes[i].deviation == 0.0
  }

  /** The first node from i on at which a goal ends. */
  function GoalEnd(nodes: seq<Node>, i: nat): (e: nat)
    requires i < |nodes|
    ensures i <= e < |nodes| && StopsAt(nodes, e)
    ensures forall m | i <= m < e :: !StopsAt(nodes, m)
    decreases |nodes| - i
  {
    if StopsAt(nodes, i) then i else GoalEnd(nodes, i + 1)
  }

  /** The indices from a up to but not including b. */
  function Span(a: nat, b: nat): (s: seq<nat>)
    ensures |s| == if a <= b then b - a else 0
    ensures forall k {:trigger s[k]} | 0 <= k < |s| :: s[k] == a + k
  {
    if a <= b then seq(b - a, k requires 0 <= k < b - a => a + k) else []
  }

  function NavigateThroughPoses(cfg: Config, c: Client, nodes: seq<Node>, world: Surroundings): Client {
    if cfg.statusCheck && c.pos.currentNode == 0 && !world.active then
      c.(pos := c.pos.(nextStop := c.pos.currentNode, reached := true))
    else if !world.server then c
    else if c.pos.nextStop >= |nodes| then c
    else if c.pos.currentNode + 1 >= |nodes| then
      GoalSent(c, c.pos.nextStop, [])
    else
      var e := GoalEnd(nodes, c.pos.currentNode + 1);
      GoalSent(c, e, Span(c.pos.currentNode + 1, e + 1))
  }

  /** The node's blocking actions are done: go on, or finish the order. */
  function Advance(cfg: Config, c: Client, nodes: seq<Node>, world: Surroundings): Client {
    if c.pos.nextStop + 1 >= |nodes| then c.(mode := Idle, pos := c.pos.(nextStop := c.pos.nextStop + 1))
    else
      var d := c.(pos := c.pos.(nextStop := c.pos.nextStop + 1, reached := false));
      NavigateThroughPoses(cfg, d, nodes, world)
  }

  function Schedule(cfg: Config, c: Client, world: Surroundings): Client {
    if FatalFirst(c) then
      if c.pos.numActions > |c.agv.actionStates| then Faulted(c)
      else if SomeActive(c) then c
      else if c.order.None? then Faulted(c)
      else c.(mode := Idle)
    else if !c.pos.reached then c
    else if c.order.None? || c.pos.currentNode >= |c.order.value.nodes| then Faulted(c)
    else
      var nodes := c.order.value.nodes;
      var (d, go) := Scan(cfg, c, nodes[c.pos.currentNode].actions, 0, false, false, world.outcome);
      if go then Advance(cfg, d, nodes, world) else d
  }

  // ----- Cancelling -----

  /** GetAction: only the actions of the current node are searched. */
  function GetAction(c: Client, id: ActionId): Option<Action> {
    if c.order.None? || c.pos.currentNode >= |c.order.value.nodes| then None
    else FindAction(c.order.value.nodes[c.pos.currentNode].actions, id)
  }

  /** First notice of a running action: its handler, if there is one, is told to cancel. */
  function CancelRunning(cfg: Config, c: Client, id: ActionId, interrupted: set<ActionId>): Client {
    if id in c.req.canceledIds then c
    else
      var d := c.(req := c.req.(canceledIds := c.req.canceledIds + {id}));
      match GetAction(d, id)
      case None => Faulted(d)
      case Some(a) =>
        if a.kind !in cfg.handlers then d
        else if id in interrupted then Update(Called(d, CancelHandler(id)), id, FAILED)
        else Called(d, CancelHandler(id))
  }

  /** The pass over the order's actions from index i; the flag says whether none was running. */
  function CancelActions(cfg: Config, c: Client, i: nat, all: bool, interrupted: set<ActionId>): (Client, bool)
    decreases c.pos.numActions - i
  {
    if c.fault || i >= c.pos.numActions then (c, all)
    else if i >= |c.agv.actionStates| then (Faulted(c), all)
    else
      var id := c.agv.actionStates[i].id;
      match StatusOf(c.agv.actionStates, id)
      case Some(WAITING) => CancelActions(cfg, Update(c, id, FAILED), i + 1, all, interrupted)
      case Some(RUNNING) => CancelActions(cfg, CancelRunning(cfg, c, id, interrupted), i + 1, false, interrupted)
      case Some(INITIALIZING) => CancelActions(cfg, CancelRunning(cfg, c, id, interrupted), i + 1, false, interrupted)
      case _ => CancelActions(cfg, c, i + 1, all, interrupted)
  }

  /** On its first evaluation a cancel or pause request becomes RUNNING and stops the robot. */
  function FirstEvaluation(c: Client, id: ActionId): Client {
    if StatusOf(c.agv.actionStates, id) == Some(Status.WAITING) then
      var d := Update(c, id, RUNNING);
      if d.nav.navHandle then Called(d, CancelGoal) else d
    else c
  }

  function CancelOrderStep(cfg: Config, c: Client, id: ActionId, interrupted: set<ActionId>): Client {
    if c.mode.Idle? then
      // the request is released and then used
      c.(fault := true, agv := c.agv.(errors := c.agv.errors + [Level.WARNING]), req := c.req.(cancelAction := None))
    else
      var (d, all) := CancelActions(cfg, FirstEvaluation(c, id), 0, true, interrupted);
      if !d.fault && all && !d.nav.navHandle then
        var u := Update(d, id, FINISHED);
        u.(mode := Idle, req := u.req.(cancelAction := None, canceledIds := {}))
      else d
  }

  // ----- Pausing and resuming -----

  function PauseRunning(cfg: Config, c: Client, id: ActionId): Client {
    if id in c.req.pausedIds then c
    else
      var d := c.(req := c.req.(pausedIds := c.req.pausedIds + {id}));
      match GetAction(d, id)
      case None => Faulted(d)
      case Some(a) => if a.kind in cfg.handlers then Called(d, PauseHandler(id)) else Faulted(d)
  }

  function PauseActions(cfg: Config, c: Client, i: nat, all: bool): (Client, bool)
    decreases c.pos.numActions - i
  {
    if c.fault || i >= c.pos.numActions then (c, all)
    else if i >= |c.agv.actionStates| then (Faulted(c), all)
    else
      var id := c.agv.actionStates[i].id;
      var status := StatusOf(c.agv.actionStates, id);
      if status.Some? && status.value.Active() then PauseActions(cfg, PauseRunning(cfg, c, id), i + 1, false)
      else PauseActions(cfg, c, i + 1, all)
  }

  function PauseOrderStep(cfg: Config, c: Client, id: ActionId): Client {
    match c.mode
    case Idle => var u := Update(c, id, FAILED); u.(req := u.req.(pauseAction := None))
    case Paused => var u := Update(c, id, FINISHED); u.(req := u.req.(pauseAction := None))
    case Running =>
      var (d, all) := PauseActions(cfg, FirstEvaluation(c, id), 0, true);
      if !d.fault && all && !d.nav.navHandle then
        var u := Update(d, id, FINISHED);
        u.(mode := Mode.Paused, req := u.req.(pauseAction := None, pausedIds := {}))
      else d
  }

  function ResumeActions(cfg: Config, c: Client, i: nat): Client
    decreases c.pos.numActions - i
  {
    if c.fault || i >= c.pos.numActions then c
    else if i >= |c.agv.actionStates| then Faulted(c)
    else
      var id := c.agv.actionStates[i].id;
      if StatusOf(c.agv.actionStates, id) != Some(Status.PAUSED) then ResumeActions(cfg, c, i + 1)
      else
        var d := Update(c, id, RUNNING);
        match GetAction(d, id)
        case None => Faulted(d)
        case Some(a) =>
          if a.kind in cfg.handlers then ResumeActions(cfg, Called(d, ResumeHandler(id)), i + 1) else Faulted(d)
  }

  function ResumeOrder(cfg: Config, c: Client, id: ActionId): Client {
    if !c.mode.Paused? then Update(c, id, FAILED)
    else
      var d := ResumeActions(cfg, Update(c, id, RUNNING), 0);
      if d.fault then d
      else
        var e := d.(mode := Running, pos := d.pos.(nextStop := d.pos.currentNode, reached := true));
        Update(e, id, FINISHED)
  }

  // ----- The timer -----

  /** A pending cancel is evaluated, and then a pending pause. */
  function AfterCancel(cfg: Config, c: Client, world: Surroundings): Client {
    if c.req.cancelAction.Some? then CancelOrderStep(cfg, c, c.req.cancelAction.value, world.interrupted) else c
  }

  function AfterPause(cfg: Config, c: Client): Client {
    if c.req.pauseAction.Some? then PauseOrderStep(cfg, c, c.req.pauseAction.value) else c
  }

  function ExecuteOrder(cfg: Config, c: Client, world: Surroundings): Client {
    var d := AfterCancel(cfg, c, world);
    if d.fault then d
    else
      var e := AfterPause(cfg, d);
      if e.fault || (cfg.navigable && !world.position) || !e.mode.Running? then e
      else Schedule(cfg, e, world)
  }

  // ----- Orders -----

  /** May the client take a new order?  A fatal error with nothing running ends the current one. */
  function CanAcceptOrder(c: Client): (bool, Client) {
    match c.mode
    case Idle => (true, c)
    case Paused => (false, c)
    case Running =>
      if c.pos.numActions > |c.agv.actionStates| then (false, Faulted(c))
      else if SomeActive(c) then (false, c)
      else if c.order.None? then (false, Faulted(c))
      else if FatalFirst(c) then (true, c.(mode := Idle))
      else (c.pos.currentNode + 1 == |c.order.value.nodes| && !SomeWaiting(c), c)
  }

  function Unfinished(states: seq<ActionState>): seq<ActionState> {
    if states == [] then []
    else Unfinished(states[..|states| - 1]) + if states[|states| - 1].status.Ended() then [] else [states[|states| - 1]]
  }

  function Fresh(actions: seq<Action>): (s: seq<ActionState>)
    ensures |s| == |actions|
    ensures forall i {:trigger s[i]} | 0 <= i < |s| :: s[i] == ActionState(actions[i].id, WAITING)
  {
    seq(|actions|, i requires 0 <= i < |actions| => ActionState(actions[i].id, WAITING))
  }

  function StatesOf(nodes: seq<Node>): (s: seq<NodeState>)
    ensures |s| == |nodes|
    ensures forall i {:trigger s[i]} | 0 <= i < |s| :: s[i] == NodeState(nodes[i].nodeId, nodes[i].sequenceId)
  {
    seq(|nodes|, i requires 0 <= i < |nodes| => NodeState(nodes[i].nodeId, nodes[i].sequenceId))
  }

  /** The action states that outlive the order that just ended: its own are dropped, and so are the
      instant actions that are done. */
  function Carried(c: Client): seq<ActionState> {
    var states := c.agv.actionStates;
    Unfinished(if c.pos.numActions <= |states| then states[c.pos.numActions..] else states)
  }

  function InitAGVState(c: Client, order: Order): Client
    requires |order.nodes| > 0
  {
    var states := Fresh(Flat(order.nodes)) + Carried(c);
    c.(mode := Running, order := Some(order), calls := [], pos := Progress(0, 0, true, |Flat(order.nodes)|),
       agv := c.agv.(actionStates := states, nodeStates := StatesOf(order.nodes)[1..],
                     lastNodeId := order.nodes[0].nodeId, driving := false, errors := []))
  }

  function ReceiveOrder(c: Client, order: Order): Client {
    var (accepted, d) := CanAcceptOrder(c);
    if d.fault then d
    else if accepted then (if |order.nodes| > 0 then InitAGVState(d, order) else d)
    else if d.order.None? then Faulted(d)
    else if order.orderId != d.order.value.orderId then d.(agv := d.agv.(errors := d.agv.errors + [Level.WARNING]))
    else d
  }

  // ----- Instant actions -----

  function TeleopAction(c: Client, a: Action): Client {
    var d := Update(c, a.id, RUNNING);
    if a.kind.StartTeleop? then
      var e := d.(mode := Paused, req := d.req.(pauseOrder := true));
      Update(if e.nav.navHandle then Called(e, CancelGoal) else e, a.id, FINISHED)
    else
      var e := d.(mode := Running, req := d.req.(pauseOrder := false));
      var u := if e.req.pauseOrderId != NO_ID then Update(e, e.req.pauseOrderId, FINISHED) else e;
      var f := u.(req := u.req.(pauseOrderId := NO_ID), pos := u.pos.(nextStop := u.pos.currentNode, reached := true));
      Update(f, a.id, FINISHED)
  }

  /** An instant action that has just been appended to the action states. */
  function InstantAction(cfg: Config, c: Client, a: Action, outcome: map<ActionId, StartedStatus>): Client {
    match a.kind
    case CancelOrder =>
      var u := if c.req.cancelAction.Some? then Update(c, a.id, FAILED) else c;
      u.(req := u.req.(cancelAction := Some(a.id)))
    case StartTeleop => TeleopAction(c, a)
    case StopTeleop => TeleopAction(c, a)
    case FactsheetRequest => Update(Called(Update(c, a.id, RUNNING), PublishFactsheet), a.id, FINISHED)
    case StartPause =>
      var p := c.(req := c.req.(pauseAction := Some(a.id)));
      PauseOrderStep(cfg, p, a.id)
    case StopPause => ResumeOrder(cfg, c, a.id)
    case _ =>
      if a.kind !in cfg.handlers then c
      else if a.id in outcome then Update(Called(c, ExecuteInstant(a.id)), a.id, outcome[a.id])
      else Called(c, ExecuteInstant(a.id))
  }

  /** The instant actions of one message from index i.  The lock is released for the first new
      action and never taken again, so a second one finds it open and the release throws. */
  function InstantActions(cfg: Config, c: Client, actions: seq<Action>, i: nat, locked: bool,
                          outcome: map<ActionId, StartedStatus>): Client
    requires i <= |actions|
    decreases |actions| - i
  {
    if c.fault || i == |actions| then c
    else if IndexOf(c.agv.actionStates, actions[i].id) < |c.agv.actionStates| then
      InstantActions(cfg, c, actions, i + 1, locked, outcome)
    else
      var d := c.(agv := c.agv.(actionStates := c.agv.actionStates + [ActionState(actions[i].id, WAITING)]));
      if !locked then Faulted(d)
      else InstantActions(cfg, InstantAction(cfg, d, actions[i], outcome), actions, i + 1, false, outcome)
  }

  // ----- Navigation callbacks -----

  function GoalResponded(c: Client, accepted: bool): Client {
    var d := c.(nav := c.nav.(goalRequested := false));
    if accepted then d.(nav := d.nav.(navHandle := true), agv := d.agv.(driving := true))
    else if d.order.None? || d.pos.currentNode >= |d.order.value.nodes| then Faulted(d)
    else d.(mode := Idle, agv := d.agv.(driving := false, errors := d.agv.errors + [FATAL]),
            nav := d.nav.(navHandle := false))
  }

  function Displaced(c: Client, n: nat): Client {
    c.(pos := c.pos.(currentNode := n))
  }

  /** The last m elements. */
  function Trim(states: seq<NodeState>, m: nat): seq<NodeState> {
    if |states| > m then states[|states| - m..] else states
  }

  /** The robot is at node n of the order. */
  function AtNode(c: Client, nodes: seq<Node>, n: nat): Client
    requires n < |nodes|
  {
    c.(pos := c.pos.(currentNode := n),
       agv := c.agv.(lastNodeId := nodes[n].nodeId, lastSequenceId := nodes[n].sequenceId,
                     nodeStates := Trim(c.agv.nodeStates, |nodes| - n - 1)))
  }

  function FeedbackReceived(c: Client, remaining: nat): Client
    requires remaining <= 0x1_0000_0000_0000_0000
  {
    var n := SizeSub(c.pos.nextStop, remaining);
    if c.order.None? || n >= |c.order.value.nodes| then Faulted(Displaced(c, n))
    else
      var d := AtNode(c, c.order.value.nodes, n);
      d.(agv := d.agv.(driving := true))
  }

  function GoalFinished(c: Client, code: ResultCode): Client {
    var d := c.(nav := c.nav.(navHandle := false), agv := c.agv.(driving := false));
    match code
    case Succeeded =>
      if d.order.None? || d.pos.nextStop >= |d.order.value.nodes| then Faulted(Displaced(d, d.pos.nextStop))
      else
        var e := AtNode(d, d.order.value.nodes, d.pos.nextStop);
        e.(pos := e.pos.(reached := true))
    case Aborted =>
      var e := d.(pos := d.pos.(currentNode := 1));
      if e.order.None? || 1 >= |e.order.value.nodes| then Faulted(e)
      else e.(agv := e.agv.(errors := e.agv.errors + [FATAL]))
    case Canceled =>
      if d.req.pauseOrder || d.req.cancelAction.Some? || d.req.pauseAction.Some? then d
      else if d.order.None? || d.pos.currentNode >= |d.order.value.nodes| then Faulted(d)
      else d.(agv := d.agv.(errors := d.agv.errors + [FATAL]))
    case UnknownCode => d
  }

  // ----- The transition system -----

  function Initial(): Client {
    Client(Idle, None, Progress(0, 0, false, 0), AGVState([], [], "", 0, false, []), Navigation(false, false),
           Requests(None, None, {}, {}, false, NO_ID), [], false)
  }

  /** One callback runs to completion; nothing runs after a fault. */
  function Step(cfg: Config, c: Client, e: Event): Client
    requires e.Feedback? ==> e.remaining <= 0x1_0000_0000_0000_0000
  {
    if c.fault then c
    else
      match e
      case Tick(world) => ExecuteOrder(cfg, c, world)
      case OrderMsg(order) => ReceiveOrder(c, order)
      case InstantMsg(actions, outcome) => InstantActions(cfg, c, actions, 0, true, outcome)
      case GoalResponse(accepted) => GoalResponded(c, accepted)
      case Feedback(remaining) => FeedbackReceived(c, remaining)
      case GoalResult(code) => GoalFinished(c, code)
      case HandlerUpdate(id, status) => Update(c, id, status)
      case InvalidOrder => ErrorAdded(c, WARNING)
      case HandlerError(level) => ErrorAdded(c, level)
  }
}
