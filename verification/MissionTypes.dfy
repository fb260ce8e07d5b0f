/** The messages and the state of the VDA5050 mission client. */
module MissionTypes {
  import opened Options

  datatype ActionId = ActionId(text: string)

  /** The action types the client itself knows; every other type is served by a handler, if any. */
  datatype ActionType =
    | CancelOrder | StartTeleop | StopTeleop | FactsheetRequest | StartPause | StopPause
    | PauseOrder | Custom(name: string)

  /** Unset is the empty blocking type, which counts as HARD; any unknown text acts like NONE. */
  datatype Blocking = HARD | SOFT | NONE | Unset | Unknown(text: string)

  datatype Action = Action(id: ActionId, kind: ActionType, blocking: Blocking) {
    predicate Hard() { blocking.HARD? || blocking.Unset? }
    predicate Soft() { blocking.SOFT? }
    /** Not allowed to overlap driving. */
    predicate Blocks() { Hard() || Soft() }
  }

  datatype Node = Node(nodeId: string, sequenceId: int, deviation: real, actions: seq<Action>)

  datatype Order = Order(orderId: string, nodes: seq<Node>)

  datatype Status = WAITING | INITIALIZING | RUNNING | PAUSED | FINISHED | FAILED {
    predicate Active() { RUNNING? || INITIALIZING? }
    predicate Ended() { FINISHED? || FAILED? }
  }

  /** What a handler may leave an action in once it has been told to execute it. */
  type StartedStatus = s: Status | s.Active() || s.Ended() witness RUNNING

  datatype ActionState = ActionState(id: ActionId, status: Status)

  datatype NodeState = NodeState(nodeId: string, sequenceId: int)

  datatype Level = WARNING | FATAL

  datatype Mode = Idle | Running | Paused

  datatype ResultCode = Succeeded | Aborted | Canceled | UnknownCode

  /** Calls to action handlers and to the navigation server.  Start is a call of ExecuteAction. */
  datatype Call =
    | Start(id: ActionId)
    | ExecuteInstant(id: ActionId)
    | CancelHandler(id: ActionId)
    | PauseHandler(id: ActionId)
    | ResumeHandler(id: ActionId)
    | SendGoal(poses: seq<nat>)
    | CancelGoal
    | PublishFactsheet

  datatype Config = Config(navigable: bool, statusCheck: bool, handlers: set<ActionType>)

  /** Where the client is on the route: the node it is at, the last node of the current goal,
      whether it has arrived, and how many actions the order has. */
  datatype Progress = Progress(currentNode: nat, nextStop: nat, reached: bool, numActions: nat)

  /** The part of the published AGV state that the client decides on. */
  datatype AGVState = AGVState(
    actionStates: seq<ActionState>,
    nodeStates: seq<NodeState>,
    lastNodeId: string,
    lastSequenceId: int,
    driving: bool,
    errors: seq<Level>)

  /** The navigation action client: a request not answered yet, and a goal in progress. */
  datatype Navigation = Navigation(goalRequested: bool, navHandle: bool) {
    predicate Outstanding() { goalRequested || navHandle }
  }

  /** Pending cancel and pause requests, and the actions already told about them. */
  datatype Requests = Requests(
    cancelAction: Option<ActionId>,
    pauseAction: Option<ActionId>,
    canceledIds: set<ActionId>,
    pausedIds: set<ActionId>,
    pauseOrder: bool,
    pauseOrderId: ActionId)

  /** The whole client.  `calls` lists the calls made since the current order was accepted;
      `fault` is set where the program would dereference null, index out of range or leave an
      exception uncaught. */
  datatype Client = Client(
    mode: Mode,
    order: Option<Order>,
    pos: Progress,
    agv: AGVState,
    nav: Navigation,
    req: Requests,
    calls: seq<Call>,
    fault: bool)

  const NO_ID: ActionId := ActionId("")

  /** What the environment answers during one tick: whether the robot's position is known, the
      lifecycle check passes and the navigation server is there; the status each executed action
      is left in; and the running actions whose handlers stop at once when told to cancel. */
  datatype Surroundings = Surroundings(
    position: bool, active: bool, server: bool, outcome: map<ActionId, StartedStatus>, interrupted: set<ActionId>)

  datatype Event =
    | Tick(world: Surroundings)
    | OrderMsg(order: Order)
    | InstantMsg(actions: seq<Action>, outcome: map<ActionId, StartedStatus>)
    | GoalResponse(accepted: bool)
    | Feedback(remaining: nat)
    | GoalResult(code: ResultCode)
    | HandlerUpdate(id: ActionId, status: Status)
    | InvalidOrder
    /** A handler reports an error. */
    | HandlerError(level: Level)

  // ----- Action states, looked up by id -----

  function IndexOf(states: seq<ActionState>, id: ActionId): (i: nat)
    ensures i <= |states|
    ensures i < |states| ==> states[i].id == id
    ensures forall j | 0 <= j < i :: states[j].id != id
  {
    if states == [] then 0
    else if states[0].id == id then 0
    else 1 + IndexOf(states[1..], id)
  }

  /** None is the "UNKNOWN" answer for an id that is not listed. */
  function StatusOf(states: seq<ActionState>, id: ActionId): Option<Status> {
    if IndexOf(states, id) < |states| then Some(states[IndexOf(states, id)].status) else None
  }

  function SetStatus(states: seq<ActionState>, id: ActionId, status: Status): (r: seq<ActionState>)
    ensures |r| == |states|
    ensures forall i {:trigger r[i]} | 0 <= i < |r| :: r[i].id == states[i].id
  {
    var i := IndexOf(states, id);
    if i < |states| then states[i := ActionState(states[i].id, status)] else states
  }

  lemma SetStatusKeepsIndex(states: seq<ActionState>, id: ActionId, status: Status, other: ActionId)
    ensures IndexOf(SetStatus(states, id, status), other) == IndexOf(states, other)
  {
    var r := SetStatus(states, id, status);
    var i, j := IndexOf(states, other), IndexOf(r, other);
    assert i < |r| ==> r[i].id == other;
    assert j < |r| ==> states[j].id == other;
  }

  function FindAction(actions: seq<Action>, id: ActionId): (r: Option<Action>)
    ensures r.Some? ==> r.value in actions && r.value.id == id
    ensures r.None? ==> forall a | a in actions :: a.id != id
  {
    if actions == [] then None
    else if actions[0].id == id then Some(actions[0])
    else FindAction(actions[1..], id)
  }

  /** The actions of a route in route order. */
  function Flat(nodes: seq<Node>): seq<Action> {
    if nodes == [] then [] else Flat(nodes[..|nodes| - 1]) + nodes[|nodes| - 1].actions
  }

  /** size_t subtraction on a 64-bit machine. */
  function SizeSub(a: nat, b: nat): nat
    requires b <= 0x1_0000_0000_0000_0000
  {
    if b <= a then a - b else a + 0x1_0000_0000_0000_0000 - b
  }
}
