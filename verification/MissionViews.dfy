/** The order as a flat list of actions, and what the client has done with each of them. */
module MissionViews {
  import opened MissionTypes

  // ----- Positions on the route -----

  /** How many actions the first n nodes have. */
  function Offset(nodes: seq<Node>, n: nat): nat
    requires n <= |nodes|
  {
    if n == 0 then 0 else Offset(nodes, n - 1) + |nodes[n - 1].actions|
  }

  lemma {:induction false} OffsetMonotone(nodes: seq<Node>, a: nat, b: nat)
    requires a <= b <= |nodes|
    ensures Offset(nodes, a) <= Offset(nodes, b)
  {
    if a < b { OffsetMonotone(nodes, a, b - 1); }
  }

  lemma {:induction false} OffsetSkips(nodes: seq<Node>, a: nat, b: nat)
    requires a <= b <= |nodes|
    requires forall m | a <= m < b :: nodes[m].actions == []
    ensures Offset(nodes, a) == Offset(nodes, b)
  {
    if a < b { OffsetSkips(nodes, a, b - 1); }
  }

  lemma {:induction false} OffsetOfPrefix(nodes: seq<Node>, m: nat, n: nat)
    requires n <= m <= |nodes|
    ensures Offset(nodes[..m], n) == Offset(nodes, n)
  {
    if n > 0 { OffsetOfPrefix(nodes, m, n - 1); }
  }

  lemma {:induction false} FlatLength(nodes: seq<Node>)
    ensures |Flat(nodes)| == Offset(nodes, |nodes|)
  {
    if nodes != [] {
      FlatLength(nodes[..|nodes| - 1]);
      OffsetOfPrefix(nodes, |nodes| - 1, |nodes| - 1);
    }
  }

  /** Action j of node n has flat index Offset(nodes, n) + j. */
  lemma {:induction false} FlatAt(nodes: seq<Node>, n: nat, j: nat)
    requires n < |nodes| && j < |nodes[n].actions|
    ensures Offset(nodes, n) + j < |Flat(nodes)|
    ensures Flat(nodes)[Offset(nodes, n) + j] == nodes[n].actions[j]
  {
    var front := nodes[..|nodes| - 1];
    FlatLength(front);
    OffsetOfPrefix(nodes, |nodes| - 1, |nodes| - 1);
    if n < |nodes| - 1 {
      FlatAt(front, n, j);
      OffsetOfPrefix(nodes, |nodes| - 1, n);
    }
  }

  /** Flat indices p and q belong to the same node. */
  ghost predicate SameNode(nodes: seq<Node>, p: nat, q: nat) {
    exists n :: 0 <= n < |nodes| && Offset(nodes, n) <= p < Offset(nodes, n + 1)
      && Offset(nodes, n) <= q < Offset(nodes, n + 1)
  }

  lemma SameNodeAs(nodes: seq<Node>, n: nat, p: nat, q: nat)
    requires n < |nodes| && SameNode(nodes, p, q)
    requires Offset(nodes, n) <= q < Offset(nodes, n + 1)
    ensures Offset(nodes, n) <= p < Offset(nodes, n + 1)
  {
    var m :| 0 <= m < |nodes| && Offset(nodes, m) <= p < Offset(nodes, m + 1)
      && Offset(nodes, m) <= q < Offset(nodes, m + 1);
    if m < n {
      OffsetMonotone(nodes, m + 1, n);
    } else if n < m {
      OffsetMonotone(nodes, n + 1, m);
    }
  }

  // ----- What has happened to the order's actions -----

  /** The order's nodes, the status of each of its actions, and the ids passed to ExecuteAction. */
  datatype View = View(nodes: seq<Node>, status: seq<Status>, started: seq<ActionId>) {
    function Actions(): seq<Action> { Flat(nodes) }
    function Begun(): nat { |started| }
    /** A cancel has failed all the actions that were still waiting. */
    predicate CutShort() { Begun() < |status| && status[Begun()].FAILED? }
  }

  /** Every action not begun still waits. */
  ghost predicate NoneCut(v: View) {
    forall i | v.Begun() <= i < |v.status| :: v.status[i].WAITING?
  }

  function Ids(actions: seq<Action>): (s: seq<ActionId>)
    ensures |s| == |actions|
    ensures forall i {:trigger s[i]} | 0 <= i < |s| :: s[i] == actions[i].id
  {
    seq(|actions|, i requires 0 <= i < |actions| => actions[i].id)
  }

  /** The actions begun are the first ones in route order, no further than the current node; none
      begun is waiting or paused; and those not begun all wait, or have all been failed at once. */
  ghost predicate InRouteOrder(v: View, n: nat) {
    && n < |v.nodes|
    && |v.status| == |v.Actions()|
    && v.Begun() <= |v.status|
    && v.started == Ids(v.Actions())[..v.Begun()]
    && v.Begun() <= Offset(v.nodes, n + 1)
    && (Offset(v.nodes, n) <= v.Begun() || v.CutShort())
    && (forall i | 0 <= i < v.Begun() :: v.status[i].Active() || v.status[i].Ended())
    && ((forall i | v.Begun() <= i < |v.status| :: v.status[i].WAITING?) ||
        (forall i | v.Begun() <= i < |v.status| :: v.status[i].FAILED?))
  }

  /** The HARD and SOFT actions among the first m are over. */
  ghost predicate Settled(v: View, m: nat) {
    && |v.status| == |v.Actions()|
    && forall i {:trigger v.status[i]} | 0 <= i < m && i < |v.status| :: v.Actions()[i].Blocks() ==> v.status[i].Ended()
  }

  /** Of two actions of one node, if either is HARD, the later one is begun only when the earlier
      one is over. */
  ghost predicate HardAlone(v: View) {
    && |v.status| == |v.Actions()|
    && v.Begun() <= |v.status|
    && forall p, q {:trigger SameNode(v.nodes, p, q)} | 0 <= p < q < v.Begun() && SameNode(v.nodes, p, q) ::
         v.Actions()[p].Hard() || v.Actions()[q].Hard() ==> v.status[p].Ended()
  }

  ghost predicate Sound(v: View, n: nat) {
    InRouteOrder(v, n) && Settled(v, Offset(v.nodes, n)) && HardAlone(v)
  }

  /** How a status may change without the client starting the action. */
  predicate MovesOn(begun: bool, s: Status, t: Status) {
    || s == t
    || (begun && s.Active() && (t.Active() || t.Ended()))
    || (begun && s.Ended() && t.Ended())
    || (!begun && s.WAITING? && t.FAILED?)
  }

  ghost predicate AllMoveOn(v: View, t: seq<Status>) {
    && |v.status| == |t|
    && (forall i {:trigger t[i]} | 0 <= i < |t| :: MovesOn(i < v.Begun(), v.status[i], t[i]))
    && ((forall i {:trigger t[i]} | v.Begun() <= i < |t| :: t[i] == v.status[i]) ||
        (forall i {:trigger t[i]} | v.Begun() <= i < |t| :: !t[i].WAITING?))
  }

  lemma MovingOnKeepsSettled(v: View, t: seq<Status>, m: nat)
    requires Settled(v, m) && AllMoveOn(v, t)
    ensures Settled(v.(status := t), m)
  {
  }

  /** Updates by handlers, and a cancel's sweep, keep the bookkeeping sound. */
  lemma MovingOnKeepsSound(v: View, n: nat, t: seq<Status>)
    requires Sound(v, n) && AllMoveOn(v, t)
    ensures Sound(v.(status := t), n)
  {
    var w := v.(status := t);
    MovingOnKeepsSettled(v, t, Offset(v.nodes, n));
    assert InRouteOrder(w, n) by {
      assert forall i | 0 <= i < |t| :: MovesOn(i < v.Begun(), v.status[i], t[i]);
    }
    forall p, q | 0 <= p < q < w.Begun() && SameNode(w.nodes, p, q)
      ensures w.Actions()[p].Hard() || w.Actions()[q].Hard() ==> w.status[p].Ended()
    {
      assert MovesOn(true, v.status[p], t[p]);
    }
  }

  /** Starting the next action of the current node keeps the bookkeeping sound, provided nothing
      HARD of the node is unfinished, and nothing at all if the action itself is HARD. */
  lemma StartingKeepsSound(v: View, n: nat, s: StartedStatus)
    requires Sound(v, n) && Offset(v.nodes, n) <= v.Begun() < Offset(v.nodes, n + 1)
    requires v.Begun() < |v.status| && v.status[v.Begun()].WAITING?
    requires forall p | Offset(v.nodes, n) <= p < v.Begun() ::
               v.Actions()[p].Hard() || v.Actions()[v.Begun()].Hard() ==> v.status[p].Ended()
    ensures var k := v.Begun();
            Sound(v.(status := v.status[k := s], started := v.started + [v.Actions()[k].id]), n)
  {
    var k := v.Begun();
    var w := v.(status := v.status[k := s], started := v.started + [v.Actions()[k].id]);
    assert Ids(v.Actions())[..k + 1] == Ids(v.Actions())[..k] + [v.Actions()[k].id];
    forall p, q | 0 <= p < q < w.Begun() && SameNode(w.nodes, p, q)
      ensures w.Actions()[p].Hard() || w.Actions()[q].Hard() ==> w.status[p].Ended()
    {
      if q == k {
        SameNodeAs(v.nodes, n, p, q);
      }
    }
  }
}
