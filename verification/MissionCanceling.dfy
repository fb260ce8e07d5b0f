/** Cancelling an order: what one evaluation of a pending cancel does, and that it keeps the
    invariant. */
module MissionCanceling {
  import opened Options
  import opened MissionTypes
  import opened MissionSpec
  import opened MissionViews
  import opened MissionInvariant

  /** The first n statuses have been swept: waiting ones failed, running ones possibly stopped. */
  ghost predicate Swept(s: seq<Status>, t: seq<Status>, n: nat) {
    && |s| == |t|
    && (forall i {:trigger t[i]} | 0 <= i < n && i < |s| ::
          if s[i].WAITING? then t[i].FAILED? else t[i] == s[i] || (s[i].Active() && t[i].FAILED?))
    && (forall i {:trigger t[i]} | n <= i < |s| :: t[i] == s[i])
  }

  ghost predicate CancelFrame(c: Client, d: Client) {
    && d.mode == c.mode && d.order == c.order && d.pos == c.pos && d.nav == c.nav
    && d.agv == c.agv.(actionStates := d.agv.actionStates)
    && d.req == c.req.(canceledIds := d.req.canceledIds)
    && c.req.canceledIds <= d.req.canceledIds
    && Starts(d.calls) == Starts(c.calls)
  }

  /** A sweep of c that has come to action i. */
  ghost predicate Sweeping(c: Client, d: Client, i: nat) {
    && HasOrder(c) && HasOrder(d) && CancelFrame(c, d)
    && InRouteOrder(ViewOf(c), c.pos.currentNode)
    && Swept(ViewOf(c).status, ViewOf(d).status, i)
    && CancelsOnce(d)
  }

  lemma SweepingHere(c: Client, d: Client, i: nat)
    requires Sweeping(c, d, i)
    ensures HasOrder(c) && HasOrder(d) && c.order.Some? && |Flat(c.order.value.nodes)| == c.pos.numActions
    ensures c.pos.numActions == d.pos.numActions == |ViewOf(c).status| <= |d.agv.actionStates|
    ensures i < c.pos.numActions ==>
              var s, id := ViewOf(c).status[i], Flat(c.order.value.nodes)[i].id;
              && (s.WAITING? || s.Active() || s.Ended())
              && d.agv.actionStates[i].id == id && StatusOf(d.agv.actionStates, id) == Some(s)
  {
    if i < c.pos.numActions {
      OwnIndex(d, i);
    }
  }

  /** The sweep fails action i: it was waiting, or its handler stopped it at once. */
  lemma SweepFails(c: Client, d: Client, i: nat)
    requires Sweeping(c, d, i) && i < c.pos.numActions && !ViewOf(c).status[i].Ended()
    ensures Sweeping(c, Update(d, Flat(c.order.value.nodes)[i].id, FAILED), i + 1)
  {
    UpdateOwn(d, i, FAILED);
    CancelsKept(d, Update(d, Flat(c.order.value.nodes)[i].id, FAILED));
  }

  lemma SweepLeaves(c: Client, d: Client, i: nat)
    requires Sweeping(c, d, i) && i < c.pos.numActions && !ViewOf(c).status[i].WAITING?
    ensures Sweeping(c, d, i + 1)
  {
  }

  lemma ToldMeans(d: Client, i: nat)
    requires HasOrder(d) && i < d.pos.numActions && ToldToCancel(d, Flat(d.order.value.nodes)[i].id)
    ensures Flat(d.order.value.nodes)[i].id in d.req.canceledIds || ViewOf(d).status[i].Ended()
  {
    var id, v := Flat(d.order.value.nodes)[i].id, ViewOf(d);
    var j :| 0 <= j < v.Begun() && j < |v.status| && v.Actions()[j].id == id &&
             (id in d.req.canceledIds || v.status[j].Ended());
    OwnIndex(d, i);
    OwnIndex(d, j);
  }

  /** A running action not yet marked as told has not been told. */
  lemma NotYetTold(d: Client, i: nat)
    requires HasOrder(d) && CancelsOnce(d) && i < d.pos.numActions && ViewOf(d).status[i].Active()
    requires Flat(d.order.value.nodes)[i].id !in d.req.canceledIds
    ensures Flat(d.order.value.nodes)[i].id !in Cancels(d.calls)
  {
    if ToldToCancel(d, Flat(d.order.value.nodes)[i].id) {
      ToldMeans(d, i);
    }
  }

  /** Telling a handler, given that it has not been told. */
  lemma TellOnce(e: Client, i: nat)
    requires HasOrder(e) && CancelsOnce(e) && i < e.pos.numActions && i < ViewOf(e).Begun()
    requires Flat(e.order.value.nodes)[i].id in e.req.canceledIds
    requires Flat(e.order.value.nodes)[i].id !in Cancels(e.calls)
    ensures var f := Called(e, CancelHandler(Flat(e.order.value.nodes)[i].id));
            HasOrder(f) && ViewOf(f) == ViewOf(e) && CancelsOnce(f) && Starts(f.calls) == Starts(e.calls)
  {
    var id := Flat(e.order.value.nodes)[i].id;
    var f := Called(e, CancelHandler(id));
    OneMoreCall(e.calls, CancelHandler(id));
    forall x | x in Cancels(f.calls)
      ensures ToldToCancel(f, x)
    {
      if x in Cancels(e.calls) {
        ToldStays(e, f, x);
      } else {
        ToldNow(f, i, id);
      }
    }
  }

  /** The handler of a running action is told for the first time. */
  lemma TellHandler(c: Client, d: Client, i: nat)
    requires Sweeping(c, d, i) && i < c.pos.numActions && ViewOf(c).status[i].Active()
    requires Flat(c.order.value.nodes)[i].id !in d.req.canceledIds
    ensures var id := Flat(c.order.value.nodes)[i].id;
            var e := d.(req := d.req.(canceledIds := d.req.canceledIds + {id}));
            Sweeping(c, e, i) && Sweeping(c, Called(e, CancelHandler(id)), i)
  {
    var id := Flat(c.order.value.nodes)[i].id;
    var e := d.(req := d.req.(canceledIds := d.req.canceledIds + {id}));
    NotYetTold(d, i);
    CancelsKept(d, e);
    TellOnce(e, i);
  }

  lemma ToldStays(e: Client, f: Client, id: ActionId)
    requires HasOrder(e) && HasOrder(f) && ToldToCancel(e, id)
    requires ViewOf(e) == ViewOf(f) && e.req.canceledIds <= f.req.canceledIds
    ensures ToldToCancel(f, id)
  {
  }

  lemma ToldNow(f: Client, i: nat, id: ActionId)
    requires HasOrder(f) && i < ViewOf(f).Begun() && i < |ViewOf(f).status|
    requires ViewOf(f).Actions()[i].id == id && id in f.req.canceledIds
    ensures ToldToCancel(f, id)
  {
  }

  lemma SweepTells(cfg: Config, c: Client, d: Client, i: nat, interrupted: set<ActionId>)
    requires Sweeping(c, d, i) && i < c.pos.numActions && ViewOf(c).status[i].Active()
    ensures var e := CancelRunning(cfg, d, Flat(c.order.value.nodes)[i].id, interrupted);
            e.fault || Sweeping(c, e, i + 1)
  {
    hide Sweeping, ViewOf, HasOrder;
    SweepingHere(c, d, i);
    var id := Flat(c.order.value.nodes)[i].id;
    if id in d.req.canceledIds {
      SweepLeaves(c, d, i);
    } else {
      TellHandler(c, d, i);
      var e := d.(req := d.req.(canceledIds := d.req.canceledIds + {id}));
      SweepLeaves(c, e, i);
      SweepLeaves(c, Called(e, CancelHandler(id)), i);
      SweepFails(c, Called(e, CancelHandler(id)), i);
    }
  }

  /** The whole sweep: afterwards nothing waits, and the flag tells whether nothing was running. */
  lemma {:induction false} SweepKeeps(cfg: Config, c: Client, d: Client, i: nat, all: bool, interrupted: set<ActionId>)
    requires Sweeping(c, d, i) && i <= c.pos.numActions && !d.fault
    ensures var r := CancelActions(cfg, d, i, all, interrupted);
            r.0.fault ||
            (Sweeping(c, r.0, c.pos.numActions) &&
             (r.1 <==> all && forall j | i <= j < |ViewOf(c).status| :: !ViewOf(c).status[j].Active()))
    decreases c.pos.numActions - i
  {
    hide Sweeping, ViewOf, HasOrder, CancelRunning, SetStatus;
    SweepingHere(c, d, i);
    if i < c.pos.numActions {
      var id, s := Flat(c.order.value.nodes)[i].id, ViewOf(c).status[i];
      if s.WAITING? {
        SweepFails(c, d, i);
        SweepKeeps(cfg, c, Update(d, id, FAILED), i + 1, all, interrupted);
      } else if s.Active() {
        SweepTells(cfg, c, d, i, interrupted);
        var e := CancelRunning(cfg, d, id, interrupted);
        if !e.fault {
          SweepKeeps(cfg, c, e, i + 1, false, interrupted);
        }
      } else {
        SweepLeaves(c, d, i);
        SweepKeeps(cfg, c, d, i + 1, all, interrupted);
      }
    }
  }

  // ----- One evaluation of a pending cancel -----

  lemma FirstEvaluationKeeps(c: Client, id: ActionId)
    requires HasOrder(c) && RequestsApart(c) && MissionSound(c) && Foreign(c, id)
    ensures var d := FirstEvaluation(c, id);
            && HasOrder(d) && RequestsApart(d) && MissionSound(d) && SameMission(c, d)
            && d.req == c.req && d.fault == c.fault
  {
    hide FirstEvaluation, MissionSound, SameMission;
    FirstEvaluationSame(c, id);
    SameMissionSound(c, FirstEvaluation(c, id));
  }

  lemma FirstEvaluationSame(c: Client, id: ActionId)
    requires HasOrder(c) && RequestsApart(c) && Foreign(c, id)
    ensures var d := FirstEvaluation(c, id);
            && HasOrder(d) && RequestsApart(d) && SameMission(c, d)
            && d.req == c.req && d.fault == c.fault
  {
    hide Update, Layout, StatusOf, RequestsApart, Starts, Cancels, Goals, Foreign;
    var u := Update(c, id, RUNNING);
    UpdateForeign(c, id, RUNNING);
    UpdateFrame(c, id, RUNNING);
    OneMoreCall(u.calls, CancelGoal);
    SameView(u, CancelGoal);
    StaysApart(c, FirstEvaluation(c, id));
  }

  lemma StaysApart(c: Client, d: Client)
    requires RequestsApart(c) && d.order == c.order && d.req == c.req && Starts(d.calls) == Starts(c.calls)
    ensures RequestsApart(d)
  {
  }

  lemma SameView(u: Client, call: Call)
    requires HasOrder(u) && !call.Start?
    ensures HasOrder(Called(u, call)) && ViewOf(Called(u, call)) == ViewOf(u)
  {
    OneMoreCall(u.calls, call);
  }

  lemma SweptMovesOn(v: View, n: nat, t: seq<Status>)
    requires InRouteOrder(v, n) && Swept(v.status, t, |v.status|)
    ensures AllMoveOn(v, t) && forall i | 0 <= i < |t| :: !t[i].WAITING?
  {
  }

  /** After a complete sweep the mission is sound, and nothing of it will ever start. */
  lemma SweptIsSound(c: Client, d: Client)
    requires Sweeping(c, d, c.pos.numActions) && RequestsApart(c) && MissionSound(c)
    ensures RequestsApart(d) && MissionSound(d)
    ensures forall i | 0 <= i < |ViewOf(d).status| :: !ViewOf(d).status[i].WAITING?
  {
    var v, t := ViewOf(c), ViewOf(d).status;
    SweptMovesOn(v, c.pos.currentNode, t);
    MovingOnKeepsSound(v, c.pos.currentNode, t);
    assert ViewOf(d) == v.(status := t);
    if c.nav.Outstanding() {
      MovingOnKeepsSettled(v, t, v.Begun());
    }
  }

  /** The cancel is over: everything has ended, so the record of told actions may be dropped. */
  lemma CancelEnds(d: Client, id: ActionId)
    requires HasOrder(d) && RequestsApart(d) && MissionSound(d) && Foreign(d, id) && !d.mode.Idle?
    requires forall i | 0 <= i < |ViewOf(d).status| :: ViewOf(d).status[i].Ended()
    ensures var u := Update(d, id, FINISHED);
            Inv(u.(mode := Idle, req := u.req.(cancelAction := None, canceledIds := {})))
  {
    UpdateForeign(d, id, FINISHED);
    var u := Update(d, id, FINISHED);
    var e := u.(mode := Idle, req := u.req.(cancelAction := None, canceledIds := {}));
    assert ViewOf(e) == ViewOf(d);
    forall x | x in Cancels(e.calls)
      ensures ToldToCancel(e, x)
    {
      assert ToldToCancel(d, x);
      var v := ViewOf(d);
      var i :| 0 <= i < v.Begun() && i < |v.status| && v.Actions()[i].id == x &&
               (x in d.req.canceledIds || v.status[i].Ended());
      assert ViewOf(e).status[i].Ended();
    }
  }

  lemma CancelKeepsInv(cfg: Config, c: Client, id: ActionId, interrupted: set<ActionId>)
    requires Inv(c) && !c.fault && Foreign(c, id)
    ensures Inv(CancelOrderStep(cfg, c, id, interrupted))
  {
    if !c.mode.Idle? {
      var e := FirstEvaluation(c, id);
      FirstEvaluationKeeps(c, id);
      SweepFromRest(e);
      SweepKeeps(cfg, e, e, 0, true, interrupted);
      CancelFinishes(cfg, e, id, interrupted);
    }
  }

  lemma SweepFromRest(e: Client)
    requires HasOrder(e) && MissionSound(e)
    ensures Sweeping(e, e, 0)
  {
  }

  lemma CancelFinishes(cfg: Config, e: Client, id: ActionId, interrupted: set<ActionId>)
    requires HasOrder(e) && RequestsApart(e) && MissionSound(e) && Foreign(e, id) && !e.mode.Idle?
    requires var r := CancelActions(cfg, e, 0, true, interrupted);
             r.0.fault ||
             (Sweeping(e, r.0, e.pos.numActions) &&
              (r.1 <==> forall j | 0 <= j < |ViewOf(e).status| :: !ViewOf(e).status[j].Active()))
    ensures var r := CancelActions(cfg, e, 0, true, interrupted);
            var u := Update(r.0, id, FINISHED);
            && (r.0.fault || !r.1 || r.0.nav.navHandle ==> Inv(r.0))
            && (!r.0.fault && r.1 && !r.0.nav.navHandle ==>
                  Inv(u.(mode := Idle, req := u.req.(cancelAction := None, canceledIds := {}))))
  {
    hide CancelActions;
    var r := CancelActions(cfg, e, 0, true, interrupted);
    var d := r.0;
    if !d.fault {
      SweptIsSound(e, d);
      if r.1 && !d.nav.navHandle {
        AllEnded(e, d);
        CancelEnds(d, id);
      }
    }
  }

  lemma AllEnded(e: Client, d: Client)
    requires Sweeping(e, d, e.pos.numActions)
    requires forall j | 0 <= j < |ViewOf(e).status| :: !ViewOf(e).status[j].Active()
    ensures forall i | 0 <= i < |ViewOf(d).status| :: ViewOf(d).status[i].Ended()
  {
    forall i | 0 <= i < |ViewOf(d).status|
      ensures ViewOf(d).status[i].Ended()
    {
      var s := ViewOf(e).status[i];
      assert !s.Active() && (s.WAITING? || s.Ended());
    }
  }
}
