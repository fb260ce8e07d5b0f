/** Pausing, resuming and the other instant actions keep the invariant. */
module MissionPausing {
  import opened Options
  import opened MissionTypes
  import opened MissionSpec
  import opened MissionViews
  import opened MissionInvariant
  import opened MissionCanceling

  // ----- Pausing -----

  /** What telling handlers to pause leaves alone. */
  ghost predicate PauseFrame(c: Client, d: Client) {
    && d.mode == c.mode && d.order == c.order && d.pos == c.pos && d.nav == c.nav && d.agv == c.agv
    && d.req == c.req.(pausedIds := d.req.pausedIds)
    && Starts(d.calls) == Starts(c.calls) && Cancels(d.calls) == Cancels(c.calls)
  }

  lemma PauseOneLeaves(cfg: Config, c: Client, id: ActionId)
    ensures PauseFrame(c, PauseRunning(cfg, c, id))
  {
    OneMoreCall(c.calls, PauseHandler(id));
  }

  /** The pass tells handlers and changes nothing else; its flag says that nothing is running. */
  lemma {:induction false} PauseLeaves(cfg: Config, c: Client, d: Client, i: nat, all: bool)
    requires HasOrder(c) && PauseFrame(c, d) && i <= c.pos.numActions && !d.fault
    ensures var r := PauseActions(cfg, d, i, all);
            && PauseFrame(c, r.0)
            && (!r.0.fault ==>
                  (r.1 <==> all && forall j | i <= j < |ViewOf(c).status| :: !ViewOf(c).status[j].Active()))
    decreases c.pos.numActions - i
  {
    hide PauseRunning, SetStatus;
    if i < c.pos.numActions {
      OwnIndex(c, i);
      var id := Flat(c.order.value.nodes)[i].id;
      assert c.agv.actionStates[i].id == id;
      if ViewOf(c).status[i].Active() {
        PauseOneLeaves(cfg, d, id);
        var e := PauseRunning(cfg, d, id);
        if !e.fault {
          PauseLeaves(cfg, c, e, i + 1, false);
        }
      } else {
        PauseLeaves(cfg, c, d, i + 1, all);
      }
    }
  }

  lemma PauseFrameSound(c: Client, d: Client)
    requires HasOrder(c) && RequestsApart(c) && MissionSound(c) && PauseFrame(c, d)
    ensures HasOrder(d) && RequestsApart(d) && MissionSound(d) && ViewOf(d) == ViewOf(c)
  {
    assert ViewOf(d) == ViewOf(c);
    SameMissionSound(c, d);
  }

  /** A request that is answered: its status is set and it is no longer pending. */
  lemma AnswerPause(c: Client, id: ActionId, s: Status)
    requires Inv(c) && !c.fault && Foreign(c, id)
    ensures var u := Update(c, id, s);
            && Inv(u)
            && Inv(u.(req := u.req.(pauseAction := None)))
            && (c.mode.Running? ==>
                  Inv(u.(mode := Mode.Paused, req := u.req.(pauseAction := None, pausedIds := {}))))
  {
    UpdateForeign(c, id, s);
    var u := Update(c, id, s);
    if c.order.Some? {
      assert SameMission(c, u);
      SameMissionSound(c, u);
      AnswerFrame(u, u.req.(pauseAction := None), u.mode);
      if u.mode.Running? {
        AnswerFrame(u, u.req.(pauseAction := None, pausedIds := {}), Mode.Paused);
      }
    }
  }

  lemma AnswerFrame(u: Client, req: Requests, mode: Mode)
    requires HasOrder(u) && RequestsApart(u) && MissionSound(u)
    requires req == u.req.(pauseAction := None, pausedIds := req.pausedIds)
    requires mode == u.mode || (u.mode.Running? && mode.Paused?)
    ensures var d := u.(req := req, mode := mode);
            HasOrder(d) && RequestsApart(d) && MissionSound(d)
  {
    var d := u.(req := req, mode := mode);
    assert ViewOf(d) == ViewOf(u);
    CancelsKept(u, d);
  }

  lemma PauseKeepsInv(cfg: Config, c: Client, id: ActionId)
    requires Inv(c) && !c.fault && Foreign(c, id)
    ensures Inv(PauseOrderStep(cfg, c, id))
  {
    if !c.mode.Running? {
      hide Inv;
      AnswerPause(c, id, FAILED);
      AnswerPause(c, id, FINISHED);
    } else {
      var e := FirstEvaluation(c, id);
      FirstEvaluationKeeps(c, id);
      PauseLeaves(cfg, e, e, 0, true);
      var r := PauseActions(cfg, e, 0, true);
      if !r.0.fault {
        PauseFrameSound(e, r.0);
        AnswerPause(r.0, id, FINISHED);
      }
    }
  }

  // ----- Resuming -----

  /** No action of the order is ever PAUSED, so there is nothing to hand back to handlers. */
  lemma {:induction false} NothingToResume(cfg: Config, c: Client, i: nat)
    requires HasOrder(c) && InRouteOrder(ViewOf(c), c.pos.currentNode) && !c.fault && i <= c.pos.numActions
    ensures ResumeActions(cfg, c, i) == c
    decreases c.pos.numActions - i
  {
    if i < c.pos.numActions {
      OwnIndex(c, i);
      assert c.agv.actionStates[i].id == Flat(c.order.value.nodes)[i].id;
      assert !ViewOf(c).status[i].PAUSED?;
      NothingToResume(cfg, c, i + 1);
    }
  }

  /** Going back to the current node: its actions are looked at again, the route continues there. */
  lemma RestartHere(c: Client)
    requires Inv(c) && !c.fault && c.order.Some? && !c.nav.Outstanding()
    ensures Inv(c.(mode := Running, pos := c.pos.(nextStop := c.pos.currentNode, reached := true)))
  {
    var d := c.(mode := Running, pos := c.pos.(nextStop := c.pos.currentNode, reached := true));
    assert ViewOf(d) == ViewOf(c);
    CancelsKept(c, d);
  }

  lemma UpdateForeignKeepsInv(c: Client, id: ActionId, s: Status)
    requires Inv(c) && !c.fault && Foreign(c, id)
    ensures Inv(Update(c, id, s))
  {
    AnswerPause(c, id, s);
  }

  lemma ResumeKeepsInv(cfg: Config, c: Client, id: ActionId)
    requires Inv(c) && !c.fault && Foreign(c, id)
    requires c.mode.Paused? ==> !c.nav.Outstanding()
    ensures Inv(ResumeOrder(cfg, c, id))
  {
    UpdateForeignKeepsInv(c, id, FAILED);
    UpdateForeignKeepsInv(c, id, RUNNING);
    if c.mode.Paused? {
      var u := Update(c, id, RUNNING);
      NothingToResume(cfg, u, 0);
      RestartHere(u);
      UpdateForeignKeepsInv(u.(mode := Running, pos := u.pos.(nextStop := u.pos.currentNode, reached := true)), id,
                            FINISHED);
    }
  }
}
