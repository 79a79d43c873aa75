// Two-phase delete over all runs.
module RosterSafety {
  import opened RosterModel

  predicate Distinct(ss: seq<Session>) {
    forall i, j :: 0 <= i < j < |ss| ==> ss[i].id != ss[j].id
  }

  // ----- rows by id ---------------------------------------------------------------------

  /** Replacing a row, seen at one id. */
  lemma SetAt(ss: seq<Session>, s: Session, x: string)
    requires Has(ss, s.id)
    ensures Has(Set(ss, s), x) <==> Has(ss, x)
    ensures Has(ss, x) ==> At(Set(ss, s), x) == if x == s.id then s else At(ss, x)
  {
    SameIdsSameRow(Set(ss, s), ss, x);
  }

  lemma SameIdsSameRow(a: seq<Session>, b: seq<Session>, id: string)
    requires |a| == |b| && forall i :: 0 <= i < |a| ==> a[i].id == b[i].id
    ensures Row(a, id) == Row(b, id)
  {
    var i, j := Row(a, id), Row(b, id);
    assert i < |a| ==> b[i].id == id;
    assert j < |b| ==> a[j].id == id;
  }

  lemma RowIs(ss: seq<Session>, i: nat)
    requires i < |ss| && Distinct(ss)
    ensures Row(ss, ss[i].id) == i
  {
    var j := Row(ss, ss[i].id);
    assert ss[j].id == ss[i].id;
  }

  lemma RemoveKeepsOthers(ss: seq<Session>, id: string, x: string)
    requires Distinct(ss) && Has(ss, id)
    ensures Distinct(RemoveRow(ss, id))
    ensures Has(RemoveRow(ss, id), x) <==> x != id && Has(ss, x)
    ensures x != id && Has(ss, x) ==> At(RemoveRow(ss, id), x) == At(ss, x)
  {
    var r, i := RemoveRow(ss, id), Row(ss, id);
    assert forall k :: 0 <= k < |r| ==> r[k] == if k < i then ss[k] else ss[k + 1];
    if x != id && Has(ss, x) {
      var k := Row(ss, x);
      var at := if k < i then k else k - 1;
      assert r[at] == ss[k];
      RowIs(r, at);
    }
  }

  /** Appending a row with a new id, seen at one id. */
  lemma AppendAt(ss: seq<Session>, s: Session, x: string)
    requires !Has(ss, s.id)
    ensures Has(ss + [s], x) <==> x == s.id || Has(ss, x)
    ensures Has(ss + [s], x) ==> At(ss + [s], x) == if x == s.id then s else At(ss, x)
  {
    var r := ss + [s];
    var k := Row(r, x);
    if Has(ss, x) {
      assert r[Row(ss, x)] == ss[Row(ss, x)];
    }
    assert r[|ss|] == s;
    if k < |ss| {
      assert r[k] == ss[k];
      assert Row(ss, x) <= k;
      assert r[Row(ss, x)] == ss[Row(ss, x)];
    }
  }

  lemma AppendDistinct(ss: seq<Session>, s: Session)
    requires Distinct(ss) && !Has(ss, s.id)
    ensures Distinct(ss + [s])
  {
    forall i | 0 <= i < |ss| ensures ss[i].id != s.id { assert ss[i].id == s.id ==> Has(ss, s.id); }
  }

  lemma StopEachAt(ss: seq<Session>, x: string)
    ensures Has(StopEach(ss), x) <==> Has(ss, x)
    ensures Has(ss, x) ==> At(StopEach(ss), x) == StopIfRunning(At(ss, x))
  {
    SameIdsSameRow(StopEach(ss), ss, x);
  }

  // ----- the invariant ------------------------------------------------------------------

  /** A doomed session waits for the completion of a stop and for nothing else. */
  predicate Waiting(s: Session) {
    s.deletePending ==> !s.startQueued && (s.stopInFlight || s.posted > 0)
  }

  /** Ids are distinct, the pending set is exactly the doomed rows, and each of those has a stop
      outstanding and no queued start. */
  ghost predicate Inv(r: Roster) {
    && Distinct(r.sessions)
    && Distinct(r.removed)
    && (forall id :: Has(r.sessions, id) ==> !Has(r.removed, id) && Waiting(At(r.sessions, id)))
    && (forall id :: id in r.pending <==> Has(r.sessions, id) && At(r.sessions, id).deletePending)
  }

  /** What the removal of row `id` leaves at any id. */
  lemma FinishDeleteAt(r: Roster, id: string, io: Io, x: string)
    requires Distinct(r.sessions) && Has(r.sessions, id) && !Has(r.removed, id)
    ensures var r' := FinishDelete(r, id, io);
            && r'.pending == r.pending && r'.wave == r.wave && r'.finished == r.finished
            && (Has(r'.sessions, x) <==> x != id && Has(r.sessions, x))
            && (Has(r'.sessions, x) ==> At(r'.sessions, x) == At(r.sessions, x))
            && (Has(r'.removed, x) <==> x == id || Has(r.removed, x))
            && (Has(r'.removed, x) ==> At(r'.removed, x) == if x == id then At(r.sessions, id) else At(r.removed, x))
  {
    RemoveKeepsOthers(r.sessions, id, x);
    AppendAt(r.removed, At(r.sessions, id), x);
  }

  lemma FinishDeleteDistinct(r: Roster, id: string, io: Io)
    requires Distinct(r.sessions) && Distinct(r.removed) && Has(r.sessions, id) && !Has(r.removed, id)
    ensures Distinct(FinishDelete(r, id, io).sessions) && Distinct(FinishDelete(r, id, io).removed)
  {
    RemoveKeepsOthers(r.sessions, id, id);
    AppendDistinct(r.removed, At(r.sessions, id));
  }

  /** The condition of the invariant at one id. */
  ghost predicate InvAt(r: Roster, x: string) {
    && (Has(r.sessions, x) ==> !Has(r.removed, x) && Waiting(At(r.sessions, x)))
    && (x in r.pending <==> Has(r.sessions, x) && At(r.sessions, x).deletePending)
  }

  lemma InvByIds(r: Roster)
    requires Distinct(r.sessions) && Distinct(r.removed) && forall x :: InvAt(r, x)
    ensures Inv(r)
  {
    forall x ensures Has(r.sessions, x) ==> !Has(r.removed, x) && Waiting(At(r.sessions, x)) {
      assert InvAt(r, x);
    }
    forall x ensures x in r.pending <==> Has(r.sessions, x) && At(r.sessions, x).deletePending {
      assert InvAt(r, x);
    }
  }

  lemma FinishDeleteInv(r: Roster, id: string, io: Io)
    requires Inv(r) && Has(r.sessions, id) && id !in r.pending
    ensures Inv(FinishDelete(r, id, io))
  {
    var r' := FinishDelete(r, id, io);
    FinishDeleteDistinct(r, id, io);
    forall x ensures InvAt(r', x) {
      FinishDeleteAt(r, id, io, x);
    }
    InvByIds(r');
  }

  /** The manager's slot, seen at one id: a pending row leaves, everything else stays. */
  lemma OnStopFinishedAt(r: Roster, id: string, io: Io, x: string)
    requires Distinct(r.sessions) && (id in r.pending ==> Has(r.sessions, id) && !Has(r.removed, id))
    ensures var r' := OnStopFinished(r, id, io);
            && r'.pending == r.pending - {id}
            && (Has(r'.sessions, x) <==> Has(r.sessions, x) && !(x == id && id in r.pending))
            && (Has(r'.sessions, x) ==> At(r'.sessions, x) == At(r.sessions, x))
            && (Has(r'.removed, x) <==> Has(r.removed, x) || (x == id && id in r.pending))
            && (Has(r'.removed, x) ==>
                  At(r'.removed, x) == if x == id && id in r.pending then At(r.sessions, id) else At(r.removed, x))
  {
    if id in r.pending {
      FinishDeleteAt(r.(pending := r.pending - {id}), id, io, x);
    }
  }

  lemma OnStopFinishedDistinct(r: Roster, id: string, io: Io)
    requires Distinct(r.sessions) && Distinct(r.removed)
    requires id in r.pending ==> Has(r.sessions, id) && !Has(r.removed, id)
    ensures Distinct(OnStopFinished(r, id, io).sessions) && Distinct(OnStopFinished(r, id, io).removed)
  {
    if id in r.pending {
      FinishDeleteDistinct(r.(pending := r.pending - {id}), id, io);
    }
  }

  /** The roster as the manager's slot sees it: the completion is taken, nothing else has changed. */
  function Taken(r: Roster, id: string): Roster
    requires Has(r.sessions, id) && At(r.sessions, id).posted > 0
  {
    r.(sessions := Set(r.sessions, TakeCompletion(At(r.sessions, id))))
  }

  /** The completion consumed, then the queued start. */
  function Relaunch(s: Session, launchable: bool): Session
    requires s.posted > 0
  {
    if s.startQueued then Start(TakeCompletion(s), launchable) else TakeCompletion(s)
  }

  /** A completion, seen at one id: the doomed row leaves, any other row consumes it and may
      relaunch, and all other sessions stay as they are. */
  lemma DeliverAt(r: Roster, id: string, launchable: bool, io: Io, x: string)
    requires Inv(r) && Has(r.sessions, id) && At(r.sessions, id).posted > 0
    ensures var r' := Deliver(r, id, launchable, io);
            && r'.pending == r.pending - {id}
            && (Has(r'.sessions, x) <==> Has(r.sessions, x) && !(x == id && id in r.pending))
            && (Has(r'.sessions, x) ==>
                  At(r'.sessions, x) == if x == id then Relaunch(At(r.sessions, id), launchable) else At(r.sessions, x))
            && (Has(r'.removed, x) <==> Has(r.removed, x) || (x == id && id in r.pending))
            && (Has(r'.removed, x) ==>
                  At(r'.removed, x) == if x == id then TakeCompletion(At(r.sessions, id)) else At(r.removed, x))
  {
    var s, taken := At(r.sessions, id), Taken(r, id);
    SetAt(r.sessions, TakeCompletion(s), x);
    SetAt(r.sessions, TakeCompletion(s), id);
    SetEffectDistinct(r.sessions, TakeCompletion(s));
    OnStopFinishedAt(taken, id, io, x);
    OnStopFinishedAt(taken, id, io, id);
    var r1 := OnStopFinished(taken, id, io);
    if s.startQueued {
      SetAt(r1.sessions, Start(At(r1.sessions, id), launchable), x);
    }
  }

  lemma SetEffectDistinct(ss: seq<Session>, s: Session)
    requires Has(ss, s.id) && Distinct(ss)
    ensures Distinct(Set(ss, s))
  {
  }

  lemma DeliverDistinct(r: Roster, id: string, launchable: bool, io: Io)
    requires Inv(r) && Has(r.sessions, id) && At(r.sessions, id).posted > 0
    ensures Distinct(Deliver(r, id, launchable, io).sessions) && Distinct(Deliver(r, id, launchable, io).removed)
  {
    var s, taken := At(r.sessions, id), Taken(r, id);
    SetEffectDistinct(r.sessions, TakeCompletion(s));
    SetAt(r.sessions, TakeCompletion(s), id);
    OnStopFinishedDistinct(taken, id, io);
    OnStopFinishedAt(taken, id, io, id);
    var r1 := OnStopFinished(taken, id, io);
    if s.startQueued {
      SetEffectDistinct(r1.sessions, Start(At(r1.sessions, id), launchable));
    }
  }

  lemma DeliverInv(r: Roster, id: string, launchable: bool, io: Io)
    requires Inv(r) && Has(r.sessions, id) && At(r.sessions, id).posted > 0
    ensures Inv(Deliver(r, id, launchable, io))
  {
    var r' := Deliver(r, id, launchable, io);
    DeliverDistinct(r, id, launchable, io);
    forall x ensures InvAt(r', x) {
      DeliverAt(r, id, launchable, io, x);
    }
    InvByIds(r');
  }

  /** A completion of a session off the roster changes that session alone. */
  lemma DeliverRemovedAt(r: Roster, id: string, launchable: bool, io: Io, x: string)
    requires Inv(r) && Has(r.removed, id) && At(r.removed, id).posted > 0
    ensures var r' := DeliverRemoved(r, id, launchable, io);
            && r'.sessions == r.sessions && r'.pending == r.pending
            && (Has(r'.removed, x) <==> Has(r.removed, x))
            && (Has(r'.removed, x) ==>
                  At(r'.removed, x) == if x == id then Relaunch(At(r.removed, id), launchable) else At(r.removed, x))
  {
    var s := At(r.removed, id);
    assert id !in r.pending;
    var r1 := OnStopFinished(r.(removed := Set(r.removed, TakeCompletion(s))), id, io);
    SetAt(r.removed, TakeCompletion(s), x);
    SetAt(r.removed, TakeCompletion(s), id);
    if s.startQueued {
      SetAt(r1.removed, Start(At(r1.removed, id), launchable), x);
    }
  }

  lemma DeliverRemovedInv(r: Roster, id: string, launchable: bool, io: Io)
    requires Inv(r) && Has(r.removed, id) && At(r.removed, id).posted > 0
    ensures Inv(DeliverRemoved(r, id, launchable, io))
  {
    var r' := DeliverRemoved(r, id, launchable, io);
    SetEffectDistinct(r.removed, TakeCompletion(At(r.removed, id)));
    DeliverRemovedAt(r, id, launchable, io, id);
    assert Distinct(r'.removed) by { DeliverRemovedDistinct(r, id, launchable, io); }
    forall x ensures InvAt(r', x) {
      DeliverRemovedAt(r, id, launchable, io, x);
    }
    InvByIds(r');
  }

  lemma DeliverRemovedDistinct(r: Roster, id: string, launchable: bool, io: Io)
    requires Inv(r) && Has(r.removed, id) && At(r.removed, id).posted > 0
    ensures Distinct(DeliverRemoved(r, id, launchable, io).removed)
  {
    var s := At(r.removed, id);
    assert id !in r.pending;
    SetEffectDistinct(r.removed, TakeCompletion(s));
    SetAt(r.removed, TakeCompletion(s), id);
    var r1 := OnStopFinished(r.(removed := Set(r.removed, TakeCompletion(s))), id, io);
    if s.startQueued {
      SetEffectDistinct(r1.removed, Start(At(r1.removed, id), launchable));
    }
  }

  lemma StopAllInv(r: Roster)
    requires Inv(r)
    ensures Inv(StopAll(r))
  {
    var r' := StopAll(r);
    forall x ensures InvAt(r', x) {
      StopEachAt(r.sessions, x);
    }
    InvByIds(r');
  }

  lemma DeleteInv(r: Roster, id: string, io: Io)
    requires Inv(r)
    ensures Inv(Delete(r, id, io))
  {
    if id !in r.pending && Has(r.sessions, id) {
      if At(r.sessions, id).running {
        DoomInv(r, id);
      } else {
        FinishDeleteInv(r, id, io);
      }
    }
  }

  /** Phase one of a delete. */
  lemma DoomInv(r: Roster, id: string)
    requires Inv(r) && Has(r.sessions, id) && At(r.sessions, id).running
    ensures Inv(r.(sessions := Set(r.sessions, Stop(Doom(At(r.sessions, id)))), pending := r.pending + {id}))
  {
    var s := Stop(Doom(At(r.sessions, id)));
    var r' := r.(sessions := Set(r.sessions, s), pending := r.pending + {id});
    SetEffectDistinct(r.sessions, s);
    forall x ensures InvAt(r', x) {
      SetAt(r.sessions, s, x);
    }
    InvByIds(r');
  }

  lemma CreateInv(r: Roster, id: string, config: Config, io: Io)
    requires Inv(r) && !Has(r.sessions, id) && !Has(r.removed, id)
    ensures Inv(Create(r, id, config, io))
  {
    var r' := Create(r, id, config, io);
    AppendDistinct(r.sessions, Fresh(id));
    forall x ensures InvAt(r', x) {
      AppendAt(r.sessions, Fresh(id), x);
    }
    InvByIds(r');
  }

  lemma DestroyInv(r: Roster, id: string)
    requires Inv(r) && Has(r.removed, id)
    ensures Inv(r.(removed := RemoveRow(r.removed, id)))
  {
    var r' := r.(removed := RemoveRow(r.removed, id));
    RemoveKeepsOthers(r.removed, id, id);
    forall x ensures InvAt(r', x) {
      RemoveKeepsOthers(r.removed, id, x);
    }
    InvByIds(r');
  }

  lemma OnRowInv(r: Roster, s: Session)
    requires Inv(r) && Has(r.sessions, s.id) && Waiting(s)
    requires s.deletePending == At(r.sessions, s.id).deletePending
    ensures Inv(OnRow(r, s))
  {
    var r' := OnRow(r, s);
    SetEffectDistinct(r.sessions, s);
    forall x ensures InvAt(r', x) {
      SetAt(r.sessions, s, x);
    }
    InvByIds(r');
  }

  lemma RowStepInv(r: Roster, step: Step)
    requires Inv(r) && RowStep(step) && Enabled(r, step)
    ensures Inv(Next(r, step))
  {
    RowEffectKeeps(At(r.sessions, step.id), step);
    OnRowInv(r, RowEffect(At(r.sessions, step.id), step));
  }

  lemma RowEffectKeeps(s: Session, step: Step)
    requires RowStep(step)
    ensures var s' := RowEffect(s, step);
            s'.id == s.id && s'.deletePending == s.deletePending && (Waiting(s) ==> Waiting(s'))
  {
  }

  lemma NextInv(r: Roster, step: Step)
    requires Inv(r)
    ensures Inv(Next(r, step))
  {
    if !Enabled(r, step) {
    } else if RowStep(step) {
      RowStepInv(r, step);
    } else {
      match step {
        case DoCreate(id, config, io) => CreateInv(r, id, config, io);
        case DoDelete(id, io) => DeleteInv(r, id, io);
        case DoStopAll => StopAllInv(r);
        case DeliverCompletion(id, launchable, io) => DeliverInv(r, id, launchable, io);
        case DeliverToRemoved(id, launchable, io) => DeliverRemovedInv(r, id, launchable, io);
        case Destroy(id) => DestroyInv(r, id);
        case _ =>
      }
    }
  }

  /** Over every run. */
  lemma {:induction false} RunInv(r: Roster, steps: seq<Step>)
    requires Inv(r)
    ensures Inv(Run(r, steps))
    decreases |steps|
  {
    if steps != [] {
      NextInv(r, steps[0]);
      RunInv(Next(r, steps[0]), steps[1..]);
    }
  }

  // ----- what one step does to one row ---------------------------------------------------

  /** The steps that take a row off the roster: deleting a row without a renderer, and the
      completion of a doomed one. */
  predicate Leaves(r: Roster, step: Step, id: string)
    requires Has(r.sessions, id)
  {
    && Enabled(r, step)
    && ((step.DoDelete? && step.id == id && id !in r.pending && !At(r.sessions, id).running)
        || (step.DeliverCompletion? && step.id == id && id in r.pending))
  }

  /** The steps that may launch the renderer of a row: a start, or a completion with a start queued. */
  predicate MayLaunch(r: Roster, step: Step, id: string)
    requires Has(r.sessions, id)
  {
    && Enabled(r, step)
    && !At(r.sessions, id).deletePending
    && ((step.DoStart? && step.id == id) || (step.DeliverCompletion? && step.id == id && At(r.sessions, id).startQueued))
  }

  /** The session of a row that stays, after the step. */
  function After(r: Roster, step: Step, id: string): Session
    requires Has(r.sessions, id) && !Leaves(r, step, id)
  {
    var s := At(r.sessions, id);
    if !Enabled(r, step) then s
    else if RowStep(step) then (if step.id == id then RowEffect(s, step) else s)
    else match step
      case DoDelete(x, _) => if x == id && id !in r.pending then Stop(Doom(s)) else s
      case DoStopAll => StopIfRunning(s)
      case DeliverCompletion(x, launchable, _) => if x == id then Relaunch(s, launchable) else s
      case _ => s
  }

  /** Exactly the steps above remove a row, and a row that stays ends up as stated. */
  lemma RowAfter(r: Roster, step: Step, id: string)
    requires Inv(r) && Has(r.sessions, id)
    ensures Has(Next(r, step).sessions, id) <==> !Leaves(r, step, id)
    ensures !Leaves(r, step, id) ==> At(Next(r, step).sessions, id) == After(r, step, id)
  {
    if !Enabled(r, step) {
    } else if RowStep(step) {
      RowStepAfter(r, step, id);
    } else {
      match step {
        case DoCreate(x, _, _) => AppendAt(r.sessions, Fresh(x), id);
        case DoDelete(x, io) => DeleteAfter(r, x, io, id);
        case DoStopAll => StopEachAt(r.sessions, id);
        case DeliverCompletion(_, _, _) => DeliverAfter(r, step, id);
        case DeliverToRemoved(x, launchable, io) => DeliverRemovedAt(r, x, launchable, io, id);
        case _ =>
      }
    }
  }

  lemma RowStepAfter(r: Roster, step: Step, id: string)
    requires Inv(r) && Has(r.sessions, id) && RowStep(step) && Enabled(r, step)
    ensures Has(Next(r, step).sessions, id)
    ensures At(Next(r, step).sessions, id) == After(r, step, id)
  {
    var changed := RowEffect(At(r.sessions, step.id), step);
    RowEffectKeeps(At(r.sessions, step.id), step);
    SetAt(r.sessions, changed, id);
  }

  lemma DeliverAfter(r: Roster, step: Step, id: string)
    requires Inv(r) && Has(r.sessions, id) && step.DeliverCompletion? && Enabled(r, step)
    ensures Has(Next(r, step).sessions, id) <==> !Leaves(r, step, id)
    ensures !Leaves(r, step, id) ==> At(Next(r, step).sessions, id) == After(r, step, id)
  {
    DeliverAt(r, step.id, step.launchable, step.io, id);
  }

  lemma DeleteAfter(r: Roster, x: string, io: Io, id: string)
    requires Inv(r) && Has(r.sessions, id)
    ensures Has(Delete(r, x, io).sessions, id) <==> !Leaves(r, DoDelete(x, io), id)
    ensures !Leaves(r, DoDelete(x, io), id) ==> At(Delete(r, x, io).sessions, id) == After(r, DoDelete(x, io), id)
  {
    if x !in r.pending && Has(r.sessions, x) {
      if At(r.sessions, x).running {
        LiveDeleteAfter(r, x, io, id);
      } else {
        IdleDeleteAfter(r, x, io, id);
      }
    }
  }

  lemma LiveDeleteAfter(r: Roster, x: string, io: Io, id: string)
    requires Inv(r) && Has(r.sessions, id)
    requires x !in r.pending && Has(r.sessions, x) && At(r.sessions, x).running
    ensures var ss := Delete(r, x, io).sessions;
            Has(ss, id) && At(ss, id) == if id == x then Stop(Doom(At(r.sessions, id))) else At(r.sessions, id)
  {
    SetAt(r.sessions, Stop(Doom(At(r.sessions, x))), id);
  }

  lemma IdleDeleteAfter(r: Roster, x: string, io: Io, id: string)
    requires Inv(r) && Has(r.sessions, id)
    requires x !in r.pending && Has(r.sessions, x) && !At(r.sessions, x).running
    ensures Has(Delete(r, x, io).sessions, id) <==> id != x
    ensures id != x ==> At(Delete(r, x, io).sessions, id) == At(r.sessions, id)
  {
    assert Delete(r, x, io) == FinishDelete(r, x, io);
    FinishDeleteAt(r, x, io, id);
  }

  /** A mark for deletion stays, and only the steps above launch a renderer. */
  lemma RowFate(r: Roster, step: Step, id: string)
    requires Inv(r) && Has(r.sessions, id) && !Leaves(r, step, id)
    ensures At(r.sessions, id).deletePending ==> After(r, step, id).deletePending
    ensures After(r, step, id).running && !At(r.sessions, id).running ==> MayLaunch(r, step, id)
  {
  }

  /** A doomed session never launches a renderer again: step by step it stays doomed without a
      launch, until the completion that takes its row away. */
  lemma DoomedNeverLaunches(r: Roster, step: Step, id: string)
    requires Inv(r) && Has(r.sessions, id) && At(r.sessions, id).deletePending
    ensures if Has(Next(r, step).sessions, id) then
              var s' := At(Next(r, step).sessions, id);
              s'.deletePending && (s'.running ==> At(r.sessions, id).running)
            else step.DeliverCompletion? && step.id == id
  {
    RowAfter(r, step, id);
    if !Leaves(r, step, id) { RowFate(r, step, id); }
  }

  // ----- is the renderer dead when the row goes? -----------------------------------------

  /** Along the run, up to the step that removes the row, that step finds no live renderer. */
  predicate LeavesDead(r: Roster, id: string, steps: seq<Step>)
    decreases |steps|
  {
    if steps == [] || !Has(r.sessions, id) then true
    else if Leaves(r, steps[0], id) then !At(r.sessions, id).running
    else LeavesDead(Next(r, steps[0]), id, steps[1..])
  }

  /** The stop of this session is never given up on. */
  predicate NeverAbandoned(steps: seq<Step>, id: string) {
    forall i :: 0 <= i < |steps| && steps[i].AbandonStop? ==> steps[i].id != id
  }

  /** Doomed, and no completion is queued while the renderer lives. */
  predicate Quiet(s: Session) {
    s.deletePending && (s.running ==> s.posted == 0)
  }

  lemma QuietStays(r: Roster, step: Step, id: string)
    requires Inv(r) && Has(r.sessions, id) && Quiet(At(r.sessions, id))
    requires step.AbandonStop? ==> step.id != id
    requires !Leaves(r, step, id)
    ensures Quiet(After(r, step, id))
  {
    RowFate(r, step, id);
  }

  lemma {:induction false} QuietLeavesDead(r: Roster, id: string, steps: seq<Step>)
    requires Inv(r) && Has(r.sessions, id) && Quiet(At(r.sessions, id)) && NeverAbandoned(steps, id)
    ensures LeavesDead(r, id, steps)
    decreases |steps|
  {
    if steps != [] && !Leaves(r, steps[0], id) {
      QuietStays(r, steps[0], id);
      RowAfter(r, steps[0], id);
      NextInv(r, steps[0]);
      QuietLeavesDead(Next(r, steps[0]), id, steps[1..]);
    }
  }

  /** Two-phase delete of a live renderer takes the row away only after the renderer died, in
      every continuation that does not give up on the stop, exactly when no completion of an
      earlier stop is still queued at the call. */
  lemma TwoPhaseDeleteSafeIff(r: Roster, id: string, io: Io)
    requires Inv(r) && Has(r.sessions, id) && At(r.sessions, id).running && id !in r.pending
    ensures At(r.sessions, id).posted == 0 <==>
            forall steps :: NeverAbandoned(steps, id) ==> LeavesDead(Next(r, DoDelete(id, io)), id, steps)
  {
    var r1 := Next(r, DoDelete(id, io));
    NextInv(r, DoDelete(id, io));
    RowAfter(r, DoDelete(id, io), id);
    if At(r.sessions, id).posted == 0 {
      forall steps | NeverAbandoned(steps, id) ensures LeavesDead(r1, id, steps) {
        QuietLeavesDead(r1, id, steps);
      }
    } else {
      var steps := [DeliverCompletion(id, true, io)];
      assert id in r1.pending && At(r1.sessions, id).running;
      assert Leaves(r1, steps[0], id);
      assert NeverAbandoned(steps, id) && !LeavesDead(r1, id, steps);
    }
  }

  /** Giving up on a stop hands the row to the next completion with the renderer alive. */
  lemma AbandonedDeleteUnsafe(r: Roster, id: string, io: Io)
    requires Inv(r) && Has(r.sessions, id) && At(r.sessions, id).running && id !in r.pending
    ensures !LeavesDead(Next(r, DoDelete(id, io)), id, [AbandonStop(id), DeliverCompletion(id, true, io)])
  {
    var r1 := Next(r, DoDelete(id, io));
    NextInv(r, DoDelete(id, io));
    RowAfter(r, DoDelete(id, io), id);
    AbandonedRowLeaves(r1, id, io);
  }

  lemma AbandonedRowLeaves(r: Roster, id: string, io: Io)
    requires Inv(r) && Has(r.sessions, id) && id in r.pending
    requires At(r.sessions, id).running && At(r.sessions, id).stopInFlight
    ensures !LeavesDead(r, id, [AbandonStop(id), DeliverCompletion(id, true, io)])
  {
    var steps := [AbandonStop(id), DeliverCompletion(id, true, io)];
    var r2 := Next(r, steps[0]);
    RowStepAfter(r, steps[0], id);
    assert Leaves(r2, steps[1], id) && At(r2.sessions, id).running;
    assert !LeavesDead(r2, id, steps[1..]);
  }

  // ----- sessions that already left -------------------------------------------------------

  /** While the session waits to be destroyed, its renderer stays down. */
  predicate StaysDown(r: Roster, id: string, steps: seq<Step>)
    decreases |steps|
  {
    !Has(r.removed, id)
    || (!At(r.removed, id).running && (steps == [] || StaysDown(Next(r, steps[0]), id, steps[1..])))
  }

  /** The step hands a queued completion to this removed session. */
  predicate Wakes(r: Roster, step: Step, id: string)
    requires Has(r.removed, id)
  {
    step.DeliverToRemoved? && step.id == id && At(r.removed, id).posted > 0
  }

  /** A removed session changes only by its own queued completions, and leaves only when destroyed. */
  lemma RemovedFate(r: Roster, step: Step, id: string)
    requires Inv(r) && Has(r.removed, id)
    ensures Has(Next(r, step).removed, id) <==> !(step.Destroy? && step.id == id && Enabled(r, step))
    ensures Has(Next(r, step).removed, id) ==>
              At(Next(r, step).removed, id) ==
              if Wakes(r, step, id) then Relaunch(At(r.removed, id), step.launchable) else At(r.removed, id)
  {
    if Enabled(r, step) && !RowStep(step) {
      match step {
        case DoDelete(x, io) => DeleteRemoved(r, x, io, id);
        case DeliverCompletion(x, launchable, io) => DeliverAt(r, x, launchable, io, id);
        case DeliverToRemoved(x, launchable, io) => DeliverRemovedAt(r, x, launchable, io, id);
        case Destroy(x) => RemoveKeepsOthers(r.removed, x, id);
        case _ =>
      }
    }
  }

  lemma DeleteRemoved(r: Roster, x: string, io: Io, id: string)
    requires Inv(r) && Has(r.removed, id)
    ensures Has(Delete(r, x, io).removed, id) && At(Delete(r, x, io).removed, id) == At(r.removed, id)
  {
    if x !in r.pending && Has(r.sessions, x) && !At(r.sessions, x).running {
      FinishDeleteAt(r, x, io, id);
    }
  }

  /** No launch is owed to a session in this state. */
  predicate Settled(s: Session) {
    !s.running && (!s.startQueued || s.posted == 0 || s.stopInFlight)
  }

  lemma {:induction false} SettledStaysDown(r: Roster, id: string, steps: seq<Step>)
    requires Inv(r) && Has(r.removed, id) && Settled(At(r.removed, id))
    ensures StaysDown(r, id, steps)
    decreases |steps|
  {
    if steps != [] {
      NextInv(r, steps[0]);
      if Has(Next(r, steps[0]).removed, id) {
        RemovedFate(r, steps[0], id);
        SettledStaysDown(Next(r, steps[0]), id, steps[1..]);
      }
    }
  }

  /** Deleting a row without a live renderer removes it at once and does not mark the session: it
      stays down afterwards in every continuation exactly when it holds no queued start with a
      queued completion behind no running stop. */
  lemma ImmediateDeleteStaysDownIff(r: Roster, id: string, io: Io)
    requires Inv(r) && Has(r.sessions, id) && !At(r.sessions, id).running && id !in r.pending
    ensures Settled(At(r.sessions, id)) <==>
            forall steps :: StaysDown(Next(r, DoDelete(id, io)), id, steps)
  {
    var r1, s := Next(r, DoDelete(id, io)), At(r.sessions, id);
    NextInv(r, DoDelete(id, io));
    IdleDeleteMoves(r, id, io);
    if Settled(s) {
      forall steps ensures StaysDown(r1, id, steps) {
        SettledStaysDown(r1, id, steps);
      }
    } else {
      OwedLaunchHappens(r1, id, io);
      LaunchBreaks(r1, id, DeliverToRemoved(id, true, io));
    }
  }

  /** The row of an idle session moves as it is. */
  lemma IdleDeleteMoves(r: Roster, id: string, io: Io)
    requires Inv(r) && Has(r.sessions, id) && !At(r.sessions, id).running && id !in r.pending
    ensures var r1 := Next(r, DoDelete(id, io));
            !Has(r1.sessions, id) && Has(r1.removed, id) && At(r1.removed, id) == At(r.sessions, id)
  {
    FinishDeleteAt(r, id, io, id);
  }

  /** An owed launch happens when the queued completion is delivered. */
  lemma OwedLaunchHappens(r: Roster, id: string, io: Io)
    requires Inv(r) && Has(r.removed, id)
    requires var s := At(r.removed, id);
             !s.running && s.startQueued && s.posted > 0 && !s.stopInFlight && !s.deletePending
    ensures var r' := DeliverRemoved(r, id, true, io); Has(r'.removed, id) && At(r'.removed, id).running
  {
    DeliverRemovedAt(r, id, true, io, id);
  }

  lemma LaunchBreaks(r: Roster, id: string, step: Step)
    requires Has(r.removed, id) && Has(Next(r, step).removed, id) && At(Next(r, step).removed, id).running
    ensures !StaysDown(r, id, [step])
  {
    var steps := [step];
    assert !StaysDown(Next(r, steps[0]), id, steps[1..]);
  }

  // ----- a start during a stop ----------------------------------------------------------------

  /** One step of a row that stays. */
  lemma RowBecomes(r: Roster, step: Step, id: string)
    requires Inv(r) && Has(r.sessions, id) && !Leaves(r, step, id)
    ensures var r' := Next(r, step); Inv(r') && Has(r'.sessions, id) && At(r'.sessions, id) == After(r, step, id)
  {
    NextInv(r, step);
    RowAfter(r, step, id);
  }

  lemma RunThree(r: Roster, x: Step, y: Step, z: Step)
    ensures Run(r, [x, y, z]) == Next(Next(Next(r, x), y), z)
  {
    assert [x, y, z][1..] == [y, z] && [y, z][1..] == [z] && [z][1..] == [];
    assert Run(Next(Next(r, x), y), [z]) == Next(Next(Next(r, x), y), z);
    assert Run(Next(r, x), [y, z]) == Run(Next(Next(r, x), y), [z]);
  }

  /** A stop in flight with a start queued ends in a launch. */
  lemma StopThenLaunch(r: Roster, id: string, io: Io)
    requires Inv(r) && Has(r.sessions, id)
    requires var s := At(r.sessions, id); s.stopInFlight && s.startQueued && !s.deletePending
    ensures var gone := if At(r.sessions, id).running then ProcessExit(id) else PollTick(id);
            var r' := Next(Next(r, gone), DeliverCompletion(id, true, io));
            Has(r'.sessions, id) && At(r'.sessions, id).running
  {
    GoneQueues(r, id);
    var gone := if At(r.sessions, id).running then ProcessExit(id) else PollTick(id);
    CompletionLaunches(Next(r, gone), id, io);
  }

  lemma GoneQueues(r: Roster, id: string)
    requires Inv(r) && Has(r.sessions, id)
    requires var s := At(r.sessions, id); s.stopInFlight && s.startQueued && !s.deletePending
    ensures var r1 := Next(r, if At(r.sessions, id).running then ProcessExit(id) else PollTick(id));
            && Inv(r1) && Has(r1.sessions, id)
            && var s := At(r1.sessions, id);
            s.posted > 0 && s.startQueued && !s.stopInFlight && !s.deletePending
  {
    RowBecomes(r, if At(r.sessions, id).running then ProcessExit(id) else PollTick(id), id);
  }

  lemma CompletionLaunches(r: Roster, id: string, io: Io)
    requires Inv(r) && Has(r.sessions, id)
    requires var s := At(r.sessions, id); s.posted > 0 && s.startQueued && !s.stopInFlight && !s.deletePending
    ensures var r' := Next(r, DeliverCompletion(id, true, io)); Has(r'.sessions, id) && At(r'.sessions, id).running
  {
    RowBecomes(r, DeliverCompletion(id, true, io), id);
  }

  /** A start asked for while a stop is in flight is not lost: once the renderer is gone and the completion
      arrives, the renderer runs again. */
  lemma StartDuringStopHappens(r: Roster, id: string, asked: bool, io: Io)
    requires Inv(r) && Has(r.sessions, id) && At(r.sessions, id).stopInFlight && !At(r.sessions, id).deletePending
    ensures var gone := if At(r.sessions, id).running then ProcessExit(id) else PollTick(id);
            var r' := Run(r, [DoStart(id, asked), gone, DeliverCompletion(id, true, io)]);
            Has(r'.sessions, id) && At(r'.sessions, id).running
  {
    RowBecomes(r, DoStart(id, asked), id);
    StopThenLaunch(Next(r, DoStart(id, asked)), id, io);
    RunThree(r, DoStart(id, asked), if At(r.sessions, id).running then ProcessExit(id) else PollTick(id),
             DeliverCompletion(id, true, io));
  }

  /** A restart of a live renderer stops it and brings it back. */
  lemma RestartHappens(r: Roster, id: string, io: Io)
    requires Inv(r) && Has(r.sessions, id) && At(r.sessions, id).running && !At(r.sessions, id).deletePending
    ensures var r1 := Next(r, DoRestart(id));
            Has(r1.sessions, id) && At(r1.sessions, id).stopInFlight
    ensures var r' := Run(r, [DoRestart(id), ProcessExit(id), DeliverCompletion(id, true, io)]);
            Has(r'.sessions, id) && At(r'.sessions, id).running
  {
    RowBecomes(r, DoRestart(id), id);
    StopThenLaunch(Next(r, DoRestart(id)), id, io);
    RunThree(r, DoRestart(id), ProcessExit(id), DeliverCompletion(id, true, io));
  }

  // ----- one launch per request -----------------------------------------------------------------

  predicate Alive(r: Roster, id: string) { Has(r.sessions, id) && At(r.sessions, id).running }

  function Queued(r: Roster, id: string): nat {
    if Has(r.sessions, id) && At(r.sessions, id).startQueued then 1 else 0
  }

  predicate Asks(step: Step, id: string) { (step.DoStart? || step.DoRestart?) && step.id == id }

  function Requests(steps: seq<Step>, id: string): nat {
    if steps == [] then 0 else (if Asks(steps[0], id) then 1 else 0) + Requests(steps[1..], id)
  }

  /** How often the renderer of a roster row comes up during the run. */
  function Launches(r: Roster, steps: seq<Step>, id: string): nat
    decreases |steps|
  {
    if steps == [] then 0
    else (if !Alive(r, id) && Alive(Next(r, steps[0]), id) then 1 else 0) + Launches(Next(r, steps[0]), steps[1..], id)
  }

  lemma RowLaunches(r: Roster, step: Step, id: string)
    requires Inv(r) && Has(r.sessions, id)
    ensures (if !Alive(r, id) && Alive(Next(r, step), id) then 1 else 0) + Queued(Next(r, step), id)
            <= Queued(r, id) + if Asks(step, id) then 1 else 0
  {
    RowAfter(r, step, id);
  }

  /** A row that was not there is idle. */
  lemma NewRowIdle(r: Roster, step: Step, id: string)
    requires Inv(r) && !Has(r.sessions, id)
    ensures !Alive(Next(r, step), id) && Queued(Next(r, step), id) == 0
  {
    if Enabled(r, step) {
      if step.DoCreate? {
        AppendAt(r.sessions, Fresh(step.id), id);
      } else if RowStep(step) {
        SetAt(r.sessions, RowEffect(At(r.sessions, step.id), step), id);
      } else if step.DoStopAll? {
        StopEachAt(r.sessions, id);
      } else if step.DoDelete? {
        DeleteBrings(r, step, id);
      } else if step.DeliverCompletion? {
        DeliverAt(r, step.id, step.launchable, step.io, id);
      } else if step.DeliverToRemoved? {
        DeliverRemovedAt(r, step.id, step.launchable, step.io, id);
      }
    }
  }

  lemma DeleteBrings(r: Roster, step: Step, id: string)
    requires Inv(r) && !Has(r.sessions, id) && step.DoDelete?
    ensures !Has(Next(r, step).sessions, id)
  {
    if step.id !in r.pending && Has(r.sessions, step.id) {
      if At(r.sessions, step.id).running {
        SetAt(r.sessions, Stop(Doom(At(r.sessions, step.id))), id);
      } else {
        FinishDeleteAt(r, step.id, step.io, id);
      }
    }
  }

  /** Over every run the renderer of a row comes up at most once per start or restart asked for: a queued
      start is used up by the completion that launches it. */
  lemma {:induction false} LaunchesBounded(r: Roster, steps: seq<Step>, id: string)
    requires Inv(r)
    ensures Launches(r, steps, id) + Queued(Run(r, steps), id) <= Queued(r, id) + Requests(steps, id)
    decreases |steps|
  {
    if steps != [] {
      if Has(r.sessions, id) { RowLaunches(r, steps[0], id); } else { NewRowIdle(r, steps[0], id); }
      NextInv(r, steps[0]);
      LaunchesBounded(Next(r, steps[0]), steps[1..], id);
    }
  }
}
