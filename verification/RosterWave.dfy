// The stop-all wave: when its completion is announced, and how often.
module RosterWave {
  import opened RosterModel
  import opened RosterSafety

  /** Some roster renderer lives, told by id. */
  ghost predicate Live(r: Roster, id: string) {
    Has(r.sessions, id) && At(r.sessions, id).running
  }

  ghost predicate SomeLive(r: Roster) {
    exists id :: Live(r, id)
  }

  lemma AnyRunningById(r: Roster)
    requires Distinct(r.sessions)
    ensures AnyRunning(r.sessions) <==> SomeLive(r)
  {
    if AnyRunning(r.sessions) {
      var i :| 0 <= i < |r.sessions| && r.sessions[i].running;
      RowIs(r.sessions, i);
      assert Live(r, r.sessions[i].id);
    }
    if id :| Live(r, id) {
      assert r.sessions[Row(r.sessions, id)].running;
    }
  }

  /** A completion on its way: a stop in flight on the roster, or a queued completion. */
  ghost predicate Due(r: Roster, id: string) {
    || (Has(r.sessions, id) && (At(r.sessions, id).stopInFlight || At(r.sessions, id).posted > 0))
    || (Has(r.removed, id) && At(r.removed, id).posted > 0)
  }

  ghost predicate SomeDue(r: Roster) {
    exists id :: Due(r, id)
  }

  ghost predicate NoOtherDue(r: Roster, id: string) {
    forall x :: x != id ==> !Due(r, x)
  }

  /** The wave is up with no completion on its way. */
  ghost predicate Lost(r: Roster) {
    r.wave && !SomeDue(r)
  }

  // ----- the announcement -----------------------------------------------------------------

  /** Some renderer stays alive on the roster when the completion of `id` has been accounted for. */
  ghost predicate OthersLive(r: Roster, id: string) {
    exists x :: Live(r, x) && !(x == id && id in r.pending)
  }

  /** The slot finds exactly those. */
  lemma SlotSees(r: Roster, id: string, io: Io)
    requires Inv(r) && Has(r.sessions, id) && At(r.sessions, id).posted > 0
    ensures AnyRunning(OnStopFinished(Taken(r, id), id, io).sessions) <==> OthersLive(r, id)
  {
    var s, taken := At(r.sessions, id), Taken(r, id);
    var r1 := OnStopFinished(taken, id, io);
    SetEffectDistinct(r.sessions, TakeCompletion(s));
    SetAt(r.sessions, TakeCompletion(s), id);
    OnStopFinishedDistinct(taken, id, io);
    AnyRunningById(r1);
    forall x ensures Live(r1, x) <==> Live(r, x) && !(x == id && id in r.pending) {
      SetAt(r.sessions, TakeCompletion(s), x);
      OnStopFinishedAt(taken, id, io, x);
    }
  }

  lemma SlotAnnounces(r: Roster, id: string, io: Io)
    ensures var r', still := OnStopFinished(r, id, io), AnyRunning(OnStopFinished(r, id, io).sessions);
            r'.wave == (r.wave && still) && r'.finished == r.finished + if r.wave && !still then 1 else 0
  {
  }

  /** The relaunch after the slot does not touch the wave. */
  lemma DeliverAfterSlot(r: Roster, id: string, launchable: bool, io: Io)
    requires Has(r.sessions, id) && At(r.sessions, id).posted > 0
    ensures var r', r1 := Deliver(r, id, launchable, io), OnStopFinished(Taken(r, id), id, io);
            r'.wave == r1.wave && r'.finished == r1.finished
  {
  }

  /** A completion of a roster session ends an active wave with the announcement exactly when it
      finds nobody alive; afterwards only its own queued start can have launched a renderer. */
  lemma DeliverWave(r: Roster, id: string, launchable: bool, io: Io)
    requires Inv(r) && Has(r.sessions, id) && At(r.sessions, id).posted > 0
    ensures var r' := Deliver(r, id, launchable, io);
            && r'.wave == (r.wave && OthersLive(r, id))
            && r'.finished == r.finished + if r.wave && !OthersLive(r, id) then 1 else 0
  {
    SlotSees(r, id, io);
    SlotAnnounces(Taken(r, id), id, io);
    DeliverAfterSlot(r, id, launchable, io);
  }

  /** Who is alive after it. */
  lemma DeliverLive(r: Roster, id: string, launchable: bool, io: Io, x: string)
    requires Inv(r) && Has(r.sessions, id) && At(r.sessions, id).posted > 0
    ensures Live(Deliver(r, id, launchable, io), x) ==>
              !(x == id && id in r.pending)
              && (Live(r, x) || (x == id && launchable && At(r.sessions, id).startQueued))
  {
    DeliverAt(r, id, launchable, io, x);
  }

  lemma DeliverRemovedWave(r: Roster, id: string, launchable: bool, io: Io)
    requires Inv(r) && Has(r.removed, id) && At(r.removed, id).posted > 0
    ensures var r' := DeliverRemoved(r, id, launchable, io);
            && r'.wave == (r.wave && AnyRunning(r.sessions))
            && r'.finished == r.finished + if r.wave && !AnyRunning(r.sessions) then 1 else 0
  {
    assert id !in r.pending;
    var taken := r.(removed := Set(r.removed, TakeCompletion(At(r.removed, id))));
    SlotAnnounces(taken, id, io);
    assert OnStopFinished(taken, id, io).sessions == r.sessions;
  }

  /** stopAllFinished is emitted only by a completion that finds no live roster renderer; the only
      renderer that can run right after it is the one that completion relaunches. */
  lemma {:induction false} AnnouncedWhenAllDown(r: Roster, step: Step)
    requires Inv(r)
    ensures var r' := Next(r, step);
            r'.finished == r.finished
            || (&& r'.finished == r.finished + 1
                && r.wave && !r'.wave
                && (step.DeliverCompletion? || step.DeliverToRemoved?)
                && forall x :: Live(r', x) ==>
                     step.DeliverCompletion? && x == step.id && Has(r.sessions, x) && At(r.sessions, x).startQueued)
  {
    if Enabled(r, step) && step.DeliverCompletion? {
      RosterAnnounces(r, step.id, step.launchable, step.io);
      assert Next(r, step) == Deliver(r, step.id, step.launchable, step.io);
    } else if Enabled(r, step) && step.DeliverToRemoved? {
      RemovedAnnounces(r, step.id, step.launchable, step.io);
      assert Next(r, step) == DeliverRemoved(r, step.id, step.launchable, step.io);
    } else {
      OthersAreSilent(r, step);
    }
  }

  lemma OthersAreSilent(r: Roster, step: Step)
    requires !Enabled(r, step) || (!step.DeliverCompletion? && !step.DeliverToRemoved?)
    ensures Next(r, step).finished == r.finished
  {
  }

  lemma RosterAnnounces(r: Roster, id: string, launchable: bool, io: Io)
    requires Inv(r) && Has(r.sessions, id) && At(r.sessions, id).posted > 0
    ensures var r' := Deliver(r, id, launchable, io);
            r'.finished == r.finished
            || (r'.finished == r.finished + 1 && r.wave && !r'.wave
                && forall x :: Live(r', x) ==> x == id && At(r.sessions, id).startQueued)
  {
    DeliverWave(r, id, launchable, io);
    if r.wave && !OthersLive(r, id) {
      forall x | Live(Deliver(r, id, launchable, io), x) ensures x == id && At(r.sessions, id).startQueued {
        DeliverLive(r, id, launchable, io, x);
        assert Live(r, x) ==> (x == id && id in r.pending);
      }
    }
  }

  lemma RemovedAnnounces(r: Roster, id: string, launchable: bool, io: Io)
    requires Inv(r) && Has(r.removed, id) && At(r.removed, id).posted > 0
    ensures var r' := DeliverRemoved(r, id, launchable, io);
            r'.finished == r.finished
            || (r'.finished == r.finished + 1 && r.wave && !r'.wave && forall x :: !Live(r', x))
  {
    DeliverRemovedWave(r, id, launchable, io);
    DeliverRemovedAt(r, id, launchable, io, id);
    AnyRunningById(r);
  }

  // ----- what one step does to the completions on their way ---------------------------------

  /** A row leaves, and the last completion with it: its stop still waits for the poll to notice that
      the process is gone. */
  ghost predicate DeleteLoses(r: Roster, step: Step) {
    && step.DoDelete? && Has(r.sessions, step.id) && step.id !in r.pending
    && At(r.sessions, step.id).stopInFlight && !At(r.sessions, step.id).running && At(r.sessions, step.id).posted == 0
    && NoOtherDue(r, step.id)
  }

  /** The last completion finds a live renderer on the roster, which nobody is stopping. */
  ghost predicate DeliverLoses(r: Roster, step: Step) {
    && step.DeliverCompletion? && Enabled(r, step)
    && At(r.sessions, step.id).posted == 1 && NoOtherDue(r, step.id)
    && (step.id in r.pending || !At(r.sessions, step.id).stopInFlight)
    && OthersLive(r, step.id)
  }

  ghost predicate RemovedLoses(r: Roster, step: Step) {
    && step.DeliverToRemoved? && Enabled(r, step)
    && At(r.removed, step.id).posted == 1 && NoOtherDue(r, step.id) && AnyRunning(r.sessions)
  }

  /** The steps that lose an active wave. */
  ghost predicate Loses(r: Roster, step: Step) {
    DeleteLoses(r, step) || DeliverLoses(r, step) || RemovedLoses(r, step)
  }

  /** stopAll repeated with nothing alive ends a wave without a word. */
  predicate Drops(r: Roster, step: Step) {
    step.DoStopAll? && !AnyRunning(r.sessions)
  }

  lemma RowStepDue(r: Roster, step: Step, id: string)
    requires Inv(r) && RowStep(step) && Enabled(r, step) && Due(r, id)
    ensures Due(Next(r, step), id)
  {
    if Has(r.sessions, id) {
      RowStepAfter(r, step, id);
    }
  }

  lemma DeleteDue(r: Roster, id: string, io: Io, x: string)
    requires Inv(r)
    ensures Due(r, x) ==>
              || Due(Delete(r, id, io), x)
              || (&& x == id && Has(r.sessions, id) && id !in r.pending && !At(r.sessions, id).running
                  && At(r.sessions, id).stopInFlight && At(r.sessions, id).posted == 0)
    ensures x != id && !Due(r, x) ==> !Due(Delete(r, id, io), x)
  {
    if id !in r.pending && Has(r.sessions, id) {
      if At(r.sessions, id).running {
        SetAt(r.sessions, Stop(Doom(At(r.sessions, id))), x);
      } else {
        FinishDeleteAt(r, id, io, x);
      }
    }
  }

  /** The deleted row itself: nothing of it is on its way afterwards when it only waited for the poll. */
  lemma DeletedNotDue(r: Roster, id: string, io: Io)
    requires Inv(r) && Has(r.sessions, id) && id !in r.pending
    requires !At(r.sessions, id).running && At(r.sessions, id).posted == 0
    ensures !Due(Delete(r, id, io), id)
  {
    FinishDeleteAt(r, id, io, id);
  }

  lemma DeleteStep(r: Roster, id: string, io: Io)
    requires Inv(r) && r.wave && SomeDue(r)
    ensures SomeDue(Delete(r, id, io)) <==> !DeleteLoses(r, DoDelete(id, io))
  {
    var x :| Due(r, x);
    DeleteDue(r, id, io, x);
    if DeleteLoses(r, DoDelete(id, io)) {
      forall y ensures !Due(Delete(r, id, io), y) {
        DeleteDue(r, id, io, y);
        DeletedNotDue(r, id, io);
      }
    } else if !Due(Delete(r, id, io), x) {
      var y :| y != id && Due(r, y);
      DeleteDue(r, id, io, y);
    }
  }

  /** A delivery takes one completion of its own session and leaves all others. */
  lemma DeliverDue(r: Roster, id: string, launchable: bool, io: Io, x: string)
    requires Inv(r) && Has(r.sessions, id) && At(r.sessions, id).posted > 0
    ensures Due(Deliver(r, id, launchable, io), x) <==>
            if x != id then Due(r, x)
            else At(r.sessions, id).posted > 1 || (id !in r.pending && At(r.sessions, id).stopInFlight)
  {
    DeliverAt(r, id, launchable, io, x);
  }

  lemma DeliverRemovedDue(r: Roster, id: string, launchable: bool, io: Io, x: string)
    requires Inv(r) && Has(r.removed, id) && At(r.removed, id).posted > 0
    ensures Due(DeliverRemoved(r, id, launchable, io), x) <==>
            if x != id then Due(r, x) else At(r.removed, id).posted > 1
  {
    DeliverRemovedAt(r, id, launchable, io, x);
  }

  lemma OnlyOneChanged(r: Roster, r': Roster, id: string, still: bool)
    requires forall x :: Due(r', x) <==> if x != id then Due(r, x) else still
    ensures SomeDue(r') <==> still || !NoOtherDue(r, id)
  {
    if still { assert Due(r', id); }
    if !NoOtherDue(r, id) {
      var x :| x != id && Due(r, x);
      assert Due(r', x);
    }
  }

  /** What a step makes of an active wave. */
  ghost predicate WaveFate(r: Roster, step: Step, r': Roster) {
    && (Lost(r') <==> Loses(r, step))
    && (Drops(r, step) ==> !r'.wave && r'.finished == r.finished)
    && (!Drops(r, step) ==> r'.finished == r.finished + if r'.wave then 0 else 1)
  }

  lemma DeliverFate(r: Roster, step: Step)
    requires Inv(r) && r.wave && step.DeliverCompletion? && Enabled(r, step)
    ensures WaveFate(r, step, Next(r, step))
  {
    var id, s, r' := step.id, At(r.sessions, step.id), Deliver(r, step.id, step.launchable, step.io);
    DeliverWave(r, id, step.launchable, step.io);
    var still := s.posted > 1 || (id !in r.pending && s.stopInFlight);
    forall x ensures Due(r', x) <==> if x != id then Due(r, x) else still {
      DeliverDue(r, id, step.launchable, step.io, x);
    }
    OnlyOneChanged(r, r', id, still);
  }

  lemma RemovedDeliverFate(r: Roster, step: Step)
    requires Inv(r) && r.wave && step.DeliverToRemoved? && Enabled(r, step)
    ensures WaveFate(r, step, Next(r, step))
  {
    var id, s, r' := step.id, At(r.removed, step.id), DeliverRemoved(r, step.id, step.launchable, step.io);
    DeliverRemovedWave(r, id, step.launchable, step.io);
    forall x ensures Due(r', x) <==> if x != id then Due(r, x) else s.posted > 1 {
      DeliverRemovedDue(r, id, step.launchable, step.io, x);
    }
    OnlyOneChanged(r, r', id, s.posted > 1);
  }

  /** Creating a session, destroying one and writing to the store take no completion away. */
  lemma OtherStepDue(r: Roster, step: Step, id: string)
    requires Inv(r) && Enabled(r, step) && Due(r, id)
    requires step.DoCreate? || step.Destroy? || step.WriteFields? || step.WriteRow?
    ensures Due(Next(r, step), id)
  {
    match step {
      case DoCreate(x, config, io) =>
        if Has(r.sessions, id) { AppendAt(r.sessions, Fresh(x), id); }
      case Destroy(x) =>
        if Has(r.removed, id) { RemoveKeepsOthers(r.removed, x, id); }
      case _ =>
    }
  }

  lemma StopAllDue(r: Roster)
    requires Inv(r) && AnyRunning(r.sessions)
    ensures SomeDue(StopAll(r))
  {
    var i :| 0 <= i < |r.sessions| && r.sessions[i].running;
    RowIs(r.sessions, i);
    StopEachAt(r.sessions, r.sessions[i].id);
    assert Due(StopAll(r), r.sessions[i].id);
  }

  lemma QuietFate(r: Roster, step: Step, r': Roster)
    requires !step.DoDelete? && !step.DoStopAll? && !step.DeliverCompletion? && !step.DeliverToRemoved?
    requires r'.wave && r'.finished == r.finished && SomeDue(r')
    ensures WaveFate(r, step, r')
  {
  }

  lemma RowStepFate(r: Roster, step: Step)
    requires Inv(r) && r.wave && SomeDue(r) && Enabled(r, step) && RowStep(step)
    ensures WaveFate(r, step, Next(r, step))
  {
    var id :| Due(r, id);
    RowStepDue(r, step, id);
    assert Next(r, step) == OnRow(r, RowEffect(At(r.sessions, step.id), step));
    QuietFate(r, step, Next(r, step));
  }

  lemma OtherStepFate(r: Roster, step: Step)
    requires Inv(r) && r.wave && SomeDue(r) && Enabled(r, step)
    requires step.DoCreate? || step.Destroy? || step.WriteFields? || step.WriteRow?
    ensures WaveFate(r, step, Next(r, step))
  {
    var id :| Due(r, id);
    OtherStepDue(r, step, id);
    QuietFate(r, step, Next(r, step));
  }

  lemma StopAllFate(r: Roster)
    requires Inv(r) && r.wave && SomeDue(r)
    ensures WaveFate(r, DoStopAll, Next(r, DoStopAll))
  {
    if AnyRunning(r.sessions) { StopAllDue(r); }
  }

  lemma DeleteFate(r: Roster, id: string, io: Io)
    requires Inv(r) && r.wave && SomeDue(r)
    ensures WaveFate(r, DoDelete(id, io), Next(r, DoDelete(id, io)))
  {
    DeleteStep(r, id, io);
  }

  /** One step of an active wave, exactly: it is announced once when it ends, except by a repeated
      stopAll with nothing alive; and it is lost by the stated steps and by no other. */
  lemma WaveStep(r: Roster, step: Step)
    requires Inv(r) && r.wave && SomeDue(r)
    ensures WaveFate(r, step, Next(r, step))
  {
    if !Enabled(r, step) {
    } else if RowStep(step) {
      RowStepFate(r, step);
    } else {
      match step {
        case DoDelete(x, io) => DeleteFate(r, x, io);
        case DoStopAll => StopAllFate(r);
        case DeliverCompletion(_, _, _) => DeliverFate(r, step);
        case DeliverToRemoved(_, _, _) => RemovedDeliverFate(r, step);
        case _ => OtherStepFate(r, step);
      }
    }
  }

  // ----- whole waves ------------------------------------------------------------------------

  /** No step loses or drops the wave while it is up. Steps after its end are free. */
  ghost predicate Kept(r: Roster, steps: seq<Step>)
    decreases |steps|
  {
    !r.wave || steps == []
    || (!Loses(r, steps[0]) && !Drops(r, steps[0]) && Kept(Next(r, steps[0]), steps[1..]))
  }

  /** The state in which the wave is over, or the last one of the run. */
  function AtEnd(r: Roster, steps: seq<Step>): Roster
    decreases |steps|
  {
    if !r.wave || steps == [] then r else AtEnd(Next(r, steps[0]), steps[1..])
  }

  /** A wave that no step loses or drops is announced exactly once, when it ends, and until then a
      completion is on its way; whatever is created, deleted, started, restarted, stopped or given up
      on meanwhile. */
  lemma {:induction false} WaveAnnouncedOnce(r: Roster, steps: seq<Step>)
    requires Inv(r) && r.wave && SomeDue(r) && Kept(r, steps)
    ensures var end := AtEnd(r, steps);
            end.finished == r.finished + (if end.wave then 0 else 1) && (end.wave ==> SomeDue(end))
    decreases |steps|
  {
    if steps != [] {
      WaveStep(r, steps[0]);
      NextInv(r, steps[0]);
      if Next(r, steps[0]).wave {
        WaveAnnouncedOnce(Next(r, steps[0]), steps[1..]);
      }
    }
  }

  function StopAlls(steps: seq<Step>): nat {
    if steps == [] then 0 else (if steps[0].DoStopAll? then 1 else 0) + StopAlls(steps[1..])
  }

  function Open(r: Roster): nat { if r.wave then 1 else 0 }

  /** Over any run at all there are no more announcements than calls of stopAll. */
  lemma {:induction false} AnnouncementsBounded(r: Roster, steps: seq<Step>)
    requires Inv(r)
    ensures Run(r, steps).finished + Open(Run(r, steps)) <= r.finished + Open(r) + StopAlls(steps)
    decreases |steps|
  {
    if steps != [] {
      AnnouncedWhenAllDown(r, steps[0]);
      WaveOpens(r, steps[0]);
      NextInv(r, steps[0]);
      AnnouncementsBounded(Next(r, steps[0]), steps[1..]);
    }
  }

  /** Only stopAll opens a wave. */
  lemma WaveOpens(r: Roster, step: Step)
    requires Inv(r)
    ensures !r.wave && Next(r, step).wave ==> step.DoStopAll? && AnyRunning(r.sessions)
  {
    if Enabled(r, step) {
      match step {
        case DeliverCompletion(id, launchable, io) => DeliverWave(r, id, launchable, io);
        case DeliverToRemoved(id, launchable, io) => DeliverRemovedWave(r, id, launchable, io);
        case _ =>
      }
    }
  }

  // ----- waves without launches ---------------------------------------------------------------

  /** Every live renderer is being stopped. */
  ghost predicate Stopping(r: Roster) {
    forall id :: Live(r, id) ==> At(r.sessions, id).stopInFlight
  }

  /** The step launches no renderer and gives up on no stop. */
  ghost predicate Calm(r: Roster, step: Step) {
    (forall id :: Live(Next(r, step), id) ==> Live(r, id)) && !step.AbandonStop?
  }

  /** While all live renderers are being stopped, only the delete before the poll loses a wave. */
  lemma StoppingLosesByDelete(r: Roster, step: Step)
    requires Inv(r) && Stopping(r)
    ensures Loses(r, step) <==> DeleteLoses(r, step)
  {
    AnyRunningById(r);
    forall x ensures Live(r, x) ==> At(r.sessions, x).stopInFlight && Due(r, x) {
    }
  }

  lemma StoppingStays(r: Roster, step: Step)
    requires Inv(r) && Stopping(r) && Calm(r, step)
    ensures Stopping(Next(r, step))
  {
    forall id | Live(Next(r, step), id) ensures At(Next(r, step).sessions, id).stopInFlight {
      assert Live(r, id);
      RowAfter(r, step, id);
    }
  }

  /** While the wave is up, steps are calm, no delete comes before the poll it needs, and stopAll is
      not repeated with nothing alive. */
  ghost predicate CalmWave(r: Roster, steps: seq<Step>)
    decreases |steps|
  {
    !r.wave || steps == []
    || (Calm(r, steps[0]) && !DeleteLoses(r, steps[0]) && !Drops(r, steps[0]) && CalmWave(Next(r, steps[0]), steps[1..]))
  }

  /** Without launches and abandoned stops a wave is lost only by such a delete. */
  lemma {:induction false} CalmWaveIsKept(r: Roster, steps: seq<Step>)
    requires Inv(r) && Stopping(r) && CalmWave(r, steps)
    ensures Kept(r, steps)
    decreases |steps|
  {
    if r.wave && steps != [] {
      StoppingLosesByDelete(r, steps[0]);
      StoppingStays(r, steps[0]);
      NextInv(r, steps[0]);
      CalmWaveIsKept(Next(r, steps[0]), steps[1..]);
    }
  }

  /** stopAll opens a wave exactly when some renderer is alive; then every live renderer is being
      stopped and a completion is on its way. */
  lemma StopAllOpensWave(r: Roster)
    requires Inv(r)
    ensures var r' := Next(r, DoStopAll);
            && (r'.wave <==> SomeLive(r))
            && (forall id :: Live(r', id) <==> Live(r, id))
            && Stopping(r') && (r'.wave ==> SomeDue(r')) && r'.finished == r.finished
            && (forall id :: Has(r.sessions, id) && !Live(r, id) ==>
                               Has(r'.sessions, id) && At(r'.sessions, id) == At(r.sessions, id))
  {
    assert Next(r, DoStopAll) == StopAll(r);
    assert AnyRunning(r.sessions) <==> SomeLive(r) by { AnyRunningById(r); }
    if AnyRunning(r.sessions) { StopAllDue(r); }
    StopAllStops(r);
    forall id | Has(r.sessions, id) && !Live(r, id)
      ensures Has(StopAll(r).sessions, id) && At(StopAll(r).sessions, id) == At(r.sessions, id)
    {
      StopAllSparesDead(r, id);
    }
  }

  lemma StopAllStops(r: Roster)
    requires Inv(r)
    ensures forall id :: Live(StopAll(r), id) <==> Live(r, id)
    ensures Stopping(StopAll(r))
  {
    forall id ensures (Live(StopAll(r), id) <==> Live(r, id)) && (Live(r, id) ==> At(StopAll(r).sessions, id).stopInFlight) {
      StopAllAt(r, id);
    }
  }

  lemma StopAllSparesDead(r: Roster, id: string)
    requires Has(r.sessions, id) && !Live(r, id)
    ensures Has(StopAll(r).sessions, id) && At(StopAll(r).sessions, id) == At(r.sessions, id)
  {
    StopEachAt(r.sessions, id);
  }

  lemma StopAllAt(r: Roster, id: string)
    requires Inv(r)
    ensures Live(StopAll(r), id) <==> Live(r, id)
    ensures Live(r, id) ==> At(StopAll(r).sessions, id).stopInFlight
  {
    StopEachAt(r.sessions, id);
  }
}
