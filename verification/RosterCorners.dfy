// The corners of the roster: when the world alone can still announce a wave and when it can lose it,
// and runs that lead to each exceptional case.
module RosterCorners {
  import opened RosterModel
  import opened RosterSafety
  import opened RosterWave

  const IO_OK: Io := Io(true, true)

  /** What happens without a call from the panel. */
  predicate World(step: Step) {
    || step.ProcessExit? || step.ProcessFailsToStart? || step.PollTick? || step.AbandonStop?
    || step.DeliverCompletion? || step.DeliverToRemoved? || step.Destroy?
  }

  /** The same without launches and without giving up on a stop: the world only settles down. */
  predicate Settles(step: Step) {
    && World(step) && !step.AbandonStop?
    && (step.DeliverCompletion? || step.DeliverToRemoved? ==> !step.launchable)
  }

  predicate AllWorld(steps: seq<Step>) {
    forall i :: 0 <= i < |steps| ==> World(steps[i])
  }

  predicate AllSettle(steps: seq<Step>) {
    forall i :: 0 <= i < |steps| ==> Settles(steps[i])
  }

  // ----- work left to the world --------------------------------------------------------------

  function Weight(s: Session): nat {
    (if s.running then 3 else 0) + (if s.stopInFlight then 2 else 0) + s.posted
  }

  function Work(ss: seq<Session>): nat {
    if ss == [] then 0 else Weight(ss[0]) + Work(ss[1..])
  }

  lemma {:induction false} WorkUpdate(ss: seq<Session>, i: nat, s: Session)
    requires i < |ss|
    ensures Work(ss[i := s]) + Weight(ss[i]) == Work(ss) + Weight(s)
  {
    if i == 0 {
      assert ss[i := s][1..] == ss[1..];
    } else {
      assert ss[i := s][1..] == ss[1..][i - 1 := s];
      WorkUpdate(ss[1..], i - 1, s);
    }
  }

  lemma {:induction false} WorkCut(ss: seq<Session>, i: nat)
    requires i < |ss|
    ensures Work(ss[..i] + ss[i + 1..]) + Weight(ss[i]) == Work(ss)
  {
    if i == 0 {
      assert ss[..i] + ss[i + 1..] == ss[1..];
    } else {
      assert (ss[..i] + ss[i + 1..])[1..] == ss[1..][..i - 1] + ss[1..][i..];
      WorkCut(ss[1..], i - 1);
    }
  }

  lemma {:induction false} WorkAppend(ss: seq<Session>, s: Session)
    ensures Work(ss + [s]) == Work(ss) + Weight(s)
    decreases |ss|
  {
    if ss == [] {
      assert ss + [s] == [s] && [s][1..] == [];
    } else {
      assert (ss + [s])[1..] == ss[1..] + [s];
      WorkAppend(ss[1..], s);
    }
  }

  function Left(r: Roster): nat { Work(r.sessions) + Work(r.removed) }

  lemma SetWork(ss: seq<Session>, s: Session)
    requires Has(ss, s.id)
    ensures Work(Set(ss, s)) + Weight(At(ss, s.id)) == Work(ss) + Weight(s)
  {
    WorkUpdate(ss, Row(ss, s.id), s);
  }

  lemma SlotWork(r: Roster, id: string, io: Io)
    requires id in r.pending ==> Has(r.sessions, id)
    ensures Left(OnStopFinished(r, id, io)) == Left(r)
  {
    if id in r.pending {
      WorkCut(r.sessions, Row(r.sessions, id));
      WorkAppend(r.removed, At(r.sessions, id));
    }
  }

  lemma DeliverWork(r: Roster, id: string)
    requires Inv(r) && Has(r.sessions, id) && At(r.sessions, id).posted > 0
    ensures Left(Next(r, DeliverCompletion(id, false, IO_OK))) < Left(r)
  {
    var s, taken := At(r.sessions, id), Taken(r, id);
    SetWork(r.sessions, TakeCompletion(s));
    SetAt(r.sessions, TakeCompletion(s), id);
    SlotWork(taken, id, IO_OK);
    SetEffectDistinct(r.sessions, TakeCompletion(s));
    OnStopFinishedAt(taken, id, IO_OK, id);
    var r1 := OnStopFinished(taken, id, IO_OK);
    if s.startQueued {
      SetWork(r1.sessions, Start(At(r1.sessions, id), false));
    }
  }

  lemma DeliverRemovedWork(r: Roster, id: string)
    requires Inv(r) && Has(r.removed, id) && At(r.removed, id).posted > 0
    ensures Left(Next(r, DeliverToRemoved(id, false, IO_OK))) < Left(r)
  {
    var s := At(r.removed, id);
    assert id !in r.pending;
    var taken := r.(removed := Set(r.removed, TakeCompletion(s)));
    SetWork(r.removed, TakeCompletion(s));
    SetAt(r.removed, TakeCompletion(s), id);
    if s.startQueued {
      SetWork(taken.removed, Start(At(taken.removed, id), false));
    }
  }

  lemma RowWork(r: Roster, step: Step)
    requires Inv(r) && Enabled(r, step) && (step.ProcessExit? || step.PollTick?)
    ensures Left(Next(r, step)) < Left(r)
  {
    RowEffectKeeps(At(r.sessions, step.id), step);
    SetWork(r.sessions, RowEffect(At(r.sessions, step.id), step));
  }

  // ----- announcing ---------------------------------------------------------------------------

  /** Some way for the world to settle down announces the wave. */
  ghost predicate CanAnnounce(r: Roster) {
    exists steps :: AllSettle(steps) && Run(r, steps).finished > r.finished
  }

  lemma CanAnnounceStep(r: Roster, step: Step)
    requires Settles(step) && (Next(r, step).finished > r.finished
                               || (Next(r, step).finished == r.finished && CanAnnounce(Next(r, step))))
    ensures CanAnnounce(r)
  {
    var r' := Next(r, step);
    var rest: seq<Step> := [];
    if r'.finished == r.finished {
      rest :| AllSettle(rest) && Run(r', rest).finished > r'.finished;
    }
    var steps := [step] + rest;
    assert steps[1..] == rest;
    assert forall i :: 0 <= i < |steps| ==> Settles(steps[i]);
    assert Run(r, steps).finished > r.finished;
  }

  /** A step of the world towards the announcement: exits first, then polls, then completions. */
  lemma NextSettling(r: Roster) returns (step: Step)
    requires Inv(r) && SomeDue(r)
    ensures Settles(step) && Enabled(r, step) && Left(Next(r, step)) < Left(r)
    ensures OthersLiveNone(r) || step.ProcessExit?
  {
    if x :| Live(r, x) {
      step := ProcessExit(x);
      RowWork(r, step);
    } else if x :| Has(r.sessions, x) && At(r.sessions, x).stopInFlight {
      step := PollTick(x);
      assert !Live(r, x);
      RowWork(r, step);
    } else {
      var x :| Due(r, x);
      if Has(r.sessions, x) {
        step := DeliverCompletion(x, false, IO_OK);
        DeliverWork(r, x);
      } else {
        step := DeliverToRemoved(x, false, IO_OK);
        DeliverRemovedWork(r, x);
      }
    }
  }

  ghost predicate OthersLiveNone(r: Roster) {
    forall x :: !Live(r, x)
  }

  lemma {:induction false} DueIsAnnounced(r: Roster)
    requires Inv(r) && r.wave && SomeDue(r)
    ensures CanAnnounce(r)
    decreases Left(r)
  {
    var step := NextSettling(r);
    WaveStep(r, step);
    NextInv(r, step);
    AnyRunningById(r);
    var r' := Next(r, step);
    if r'.wave {
      assert !Loses(r, step);
      DueIsAnnounced(r');
    }
    CanAnnounceStep(r, step);
  }

  /** A lost wave stays lost whatever the world does, launches and abandoned stops included. */
  lemma {:induction false} LostStays(r: Roster, steps: seq<Step>)
    requires Inv(r) && Lost(r) && AllWorld(steps)
    ensures Lost(Run(r, steps)) && Run(r, steps).finished == r.finished
    decreases |steps|
  {
    if steps != [] {
      LostStep(r, steps[0]);
      NextInv(r, steps[0]);
      LostStays(Next(r, steps[0]), steps[1..]);
    }
  }

  lemma LostStep(r: Roster, step: Step)
    requires Inv(r) && Lost(r) && World(step)
    ensures Lost(Next(r, step)) && Next(r, step).finished == r.finished
  {
    DeliveryIsDue(r, step);
    if Enabled(r, step) && (RowStep(step) || step.Destroy?) {
      forall x ensures Due(Next(r, step), x) ==> Due(r, x) {
        if step.Destroy? { RemoveKeepsOthers(r.removed, step.id, x); } else { LostRow(r, step, x); }
      }
    }
  }

  lemma DeliveryIsDue(r: Roster, step: Step)
    ensures Enabled(r, step) && (step.DeliverCompletion? || step.DeliverToRemoved?) ==> SomeDue(r)
  {
    if Enabled(r, step) && (step.DeliverCompletion? || step.DeliverToRemoved?) {
      assert Due(r, step.id);
    }
  }

  lemma LostRow(r: Roster, step: Step, x: string)
    requires Inv(r) && World(step) && RowStep(step) && Enabled(r, step) && !Due(r, step.id)
    ensures Due(Next(r, step), x) ==> Due(r, x)
  {
    if Has(r.sessions, x) { RowStepAfter(r, step, x); }
  }

  /** The world alone can announce an active wave exactly when a completion is on its way. */
  lemma CanAnnounceIff(r: Roster)
    requires Inv(r) && r.wave
    ensures CanAnnounce(r) <==> SomeDue(r)
  {
    if SomeDue(r) {
      DueIsAnnounced(r);
    } else {
      forall steps | AllSettle(steps) ensures Run(r, steps).finished == r.finished {
        LostStays(r, steps);
      }
    }
  }

  // ----- deletes and repeated stopAll ----------------------------------------------------------

  /** After a delete during a wave the world can still announce it exactly unless the delete takes
      away the last completion: the row is not pending, its process is gone, its stop waits for the
      poll, no completion is queued, and nothing else has one on its way. */
  lemma DeleteKeepsWaveIff(r: Roster, id: string, io: Io)
    requires Inv(r) && r.wave && SomeDue(r)
    ensures CanAnnounce(Next(r, DoDelete(id, io))) <==>
            !(&& Has(r.sessions, id) && id !in r.pending
              && At(r.sessions, id).stopInFlight && !At(r.sessions, id).running && At(r.sessions, id).posted == 0
              && NoOtherDue(r, id))
  {
    WaveStep(r, DoDelete(id, io));
    NextInv(r, DoDelete(id, io));
    AnnouncedWhenAllDown(r, DoDelete(id, io));
    CanAnnounceIff(Next(r, DoDelete(id, io)));
  }

  /** Without a wave nothing is announced until stopAll is called again. */
  lemma {:induction false} NoWaveSilent(r: Roster, steps: seq<Step>)
    requires Inv(r) && !r.wave && forall i :: 0 <= i < |steps| ==> !steps[i].DoStopAll?
    ensures !Run(r, steps).wave && Run(r, steps).finished == r.finished
    decreases |steps|
  {
    if steps != [] {
      WaveOpens(r, steps[0]);
      AnnouncedWhenAllDown(r, steps[0]);
      NextInv(r, steps[0]);
      NoWaveSilent(Next(r, steps[0]), steps[1..]);
    }
  }

  /** stopAll repeated during a wave keeps it exactly when a renderer is alive. Otherwise the wave is
      dropped: no run without a further stopAll announces it. */
  lemma RepeatedStopAllAnnouncedIff(r: Roster)
    requires Inv(r) && r.wave
    ensures CanAnnounce(Next(r, DoStopAll)) <==> AnyRunning(r.sessions)
    ensures !AnyRunning(r.sessions) ==>
              forall steps: seq<Step> :: (forall i :: 0 <= i < |steps| ==> !steps[i].DoStopAll?) ==>
                                         Run(Next(r, DoStopAll), steps).finished == r.finished
  {
    var r1 := Next(r, DoStopAll);
    NextInv(r, DoStopAll);
    if AnyRunning(r.sessions) {
      StopAllDue(r);
      CanAnnounceIff(r1);
    } else {
      forall steps: seq<Step> | forall i :: 0 <= i < |steps| ==> !steps[i].DoStopAll?
        ensures Run(r1, steps).finished == r.finished
      {
        NoWaveSilent(r1, steps);
      }
      forall steps | AllSettle(steps) ensures Run(r1, steps).finished == r1.finished {
        assert forall i :: 0 <= i < |steps| ==> Settles(steps[i]);
        NoWaveSilent(r1, steps);
      }
    }
  }

  // ----- abandoned stops ------------------------------------------------------------------------

  /** A live renderer on the roster that nobody is stopping or waiting to remove. */
  ghost predicate Stray(r: Roster, id: string) {
    Live(r, id) && !At(r.sessions, id).stopInFlight && id !in r.pending
  }

  /** Some way for the world to settle down loses the wave. */
  ghost predicate CanLose(r: Roster) {
    exists steps :: AllSettle(steps) && Lost(Run(r, steps))
  }

  lemma CanLoseStep(r: Roster, step: Step)
    requires Settles(step) && CanLose(Next(r, step))
    ensures CanLose(r)
  {
    var rest :| AllSettle(rest) && Lost(Run(Next(r, step), rest));
    var steps := [step] + rest;
    assert steps[1..] == rest;
    assert forall i :: 0 <= i < |steps| ==> Settles(steps[i]);
    assert Lost(Run(r, steps));
  }

  /** With a stray renderer kept alive, the world takes one completion off its way. */
  lemma NextDraining(r: Roster, y: string) returns (step: Step)
    requires Inv(r) && r.wave && SomeDue(r) && Stray(r, y)
    ensures Settles(step) && Enabled(r, step) && Left(Next(r, step)) < Left(r)
    ensures Stray(Next(r, step), y) && Next(r, step).wave
  {
    if x :| Has(r.sessions, x) && At(r.sessions, x).stopInFlight {
      step := if At(r.sessions, x).running then ProcessExit(x) else PollTick(x);
      RowWork(r, step);
      RowStepAfter(r, step, y);
    } else {
      var x :| Due(r, x);
      if Has(r.sessions, x) {
        step := DeliverCompletion(x, false, IO_OK);
        DeliverWork(r, x);
        DeliverWave(r, x, false, IO_OK);
        DeliverAt(r, x, false, IO_OK, y);
        assert OthersLive(r, x);
      } else {
        step := DeliverToRemoved(x, false, IO_OK);
        DeliverRemovedWork(r, x);
        AnyRunningById(r);
        DeliverRemovedWave(r, x, false, IO_OK);
        DeliverRemovedAt(r, x, false, IO_OK, y);
      }
    }
  }

  lemma {:induction false} StrayLoses(r: Roster, y: string)
    requires Inv(r) && r.wave && Stray(r, y)
    ensures CanLose(r)
    decreases Left(r)
  {
    if SomeDue(r) {
      var step := NextDraining(r, y);
      NextInv(r, step);
      StrayLoses(Next(r, step), y);
      CanLoseStep(r, step);
    } else {
      assert AllSettle([]) && Lost(Run(r, []));
    }
  }

  /** Without a stray renderer, settling down neither loses an active wave nor makes one stray. */
  lemma NoStrayStep(r: Roster, step: Step)
    requires Inv(r) && (r.wave ==> SomeDue(r)) && (forall y :: !Stray(r, y)) && Settles(step)
    ensures !Lost(Next(r, step)) && forall y :: !Stray(Next(r, step), y)
  {
    forall y ensures Stray(Next(r, step), y) ==> Stray(r, y) {
      NoNewStray(r, step, y);
    }
    if r.wave {
      WaveStep(r, step);
      NoStrayKeeps(r, step);
    } else {
      WaveOpens(r, step);
    }
  }

  lemma NoNewStray(r: Roster, step: Step, y: string)
    requires Inv(r) && Settles(step)
    ensures Stray(Next(r, step), y) ==> Stray(r, y)
  {
    if Enabled(r, step) {
      if RowStep(step) {
        NoNewStrayRow(r, step, y);
      } else if step.DeliverCompletion? {
        NoNewStrayDelivered(r, step, y);
      } else if step.DeliverToRemoved? {
        DeliverRemovedAt(r, step.id, false, step.io, y);
      }
    }
  }

  lemma NoNewStrayRow(r: Roster, step: Step, y: string)
    requires Inv(r) && Settles(step) && RowStep(step) && Enabled(r, step)
    ensures Stray(Next(r, step), y) ==> Stray(r, y)
  {
    if Has(r.sessions, y) {
      RowStepAfter(r, step, y);
    } else {
      SetAt(r.sessions, RowEffect(At(r.sessions, step.id), step), y);
    }
  }

  lemma NoNewStrayDelivered(r: Roster, step: Step, y: string)
    requires Inv(r) && Settles(step) && step.DeliverCompletion? && Enabled(r, step)
    ensures Stray(Next(r, step), y) ==> Stray(r, y)
  {
    DeliverAt(r, step.id, false, step.io, y);
  }

  lemma NoStrayKeeps(r: Roster, step: Step)
    requires Inv(r) && (forall y :: !Stray(r, y)) && Settles(step)
    ensures !Loses(r, step)
  {
    AnyRunningById(r);
    forall x ensures Live(r, x) ==> Due(r, x) && (At(r.sessions, x).stopInFlight || x in r.pending) {
      assert !Stray(r, x);
    }
  }

  lemma {:induction false} NoStrayRun(r: Roster, steps: seq<Step>)
    requires Inv(r) && (r.wave ==> SomeDue(r)) && (forall y :: !Stray(r, y)) && AllSettle(steps)
    ensures !Lost(Run(r, steps))
    decreases |steps|
  {
    if steps != [] {
      NoStrayStep(r, steps[0]);
      NextInv(r, steps[0]);
      NoStrayRun(Next(r, steps[0]), steps[1..]);
    }
  }

  /** The world alone can lose an active wave exactly when it is lost already or a stray renderer is
      alive. */
  lemma CanLoseIff(r: Roster)
    requires Inv(r) && r.wave
    ensures CanLose(r) <==> Lost(r) || exists y :: Stray(r, y)
  {
    if y :| Stray(r, y) {
      StrayLoses(r, y);
    } else if Lost(r) {
      assert AllSettle([]) && Lost(Run(r, []));
    } else {
      forall steps | AllSettle(steps) ensures !Lost(Run(r, steps)) {
        NoStrayRun(r, steps);
      }
    }
  }

  /** After giving up on a stop during a wave the world can lose it exactly when the session is not
      waiting to be removed, or a renderer was stray before. */
  lemma AbandonLosesIff(r: Roster, id: string)
    requires Inv(r) && r.wave && Enabled(r, AbandonStop(id))
    ensures CanLose(Next(r, AbandonStop(id))) <==> id !in r.pending || exists y :: Stray(r, y)
  {
    var r1 := Next(r, AbandonStop(id));
    NextInv(r, AbandonStop(id));
    CanLoseIff(r1);
    RowStepAfter(r, AbandonStop(id), id);
    assert Due(r1, id);
    assert r1 == OnRow(r, FinishStop(At(r.sessions, id)));
    forall y | y != id ensures Stray(r1, y) <==> Stray(r, y) {
      SetAt(r.sessions, FinishStop(At(r.sessions, id)), y);
    }
    assert Stray(r1, id) <==> id !in r.pending;
    assert !Stray(r, id);
  }

  // ----- the exceptional cases are reachable ----------------------------------------------------

  ghost predicate Reachable(r: Roster) {
    exists steps :: Run(EMPTY, steps) == r
  }

  /** Whatever is reachable satisfies the invariant. */
  lemma ReachableInv(r: Roster)
    requires Reachable(r)
    ensures Inv(r)
  {
    var steps :| Run(EMPTY, steps) == r;
    RunInv(EMPTY, steps);
  }

  lemma {:induction false} RunSnoc(r: Roster, steps: seq<Step>, last: Step)
    ensures Run(r, steps + [last]) == Next(Run(r, steps), last)
    decreases |steps|
  {
    var all := steps + [last];
    if steps == [] {
      assert all[1..] == [];
    } else {
      assert all[1..] == steps[1..] + [last];
      RunSnoc(Next(r, steps[0]), steps[1..], last);
    }
  }

  lemma ReachNext(r: Roster, step: Step)
    requires Reachable(r)
    ensures Reachable(Next(r, step))
  {
    var steps :| Run(EMPTY, steps) == r;
    RunSnoc(EMPTY, steps, step);
  }

  lemma ReachFresh(id: string) returns (r: Roster)
    ensures Reachable(r) && r.sessions == [Fresh(id)] && r.pending == {} && r.removed == [] && !r.wave
  {
    assert Run(EMPTY, []) == EMPTY;
    r := Next(EMPTY, DoCreate(id, "", IO_OK));
    ReachNext(EMPTY, DoCreate(id, "", IO_OK));
  }

  /** One step of the only session of a reachable roster. */
  lemma ReachRow(r: Roster, s: Session, step: Step) returns (r': Roster)
    requires Reachable(r) && r.sessions == [s] && RowStep(step) && step.id == s.id && Enabled(r, step)
    ensures r' == Next(r, step) && Reachable(r') && r'.sessions == [RowEffect(s, step)]
    ensures r'.pending == r.pending && r'.wave == r.wave && r'.removed == r.removed
  {
    r' := Next(r, step);
    ReachNext(r, step);
    RowEffectKeeps(s, step);
  }

  /** A live renderer can have the completion of an earlier stop still queued. */
  lemma StaleCompletionReachable(id: string)
    ensures exists r :: Reachable(r) && Inv(r) && Has(r.sessions, id) && At(r.sessions, id).running
                        && At(r.sessions, id).posted > 0 && id !in r.pending
  {
    var r := ReachFresh(id);
    r := ReachRow(r, Fresh(id), DoStop(id));
    r := ReachRow(r, Fresh(id).(posted := 1), DoStart(id, true));
    ReachableInv(r);
    assert At(r.sessions, id).running && At(r.sessions, id).posted > 0;
  }

  /** A dead renderer can have a launch owed to it. */
  lemma OwedLaunchReachable(id: string)
    ensures exists r :: Reachable(r) && Inv(r) && Has(r.sessions, id) && !At(r.sessions, id).running
                        && !Settled(At(r.sessions, id)) && id !in r.pending
  {
    var r := ReachFresh(id);
    r := ReachRow(r, Fresh(id), DoRestart(id));
    ReachableInv(r);
    assert !At(r.sessions, id).running && !Settled(At(r.sessions, id));
  }

  lemma ReachLive(id: string) returns (r: Roster)
    ensures Reachable(r) && r.sessions == [Fresh(id).(running := true)] && r.pending == {} && !r.wave
    ensures r.removed == []
  {
    r := ReachFresh(id);
    r := ReachRow(r, Fresh(id), DoStart(id, true));
  }

  /** A wave over one live renderer. */
  lemma ReachWave(id: string) returns (r: Roster)
    ensures Reachable(r) && r.wave && r.pending == {} && r.removed == []
    ensures r.sessions == [Fresh(id).(running := true, stopInFlight := true)]
  {
    r := ReachLive(id);
    assert r.sessions[0].running;
    ReachNext(r, DoStopAll);
    r := Next(r, DoStopAll);
    assert r.sessions == [Stop(Fresh(id).(running := true))];
  }

  lemma NothingElse(r: Roster, s: Session, x: string)
    requires r.sessions == [s] && r.removed == [] && x != s.id
    ensures !Has(r.sessions, x) && !Has(r.removed, x)
  {
  }

  /** A wave can be active with every renderer dead. */
  lemma DeadWaveReachable(id: string)
    ensures exists r :: Reachable(r) && Inv(r) && r.wave && SomeDue(r) && !AnyRunning(r.sessions)
  {
    var r := ReachWave(id);
    r := ReachRow(r, Fresh(id).(running := true, stopInFlight := true), ProcessExit(id));
    assert Due(r, id);
    ReachableInv(r);
    assert Reachable(r) && Inv(r) && r.wave && SomeDue(r) && !AnyRunning(r.sessions);
  }

  /** A delete can take away the last completion of a wave. */
  lemma DeleteLosesReachable(id: string)
    ensures exists r :: Reachable(r) && Inv(r) && r.wave && SomeDue(r) && DeleteLoses(r, DoDelete(id, IO_OK))
  {
    var r := ReachWave(id);
    r := ReachRow(r, Fresh(id).(running := true, stopInFlight := true), ProcessFailsToStart(id));
    assert Due(r, id);
    forall x | x != id ensures !Due(r, x) {
      NothingElse(r, Fresh(id).(stopInFlight := true), x);
    }
    ReachableInv(r);
    assert Reachable(r) && Inv(r) && r.wave && SomeDue(r) && DeleteLoses(r, DoDelete(id, IO_OK));
  }

  /** A stop can be given up on during a wave, with the session not waiting to be removed. */
  lemma AbandonReachable(id: string)
    ensures exists r :: Reachable(r) && Inv(r) && r.wave && SomeDue(r) && Enabled(r, AbandonStop(id)) && id !in r.pending
  {
    var r := ReachWave(id);
    assert Due(r, id);
    ReachableInv(r);
    assert Reachable(r) && Inv(r) && r.wave && SomeDue(r) && Enabled(r, AbandonStop(id)) && id !in r.pending;
  }
}
