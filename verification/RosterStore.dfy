// The stored roster over all runs.
module RosterStore {
  import opened RosterModel
  import opened RosterSafety

  /** Reads and writes of the database succeed during the step. */
  predicate Healthy(step: Step) {
    (step.DoCreate? || step.DoDelete? || step.DeliverCompletion? || step.DeliverToRemoved?) ==>
      step.io.readOk && step.io.writeOk
  }

  /** The stored order is the live order, and every roster id has a row. */
  ghost predicate Stored(r: Roster) {
    && r.store.instanceIds == Ids(r.sessions)
    && forall id :: Has(r.sessions, id) ==> id in r.store.rows
  }

  /** What one step leaves of the config row of an instance that stays. */
  function RowAfterStep(r: Roster, step: Step, id: string): Config
    requires id in r.store.rows
  {
    if step.WriteRow? && step.id == id then step.config else r.store.rows[id]
  }

  /** The stored order is the live one. */
  predicate Ordered(r: Roster) { r.store.instanceIds == Ids(r.sessions) }

  /** Seen at one id: a row that is on the roster afterwards was there before with a config, and the
      config is still the same. */
  predicate RowKept(r: Roster, r': Roster, x: string) {
    Has(r'.sessions, x) ==> Has(r.sessions, x) && x in r'.store.rows && x in r.store.rows && r'.store.rows[x] == r.store.rows[x]
  }

  lemma SetIds(ss: seq<Session>, s: Session)
    requires Has(ss, s.id)
    ensures Ids(Set(ss, s)) == Ids(ss)
  {
  }

  lemma FinishDeleteStored(r: Roster, id: string, io: Io, x: string)
    requires Distinct(r.sessions) && io.readOk && io.writeOk && Ordered(r) && (Has(r.sessions, x) ==> x in r.store.rows)
    ensures var r' := FinishDelete(r, id, io);
            Ordered(r') && r'.store.fields == r.store.fields && RowKept(r, r', x)
  {
    if Has(r.sessions, id) { RemoveKeepsOthers(r.sessions, id, x); }
  }

  lemma OnStopFinishedStored(r: Roster, id: string, io: Io, x: string)
    requires Distinct(r.sessions) && io.readOk && io.writeOk && Ordered(r) && (Has(r.sessions, x) ==> x in r.store.rows)
    ensures var r' := OnStopFinished(r, id, io);
            Ordered(r') && r'.store.fields == r.store.fields && RowKept(r, r', x)
  {
    if id in r.pending { FinishDeleteStored(r.(pending := r.pending - {id}), id, io, x); }
  }

  lemma DeliverStored(r: Roster, id: string, launchable: bool, io: Io, x: string)
    requires Inv(r) && Stored(r) && io.readOk && io.writeOk
    requires Has(r.sessions, id) && At(r.sessions, id).posted > 0
    ensures var r' := Deliver(r, id, launchable, io);
            Ordered(r') && r'.store.fields == r.store.fields && RowKept(r, r', x)
  {
    var s, taken := At(r.sessions, id), Taken(r, id);
    SetIds(r.sessions, TakeCompletion(s));
    SetEffectDistinct(r.sessions, TakeCompletion(s));
    SetAt(r.sessions, TakeCompletion(s), x);
    SetAt(r.sessions, TakeCompletion(s), id);
    OnStopFinishedStored(taken, id, io, x);
    RelaunchStored(r, id, launchable, io, x);
  }

  /** The relaunch after the manager's slot leaves the store alone. */
  lemma RelaunchStored(r: Roster, id: string, launchable: bool, io: Io, x: string)
    requires Inv(r) && Has(r.sessions, id) && At(r.sessions, id).posted > 0
    ensures var r', r1 := Deliver(r, id, launchable, io), OnStopFinished(Taken(r, id), id, io);
            && r'.store == r1.store && Ids(r'.sessions) == Ids(r1.sessions)
            && (Has(r'.sessions, x) <==> Has(r1.sessions, x))
  {
    var s, r1 := At(r.sessions, id), OnStopFinished(Taken(r, id), id, io);
    if s.startQueued && Has(r1.sessions, id) {
      SetIds(r1.sessions, Start(At(r1.sessions, id), launchable));
      SetAt(r1.sessions, Start(At(r1.sessions, id), launchable), x);
    }
  }

  lemma DeliverRemovedStored(r: Roster, id: string, launchable: bool, io: Io)
    requires Inv(r) && Has(r.removed, id) && At(r.removed, id).posted > 0
    ensures var r' := DeliverRemoved(r, id, launchable, io); r'.store == r.store && r'.sessions == r.sessions
  {
    assert id !in r.pending;
  }

  lemma DeleteStored(r: Roster, id: string, io: Io, x: string)
    requires Inv(r) && Stored(r) && io.readOk && io.writeOk
    ensures var r' := Delete(r, id, io);
            Ordered(r') && r'.store.fields == r.store.fields && RowKept(r, r', x)
  {
    if id !in r.pending && Has(r.sessions, id) {
      if At(r.sessions, id).running {
        SetIds(r.sessions, Stop(Doom(At(r.sessions, id))));
        SetAt(r.sessions, Stop(Doom(At(r.sessions, id))), x);
      } else {
        FinishDeleteStored(r, id, io, x);
      }
    }
  }

  lemma RowStepStored(r: Roster, step: Step, x: string)
    requires Inv(r) && Stored(r) && RowStep(step) && Enabled(r, step)
    ensures var r' := Next(r, step); Ordered(r') && r'.store == r.store && RowKept(r, r', x)
  {
    var s := RowEffect(At(r.sessions, step.id), step);
    RowEffectKeeps(At(r.sessions, step.id), step);
    SetIds(r.sessions, s);
    SetAt(r.sessions, s, x);
  }

  lemma StopAllStored(r: Roster, x: string)
    requires Stored(r)
    ensures Ordered(StopAll(r)) && RowKept(r, StopAll(r), x)
  {
    StopEachAt(r.sessions, x);
  }

  lemma CreateStored(r: Roster, id: string, config: Config, io: Io, x: string)
    requires Inv(r) && Stored(r) && io.readOk && io.writeOk && !Has(r.sessions, id)
    ensures var r' := Create(r, id, config, io);
            && Ordered(r') && r'.store.fields == r.store.fields
            && (x == id ==> x in r'.store.rows) && (x != id ==> RowKept(r, r', x))
  {
    AppendAt(r.sessions, Fresh(id), x);
  }

  /** What a step leaves stored, seen at one id. */
  predicate StoredAfter(r: Roster, step: Step, r': Roster, x: string) {
    && Ordered(r')
    && r'.store.fields == (if step.WriteFields? then step.fields else r.store.fields)
    && (Has(r'.sessions, x) ==> x in r'.store.rows)
    && (Has(r'.sessions, x) && Has(r.sessions, x) && x in r.store.rows ==> r'.store.rows[x] == RowAfterStep(r, step, x))
  }

  /** A step of the sessions and the roster, which writes neither panel fields nor a config row. */
  lemma KeptIsStored(r: Roster, step: Step, r': Roster, x: string)
    requires !step.WriteFields? && !step.WriteRow?
    requires Ordered(r') && r'.store.fields == r.store.fields && RowKept(r, r', x)
    ensures StoredAfter(r, step, r', x)
  {
  }

  lemma DeliverStepStored(r: Roster, step: Step, x: string)
    requires Inv(r) && Stored(r) && Healthy(step) && step.DeliverCompletion? && Enabled(r, step)
    ensures StoredAfter(r, step, Next(r, step), x)
  {
    DeliverStored(r, step.id, step.launchable, step.io, x);
    KeptIsStored(r, step, Deliver(r, step.id, step.launchable, step.io), x);
  }

  lemma DeleteStepStored(r: Roster, step: Step, x: string)
    requires Inv(r) && Stored(r) && Healthy(step) && step.DoDelete?
    ensures StoredAfter(r, step, Next(r, step), x)
  {
    DeleteStored(r, step.id, step.io, x);
    KeptIsStored(r, step, Delete(r, step.id, step.io), x);
  }

  lemma CreateStepStored(r: Roster, step: Step, x: string)
    requires Inv(r) && Stored(r) && Healthy(step) && step.DoCreate? && Enabled(r, step)
    ensures StoredAfter(r, step, Next(r, step), x)
  {
    CreateStored(r, step.id, step.config, step.io, x);
  }

  /** Steps that leave the store alone. */
  lemma QuietStepStored(r: Roster, step: Step, x: string)
    requires Inv(r) && Stored(r) && Enabled(r, step)
    requires RowStep(step) || step.DoStopAll? || step.DeliverToRemoved? || step.Destroy?
    ensures StoredAfter(r, step, Next(r, step), x)
  {
    if RowStep(step) {
      RowStepStored(r, step, x);
    } else if step.DoStopAll? {
      StopAllStored(r, x);
    } else if step.DeliverToRemoved? {
      DeliverRemovedStored(r, step.id, step.launchable, step.io);
    }
  }

  lemma StepStoredAt(r: Roster, step: Step, x: string)
    requires Inv(r) && Stored(r) && Healthy(step)
    ensures StoredAfter(r, step, Next(r, step), x)
  {
    if Enabled(r, step) {
      if step.DoDelete? {
        DeleteStepStored(r, step, x);
      } else if step.DeliverCompletion? {
        DeliverStepStored(r, step, x);
      } else if step.DoCreate? {
        CreateStepStored(r, step, x);
      } else if !step.WriteFields? && !step.WriteRow? {
        QuietStepStored(r, step, x);
      }
    }
  }

  /** One step keeps the stored roster, and the other panel fields unless it writes them. */
  lemma StepStored(r: Roster, step: Step)
    requires Inv(r) && Stored(r) && Healthy(step)
    ensures Stored(Next(r, step))
    ensures Next(r, step).store.fields == if step.WriteFields? then step.fields else r.store.fields
  {
    StepStoredAt(r, step, "");
    forall id ensures Has(Next(r, step).sessions, id) ==> id in Next(r, step).store.rows {
      StepStoredAt(r, step, id);
    }
  }

  /** One step keeps the config row of every instance that stays, unless it writes that row. */
  lemma StepKeepsConfig(r: Roster, step: Step, id: string)
    requires Inv(r) && Stored(r) && Healthy(step)
    requires Has(r.sessions, id) && Has(Next(r, step).sessions, id)
    ensures id in Next(r, step).store.rows
    ensures Next(r, step).store.rows[id] == RowAfterStep(r, step, id)
  {
    StepStoredAt(r, step, id);
  }

  /** A create appends one fresh row and saves its config, or changes nothing at all. */
  lemma CreateAppends(r: Roster, step: Step)
    requires Inv(r) && step.DoCreate? && Enabled(r, step)
    ensures var r' := Next(r, step);
            if !step.io.writeOk then r' == r
            else
              && r'.sessions == r.sessions + [Fresh(step.id)]
              && Ids(r'.sessions) == Ids(r.sessions) + [step.id] == r'.store.instanceIds
              && r'.store.rows == r.store.rows[step.id := step.config]
  {
    if step.io.writeOk {
      assert Ids(r.sessions + [Fresh(step.id)]) == Ids(r.sessions) + [step.id];
    }
  }

  /** A create or a completed delete whose read of the panel record fails, and whose write succeeds, wipes the
      other panel fields; with a failing write the whole store stays as it is. */
  lemma FailedReadWipesFields(r: Roster, step: Step, id: string)
    requires Inv(r) && ((step.DoCreate? && Enabled(r, step)) || (Has(r.sessions, id) && Leaves(r, step, id)))
    ensures step.io.writeOk ==> Next(r, step).store.fields == if step.io.readOk then r.store.fields else ""
    ensures !step.io.writeOk ==> Next(r, step).store == r.store
  {
    if step.DeliverCompletion? { SetAt(r.sessions, TakeCompletion(At(r.sessions, id)), id); }
  }

  /** The step that takes a row off the roster takes its config with it, when the write succeeds,
      and leaves every other row of the roster in place and in order. */
  lemma DeletedConfigGone(r: Roster, step: Step, id: string)
    requires Inv(r) && Has(r.sessions, id) && Leaves(r, step, id)
    ensures step.io.writeOk ==> id !in Next(r, step).store.rows && id !in Next(r, step).store.instanceIds
    ensures Next(r, step).sessions == RemoveRow(r.sessions, id)
  {
    RemovedIds(r.sessions, id);
    if !step.DoDelete? {
      SetThenRemove(r.sessions, TakeCompletion(At(r.sessions, id)));
    }
  }

  lemma SetThenRemove(ss: seq<Session>, s: Session)
    requires Distinct(ss) && Has(ss, s.id)
    ensures Has(Set(ss, s), s.id) && RemoveRow(Set(ss, s), s.id) == RemoveRow(ss, s.id)
  {
    SetAt(ss, s, s.id);
    SetEffectDistinct(ss, s);
  }

  lemma RemovedIds(ss: seq<Session>, id: string)
    requires Distinct(ss) && Has(ss, id)
    ensures id !in Ids(RemoveRow(ss, id))
  {
    var rest := RemoveRow(ss, id);
    RemoveKeepsOthers(ss, id, id);
    forall i | 0 <= i < |rest| ensures rest[i].id != id {
      assert rest[i].id == id ==> Has(rest, id);
    }
  }

  // ----- whole runs -----------------------------------------------------------------------

  /** The other panel fields as last written by anyone. */
  function LastFields(fields: Fields, steps: seq<Step>): Fields
    decreases |steps|
  {
    if steps == [] then fields
    else LastFields(if steps[0].WriteFields? then steps[0].fields else fields, steps[1..])
  }

  predicate AllHealthy(steps: seq<Step>) {
    forall i :: 0 <= i < |steps| ==> Healthy(steps[i])
  }

  /** While reads and writes succeed, the disk always holds the live roster in order, and the
      other panel fields as last written. */
  lemma {:induction false} RunStored(r: Roster, steps: seq<Step>)
    requires Inv(r) && Stored(r) && AllHealthy(steps)
    ensures Stored(Run(r, steps))
    ensures Run(r, steps).store.fields == LastFields(r.store.fields, steps)
    decreases |steps|
  {
    if steps != [] {
      StepStored(r, steps[0]);
      NextInv(r, steps[0]);
      RunStored(Next(r, steps[0]), steps[1..]);
    }
  }

  lemma {:induction false} LoadAll(store: Store, ids: seq<string>)
    requires forall i :: 0 <= i < |ids| ==> ids[i] in store.rows
    ensures Ids(Load(store, ids)) == ids
    decreases |ids|
  {
    if ids != [] {
      var n := |ids| - 1;
      LoadAll(store, ids[..n]);
      var front := Load(store, ids[..n]);
      assert Ids(front + [Fresh(ids[n])]) == Ids(front) + [ids[n]];
      assert ids == ids[..n] + [ids[n]];
    }
  }

  /** What a start loads: in the stored order exactly the ids that have a row, each as a fresh session. `at`
      are their places in the stored order. */
  lemma {:induction false} LoadKeepsRows(store: Store, ids: seq<string>) returns (at: seq<nat>)
    ensures |at| == |Load(store, ids)|
    ensures forall i, j :: 0 <= i < j < |at| ==> at[i] < at[j]
    ensures forall i :: 0 <= i < |at| ==> at[i] < |ids| && ids[at[i]] in store.rows && Load(store, ids)[i] == Fresh(ids[at[i]])
    ensures forall k :: 0 <= k < |ids| && ids[k] in store.rows ==> k in at
    decreases |ids|
  {
    at := [];
    if ids != [] {
      var n := |ids| - 1;
      at := LoadKeepsRows(store, ids[..n]);
      if ids[n] in store.rows { at := at + [n]; }
    }
  }

  /** The roster after a restart of the panel: no renderer runs and nothing is pending. */
  function Restarted(store: Store): Roster {
    Roster(Load(store, store.instanceIds), {}, false, 0, [], store)
  }

  lemma {:induction false} LoadFresh(store: Store, ids: seq<string>)
    ensures forall i :: 0 <= i < |Load(store, ids)| ==> Load(store, ids)[i] == Fresh(Load(store, ids)[i].id)
    decreases |ids|
  {
    if ids != [] { LoadFresh(store, ids[..|ids| - 1]); }
  }

  lemma DistinctIds(a: seq<Session>, b: seq<Session>)
    requires Ids(a) == Ids(b) && Distinct(a)
    ensures Distinct(b) && forall x :: Has(a, x) <==> Has(b, x)
  {
    assert forall i :: 0 <= i < |a| ==> a[i].id == Ids(a)[i] == b[i].id;
    forall x ensures Has(a, x) <==> Has(b, x) {
      SameIdsSameRow(a, b, x);
    }
  }

  /** A restart rebuilds the same id sequence, in a state from which everything proved about runs
      holds again. */
  lemma RestartRebuilds(r: Roster)
    requires Inv(r) && Stored(r)
    ensures var r' := Restarted(r.store); Ids(r'.sessions) == Ids(r.sessions) && Inv(r') && Stored(r')
  {
    var r' := Restarted(r.store);
    forall i | 0 <= i < |r.sessions| ensures r.store.instanceIds[i] in r.store.rows {
      assert Has(r.sessions, r.sessions[i].id);
    }
    LoadAll(r.store, r.store.instanceIds);
    LoadFresh(r.store, r.store.instanceIds);
    DistinctIds(r.sessions, r'.sessions);
    forall x ensures InvAt(r', x) {
    }
    InvByIds(r');
  }

  /** Several lives of the panel, each a run, with a restart between one and the next. */
  function Lives(r: Roster, lives: seq<seq<Step>>): Roster
    decreases |lives|
  {
    if lives == [] then r else Lives(Restarted(Run(r, lives[0]).store), lives[1..])
  }

  /** Over any number of restarts the roster survives in order, from the first start on. */
  lemma {:induction false} LivesStored(r: Roster, lives: seq<seq<Step>>)
    requires Inv(r) && Stored(r) && forall i :: 0 <= i < |lives| ==> AllHealthy(lives[i])
    ensures Inv(Lives(r, lives)) && Stored(Lives(r, lives))
    decreases |lives|
  {
    if lives != [] {
      RunInv(r, lives[0]);
      RunStored(r, lives[0]);
      RestartRebuilds(Run(r, lives[0]));
      LivesStored(Restarted(Run(r, lives[0]).store), lives[1..]);
    }
  }

  /** A restart at any point of such a run rebuilds the same roster in the same order. */
  lemma ReloadRebuilds(lives: seq<seq<Step>>, steps: seq<Step>)
    requires (forall i :: 0 <= i < |lives| ==> AllHealthy(lives[i])) && AllHealthy(steps)
    ensures var r := Run(Lives(EMPTY, lives), steps);
            Ids(Load(r.store, r.store.instanceIds)) == Ids(r.sessions)
  {
    LivesStored(EMPTY, lives);
    RunInv(Lives(EMPTY, lives), steps);
    RunStored(Lives(EMPTY, lives), steps);
    RestartRebuilds(Run(Lives(EMPTY, lives), steps));
  }

  /** A stored order that drifted is repaired by the next create or completed delete whose write
      succeeds, whatever was stored before. */
  lemma {:induction false} NextChangeHeals(r: Roster, step: Step)
    requires Inv(r) && Enabled(r, step)
    requires (step.DoCreate? || step.DoDelete? || step.DeliverCompletion?) && step.io.writeOk
    requires |Next(r, step).sessions| != |r.sessions|
    ensures Next(r, step).store.instanceIds == Ids(Next(r, step).sessions)
  {
    if step.DeliverCompletion? {
      SetAt(r.sessions, TakeCompletion(At(r.sessions, step.id)), step.id);
    }
  }
}
