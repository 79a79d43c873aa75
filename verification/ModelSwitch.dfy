// Model switches of one session: the in-flight flag, the rollback of a rejected switch, and what is
// on disk.
module ModelSwitch {

  /** A model by name and domain (the empty scope is the host domain), with the resolved path that
      the session tracks for it. */
  datatype Model = Model(name: string, scope: string, path: string)

  /** What the session keeps in its config file. */
  datatype Saved = Saved(name: string, scope: string)

  datatype State = State(
    model: Model,
    before: Model,            // as recorded when the in-flight flag rose
    inFlight: bool,
    connected: bool,
    loaded: bool,
    failures: nat,
    disk: Saved,
    wire: seq<(string, string)>)  // load_model commands sent: name and path

  function Key(m: Model): Saved { Saved(m.name, m.scope) }

  /** resolveScopedModel(): only a scoped model has a path; the empty path is a miss. */
  function Resolve(scope: string, found: string): string {
    if scope == "" then "" else found
  }

  /** A save of the current config; a failing one leaves the file alone. */
  function Save(s: State, ok: bool): State {
    if ok then s.(disk := Key(s.model)) else s
  }

  /** applyModelLoadFailure() */
  function Fail(s: State, saveOk: bool): State {
    var cleared := s.(loaded := false, failures := s.failures + 1, model := s.model.(path := ""));
    if !s.inFlight then cleared
    else if Key(s.model) == Key(s.before) then cleared.(inFlight := false)
    else Save(cleared.(inFlight := false, model := s.before), saveOk)
  }

  /** loadModel() up to the connection check. */
  function Begin(s: State, name: string, scope: string, saveOk: bool): State {
    Save(s.(before := if s.inFlight then s.before else s.model,
            inFlight := true,
            model := Model(name, scope, s.model.path),
            loaded := false), saveOk)
  }

  /** The scoped resolver finds nothing for a connected session. */
  predicate Misses(s: State, scope: string, found: string) {
    s.connected && scope != "" && found == ""
  }

  /** loadModel(): `found` is what the resolver finds for a scoped model, `rollbackOk` says whether
      the save of a local rollback succeeds. */
  function Switch(s: State, name: string, scope: string, found: string, saveOk: bool, rollbackOk: bool): State {
    var s1 := Begin(s, name, scope, saveOk);
    if !s.connected then s1
    else if Misses(s, scope, found) then Fail(s1, rollbackOk)
    else s1.(model := Model(name, scope, Resolve(scope, found)), wire := s.wire + [(name, Resolve(scope, found))])
  }

  /** The ready handler: connected, and the startup salvo sends the configured model. */
  function Ready(s: State, found: string): State {
    var path := Resolve(s.model.scope, found);
    s.(connected := true, model := s.model.(path := path), wire := s.wire + [(s.model.name, path)])
  }

  /** The model_loaded handler. */
  function Confirm(s: State): State { s.(loaded := true, inFlight := false) }

  datatype Step =
    | DoSwitch(name: string, scope: string, found: string, saveOk: bool, rollbackOk: bool)
    | DoReady(found: string)
    | DoConfirm
    | DoFail(saveOk: bool)
    | Connection(up: bool)
    | Down   // stop or unexpected exit

  function Next(s: State, step: Step): State {
    match step
    case DoSwitch(name, scope, found, saveOk, rollbackOk) => Switch(s, name, scope, found, saveOk, rollbackOk)
    case DoReady(found) => Ready(s, found)
    case DoConfirm => Confirm(s)
    case DoFail(saveOk) => Fail(s, saveOk)
    case Connection(up) => s.(connected := up)
    case Down => s.(connected := false, loaded := false)
  }

  function Run(s: State, steps: seq<Step>): State
    decreases |steps|
  {
    if steps == [] then s else Next(Run(s, steps[..|steps| - 1]), steps[|steps| - 1])
  }

  // ----- the in-flight flag against the history ----------------------------------------------

  /** The model of the session just before the in-flight flag last rose, read off the history. */
  function AtLastRise(s: State, steps: seq<Step>): Model
    decreases |steps|
  {
    if steps == [] then s.before
    else
      var front := steps[..|steps| - 1];
      if steps[|steps| - 1].DoSwitch? && !Run(s, front).inFlight then Run(s, front).model
      else AtLastRise(s, front)
  }

  /** The recorded model changes only when the flag rises. */
  lemma BeforeStep(s: State, step: Step)
    ensures Next(s, step).before == if step.DoSwitch? && !s.inFlight then s.model else s.before
  {
  }

  lemma {:induction false} BeforeIsLastRise(s: State, steps: seq<Step>)
    ensures Run(s, steps).before == AtLastRise(s, steps)
    decreases |steps|
  {
    if steps != [] {
      BeforeIsLastRise(s, steps[..|steps| - 1]);
      BeforeStep(Run(s, steps[..|steps| - 1]), steps[|steps| - 1]);
    }
  }

  /** A failure during a switch puts name and scope back to what they were when the flag last rose,
      in memory always and on disk when the saves succeed; the tracked path comes back with them
      exactly when the rejected model was another one, or there was no path. */
  lemma RejectedSwitchRollsBack(s: State, steps: seq<Step>, saveOk: bool)
    requires Run(s, steps).inFlight
    ensures var rise, s1, s2 := AtLastRise(s, steps), Run(s, steps), Next(Run(s, steps), DoFail(saveOk));
            && !s2.inFlight
            && Key(s2.model) == Key(rise)
            && (s2.model == rise <==> Key(s1.model) != Key(rise) || rise.path == "")
            && (saveOk && s1.disk == Key(s1.model) ==> s2.disk == Key(rise))
  {
    BeforeIsLastRise(s, steps);
  }

  /** A scoped switch that does not resolve is rejected on the spot, with the same rollback. */
  lemma LocalMissRollsBack(s: State, steps: seq<Step>, last: Step)
    requires last.DoSwitch? && Misses(Run(s, steps), last.scope, last.found)
    ensures var all := steps + [last]; var s2 := Run(s, all);
            && !s2.inFlight && s2.wire == Run(s, steps).wire
            && Key(s2.model) == Key(AtLastRise(s, all))
            && (last.rollbackOk && last.saveOk ==> s2.disk == Key(s2.model))
  {
    var all := steps + [last];
    assert all[..|all| - 1] == steps && all[|all| - 1] == last;
    assert Run(s, all) == Next(Run(s, steps), last);
    BeforeIsLastRise(s, all);
    MissStep(Run(s, steps), last);
  }

  lemma MissStep(s: State, step: Step)
    requires step.DoSwitch? && Misses(s, step.scope, step.found)
    ensures var s2 := Next(s, step);
            && !s2.inFlight && s2.wire == s.wire && Key(s2.model) == Key(s2.before)
            && (step.rollbackOk && step.saveOk ==> s2.disk == Key(s2.model))
  {
  }

  /** Nothing that could be a verdict: no confirmation, no failure, no local miss. */
  predicate NoVerdict(s: State, steps: seq<Step>)
    decreases |steps|
  {
    steps == []
    || (var front, last := steps[..|steps| - 1], steps[|steps| - 1];
        && NoVerdict(s, front)
        && !last.DoConfirm? && !last.DoFail?
        && (last.DoSwitch? ==> !Misses(Run(s, front), last.scope, last.found)))
  }

  /** Before any verdict, the flag is up exactly when there was a switch, and then it remembers the
      name and scope of the start. */
  lemma {:induction false} UnconfirmedChain(s: State, steps: seq<Step>)
    requires !s.inFlight && NoVerdict(s, steps)
    ensures Run(s, steps).inFlight <==> exists i :: 0 <= i < |steps| && steps[i].DoSwitch?
    ensures Run(s, steps).inFlight ==> Key(Run(s, steps).before) == Key(s.model)
    ensures !Run(s, steps).inFlight ==> Key(Run(s, steps).model) == Key(s.model)
    decreases |steps|
  {
    if steps != [] {
      var n := |steps| - 1;
      UnconfirmedChain(s, steps[..n]);
      assert forall i :: 0 <= i < n ==> steps[..n][i] == steps[i];
    }
  }

  /** However long the unconfirmed chain, its failure returns to the model before its first switch. */
  lemma {:induction false} ChainFailureReturnsToStart(s: State, steps: seq<Step>, saveOk: bool)
    requires !s.inFlight && NoVerdict(s, steps)
    ensures Key(Next(Run(s, steps), DoFail(saveOk)).model) == Key(s.model)
  {
    UnconfirmedChain(s, steps);
  }

  /** Without a switch, no run of failures, confirmations and restarts moves name, scope or disk. */
  lemma {:induction false} NoSwitchNoChange(s: State, steps: seq<Step>)
    requires !s.inFlight && forall i :: 0 <= i < |steps| ==> !steps[i].DoSwitch?
    ensures var s' := Run(s, steps); !s'.inFlight && Key(s'.model) == Key(s.model) && s'.disk == s.disk
    decreases |steps|
  {
    if steps != [] { NoSwitchNoChange(s, steps[..|steps| - 1]); }
  }

  /** The step at `i` answers whatever is in flight: a confirmation, a failure, or a local miss. */
  predicate VerdictAt(s: State, steps: seq<Step>, i: nat) {
    i < |steps|
    && (|| steps[i].DoConfirm? || steps[i].DoFail?
        || (steps[i].DoSwitch? && Misses(Run(s, steps[..i]), steps[i].scope, steps[i].found)))
  }

  /** A switch at `i` that nothing has answered since. */
  ghost predicate OpenSince(s: State, steps: seq<Step>, i: nat) {
    i < |steps| && steps[i].DoSwitch? && forall k: nat :: i <= k < |steps| ==> !VerdictAt(s, steps, k)
  }

  /** Read off the history: some switch, or the one in flight at the start, is still open. */
  ghost predicate Open(s: State, steps: seq<Step>) {
    || (s.inFlight && forall k: nat :: k < |steps| ==> !VerdictAt(s, steps, k))
    || exists i: nat :: OpenSince(s, steps, i)
  }

  lemma {:induction false} FlagIsOpen(s: State, steps: seq<Step>)
    ensures Run(s, steps).inFlight <==> Open(s, steps)
    decreases |steps|
  {
    if steps != [] {
      FlagIsOpen(s, steps[..|steps| - 1]);
      FlagStep(Run(s, steps[..|steps| - 1]), steps[|steps| - 1]);
      OpenStep(s, steps);
    }
  }

  lemma FlagStep(s: State, step: Step)
    ensures Next(s, step).inFlight <==>
            && !step.DoConfirm? && !step.DoFail? && (step.DoSwitch? ==> !Misses(s, step.scope, step.found))
            && (s.inFlight || step.DoSwitch?)
  {
  }

  lemma OpenStep(s: State, steps: seq<Step>)
    requires steps != []
    ensures var n := |steps| - 1;
            Open(s, steps) <==> !VerdictAt(s, steps, n) && (Open(s, steps[..n]) || steps[n].DoSwitch?)
  {
    var n := |steps| - 1;
    forall k: nat | k < n ensures VerdictAt(s, steps, k) <==> VerdictAt(s, steps[..n], k) {
      assert steps[..n][..k] == steps[..k];
    }
    if i: nat :| OpenSince(s, steps, i) {
      if i < n { assert OpenSince(s, steps[..n], i); }
    }
    if !VerdictAt(s, steps, n) {
      if i: nat :| OpenSince(s, steps[..n], i) {
        assert OpenSince(s, steps, i);
      }
      if steps[n].DoSwitch? { assert OpenSince(s, steps, n); }
    }
  }

  /** Over any run, a failure brings back the model from before the switch exactly when some switch is
      still open, or the model is that one already. */
  lemma FailureRollsBackIff(s: State, steps: seq<Step>, saveOk: bool)
    ensures var rise, now := AtLastRise(s, steps), Run(s, steps);
            Key(Next(now, DoFail(saveOk)).model) == Key(rise) <==> Open(s, steps) || Key(now.model) == Key(rise)
  {
    BeforeIsLastRise(s, steps);
    FlagIsOpen(s, steps);
  }

  predicate Verdict(step: Step) { step.DoConfirm? || step.DoFail? }

  /** The first verdict decides: later ones move neither name nor scope nor disk. A late
      confirmation of an earlier switch is such a first verdict, and then the failure of the newer
      model no longer rolls back. */
  lemma {:induction false} FirstVerdictDecides(s: State, verdicts: seq<Step>)
    requires s.inFlight && verdicts != [] && forall i :: 0 <= i < |verdicts| ==> Verdict(verdicts[i])
    ensures var s' := Run(s, verdicts);
            && !s'.inFlight
            && Key(s'.model) == (if verdicts[0].DoFail? then Key(s.before) else Key(s.model))
            && s'.disk == Run(s, verdicts[..1]).disk
    decreases |verdicts|
  {
    var n := |verdicts| - 1;
    if n == 0 {
      assert verdicts[..0] == [];
      assert verdicts[..1] == verdicts;
    } else {
      FirstVerdictDecides(s, verdicts[..n]);
      assert verdicts[..n][..1] == verdicts[..1];
    }
  }

  /** The switch to `wanted`, answered by the late confirmation of an earlier switch and then by its
      own failure, ends with the failed model in memory and on disk. */
  lemma LateConfirmationKeepsFailedModel(s: State, wanted: Saved, found: string, saveOk: bool)
    requires s.inFlight && s.connected && (wanted.scope == "" || found != "")
    ensures var s1 := Switch(s, wanted.name, wanted.scope, found, true, true);
            var s2 := Run(s1, [DoConfirm, DoFail(saveOk)]);
            Key(s2.model) == wanted && s2.disk == wanted
  {
    var s1 := Switch(s, wanted.name, wanted.scope, found, true, true);
    var verdicts := [DoConfirm, DoFail(saveOk)];
    FirstVerdictDecides(s1, verdicts);
    assert verdicts[..1] == [DoConfirm] && [DoConfirm][..0] == [];
  }

  // ----- witnesses ---------------------------------------------------------------------------

  /** A new session. */
  function New(name: string, scope: string): State {
    State(Model(name, scope, ""), Model("", "", ""), false, false, false, 0, Saved(name, scope), [])
  }

  /** A connected session with a switch in flight is reached, from any configured model by any switch. */
  lemma InFlightReachable(name: string, scope: string, found: string, wanted: Saved, foundWanted: string)
    requires wanted.scope == "" || foundWanted != ""
    ensures var s := Run(New(name, scope), [DoReady(found), DoSwitch(wanted.name, wanted.scope, foundWanted, true, true)]);
            s.inFlight && s.connected && Key(s.model) == wanted && Key(s.before) == Saved(name, scope)
  {
    var ready, both := [DoReady(found)], [DoReady(found), DoSwitch(wanted.name, wanted.scope, foundWanted, true, true)];
    assert both[..1] == ready && ready[..0] == [];
    assert Run(New(name, scope), ready) == Ready(New(name, scope), found);
    assert Run(New(name, scope), both) == Next(Ready(New(name, scope), found), both[1]);
  }

  // ----- the status flags against the history ------------------------------------------------

  /** Some step of the run sets a flag and none after it clears it, or it was set before and none does. */
  ghost predicate SetSince(steps: seq<Step>, sets: Step -> bool, clears: Step -> bool, before: bool) {
    || (before && forall i :: 0 <= i < |steps| ==> !clears(steps[i]))
    || exists k: nat :: SetAt(steps, sets, clears, k)
  }

  ghost predicate SetAt(steps: seq<Step>, sets: Step -> bool, clears: Step -> bool, k: nat) {
    k < |steps| && sets(steps[k]) && forall i :: k < i < |steps| ==> !clears(steps[i])
  }

  lemma SetSinceStep(steps: seq<Step>, sets: Step -> bool, clears: Step -> bool, before: bool)
    requires steps != []
    ensures var (front, last) := (steps[..|steps| - 1], steps[|steps| - 1]);
            SetSince(steps, sets, clears, before) <==> sets(last) || (SetSince(front, sets, clears, before) && !clears(last))
  {
    var n := |steps| - 1;
    if k: nat :| SetAt(steps, sets, clears, k) {
      if k < n { assert SetAt(steps[..n], sets, clears, k); }
    }
    if k: nat :| SetAt(steps[..n], sets, clears, k) && !clears(steps[n]) {
      assert forall i :: k < i < n ==> steps[i] == steps[..n][i];
      assert SetAt(steps, sets, clears, k);
    }
    if before && SetSince(steps[..n], sets, clears, before) && !clears(steps[n]) {
      assert forall i :: 0 <= i < n ==> steps[i] == steps[..n][i];
    }
    if sets(steps[n]) { assert SetAt(steps, sets, clears, n); }
  }

  /** The model is loaded exactly when a confirmation came last among confirmations, failures, switches and
      losses of the renderer. */
  lemma {:induction false} LoadedIsHistory(s: State, steps: seq<Step>)
    ensures Run(s, steps).loaded <==>
            SetSince(steps, (step: Step) => step.DoConfirm?,
                     (step: Step) => step.DoFail? || step.DoSwitch? || step.Down?, s.loaded)
    decreases |steps|
  {
    if steps != [] {
      LoadedIsHistory(s, steps[..|steps| - 1]);
      LoadedStep(Run(s, steps[..|steps| - 1]), steps[|steps| - 1]);
      SetSinceStep(steps, (step: Step) => step.DoConfirm?,
                   (step: Step) => step.DoFail? || step.DoSwitch? || step.Down?, s.loaded);
    }
  }

  lemma LoadedStep(s: State, step: Step)
    ensures Next(s, step).loaded <==>
            step.DoConfirm? || (s.loaded && !(step.DoFail? || step.DoSwitch? || step.Down?))
  {
  }

  /** The session is connected exactly when its last word from the renderer's side was a connect or ready. */
  lemma {:induction false} ConnectedIsHistory(s: State, steps: seq<Step>)
    ensures Run(s, steps).connected <==>
            SetSince(steps, (step: Step) => step.DoReady? || step == Connection(true),
                     (step: Step) => step.Down? || step == Connection(false), s.connected)
    decreases |steps|
  {
    if steps != [] {
      ConnectedIsHistory(s, steps[..|steps| - 1]);
      SetSinceStep(steps, (step: Step) => step.DoReady? || step == Connection(true),
                   (step: Step) => step.Down? || step == Connection(false), s.connected);
    }
  }

  /** The failures of a run: reported ones, and connected switches to a scoped model that is not found. */
  function Failures(s: State, steps: seq<Step>): nat
    decreases |steps|
  {
    if steps == [] then 0
    else
      var front, last := steps[..|steps| - 1], steps[|steps| - 1];
      Failures(s, front)
      + if last.DoFail? || (last.DoSwitch? && Run(s, front).connected && last.scope != "" && last.found == "") then 1 else 0
  }

  lemma {:induction false} EveryFailureCounts(s: State, steps: seq<Step>)
    ensures Run(s, steps).failures == s.failures + Failures(s, steps)
    decreases |steps|
  {
    if steps != [] {
      EveryFailureCounts(s, steps[..|steps| - 1]);
      FailureStep(Run(s, steps[..|steps| - 1]), steps[|steps| - 1]);
    }
  }

  lemma FailureStep(s: State, step: Step)
    ensures Next(s, step).failures ==
            s.failures
            + if step.DoFail? || (step.DoSwitch? && s.connected && step.scope != "" && step.found == "") then 1 else 0
  {
  }

  /** While no save succeeds the config file stays as it is. */
  lemma {:induction false} FailedSavesKeepFile(s: State, steps: seq<Step>)
    requires forall i :: 0 <= i < |steps| ==>
               (steps[i].DoSwitch? ==> !steps[i].saveOk && !steps[i].rollbackOk) && (steps[i].DoFail? ==> !steps[i].saveOk)
    ensures Run(s, steps).disk == s.disk
    decreases |steps|
  {
    if steps != [] { FailedSavesKeepFile(s, steps[..|steps| - 1]); }
  }

  // ----- disk and wire over whole runs -------------------------------------------------------

  predicate SavesSucceed(steps: seq<Step>) {
    forall i :: 0 <= i < |steps| ==>
                  (steps[i].DoSwitch? ==> steps[i].saveOk && steps[i].rollbackOk)
                  && (steps[i].DoFail? ==> steps[i].saveOk)
  }

  lemma DiskStep(s: State, step: Step)
    requires SavesSucceed([step]) && s.disk == Key(s.model)
    ensures Next(s, step).disk == Key(Next(s, step).model)
  {
    assert [step][0] == step;
  }

  /** While saves succeed, the config file always names the model in memory. */
  lemma {:induction false} DiskFollowsMemory(s: State, steps: seq<Step>)
    requires SavesSucceed(steps) && s.disk == Key(s.model)
    ensures Run(s, steps).disk == Key(Run(s, steps).model)
    decreases |steps|
  {
    if steps != [] {
      var n := |steps| - 1;
      DiskFollowsMemory(s, steps[..n]);
      DiskStep(Run(s, steps[..n]), steps[n]);
    }
  }

  /** The steps that send a command: ready, and a connected switch whose model resolves. */
  predicate Sends(s: State, step: Step) {
    step.DoReady? || (step.DoSwitch? && s.connected && (step.scope == "" || step.found != ""))
  }

  /** A sending step sends one command, for the model it leaves in memory: the requested one after a switch,
      the configured one at ready, with the path found for a scoped model and none otherwise. No other step
      sends anything. */
  lemma SendsExactly(s: State, step: Step)
    ensures var s' := Next(s, step);
            && s'.wire == s.wire + (if Sends(s, step) then [(s'.model.name, s'.model.path)] else [])
            && (Sends(s, step) && step.DoSwitch? ==>
                  s'.model == Model(step.name, step.scope, if step.scope == "" then "" else step.found))
            && (step.DoSwitch? && !s.connected ==> s'.model == Model(step.name, step.scope, s.model.path))
            && (step.DoReady? ==>
                  s'.connected
                  && s'.model == Model(s.model.name, s.model.scope, if s.model.scope == "" then "" else step.found))
  {
  }

  /** The last command names the model in memory, with its path. */
  predicate Told(s: State) {
    s.wire != [] && s.wire[|s.wire| - 1] == (s.model.name, s.model.path)
  }

  /** Some step sent a command, and since then nothing failed and no switch went unsent. */
  ghost predicate Undisturbed(s: State, steps: seq<Step>) {
    exists k: nat :: SentSince(s, steps, k)
  }

  ghost predicate SentSince(s: State, steps: seq<Step>, k: nat) {
    && k < |steps| && Sends(Run(s, steps[..k]), steps[k])
    && forall i :: k < i < |steps| ==> !steps[i].DoFail? && !steps[i].DoSwitch?
  }

  /** Over every run, the last command names the model in memory when no failure and no unsent switch came
      after it. */
  lemma LastCommandNamesModel(s: State, steps: seq<Step>)
    requires Undisturbed(s, steps)
    ensures Told(Run(s, steps))
  {
    var k: nat :| SentSince(s, steps, k);
    SentTells(s, steps, k);
  }

  lemma {:induction false} SentTells(s: State, steps: seq<Step>, k: nat)
    requires SentSince(s, steps, k)
    ensures Told(Run(s, steps))
    decreases |steps|
  {
    var n := |steps| - 1;
    if k < n {
      SentEarlier(s, steps, k);
      SentTells(s, steps[..n], k);
    }
    TellStep(Run(s, steps[..n]), steps[n]);
  }

  lemma SentEarlier(s: State, steps: seq<Step>, k: nat)
    requires SentSince(s, steps, k) && k < |steps| - 1
    ensures SentSince(s, steps[..|steps| - 1], k)
  {
    assert steps[..|steps| - 1][..k] == steps[..k];
  }

  lemma TellStep(s: State, step: Step)
    requires Sends(s, step) || (Told(s) && !step.DoFail? && !step.DoSwitch?)
    ensures Told(Next(s, step))
  {
    SendsExactly(s, step);
  }

  /** One step, exactly: a command brings wire and memory together; otherwise they part when and only when
      the step changes name or path in memory. */
  lemma ToldStepIff(s: State, step: Step)
    requires Told(s)
    ensures var s' := Next(s, step);
            Told(s') <==> Sends(s, step) || (s'.model.name == s.model.name && s'.model.path == s.model.path)
  {
    SendsExactly(s, step);
  }

  /** Being connected again is not enough: after a switch made offline, a reconnect without ready leaves the
      old model on the wire. */
  lemma ReconnectKeepsOldCommand(name: string, wanted: string)
    requires name != wanted
    ensures var offline := DoSwitch(wanted, "", "", true, true);
            var s := Run(New(name, ""), [DoReady(""), Connection(false), offline, Connection(true)]);
            s.connected && s.wire == [(name, "")] && s.model.name == wanted && !Told(s)
  {
    var offline := DoSwitch(wanted, "", "", true, true);
    var steps := [DoReady(""), Connection(false), offline, Connection(true)];
    assert steps[..3] == [DoReady(""), Connection(false), offline];
    assert steps[..3][..2] == [DoReady(""), Connection(false)] && steps[..2][..1] == [DoReady("")];
    assert steps[..3][..2][..1] == [DoReady("")] && [DoReady("")][..0] == [];
    var s1 := Ready(New(name, ""), "");
    assert Run(New(name, ""), [DoReady("")]) == s1;
    assert Run(New(name, ""), steps[..3][..2]) == s1.(connected := false);
    assert Run(New(name, ""), steps[..3]) == Next(s1.(connected := false), offline);
  }

  predicate OnWire(s: State, path: string) {
    path == "" || exists i :: 0 <= i < |s.wire| && s.wire[i].1 == path
  }

  lemma LongerWire(s: State, s': State, path: string)
    requires OnWire(s, path) && s.wire <= s'.wire
    ensures OnWire(s', path)
  {
    if path != "" {
      var i :| 0 <= i < |s.wire| && s.wire[i].1 == path;
      assert s'.wire[i].1 == path;
    }
  }

  /** A step sends at most one command, and then tracks its path; otherwise the tracked path is the
      old one, the recorded one or empty. */
  lemma WireStep(s: State, step: Step)
    ensures var s' := Next(s, step);
            && (s'.model.path in ["", s.model.path, s.before.path]
                || s'.wire == s.wire + [(s'.model.name, s'.model.path)])
            && s'.before.path in [s.model.path, s.before.path]
            && s.wire <= s'.wire
  {
    SendsExactly(s, step);
  }

  /** The tracked path, and the one a rollback would bring back, were really sent to the renderer. */
  lemma {:induction false} TrackedPathWasSent(s: State, steps: seq<Step>)
    requires OnWire(s, s.model.path) && OnWire(s, s.before.path)
    ensures OnWire(Run(s, steps), Run(s, steps).model.path) && OnWire(Run(s, steps), Run(s, steps).before.path)
    decreases |steps|
  {
    if steps != [] {
      var n := |steps| - 1;
      TrackedPathWasSent(s, steps[..n]);
      PathStep(Run(s, steps[..n]), steps[n]);
    }
  }

  lemma PathStep(s: State, step: Step)
    requires OnWire(s, s.model.path) && OnWire(s, s.before.path)
    ensures var s' := Next(s, step); OnWire(s', s'.model.path) && OnWire(s', s'.before.path)
  {
    var s' := Next(s, step);
    WireStep(s, step);
    LongerWire(s, s', s.model.path);
    LongerWire(s, s', s.before.path);
    if s'.wire == s.wire + [(s'.model.name, s'.model.path)] {
      assert s'.wire[|s.wire|].1 == s'.model.path;
    }
  }

  // ----- the session object -------------------------------------------------------------------

  class Session {
    var modelName: string
    var modelScope: string
    var currentModelJsonPath: string
    var modelNameBeforeSwitch: string
    var modelScopeBeforeSwitch: string
    var modelJsonPathBeforeSwitch: string
    var modelSwitchInFlight: bool
    var connected: bool
    var modelLoaded: bool
    var modelLoadFailureRevision: nat
    var disk: Saved
    var wire: seq<(string, string)>

    function Abs(): State
      reads this
    {
      State(Model(modelName, modelScope, currentModelJsonPath),
            Model(modelNameBeforeSwitch, modelScopeBeforeSwitch, modelJsonPathBeforeSwitch),
            modelSwitchInFlight, connected, modelLoaded, modelLoadFailureRevision, disk, wire)
    }

    constructor (name: string, scope: string)
      ensures Abs() == New(name, scope)
    {
      modelName, modelScope, currentModelJsonPath := name, scope, "";
      modelNameBeforeSwitch, modelScopeBeforeSwitch, modelJsonPathBeforeSwitch := "", "", "";
      modelSwitchInFlight, connected, modelLoaded := false, false, false;
      modelLoadFailureRevision := 0;
      disk, wire := Saved(name, scope), [];
    }

    /** loadModel() up to the connection check. */
    method BeginSwitch(name: string, scope: string, saveOk: bool)
      modifies this
      ensures Abs() == Begin(old(Abs()), name, scope, saveOk)
    {
      if !modelSwitchInFlight {
        modelNameBeforeSwitch := modelName;
        modelScopeBeforeSwitch := modelScope;
        modelJsonPathBeforeSwitch := currentModelJsonPath;
      }
      modelSwitchInFlight := true;
      modelName := name;
      modelScope := scope;
      SaveConfig(saveOk);
      modelLoaded := false;
    }

    method SaveConfig(ok: bool)
      modifies this`disk
      ensures disk == if ok then Saved(modelName, modelScope) else old(disk)
    {
      if ok {
        disk := Saved(modelName, modelScope);
      }
    }

    method LoadModel(name: string, scope: string, found: string, saveOk: bool, rollbackOk: bool)
      modifies this
      ensures Abs() == Switch(old(Abs()), name, scope, found, saveOk, rollbackOk)
      ensures old(connected) && (scope == "" || found != "") ==>
                wire == old(wire) + [(name, currentModelJsonPath)] && modelName == name && modelScope == scope
                && currentModelJsonPath == if scope == "" then "" else found
      ensures !old(connected) || (scope != "" && found == "") ==> wire == old(wire)
    {
      BeginSwitch(name, scope, saveOk);
      if !connected {
        return;
      }
      var resolvedPath := "";
      if scope != "" {
        resolvedPath := found;
        if resolvedPath == "" {
          ApplyModelLoadFailure(rollbackOk);
          return;
        }
      }
      currentModelJsonPath := resolvedPath;
      wire := wire + [(name, resolvedPath)];
    }

    method OnReady(found: string)
      modifies this
      ensures Abs() == Ready(old(Abs()), found)
      ensures wire == old(wire) + [(modelName, currentModelJsonPath)] && modelName == old(modelName)
      ensures currentModelJsonPath == if modelScope == "" then "" else found
    {
      connected := true;
      currentModelJsonPath := if modelScope == "" then "" else found;
      wire := wire + [(modelName, currentModelJsonPath)];
    }

    method OnModelLoaded()
      modifies this
      ensures Abs() == Confirm(old(Abs()))
    {
      modelLoaded := true;
      modelSwitchInFlight := false;
    }

    /** The renderer's socket came up or went down. */
    method OnConnectionStateChanged(up: bool)
      modifies this`connected
      ensures Abs() == Next(old(Abs()), Connection(up))
    {
      connected := up;
    }

    /** A stop, or an unexpected exit. */
    method OnRendererGone()
      modifies this
      ensures Abs() == Next(old(Abs()), Down)
    {
      connected, modelLoaded := false, false;
    }

    method ApplyModelLoadFailure(saveOk: bool)
      modifies this
      ensures Abs() == Fail(old(Abs()), saveOk)
    {
      modelLoadFailureRevision := modelLoadFailureRevision + 1;
      modelLoaded := false;
      currentModelJsonPath := "";
      if modelSwitchInFlight {
        modelSwitchInFlight := false;
        if modelName != modelNameBeforeSwitch || modelScope != modelScopeBeforeSwitch {
          RollBack(saveOk);
        }
      }
    }

    method RollBack(saveOk: bool)
      modifies this
      ensures Abs() == Save(old(Abs()).(model := old(Abs()).before), saveOk)
    {
      modelName := modelNameBeforeSwitch;
      modelScope := modelScopeBeforeSwitch;
      currentModelJsonPath := modelJsonPathBeforeSwitch;
      SaveConfig(saveOk);
    }
  }
}
