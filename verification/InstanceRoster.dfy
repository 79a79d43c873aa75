// InstanceSession and InstanceManager as objects updated in place, each method tied to its
// function in RosterModel.
module InstanceRoster {
  import opened RosterModel
  import opened RosterSafety

  /** The lifecycle of one session; the fields of its ProcessManager are inlined. */
  class InstanceSession {
    const id: string
    var running: bool
    var stopInFlight: bool
    var posted: nat
    var startQueued: bool
    var deletePending: bool

    function State(): Session
      reads this
    {
      Session(id, running, stopInFlight, posted, startQueued, deletePending)
    }

    constructor (id: string)
      ensures this.id == id && State() == Fresh(id)
    {
      this.id := id;
      running, stopInFlight, posted, startQueued, deletePending := false, false, 0, false, false;
    }

    /** `launchable`: the server listens and the renderer executable resolves. */
    method Start(launchable: bool)
      modifies this
      ensures State() == RosterModel.Start(old(State()), launchable)
    {
      if deletePending {
        return;
      }
      if stopInFlight {
        startQueued := true;
        return;
      }
      if !launchable {
        return;
      }
      if !running {
        running := true;
      }
    }

    method Stop()
      modifies this
      ensures State() == RosterModel.Stop(old(State()))
    {
      if stopInFlight {
        return;
      }
      if !running {
        posted := posted + 1;
        return;
      }
      stopInFlight := true;
    }

    method Restart()
      modifies this
      ensures State() == RosterModel.Restart(old(State()))
    {
      if deletePending {
        return;
      }
      startQueued := true;
      Stop();
    }

    method SetDeletePending()
      modifies this
      ensures State() == Doom(old(State()))
    {
      deletePending := true;
      startQueued := false;
    }

    /** The head of onProcessStopFinished(). */
    method ConsumeCompletion() returns (queued: bool)
      requires posted > 0
      modifies this
      ensures State() == TakeCompletion(old(State())) && queued == old(startQueued)
    {
      posted := posted - 1;
      queued := startQueued;
      startQueued := false;
    }

    method FinishStop()
      modifies this
      ensures State() == RosterModel.FinishStop(old(State()))
    {
      if !stopInFlight {
        return;
      }
      stopInFlight := false;
      posted := posted + 1;
    }

    method OnFinished()
      modifies this
      ensures State() == Exit(old(State()))
    {
      running := false;
      if stopInFlight {
        FinishStop();
      }
    }
  }

  function States(ss: seq<InstanceSession>): (r: seq<Session>)
    reads ss
    ensures |r| == |ss| && forall i :: 0 <= i < |ss| ==> r[i] == ss[i].State()
  {
    seq(|ss|, i requires 0 <= i < |ss| reads ss => ss[i].State())
  }

  function Forgotten(store: Store, id: string, ids: seq<string>, io: Io): Store {
    Reordered(if io.writeOk then store.(rows := store.rows - {id}) else store, ids, io)
  }

  /** The roster without one row, whose config is forgotten. */
  function Without(r: Roster, row: nat, id: string, io: Io): Roster
    requires row < |r.sessions|
  {
    var rest := r.sessions[..row] + r.sessions[row + 1..];
    Roster(rest, r.pending, r.wave, r.finished, r.removed + [r.sessions[row]], Forgotten(r.store, id, Ids(rest), io))
  }

  lemma FinishDeleteIs(r: Roster, id: string, io: Io)
    requires Has(r.sessions, id)
    ensures FinishDelete(r, id, io) == Without(r, Row(r.sessions, id), id, io)
  {
  }

  /** What a completion of `id` needs of the roster. */
  ghost predicate Answerable(r: Roster, id: string) {
    && Distinct(r.sessions) && Distinct(r.removed) && !(Has(r.sessions, id) && Has(r.removed, id))
    && (id in r.pending ==> Has(r.sessions, id) && !At(r.sessions, id).startQueued)
  }

  /** It holds in every run, for every id. */
  lemma InvAnswerable(r: Roster, id: string)
    requires Inv(r)
    ensures Answerable(r, id)
  {
  }

  /** The new state of a session, on or off the roster. */
  function Put(r: Roster, s: Session): Roster {
    if Has(r.sessions, s.id) then r.(sessions := Set(r.sessions, s)) else r.(removed := Set(r.removed, s))
  }

  /** The answer to a completion of `s`: consume it, let the manager account for it, relaunch. */
  function Answer(r: Roster, s: Session, launchable: bool, io: Io): Roster
    requires s.posted > 0
  {
    var r1 := OnStopFinished(Put(r, TakeCompletion(s)), s.id, io);
    if s.startQueued then Put(r1, RosterModel.Start(TakeCompletion(s), launchable)) else r1
  }

  /** It is the delivery step of the roster. */
  lemma AnswerIsDelivery(r: Roster, s: Session, launchable: bool, io: Io)
    requires Answerable(r, s.id) && s.posted > 0
    ensures Has(r.sessions, s.id) && At(r.sessions, s.id) == s ==>
              Answer(r, s, launchable, io) == Deliver(r, s.id, launchable, io)
    ensures Has(r.removed, s.id) && At(r.removed, s.id) == s ==>
              Answer(r, s, launchable, io) == DeliverRemoved(r, s.id, launchable, io)
  {
    if Has(r.sessions, s.id) && At(r.sessions, s.id) == s {
      SetAt(r.sessions, TakeCompletion(s), s.id);
      SetEffectDistinct(r.sessions, TakeCompletion(s));
      OnStopFinishedAt(Taken(r, s.id), s.id, io, s.id);
    } else if Has(r.removed, s.id) && At(r.removed, s.id) == s {
      SetAt(r.removed, TakeCompletion(s), s.id);
    }
  }

  /** The answer to a session kept in `ss` is that step. */
  predicate AnswersBy(r: Roster, s: Session, launchable: bool, io: Io, step: Step, ss: seq<Session>)
    requires s.posted > 0
  {
    Has(ss, s.id) && At(ss, s.id) == s ==> Answer(r, s, launchable, io) == Next(r, step)
  }

  lemma AnswersByDelivery(r: Roster, s: Session, launchable: bool, io: Io)
    requires Answerable(r, s.id) && s.posted > 0
    ensures AnswersBy(r, s, launchable, io, DeliverCompletion(s.id, launchable, io), r.sessions)
    ensures AnswersBy(r, s, launchable, io, DeliverToRemoved(s.id, launchable, io), r.removed)
  {
    AnswerIsDelivery(r, s, launchable, io);
  }

  /** In every state of every run a completion meets what its handler needs, and the answer is the next
      step of the run. */
  lemma AnswerIsStep(steps: seq<Step>, s: Session, launchable: bool, io: Io)
    requires s.posted > 0
    ensures var r := Run(EMPTY, steps);
            Answerable(r, s.id) && AnswersBy(r, s, launchable, io, DeliverCompletion(s.id, launchable, io), r.sessions)
            && AnswersBy(r, s, launchable, io, DeliverToRemoved(s.id, launchable, io), r.removed)
  {
    var r := Run(EMPTY, steps);
    assert Answerable(r, s.id) by {
      RunInv(EMPTY, steps);
      InvAnswerable(r, s.id);
    }
    AnswersByDelivery(r, s, launchable, io);
  }

  /** The rows with a live renderer. */
  ghost function Running(ss: seq<Session>): set<nat> {
    set i: nat | i < |ss| && ss[i].running
  }

  ghost predicate HeldOnce(a: seq<InstanceSession>, b: seq<InstanceSession>) {
    && (forall i, j :: 0 <= i < j < |a| ==> a[i] != a[j])
    && (forall i, j :: 0 <= i < j < |b| ==> b[i] != b[j])
    && (forall i, j :: 0 <= i < |a| && 0 <= j < |b| ==> a[i] != b[j])
  }

  lemma MoveHeldOnce(a: seq<InstanceSession>, b: seq<InstanceSession>, row: nat)
    requires HeldOnce(a, b) && row < |a|
    ensures HeldOnce(a[..row] + a[row + 1..], b + [a[row]])
  {
    var rest, more := a[..row] + a[row + 1..], b + [a[row]];
    assert forall i :: 0 <= i < |rest| ==> rest[i] == a[if i < row then i else i + 1];
    assert forall j :: 0 <= j < |more| ==> more[j] == if j < |b| then b[j] else a[row];
  }

  lemma StatesMove(a: seq<InstanceSession>, b: seq<InstanceSession>, row: nat)
    requires row < |a|
    ensures States(a[..row] + a[row + 1..]) == States(a)[..row] + States(a)[row + 1..]
    ensures States(b + [a[row]]) == States(b) + [States(a)[row]]
  {
    StatesCut(a, row);
    StatesConcat(b, [a[row]]);
    assert States([a[row]]) == [States(a)[row]];
  }

  lemma StatesConcat(a: seq<InstanceSession>, b: seq<InstanceSession>)
    ensures States(a + b) == States(a) + States(b)
  {
  }

  lemma StatesCut(ss: seq<InstanceSession>, row: nat)
    requires row < |ss|
    ensures States(ss[..row] + ss[row + 1..]) == States(ss)[..row] + States(ss)[row + 1..]
  {
    var cut := ss[..row] + ss[row + 1..];
    forall i | 0 <= i < |cut| ensures cut[i] == ss[if i < row then i else i + 1] {
    }
  }

  class InstanceManager {
    var sessions: seq<InstanceSession>
    /** Off the roster, waiting for deferred destruction. */
    var removed: seq<InstanceSession>
    var pendingDeletes: map<string, InstanceSession>
    var stopAllActive: bool
    /** Number of stopAllFinished emissions. */
    var stopAllFinished: nat
    var store: Store

    /** Every session object is held once. */
    ghost predicate Valid()
      reads this
    {
      HeldOnce(sessions, removed)
    }

    function Abs(): Roster
      reads this, sessions, removed
    {
      Roster(States(sessions), pendingDeletes.Keys, stopAllActive, stopAllFinished, States(removed), store)
    }

    constructor (store: Store)
      ensures Valid() && Abs() == EMPTY.(store := store)
    {
      sessions, removed, pendingDeletes := [], [], map[];
      stopAllActive, stopAllFinished := false, 0;
      this.store := store;
    }

    method RowForUuid(uuid: string) returns (row: int)
      ensures row == if Has(States(sessions), uuid) then Row(States(sessions), uuid) else -1
    {
      for i := 0 to |sessions|
        invariant forall k :: 0 <= k < i ==> sessions[k].id != uuid
      {
        if sessions[i].id == uuid {
          FirstRow(States(sessions), uuid, i);
          return i;
        }
      }
      return -1;
    }

    static lemma FirstRow(ss: seq<Session>, id: string, i: nat)
      requires i < |ss| && ss[i].id == id && forall k :: 0 <= k < i ==> ss[k].id != id
      ensures Row(ss, id) == i
    {
      assert Row(ss, id) <= i;
    }

    /** Re-read the panel record, overwrite the roster order, save. */
    method PersistRoster(io: Io)
      modifies this`store
      ensures store == Reordered(old(store), Ids(States(sessions)), io)
    {
      var fields := if io.readOk then store.fields else DEFAULT_FIELDS;
      var ids := [];
      for i := 0 to |sessions|
        invariant |ids| == i && forall k :: 0 <= k < i ==> ids[k] == sessions[k].id
        invariant store == old(store)
      {
        ids := ids + [sessions[i].id];
      }
      assert ids == Ids(States(sessions));
      if io.writeOk {
        store := store.(instanceIds := ids, fields := fields);
      }
    }

    method AppendSession(uuid: string)
      requires Valid()
      modifies `sessions
      ensures Valid() && States(sessions) == old(States(sessions)) + [Fresh(uuid)]
    {
      var session := new InstanceSession(uuid);
      StatesConcat(sessions, [session]);
      assert States([session]) == [Fresh(uuid)];
      sessions := sessions + [session];
    }

    method DeleteConfig(uuid: string, io: Io)
      modifies `store
      ensures store == if io.writeOk then old(store).(rows := old(store).rows - {uuid}) else old(store)
    {
      if io.writeOk {
        store := store.(rows := store.rows - {uuid});
      }
    }

    /** `uuid` is freshly minted. */
    method CreateInstanceScoped(uuid: string, config: Config, io: Io) returns (created: string)
      requires Valid()
      modifies this
      ensures Valid() && Abs() == Create(old(Abs()), uuid, config, io)
      ensures created == if io.writeOk then uuid else ""
    {
      if !io.writeOk {
        return "";
      }
      store := store.(rows := store.rows[uuid := config]);
      AppendSession(uuid);
      PersistRoster(io);
      created := uuid;
    }

    /** The row goes; the object waits for deferred destruction. */
    method TakeRow(row: nat)
      requires Valid() && row < |sessions|
      modifies `sessions, `removed
      ensures Valid()
      ensures States(sessions) == old(States(sessions)[..row] + States(sessions)[row + 1..])
      ensures States(removed) == old(States(removed) + [States(sessions)[row]])
    {
      MoveHeldOnce(sessions, removed, row);
      StatesMove(sessions, removed, row);
      var victim := sessions[row];
      sessions := sessions[..row] + sessions[row + 1..];
      removed := removed + [victim];
    }

    /** The stored side of a removal. */
    method ForgetConfig(uuid: string, io: Io)
      modifies `store
      ensures store == Forgotten(old(store), uuid, Ids(States(sessions)), io)
    {
      DeleteConfig(uuid, io);
      PersistRoster(io);
    }

    method FinishInstanceDeletion(uuid: string, io: Io)
      requires Valid()
      modifies this
      ensures Valid() && Abs() == FinishDelete(old(Abs()), uuid, io)
    {
      var row := RowForUuid(uuid);
      if row < 0 {
        return;
      }
      RemoveInstance(row, uuid, io);
      FinishDeleteIs(old(Abs()), uuid, io);
    }

    method RemoveInstance(row: nat, uuid: string, io: Io)
      requires Valid() && row < |sessions|
      modifies this
      ensures Valid()
      ensures Abs() == Without(old(Abs()), row, uuid, io)
    {
      TakeRow(row);
      ForgetConfig(uuid, io);
    }

    /** Phase one of a delete, or the whole of it when no renderer runs. */
    method DeleteInstance(uuid: string, io: Io)
      requires Valid()
      modifies this, sessions
      ensures Valid() && Abs() == Delete(old(Abs()), uuid, io)
    {
      if uuid in pendingDeletes {
        return;
      }
      var row := RowForUuid(uuid);
      if row < 0 {
        return;
      }
      var victim := sessions[row];
      if victim.running {
        victim.SetDeletePending();
        pendingDeletes := pendingDeletes[uuid := victim];
        victim.Stop();
        OneChanged(row);
        assert pendingDeletes.Keys == old(pendingDeletes).Keys + {uuid};
        return;
      }
      FinishInstanceDeletion(uuid, io);
    }

    /** Changing one session object changes one row, and nothing of the removed sessions. */
    twostate lemma OneChanged(row: nat)
      requires old(Valid()) && sessions == old(sessions) && removed == old(removed) && row < |sessions|
      requires forall s :: (s in sessions || s in removed) && s != sessions[row] ==> s.State() == old(s.State())
      ensures States(sessions) == old(States(sessions))[row := sessions[row].State()]
      ensures States(removed) == old(States(removed))
    {
    }

    /** The same, for a session on or off the roster, when ids are distinct. */
    twostate lemma SessionChanged(session: InstanceSession)
      requires old(Valid()) && unchanged(this) && (session in sessions || session in removed)
      requires Answerable(old(Abs()), session.id)
      requires forall s :: (s in sessions || s in removed) && s != session ==> s.State() == old(s.State())
      ensures Abs() == Put(old(Abs()), session.State())
      ensures session in sessions ==>
                Has(old(States(sessions)), session.id) && At(old(States(sessions)), session.id) == old(session.State())
      ensures session !in sessions ==>
                Has(old(States(removed)), session.id) && At(old(States(removed)), session.id) == old(session.State())
    {
      if session in sessions {
        var at: nat :| at < |sessions| && sessions[at] == session;
        OneChanged(at);
        RowIs(old(States(sessions)), at);
      } else {
        var at: nat :| at < |removed| && removed[at] == session;
        assert States(sessions) == old(States(sessions));
        assert States(removed) == old(States(removed))[at := session.State()];
        RowIs(old(States(removed)), at);
      }
    }

    method AnyProcessRunning() returns (any: bool)
      ensures any == AnyRunning(States(sessions))
    {
      for i := 0 to |sessions|
        invariant forall k :: 0 <= k < i ==> !sessions[k].running
      {
        if sessions[i].running {
          assert States(sessions)[i].running;
          return true;
        }
      }
      return false;
    }

    /** Phase two of a delete, then the accounting of the stop-all wave. */
    method OnSessionStopFinished(uuid: string, io: Io)
      requires Valid()
      modifies this
      ensures Valid() && Abs() == OnStopFinished(old(Abs()), uuid, io)
      ensures uuid !in old(pendingDeletes) ==> sessions == old(sessions) && removed == old(removed)
    {
      if uuid in pendingDeletes {
        ghost var r := Abs();
        pendingDeletes := pendingDeletes - {uuid};
        assert Abs() == r.(pending := r.pending - {uuid});
        FinishInstanceDeletion(uuid, io);
      }
      AccountStopAll();
    }

    method AccountStopAll()
      modifies `stopAllActive, `stopAllFinished
      ensures var done := old(stopAllActive) && !AnyRunning(States(sessions));
              && stopAllActive == (old(stopAllActive) && !done)
              && stopAllFinished == old(stopAllFinished) + if done then 1 else 0
    {
      if stopAllActive {
        var any := AnyProcessRunning();
        if any {
          return;
        }
        stopAllActive := false;
        stopAllFinished := stopAllFinished + 1;
      }
    }

    method StopAll() returns (initiated: nat)
      requires Valid()
      modifies this, sessions
      ensures Valid() && Abs() == RosterModel.StopAll(old(Abs()))
      ensures initiated == |Running(old(States(sessions)))|
    {
      initiated := StopLive();
      RunningAny(old(States(sessions)));
      stopAllActive := initiated > 0;
    }

    /** The loop of stopAll(). */
    method StopLive() returns (initiated: nat)
      requires Valid()
      modifies sessions
      ensures States(sessions) == StopEach(old(States(sessions))) && States(removed) == old(States(removed))
      ensures initiated == |Running(old(States(sessions)))|
    {
      initiated := 0;
      ghost var before := States(sessions);
      for i := 0 to |sessions|
        invariant initiated == |Running(before[..i])|
        invariant forall k :: 0 <= k < |sessions| ==>
                                sessions[k].State() == if k < i then StopIfRunning(before[k]) else before[k]
        invariant forall k :: 0 <= k < |removed| ==> removed[k].State() == old(removed[k].State())
      {
        RunningSnoc(before, i);
        if sessions[i].running {
          sessions[i].Stop();
          initiated := initiated + 1;
        }
      }
      assert before[..|sessions|] == before;
    }

    static lemma RunningSnoc(ss: seq<Session>, i: nat)
      requires i < |ss|
      ensures |Running(ss[..i + 1])| == |Running(ss[..i])| + if ss[i].running then 1 else 0
    {
      if ss[i].running {
        assert Running(ss[..i + 1]) == Running(ss[..i]) + {i};
      } else {
        assert Running(ss[..i + 1]) == Running(ss[..i]);
      }
    }

    static lemma RunningAny(ss: seq<Session>)
      ensures |Running(ss)| > 0 <==> AnyRunning(ss)
    {
      if AnyRunning(ss) {
        var i :| 0 <= i < |ss| && ss[i].running;
        assert i in Running(ss);
      }
      if |Running(ss)| > 0 {
        var i: nat :| i in Running(ss);
      }
    }

    /** A queued completion reaches its session: consume the queued start, notify the manager,
        relaunch. */
    method OnProcessStopFinished(session: InstanceSession, launchable: bool, io: Io)
      requires Valid() && Answerable(Abs(), session.id)
      requires session in sessions || session in removed
      requires session.posted > 0
      modifies this, session
      ensures Valid()
      ensures Abs() == Answer(old(Abs()), old(session.State()), launchable, io)
    {
      var queued := session.ConsumeCompletion();
      SessionChanged(session);
      ghost var r := Abs();
      assert queued ==> session.id !in pendingDeletes;
      OnSessionStopFinished(session.id, io);
      if queued {
        assert Abs().sessions == r.sessions && Abs().removed == r.removed;
        label L:
        session.Start(launchable);
        SessionChanged@L(session);
      }
    }

    /** The stored order; ids without a row are skipped. */
    method LoadFromDisk()
      requires Valid() && sessions == []
      modifies this
      ensures Valid() && States(sessions) == Load(store, store.instanceIds)
      ensures store == old(store) && removed == old(removed)
    {
      var ids := store.instanceIds;
      for i := 0 to |ids|
        invariant Valid() && States(sessions) == Load(store, ids[..i])
        invariant store == old(store) && removed == old(removed)
      {
        assert ids[..i + 1][..i] == ids[..i];
        if ids[i] in store.rows {
          AppendSession(ids[i]);
        }
      }
      assert ids[..|ids|] == ids;
    }
  }
}
