// The instance roster as values: sessions with their renderer processes, two-phase delete,
// the stop-all wave, and the stored roster.
module RosterModel {

  /** One InstanceSession with its ProcessManager.
      running       the renderer process exists (QProcess is not NotRunning)
      stopInFlight  an initiated stop has not completed yet
      posted        completions of stops that are queued but not delivered
      startQueued   a (re)launch waits for the stop to complete
      deletePending the session is marked for two-phase delete */
  datatype Session = Session(
    id: string,
    running: bool,
    stopInFlight: bool,
    posted: nat,
    startQueued: bool,
    deletePending: bool)

  function Fresh(id: string): Session { Session(id, false, false, 0, false, false) }

  // ----- one session --------------------------------------------------------------------

  /** start(); `launchable` says that the server listens and the executable resolves. */
  function Start(s: Session, launchable: bool): Session {
    if s.deletePending then s
    else if s.stopInFlight then s.(startQueued := true)
    else if launchable then s.(running := true)
    else s
  }

  /** stop(): a dead process completes at once, by a queued completion of its own. */
  function Stop(s: Session): Session {
    if s.stopInFlight then s
    else if !s.running then s.(posted := s.posted + 1)
    else s.(stopInFlight := true)
  }

  function Restart(s: Session): Session {
    if s.deletePending then s else Stop(s.(startQueued := true))
  }

  function Doom(s: Session): Session { s.(deletePending := true, startQueued := false) }

  /** finishStop(): the completion is queued, not delivered. */
  function FinishStop(s: Session): Session {
    if s.stopInFlight then s.(stopInFlight := false, posted := s.posted + 1) else s
  }

  /** The renderer exits, by itself or on request. */
  function Exit(s: Session): Session { FinishStop(s.(running := false)) }

  /** The completion is taken off the queue and the queued start consumed. */
  function TakeCompletion(s: Session): Session
    requires s.posted > 0
  {
    s.(posted := s.posted - 1, startQueued := false)
  }

  // ----- the roster ---------------------------------------------------------------------

  type Config = string
  type Fields = string
  const DEFAULT_FIELDS: Fields := ""

  /** The database: one row per instance, and the panel record with the roster order. */
  datatype Store = Store(rows: map<string, Config>, instanceIds: seq<string>, fields: Fields)

  /** Whether reads and writes of the database succeed during one operation. */
  datatype Io = Io(readOk: bool, writeOk: bool)

  /** `removed` are sessions taken off the roster and not destroyed yet; `finished` counts the
      stopAllFinished emissions. */
  datatype Roster = Roster(
    sessions: seq<Session>,
    pending: set<string>,
    wave: bool,
    finished: nat,
    removed: seq<Session>,
    store: Store)

  function Row(ss: seq<Session>, id: string): (i: nat)
    ensures i <= |ss|
    ensures i < |ss| ==> ss[i].id == id
    ensures forall k :: 0 <= k < i ==> ss[k].id != id
    ensures (exists k :: 0 <= k < |ss| && ss[k].id == id) ==> i < |ss|
  {
    if ss == [] then 0 else if ss[0].id == id then 0 else 1 + Row(ss[1..], id)
  }

  predicate Has(ss: seq<Session>, id: string) { Row(ss, id) < |ss| }

  function At(ss: seq<Session>, id: string): Session
    requires Has(ss, id)
  {
    ss[Row(ss, id)]
  }

  function Set(ss: seq<Session>, s: Session): (r: seq<Session>)
    ensures |r| == |ss|
  {
    var i := Row(ss, s.id);
    if i < |ss| then ss[i := s] else ss
  }

  function Ids(ss: seq<Session>): (ids: seq<string>)
    ensures |ids| == |ss| && forall i :: 0 <= i < |ss| ==> ids[i] == ss[i].id
  {
    seq(|ss|, i requires 0 <= i < |ss| => ss[i].id)
  }

  predicate AnyRunning(ss: seq<Session>) {
    exists i :: 0 <= i < |ss| && ss[i].running
  }

  /** persistRoster(): load, overwrite the roster order, save. */
  function Reordered(store: Store, ids: seq<string>, io: Io): Store {
    if !io.writeOk then store
    else store.(instanceIds := ids, fields := if io.readOk then store.fields else DEFAULT_FIELDS)
  }

  function Persist(r: Roster, io: Io): Roster {
    r.(store := Reordered(r.store, Ids(r.sessions), io))
  }

  function Create(r: Roster, id: string, config: Config, io: Io): Roster {
    if !io.writeOk then r
    else Persist(r.(sessions := r.sessions + [Fresh(id)], store := r.store.(rows := r.store.rows[id := config])), io)
  }

  /** finishInstanceDeletion(): the row goes; the object waits to be destroyed. */
  function FinishDelete(r: Roster, id: string, io: Io): Roster {
    if !Has(r.sessions, id) then r
    else
      Persist(r.(sessions := RemoveRow(r.sessions, id),
                 removed := r.removed + [At(r.sessions, id)],
                 store := if io.writeOk then r.store.(rows := r.store.rows - {id}) else r.store), io)
  }

  function Delete(r: Roster, id: string, io: Io): Roster {
    if id in r.pending || !Has(r.sessions, id) then r
    else if At(r.sessions, id).running then
      r.(sessions := Set(r.sessions, Stop(Doom(At(r.sessions, id)))), pending := r.pending + {id})
    else FinishDelete(r, id, io)
  }

  /** onSessionStopFinished(): phase two of a delete, then the wave. */
  function OnStopFinished(r: Roster, id: string, io: Io): Roster {
    var r1 := if id in r.pending then FinishDelete(r.(pending := r.pending - {id}), id, io) else r;
    if r1.wave && !AnyRunning(r1.sessions) then r1.(wave := false, finished := r1.finished + 1) else r1
  }

  function StopIfRunning(s: Session): Session { if s.running then Stop(s) else s }

  function StopEach(ss: seq<Session>): (r: seq<Session>)
    ensures |r| == |ss| && forall i :: 0 <= i < |ss| ==> r[i] == StopIfRunning(ss[i])
  {
    seq(|ss|, i requires 0 <= i < |ss| => StopIfRunning(ss[i]))
  }

  function StopAll(r: Roster): Roster {
    r.(sessions := StopEach(r.sessions), wave := AnyRunning(r.sessions))
  }

  /** onProcessStopFinished() of a roster session: consume, notify the manager, relaunch. */
  function Deliver(r: Roster, id: string, launchable: bool, io: Io): Roster
    requires Has(r.sessions, id) && At(r.sessions, id).posted > 0
  {
    var s := At(r.sessions, id);
    var r1 := OnStopFinished(r.(sessions := Set(r.sessions, TakeCompletion(s))), id, io);
    if !s.startQueued then r1
    else if Has(r1.sessions, id) then r1.(sessions := Set(r1.sessions, Start(At(r1.sessions, id), launchable)))
    else StartRemoved(r1, id, launchable)
  }

  function StartRemoved(r: Roster, id: string, launchable: bool): Roster {
    if Has(r.removed, id) then r.(removed := Set(r.removed, Start(At(r.removed, id), launchable))) else r
  }

  /** The same for a session that already left the roster. */
  function DeliverRemoved(r: Roster, id: string, launchable: bool, io: Io): Roster
    requires Has(r.removed, id) && At(r.removed, id).posted > 0
  {
    var s := At(r.removed, id);
    var r1 := OnStopFinished(r.(removed := Set(r.removed, TakeCompletion(s))), id, io);
    if s.startQueued then StartRemoved(r1, id, launchable) else r1
  }

  /** loadFromDisk(): the stored order, skipping ids without a row. */
  function Load(store: Store, ids: seq<string>): seq<Session> {
    if ids == [] then []
    else
      var front := Load(store, ids[..|ids| - 1]);
      if ids[|ids| - 1] in store.rows then front + [Fresh(ids[|ids| - 1])] else front
  }

  // ----- steps --------------------------------------------------------------------------

  /** Everything that can happen: calls from the panel, and the world outside. */
  datatype Step =
    | DoCreate(id: string, config: Config, io: Io)
    | DoDelete(id: string, io: Io)
    | DoStopAll
    | DoStart(id: string, launchable: bool)
    | DoStop(id: string)
    | DoRestart(id: string)
    | ProcessExit(id: string)          // exit notice; an initiated stop completes
    | ProcessFailsToStart(id: string)  // dies without an exit notice
    | PollTick(id: string)             // the stop poll finds the process gone
    | AbandonStop(id: string)          // the stop poll gives up on a process that survives the kill
    | DeliverCompletion(id: string, launchable: bool, io: Io)
    | DeliverToRemoved(id: string, launchable: bool, io: Io)
    | Destroy(id: string)              // deferred deletion, after all queued completions
    | WriteFields(fields: Fields)      // another writer of the panel record
    | WriteRow(id: string, config: Config)

  /** When the step can happen; ids are minted fresh. */
  predicate Enabled(r: Roster, step: Step) {
    match step
    case DoCreate(id, _, _) => !Has(r.sessions, id) && !Has(r.removed, id)
    case DoDelete(_, _) => true
    case DoStopAll => true
    case DoStart(id, _) => Has(r.sessions, id)
    case DoStop(id) => Has(r.sessions, id)
    case DoRestart(id) => Has(r.sessions, id)
    case ProcessExit(id) => Has(r.sessions, id) && At(r.sessions, id).running
    case ProcessFailsToStart(id) => Has(r.sessions, id) && At(r.sessions, id).running
    case PollTick(id) => Has(r.sessions, id) && At(r.sessions, id).stopInFlight && !At(r.sessions, id).running
    case AbandonStop(id) => Has(r.sessions, id) && At(r.sessions, id).stopInFlight && At(r.sessions, id).running
    case DeliverCompletion(id, _, _) => Has(r.sessions, id) && At(r.sessions, id).posted > 0
    case DeliverToRemoved(id, _, _) => Has(r.removed, id) && At(r.removed, id).posted > 0
    case Destroy(id) => Has(r.removed, id) && At(r.removed, id).posted == 0
    case WriteFields(_) => true
    case WriteRow(id, _) => Has(r.sessions, id)
  }

  /** Steps of one roster session that the manager does not take part in. */
  predicate RowStep(step: Step) {
    || step.DoStart? || step.DoStop? || step.DoRestart?
    || step.ProcessExit? || step.ProcessFailsToStart? || step.PollTick? || step.AbandonStop?
  }

  function RowEffect(s: Session, step: Step): Session
    requires RowStep(step)
  {
    match step
    case DoStart(_, launchable) => Start(s, launchable)
    case DoStop(_) => Stop(s)
    case DoRestart(_) => Restart(s)
    case ProcessExit(_) => Exit(s)
    case ProcessFailsToStart(_) => s.(running := false)
    case PollTick(_) => FinishStop(s)
    case AbandonStop(_) => FinishStop(s)
  }

  function OnRow(r: Roster, s: Session): Roster { r.(sessions := Set(r.sessions, s)) }

  function RemoveRow(ss: seq<Session>, id: string): seq<Session>
    requires Has(ss, id)
  {
    var i := Row(ss, id);
    ss[..i] + ss[i + 1..]
  }

  function Next(r: Roster, step: Step): Roster {
    if !Enabled(r, step) then r
    else if RowStep(step) then OnRow(r, RowEffect(At(r.sessions, step.id), step))
    else match step
      case DoCreate(id, config, io) => Create(r, id, config, io)
      case DoDelete(id, io) => Delete(r, id, io)
      case DoStopAll => StopAll(r)
      case DeliverCompletion(id, launchable, io) => Deliver(r, id, launchable, io)
      case DeliverToRemoved(id, launchable, io) => DeliverRemoved(r, id, launchable, io)
      case Destroy(id) => r.(removed := RemoveRow(r.removed, id))
      case WriteFields(fields) => r.(store := r.store.(fields := fields))
      case WriteRow(id, config) => r.(store := r.store.(rows := r.store.rows[id := config]))
  }

  function Run(r: Roster, steps: seq<Step>): Roster
    decreases |steps|
  {
    if steps == [] then r else Run(Next(r, steps[0]), steps[1..])
  }

  const EMPTY: Roster := Roster([], {}, false, 0, [], Store(map[], [], DEFAULT_FIELDS))
}
