// Download jobs: the states of a job under any interleaving of network events and cancels, what its
// listener is told, and what ends up staged.
module Downloads {

  type JobId = nat
  type Bytes = seq<bv8>

  /** A request; the URL is given by its validity and its normalised scheme. */
  datatype Request = Request(urlValid: bool, scheme: string, destName: string, expectedSha256: string)

  datatype JobState = Downloading | Cancelling | Finished | Failed

  datatype Job = Job(
    request: Request,
    hasListener: bool,
    hashed: Bytes,        // everything fed to the hash
    part: Bytes,          // the content of the .part file, later of the staged file
    bytesReceived: nat,
    bytesTotal: int,
    state: JobState)

  datatype Code = InvalidArgument | Generic | Cancelled

  datatype Callback =
    | OnProgress(id: JobId, received: nat, total: int)
    | OnError(id: JobId, code: Code)
    | OnFinished(id: JobId, name: string)

  datatype Reply = FactoryThrew | NoReply | Created(total: int)

  /** `files` are the staged files by name. */
  datatype State = State(jobs: map<JobId, Job>, nextId: JobId, log: seq<Callback>, files: map<string, Bytes>)

  const INIT: State := State(map[], 1, [], map[])

  /** SHA-256 in hexadecimal, as an unknown function. */
  type Digest = Bytes -> string

  // ----- requests -------------------------------------------------------------------------

  function LowerChar(c: char): char {
    if 'A' <= c <= 'Z' then (c as int + 32) as char else c
  }

  function Lower(s: string): (r: string)
    ensures |r| == |s| && forall i :: 0 <= i < |s| ==> r[i] == LowerChar(s[i])
  {
    seq(|s|, i requires 0 <= i < |s| => LowerChar(s[i]))
  }

  predicate HexDigit(c: char) { '0' <= c <= '9' || 'a' <= c <= 'f' || 'A' <= c <= 'F' }

  /** A single path segment of the staging directory. */
  predicate Segment(name: string) {
    name != "" && name != "." && name != ".." && '/' !in name && '\\' !in name
  }

  predicate ValidRequest(r: Request) {
    && r.urlValid && (r.scheme == "https" || r.scheme == "file")
    && Segment(r.destName)
    && (r.expectedSha256 == "" || (|r.expectedSha256| == 64 && forall c :: c in r.expectedSha256 ==> HexDigit(c)))
  }

  /** The hash check of handleFinished(). */
  predicate HashMatches(digest: Digest, request: Request, hashed: Bytes) {
    request.expectedSha256 == "" || Lower(digest(hashed)) == Lower(request.expectedSha256)
  }

  // ----- operations -----------------------------------------------------------------------

  function Told(log: seq<Callback>, hasListener: bool, callback: Callback): seq<Callback> {
    if hasListener then log + [callback] else log
  }

  function Start(s: State, r: Request, hasListener: bool, reply: Reply, opens: bool): State {
    if !ValidRequest(r) then s.(log := Told(s.log, hasListener, OnError(0, InvalidArgument)))
    else if !reply.Created? || !opens then s.(log := Told(s.log, hasListener, OnError(0, Generic)))
    else s.(jobs := s.jobs[s.nextId := Job(r, hasListener, [], [], 0, reply.total, Downloading)], nextId := s.nextId + 1)
  }

  function StartedId(s: State, r: Request, reply: Reply, opens: bool): JobId {
    if ValidRequest(r) && reply.Created? && opens then s.nextId else 0
  }

  predicate Active(s: State, id: JobId) {
    id in s.jobs && (s.jobs[id].state == Downloading || s.jobs[id].state == Cancelling)
  }

  function Cancel(s: State, id: JobId): State {
    if !Active(s, id) then s else s.(jobs := s.jobs[id := s.jobs[id].(state := Cancelling)])
  }

  /** The job is told an error and leaves the table. */
  function End(s: State, id: JobId, code: Code): State
    requires id in s.jobs
  {
    s.(jobs := s.jobs - {id}, log := Told(s.log, s.jobs[id].hasListener, OnError(id, code)))
  }

  /** handleReadyRead(); `wrote` is how many bytes of the chunk reach the file. */
  function ReadyRead(s: State, id: JobId, chunk: Bytes, wrote: nat): State {
    if id !in s.jobs || s.jobs[id].state != Downloading || chunk == [] then s
    else if wrote != |chunk| then End(s, id, Generic)
    else
      var j := s.jobs[id];
      var received := j.bytesReceived + |chunk|;
      s.(jobs := s.jobs[id := j.(hashed := j.hashed + chunk, part := j.part + chunk, bytesReceived := received)],
         log := Told(s.log, j.hasListener, OnProgress(id, received, j.bytesTotal)))
  }

  /** handleError() */
  function NetworkError(s: State, id: JobId): State {
    if id in s.jobs && s.jobs[id].state == Downloading then End(s, id, Generic) else s
  }

  /** The tail drained by handleFinished(); nobody looks at how much of it reaches the file. */
  function Drained(j: Job, tail: Bytes, wrote: nat): Job
    requires wrote <= |tail|
  {
    j.(hashed := j.hashed + tail, part := j.part + tail[..wrote], bytesReceived := j.bytesReceived + |tail|)
  }

  /** The successful end of a download. */
  function Finish(s: State, id: JobId, j: Job): State
    requires id in s.jobs
  {
    var name := j.request.destName;
    State(s.jobs[id := j.(state := Finished)], s.nextId, Told(s.log, j.hasListener, OnFinished(id, name)), s.files[name := j.part])
  }

  /** handleFinished() */
  function NetworkFinished(s: State, digest: Digest, id: JobId, tail: Bytes, wrote: nat, renames: bool): State
    requires wrote <= |tail|
  {
    if !Active(s, id) then s
    else if s.jobs[id].state == Cancelling then End(s, id, Cancelled)
    else
      var j := Drained(s.jobs[id], tail, wrote);
      var name := j.request.destName;
      if !HashMatches(digest, j.request, j.hashed) then End(s, id, Generic)
      else if !renames then End(s, id, Generic).(files := s.files - {name})
      else Finish(s, id, j)
  }

  // ----- runs -----------------------------------------------------------------------------

  datatype Step =
    | DoStart(request: Request, hasListener: bool, reply: Reply, opens: bool)
    | DoCancel(id: JobId)
    | Chunk(id: JobId, chunk: Bytes, wrote: nat)
    | ErrorOccurred(id: JobId)
    | ReplyFinished(id: JobId, tail: Bytes, tailWrote: nat, renames: bool)

  predicate WellFormed(step: Step) {
    step.ReplyFinished? ==> step.tailWrote <= |step.tail|
  }

  /** Events may come for any id at any time, also for jobs that are over. */
  function Next(s: State, digest: Digest, step: Step): State
    requires WellFormed(step)
  {
    match step
    case DoStart(r, hasListener, reply, opens) => Start(s, r, hasListener, reply, opens)
    case DoCancel(id) => Cancel(s, id)
    case Chunk(id, chunk, wrote) => ReadyRead(s, id, chunk, wrote)
    case ErrorOccurred(id) => NetworkError(s, id)
    case ReplyFinished(id, tail, wrote, renames) => NetworkFinished(s, digest, id, tail, wrote, renames)
  }

  predicate AllWellFormed(steps: seq<Step>) {
    forall i :: 0 <= i < |steps| ==> WellFormed(steps[i])
  }

  function Run(s: State, digest: Digest, steps: seq<Step>): State
    requires AllWellFormed(steps)
    decreases |steps|
  {
    if steps == [] then s else Next(Run(s, digest, steps[..|steps| - 1]), digest, steps[|steps| - 1])
  }

  // ----- the invariant --------------------------------------------------------------------

  predicate Terminal(c: Callback) { c.OnError? || c.OnFinished? }

  /** After its terminal callback a job is never heard of again, and its progress only grows. */
  ghost predicate Orderly(log: seq<Callback>) {
    forall i, j :: 0 <= i < j < |log| && log[i].id == log[j].id && log[i].id != 0 ==> Follows(log[i], log[j])
  }

  predicate Follows(earlier: Callback, later: Callback) {
    && !Terminal(earlier)
    && (later.OnProgress? ==> earlier.received < later.received)
  }

  predicate JobOk(digest: Digest, j: Job) {
    match j.state
    case Downloading => j.bytesReceived == |j.hashed| && j.part == j.hashed
    case Cancelling => j.bytesReceived == |j.hashed| && j.part == j.hashed
    case Finished => j.bytesReceived == |j.hashed| && HashMatches(digest, j.request, j.hashed)
    case Failed => false
  }

  /** What the log may already hold about a job in the table. */
  predicate Heard(c: Callback, j: Job) {
    if Terminal(c) then j.state == Finished else c.received <= j.bytesReceived
  }

  ghost predicate Inv(s: State, digest: Digest) {
    && s.nextId >= 1
    && (forall id :: id in s.jobs ==> 1 <= id < s.nextId && JobOk(digest, s.jobs[id]))
    && (forall i :: 0 <= i < |s.log| ==> s.log[i].id < s.nextId)
    && (forall i :: 0 <= i < |s.log| && s.log[i].id in s.jobs ==> Heard(s.log[i], s.jobs[s.log[i].id]))
    && Orderly(s.log)
  }

  /** A callback that follows everything said about its job keeps the log orderly. */
  lemma AppendOrderly(log: seq<Callback>, hasListener: bool, c: Callback)
    requires Orderly(log)
    requires c.id != 0 ==> forall i :: 0 <= i < |log| && log[i].id == c.id ==> Follows(log[i], c)
    ensures Orderly(Told(log, hasListener, c))
  {
  }

  lemma EndInv(s: State, digest: Digest, id: JobId, code: Code)
    requires Inv(s, digest) && Active(s, id)
    ensures Inv(End(s, id, code), digest)
  {
    AppendOrderly(s.log, s.jobs[id].hasListener, OnError(id, code));
  }

  lemma ReadyReadInv(s: State, digest: Digest, id: JobId, chunk: Bytes, wrote: nat)
    requires Inv(s, digest)
    ensures Inv(ReadyRead(s, id, chunk, wrote), digest)
  {
    if id in s.jobs && s.jobs[id].state == Downloading && chunk != [] {
      if wrote != |chunk| {
        EndInv(s, digest, id, Generic);
      } else {
        ChunkInv(s, digest, id, chunk);
      }
    }
  }

  lemma ChunkInv(s: State, digest: Digest, id: JobId, chunk: Bytes)
    requires Inv(s, digest) && id in s.jobs && s.jobs[id].state == Downloading && chunk != []
    ensures Inv(ReadyRead(s, id, chunk, |chunk|), digest)
  {
    var j := s.jobs[id];
    AppendOrderly(s.log, j.hasListener, OnProgress(id, j.bytesReceived + |chunk|, j.bytesTotal));
  }

  lemma FinishInv(s: State, digest: Digest, id: JobId, j: Job)
    requires Inv(s, digest) && Active(s, id)
    requires j.bytesReceived == |j.hashed| && j.bytesReceived >= s.jobs[id].bytesReceived
    requires HashMatches(digest, j.request, j.hashed)
    ensures Inv(Finish(s, id, j), digest)
  {
    AppendOrderly(s.log, j.hasListener, OnFinished(id, j.request.destName));
  }

  lemma FilesInv(s: State, digest: Digest, files: map<string, Bytes>)
    requires Inv(s, digest)
    ensures Inv(s.(files := files), digest)
  {
  }

  lemma FinishedInv(s: State, digest: Digest, id: JobId, tail: Bytes, wrote: nat, renames: bool)
    requires Inv(s, digest) && wrote <= |tail|
    ensures Inv(NetworkFinished(s, digest, id, tail, wrote, renames), digest)
  {
    if Active(s, id) {
      if s.jobs[id].state == Cancelling {
        EndInv(s, digest, id, Cancelled);
      } else {
        var j := Drained(s.jobs[id], tail, wrote);
        if !HashMatches(digest, j.request, j.hashed) {
          EndInv(s, digest, id, Generic);
        } else if !renames {
          EndInv(s, digest, id, Generic);
          FilesInv(End(s, id, Generic), digest, s.files - {j.request.destName});
        } else {
          FinishInv(s, digest, id, j);
        }
      }
    }
  }

  lemma StartInv(s: State, digest: Digest, r: Request, hasListener: bool, reply: Reply, opens: bool)
    requires Inv(s, digest)
    ensures Inv(Start(s, r, hasListener, reply, opens), digest)
  {
    AppendOrderly(s.log, hasListener, OnError(0, InvalidArgument));
    AppendOrderly(s.log, hasListener, OnError(0, Generic));
  }

  lemma NextInv(s: State, digest: Digest, step: Step)
    requires Inv(s, digest) && WellFormed(step)
    ensures Inv(Next(s, digest, step), digest)
  {
    match step {
      case DoStart(r, hasListener, reply, opens) => StartInv(s, digest, r, hasListener, reply, opens);
      case DoCancel(id) =>
      case Chunk(id, chunk, wrote) => ReadyReadInv(s, digest, id, chunk, wrote);
      case ErrorOccurred(id) =>
        if Active(s, id) { EndInv(s, digest, id, Generic); }
      case ReplyFinished(id, tail, wrote, renames) => FinishedInv(s, digest, id, tail, wrote, renames);
    }
  }

  lemma {:induction false} RunInv(s: State, digest: Digest, steps: seq<Step>)
    requires Inv(s, digest) && AllWellFormed(steps)
    ensures Inv(Run(s, digest, steps), digest)
    decreases |steps|
  {
    if steps != [] {
      RunInv(s, digest, steps[..|steps| - 1]);
      NextInv(Run(s, digest, steps[..|steps| - 1]), digest, steps[|steps| - 1]);
    }
  }

  // ----- what follows for every run -------------------------------------------------------

  /** Over every run from start: at most one terminal callback per job and nothing after it, growing
      progress, byte counts equal to the bytes hashed, no failed job in the table, and a matching
      hash for every finished job. */
  lemma EveryRun(digest: Digest, steps: seq<Step>)
    requires AllWellFormed(steps)
    ensures var s := Run(INIT, digest, steps);
            && Orderly(s.log)
            && forall id :: id in s.jobs ==>
                              && s.jobs[id].state != Failed
                              && s.jobs[id].bytesReceived == |s.jobs[id].hashed|
                              && (s.jobs[id].state == Finished ==>
                                    HashMatches(digest, s.jobs[id].request, s.jobs[id].hashed))
  {
    RunInv(INIT, digest, steps);
  }

  lemma {:induction false} NextIdGrows(s: State, digest: Digest, steps: seq<Step>)
    requires AllWellFormed(steps)
    ensures Run(s, digest, steps).nextId >= s.nextId
    decreases |steps|
  {
    if steps != [] { NextIdGrows(s, digest, steps[..|steps| - 1]); }
  }

  /** Two successful starts of one run get different ids, and a new id has never been heard of. */
  lemma IdsNeverReused(s: State, digest: Digest, first: Step, between: seq<Step>, second: Step)
    requires Inv(s, digest) && first.DoStart? && second.DoStart? && AllWellFormed(between)
    ensures var s1 := Next(s, digest, first);
            var s2 := Run(s1, digest, between);
            var id1 := StartedId(s, first.request, first.reply, first.opens);
            var id2 := StartedId(s2, second.request, second.reply, second.opens);
            && (id1 != 0 && id2 != 0 ==> id1 < id2)
            && (id2 != 0 ==> id2 !in s2.jobs && forall i :: 0 <= i < |s2.log| ==> s2.log[i].id != id2)
  {
    NextInv(s, digest, first);
    var s1 := Next(s, digest, first);
    RunInv(s1, digest, between);
    NextIdGrows(s1, digest, between);
  }

  /** A job leaves the table only with an error, told to its listener if it has one. */
  lemma {:induction false} LeavesWithError(s: State, digest: Digest, step: Step, id: JobId)
    requires Inv(s, digest) && WellFormed(step) && id in s.jobs && id !in Next(s, digest, step).jobs
    ensures Active(s, id)
    ensures exists code :: Next(s, digest, step).log == Told(s.log, s.jobs[id].hasListener, OnError(id, code))
    ensures s.jobs[id].state == Cancelling ==>
              Next(s, digest, step).log == Told(s.log, s.jobs[id].hasListener, OnError(id, Cancelled))
  {
    var code := if s.jobs[id].state == Cancelling then Cancelled else Generic;
    assert Next(s, digest, step).log == Told(s.log, s.jobs[id].hasListener, OnError(id, code));
  }

  /** The log since some moment holds the last word about this job. */
  ghost predicate LastWord(log: seq<Callback>, from: nat, id: JobId, finished: bool) {
    exists i: nat :: from <= i < |log| && log[i].id == id && (if finished then log[i].OnFinished? else log[i].OnError?)
  }

  /** The job is over: gone from the table, or finished in it. */
  predicate Over(s: State, id: JobId) {
    id !in s.jobs || s.jobs[id].state == Finished
  }

  /** Told so far about a job with a listener that was active when the log had `from` entries. */
  ghost predicate ToldSoFar(s: State, from: nat, id: JobId) {
    && from <= |s.log|
    && (id in s.jobs ==> s.jobs[id].hasListener)
    && (if id !in s.jobs then LastWord(s.log, from, id, false)
        else if s.jobs[id].state == Finished then LastWord(s.log, from, id, true)
        else forall i :: from <= i < |s.log| && s.log[i].id == id ==> !Terminal(s.log[i]))
  }

  lemma LastWordStays(log: seq<Callback>, more: seq<Callback>, from: nat, id: JobId, finished: bool)
    requires log <= more && LastWord(log, from, id, finished)
    ensures LastWord(more, from, id, finished)
  {
    var i: nat :| from <= i < |log| && log[i].id == id && (if finished then log[i].OnFinished? else log[i].OnError?);
    assert more[i] == log[i];
  }

  lemma LogGrows(s: State, digest: Digest, step: Step)
    requires WellFormed(step)
    ensures s.log <= Next(s, digest, step).log
  {
  }

  /** Nothing happens to job `id`, and nothing is said about it. */
  ghost predicate Untouched(s: State, s': State, id: JobId) {
    && (id in s'.jobs <==> id in s.jobs) && (id in s.jobs ==> s'.jobs[id] == s.jobs[id])
    && s.log <= s'.log
    && forall i :: |s.log| <= i < |s'.log| ==> s'.log[i].id != id
  }

  lemma EndUntouched(s: State, other: JobId, code: Code, id: JobId)
    requires other in s.jobs && other != id
    ensures Untouched(s, End(s, other, code), id)
  {
  }

  lemma FinishUntouched(s: State, other: JobId, j: Job, id: JobId)
    requires other in s.jobs && other != id
    ensures Untouched(s, Finish(s, other, j), id)
  {
  }

  lemma FinishedUntouched(s: State, digest: Digest, other: JobId, tail: Bytes, wrote: nat, renames: bool, id: JobId)
    requires wrote <= |tail| && (other != id || Over(s, id))
    ensures Untouched(s, NetworkFinished(s, digest, other, tail, wrote, renames), id)
  {
    if Active(s, other) {
      EndUntouched(s, other, Cancelled, id);
      EndUntouched(s, other, Generic, id);
      FinishUntouched(s, other, Drained(s.jobs[other], tail, wrote), id);
    }
  }

  lemma ReadUntouched(s: State, other: JobId, chunk: Bytes, wrote: nat, id: JobId)
    requires other != id || Over(s, id)
    ensures Untouched(s, ReadyRead(s, other, chunk, wrote), id)
  {
    if other in s.jobs && other != id { EndUntouched(s, other, Generic, id); }
  }

  /** One step of another job, or past the end of this one. */
  lemma OtherJobStep(s: State, digest: Digest, step: Step, id: JobId)
    requires WellFormed(step) && 1 <= id < s.nextId
    requires step.DoStart? || step.id != id || Over(s, id)
    ensures Untouched(s, Next(s, digest, step), id)
  {
    match step {
      case Chunk(x, chunk, wrote) => ReadUntouched(s, x, chunk, wrote, id);
      case ReplyFinished(x, tail, wrote, renames) => FinishedUntouched(s, digest, x, tail, wrote, renames, id);
      case ErrorOccurred(x) => if Active(s, x) { EndUntouched(s, x, Generic, id); }
      case _ =>
    }
  }

  /** One step of this job while it is active. */
  lemma OwnJobStep(s: State, digest: Digest, step: Step, id: JobId)
    requires Inv(s, digest) && WellFormed(step) && !step.DoStart? && step.id == id && Active(s, id) && s.jobs[id].hasListener
    ensures var s' := Next(s, digest, step);
            && (id in s'.jobs ==> s'.jobs[id].hasListener)
            && |s'.log| <= |s.log| + 1
            && (id !in s'.jobs ==> |s'.log| > |s.log| && s'.log[|s.log|].id == id && s'.log[|s.log|].OnError?)
            && (id in s'.jobs && s'.jobs[id].state == Finished ==>
                  |s'.log| > |s.log| && s'.log[|s.log|].id == id && s'.log[|s.log|].OnFinished?)
            && (Active(s', id) ==> forall i :: |s.log| <= i < |s'.log| ==> !Terminal(s'.log[i]))
  {
  }

  lemma ToldStep(s: State, digest: Digest, step: Step, from: nat, id: JobId)
    requires Inv(s, digest) && WellFormed(step) && 1 <= id < s.nextId && ToldSoFar(s, from, id)
    ensures ToldSoFar(Next(s, digest, step), from, id)
  {
    var s' := Next(s, digest, step);
    LogGrows(s, digest, step);
    if step.DoStart? || step.id != id || Over(s, id) {
      OtherJobStep(s, digest, step, id);
      if id !in s.jobs { LastWordStays(s.log, s'.log, from, id, false); }
      else if s.jobs[id].state == Finished { LastWordStays(s.log, s'.log, from, id, true); }
    } else {
      OwnJobStep(s, digest, step, id);
      assert id !in s'.jobs || s'.jobs[id].state == Finished ==> from <= |s.log| < |s'.log|;
    }
  }

  /** Nobody who listens is left without an answer: over any run, a job with a listener that was
      active is over exactly when its listener has been told, by the error that took it out of the
      table or by the finish that keeps it there. */
  lemma {:induction false} OverIffTold(s: State, digest: Digest, id: JobId, steps: seq<Step>)
    requires Inv(s, digest) && Active(s, id) && s.jobs[id].hasListener && AllWellFormed(steps)
    ensures var s' := Run(s, digest, steps);
            && |s.log| <= |s'.log|
            && (id !in s'.jobs <==> LastWord(s'.log, |s.log|, id, false))
            && (id in s'.jobs && s'.jobs[id].state == Finished <==> LastWord(s'.log, |s.log|, id, true))
  {
    ToldRun(s, digest, id, steps);
    RunInv(s, digest, steps);
    OneLastWord(Run(s, digest, steps).log, |s.log|, id);
  }

  lemma {:induction false} ToldRun(s: State, digest: Digest, id: JobId, steps: seq<Step>)
    requires Inv(s, digest) && Active(s, id) && s.jobs[id].hasListener && AllWellFormed(steps)
    ensures ToldSoFar(Run(s, digest, steps), |s.log|, id)
    decreases |steps|
  {
    if steps != [] {
      var front := steps[..|steps| - 1];
      ToldRun(s, digest, id, front);
      RunInv(s, digest, front);
      NextIdGrows(s, digest, front);
      ToldStep(Run(s, digest, front), digest, steps[|steps| - 1], |s.log|, id);
    }
  }

  /** An orderly log never has both last words about one job. */
  lemma OneLastWord(log: seq<Callback>, from: nat, id: JobId)
    requires Orderly(log) && id != 0
    ensures !(LastWord(log, from, id, true) && LastWord(log, from, id, false))
  {
    forall i, j | 0 <= i < |log| && 0 <= j < |log| && log[i].id == id && log[j].id == id && i != j
      ensures !(Terminal(log[i]) && Terminal(log[j]))
    {
      assert i < j ==> Follows(log[i], log[j]);
      assert j < i ==> Follows(log[j], log[i]);
    }
  }

  /** A cancelled job never finishes: it stays as it is until it leaves, and nothing is said about
      it in between. */
  lemma {:induction false} CancelledNeverFinishes(s: State, digest: Digest, id: JobId, steps: seq<Step>)
    requires Inv(s, digest) && id in s.jobs && s.jobs[id].state == Cancelling && AllWellFormed(steps)
    ensures var s' := Run(s, digest, steps);
            && (id in s'.jobs ==> s'.jobs[id] == s.jobs[id])
            && s.log <= s'.log
            && forall i :: |s.log| <= i < |s'.log| && s'.log[i].id == id ==> s'.log[i] == OnError(id, Cancelled)
    decreases |steps|
  {
    if steps != [] {
      var front, last := steps[..|steps| - 1], steps[|steps| - 1];
      CancelledNeverFinishes(s, digest, id, front);
      RunInv(s, digest, front);
      NextIdGrows(s, digest, front);
      CancelledStep(Run(s, digest, front), digest, id, last, s.jobs[id]);
    }
  }

  /** One step past a cancel: the job stays, or leaves as cancelled, or is gone. */
  lemma CancelledStep(s: State, digest: Digest, id: JobId, step: Step, job: Job)
    requires 1 <= id < s.nextId && WellFormed(step) && job.state == Cancelling
    requires id in s.jobs ==> s.jobs[id] == job
    ensures var s' := Next(s, digest, step);
            && (id in s'.jobs ==> s'.jobs[id] == job)
            && s.log <= s'.log
            && forall i :: |s.log| <= i < |s'.log| && s'.log[i].id == id ==> s'.log[i] == OnError(id, Cancelled)
  {
    if step.DoStart? || step.id != id || id !in s.jobs {
      OtherJobStep(s, digest, step, id);
    } else {
      OwnCancelledStep(s, digest, id, step);
    }
  }

  lemma OwnCancelledStep(s: State, digest: Digest, id: JobId, step: Step)
    requires WellFormed(step) && !step.DoStart? && step.id == id && id in s.jobs && s.jobs[id].state == Cancelling
    ensures Next(s, digest, step) == if step.ReplyFinished? then End(s, id, Cancelled) else s
  {
    assert step.DoCancel? ==> s.jobs[id := s.jobs[id].(state := Cancelling)] == s.jobs;
  }

  /** A finished job stays in the table unchanged. */
  lemma {:induction false} FinishedStays(s: State, digest: Digest, id: JobId, steps: seq<Step>)
    requires Inv(s, digest) && id in s.jobs && s.jobs[id].state == Finished && AllWellFormed(steps)
    ensures id in Run(s, digest, steps).jobs && Run(s, digest, steps).jobs[id] == s.jobs[id]
    decreases |steps|
  {
    if steps != [] {
      FinishedStays(s, digest, id, steps[..|steps| - 1]);
      NextIdGrows(s, digest, steps[..|steps| - 1]);
      OtherJobStep(Run(s, digest, steps[..|steps| - 1]), digest, steps[|steps| - 1], id);
    }
  }

  // ----- the staged file ------------------------------------------------------------------

  /** The staged file holds the bytes whose hash was checked exactly when the tail drained at the
      end was written in full; its write result is not looked at. */
  lemma {:induction false} StagedIsHashedIff(s: State, digest: Digest, id: JobId, tail: Bytes, wrote: nat)
    requires Inv(s, digest) && id in s.jobs && s.jobs[id].state == Downloading && wrote <= |tail|
    requires HashMatches(digest, s.jobs[id].request, s.jobs[id].hashed + tail)
    ensures var s' := NetworkFinished(s, digest, id, tail, wrote, true);
            var name := s.jobs[id].request.destName;
            && id in s'.jobs && s'.jobs[id].state == Finished && name in s'.files
            && (s'.files[name] == s'.jobs[id].hashed <==> wrote == |tail|)
  {
    var j := s.jobs[id];
    if wrote == |tail| {
      assert tail[..wrote] == tail;
    } else {
      assert |j.part + tail[..wrote]| != |j.hashed + tail|;
    }
  }

  predicate TailsWritten(steps: seq<Step>) {
    forall i :: 0 <= i < |steps| && steps[i].ReplyFinished? ==> steps[i].tailWrote == |steps[i].tail|
  }

  /** One step with a complete tail write keeps every job's file equal to what was hashed. */
  lemma PartStep(s: State, digest: Digest, step: Step, id: JobId)
    requires WellFormed(step) && (step.ReplyFinished? ==> step.tailWrote == |step.tail|)
    requires id in s.jobs ==> s.jobs[id].part == s.jobs[id].hashed
    requires id in Next(s, digest, step).jobs
    ensures Next(s, digest, step).jobs[id].part == Next(s, digest, step).jobs[id].hashed
  {
    if step.ReplyFinished? { assert step.tail[..step.tailWrote] == step.tail; }
  }

  /** Over every run whose tails are written in full, each job's file is what was hashed. */
  lemma {:induction false} EveryRunStagesHashed(digest: Digest, steps: seq<Step>, id: JobId)
    requires AllWellFormed(steps) && TailsWritten(steps) && id in Run(INIT, digest, steps).jobs
    ensures Run(INIT, digest, steps).jobs[id].part == Run(INIT, digest, steps).jobs[id].hashed
    decreases |steps|
  {
    if steps != [] {
      var front, last := steps[..|steps| - 1], steps[|steps| - 1];
      if id in Run(INIT, digest, front).jobs {
        EveryRunStagesHashed(digest, front, id);
      }
      PartStep(Run(INIT, digest, front), digest, last, id);
    }
  }
}
