// The state of the download service read off the history of events alone: which job is in which state,
// what was delivered for it, what its listener was told and what is staged.
module DownloadHistory {
  import opened Downloads
  import opened Options

  // ----- the history of one job ------------------------------------------------------------

  /** A start that is not refused. */
  predicate Accepts(step: Step) {
    step.DoStart? && ValidRequest(step.request) && step.reply.Created? && step.opens
  }

  function Starts(steps: seq<Step>): nat {
    if steps == [] then 0 else Starts(steps[..|steps| - 1]) + if Accepts(steps[|steps| - 1]) then 1 else 0
  }

  /** Ids count the accepted starts, from 1. */
  predicate StartsAs(steps: seq<Step>, k: nat, id: JobId) {
    k < |steps| && Accepts(steps[k]) && id == Starts(steps[..k]) + 1
  }

  /** What ends the download of a job or its cancellation begins: a cancel, an error, the end of the reply,
      or a chunk that is not written in full. */
  predicate Stops(step: Step, id: JobId) {
    || (step.DoCancel? && step.id == id)
    || (step.ErrorOccurred? && step.id == id)
    || (step.ReplyFinished? && step.id == id)
    || (step.Chunk? && step.id == id && step.chunk != [] && step.wrote != |step.chunk|)
  }

  /** The job was started and nothing has stopped it since. */
  ghost predicate Listening(steps: seq<Step>, id: JobId) {
    exists k: nat :: ListeningFrom(steps, k, id)
  }

  ghost predicate ListeningFrom(steps: seq<Step>, k: nat, id: JobId) {
    StartsAs(steps, k, id) && forall i :: k < i < |steps| ==> !Stops(steps[i], id)
  }

  /** What the network delivered for the job while it was listening, in order: the chunks written in full
      and the rest that came with the end of the reply. */
  ghost function Content(steps: seq<Step>, id: JobId): Bytes {
    if steps == [] then []
    else
      var front, last := steps[..|steps| - 1], steps[|steps| - 1];
      Content(front, id)
      + if !Listening(front, id) then []
        else if last.Chunk? && last.id == id && last.wrote == |last.chunk| then last.chunk
        else if last.ReplyFinished? && last.id == id then last.tail
        else []
  }

  /** The same as far as it reached the file. */
  ghost function Stored(steps: seq<Step>, id: JobId): Bytes
    requires AllWellFormed(steps)
  {
    if steps == [] then []
    else
      var front, last := steps[..|steps| - 1], steps[|steps| - 1];
      Stored(front, id)
      + if !Listening(front, id) then []
        else if last.Chunk? && last.id == id && last.wrote == |last.chunk| then last.chunk
        else if last.ReplyFinished? && last.id == id then last.tail[..last.tailWrote]
        else []
  }

  /** The start of the job. */
  function Begun(steps: seq<Step>, id: JobId): Option<Step> {
    if steps == [] then None
    else
      var front, last := steps[..|steps| - 1], steps[|steps| - 1];
      if Accepts(last) && id == Starts(front) + 1 then Some(last) else Begun(front, id)
  }

  /** The job was cancelled while listening, and its reply has not ended since. */
  ghost predicate Withdrawn(steps: seq<Step>, id: JobId) {
    exists m: nat :: WithdrawnAt(steps, m, id)
  }

  ghost predicate WithdrawnAt(steps: seq<Step>, m: nat, id: JobId) {
    && m < |steps| && steps[m] == DoCancel(id) && Listening(steps[..m], id)
    && forall i :: m < i < |steps| ==> !(steps[i].ReplyFinished? && steps[i].id == id)
  }

  /** Letters that a hexadecimal hash may spell in either case. */
  predicate SameLetter(c: char, d: char) {
    c == d || ('A' <= c <= 'Z' && d as int == c as int + 32) || ('A' <= d <= 'Z' && c as int == d as int + 32)
  }

  predicate SameHash(a: string, b: string) {
    |a| == |b| && forall i :: 0 <= i < |a| ==> SameLetter(a[i], b[i])
  }

  /** The reply of a listening job ended, everything delivered has the expected hash, if one was given, and
      the file could be renamed. */
  ghost predicate Completes(digest: Digest, steps: seq<Step>, m: nat, id: JobId) {
    && EndsSound(digest, steps, m, id) && steps[m].renames
  }

  ghost predicate EndsSound(digest: Digest, steps: seq<Step>, m: nat, id: JobId) {
    && m < |steps| && steps[m].ReplyFinished? && steps[m].id == id && Listening(steps[..m], id)
    && Begun(steps[..m], id).Some? && Begun(steps[..m], id).value.DoStart?
    && var expected := Begun(steps[..m], id).value.request.expectedSha256;
    expected == "" || SameHash(digest(Content(steps[..m + 1], id)), expected)
  }

  ghost predicate Completed(digest: Digest, steps: seq<Step>, id: JobId) {
    exists m: nat :: Completes(digest, steps, m, id)
  }

  // ----- one more event ----------------------------------------------------------------------

  lemma ListeningFromStep(front: seq<Step>, last: Step, k: nat, id: JobId)
    requires k <= |front|
    ensures ListeningFrom(front + [last], k, id) <==>
            if k < |front| then ListeningFrom(front, k, id) && !Stops(last, id) else Accepts(last) && id == Starts(front) + 1
  {
    var all := front + [last];
    assert all[..k] == front[..k] && front[..|front|] == front;
    if k < |front| {
      assert ListeningFrom(all, k, id) ==> !Stops(all[|front|], id);
      assert forall i :: k < i < |front| ==> all[i] == front[i];
    }
  }

  lemma ListeningStep(front: seq<Step>, last: Step, id: JobId)
    ensures Listening(front + [last], id) <==>
            (Listening(front, id) && !Stops(last, id)) || (Accepts(last) && id == Starts(front) + 1)
  {
    if k: nat :| ListeningFrom(front + [last], k, id) {
      ListeningFromStep(front, last, k, id);
    }
    if k: nat :| ListeningFrom(front, k, id) {
      ListeningFromStep(front, last, k, id);
    }
    ListeningFromStep(front, last, |front|, id);
  }

  lemma WithdrawnAtStep(front: seq<Step>, last: Step, m: nat, id: JobId)
    requires m <= |front|
    ensures WithdrawnAt(front + [last], m, id) <==>
            if m < |front| then WithdrawnAt(front, m, id) && !(last.ReplyFinished? && last.id == id)
            else last == DoCancel(id) && Listening(front, id)
  {
    var all := front + [last];
    assert all[..m] == front[..m] && front[..|front|] == front;
    if m < |front| {
      assert WithdrawnAt(all, m, id) ==> !(all[|front|].ReplyFinished? && all[|front|].id == id);
      assert forall i :: m < i < |front| ==> all[i] == front[i];
    }
  }

  lemma WithdrawnStep(front: seq<Step>, last: Step, id: JobId)
    ensures Withdrawn(front + [last], id) <==>
            (Withdrawn(front, id) && !(last.ReplyFinished? && last.id == id)) || (last == DoCancel(id) && Listening(front, id))
  {
    if m: nat :| WithdrawnAt(front + [last], m, id) {
      WithdrawnAtStep(front, last, m, id);
    }
    if m: nat :| WithdrawnAt(front, m, id) {
      WithdrawnAtStep(front, last, m, id);
    }
    WithdrawnAtStep(front, last, |front|, id);
  }

  lemma CompletedStep(digest: Digest, front: seq<Step>, last: Step, id: JobId)
    ensures Completed(digest, front + [last], id) <==>
            Completed(digest, front, id) || Completes(digest, front + [last], |front|, id)
  {
    var all := front + [last];
    if m: nat :| Completes(digest, all, m, id) {
      if m < |front| {
        assert all[..m] == front[..m] && all[..m + 1] == front[..m + 1];
        assert Completes(digest, front, m, id);
      }
    }
    if m: nat :| Completes(digest, front, m, id) {
      assert all[..m] == front[..m] && all[..m + 1] == front[..m + 1];
      assert Completes(digest, all, m, id);
    }
  }

  /** Nothing is known of an id that was not handed out yet. */
  lemma {:induction false} NotStarted(steps: seq<Step>, id: JobId)
    requires AllWellFormed(steps) && id > Starts(steps)
    ensures !Listening(steps, id) && Content(steps, id) == [] && Stored(steps, id) == [] && Begun(steps, id).None?
    ensures !Withdrawn(steps, id)
  {
    if steps != [] {
      var front, last := steps[..|steps| - 1], steps[|steps| - 1];
      assert steps == front + [last];
      NotStarted(front, id);
      ListeningStep(front, last, id);
      WithdrawnStep(front, last, id);
    }
  }

  // ----- the state is the history --------------------------------------------------------------

  /** What the history says about one id. */
  ghost predicate Tells(s: State, digest: Digest, steps: seq<Step>, id: JobId)
    requires AllWellFormed(steps)
  {
    && (id in s.jobs && s.jobs[id].state == Downloading <==> Listening(steps, id))
    && (id in s.jobs && s.jobs[id].state == Cancelling <==> Withdrawn(steps, id))
    && (id in s.jobs && s.jobs[id].state == Finished <==> Completed(digest, steps, id))
    && (id in s.jobs ==> Matches(s.jobs[id], steps, id))
  }

  ghost predicate Matches(j: Job, steps: seq<Step>, id: JobId)
    requires AllWellFormed(steps)
  {
    var begun := Begun(steps, id);
    && j.state != Failed
    && j.hashed == Content(steps, id) && j.part == Stored(steps, id) && j.bytesReceived == |Content(steps, id)|
    && begun.Some? && begun.value.DoStart? && begun.value.reply.Created?
    && j.request == begun.value.request && j.hasListener == begun.value.hasListener
    && j.bytesTotal == begun.value.reply.total
  }

  lemma HashIsSame(digest: Digest, r: Request, hashed: Bytes)
    ensures HashMatches(digest, r, hashed) <==> r.expectedSha256 == "" || SameHash(digest(hashed), r.expectedSha256)
  {
    var a, b := digest(hashed), r.expectedSha256;
    if Lower(a) == Lower(b) {
      forall i | 0 <= i < |a| ensures SameLetter(a[i], b[i]) {
        assert Lower(a)[i] == Lower(b)[i];
      }
    }
    if SameHash(a, b) {
      assert forall i :: 0 <= i < |a| ==> SameLetter(a[i], b[i]);
      assert Lower(a) == Lower(b);
    }
  }

  lemma {:induction false} NextIdCounts(digest: Digest, steps: seq<Step>)
    requires AllWellFormed(steps)
    ensures Run(INIT, digest, steps).nextId == Starts(steps) + 1
    decreases |steps|
  {
    if steps != [] { NextIdCounts(digest, steps[..|steps| - 1]); }
  }

  /** The one event more changes nothing that the history says about this id. */
  ghost predicate SameStory(digest: Digest, front: seq<Step>, all: seq<Step>, id: JobId)
    requires AllWellFormed(front) && AllWellFormed(all)
  {
    && (Listening(all, id) <==> Listening(front, id)) && (Withdrawn(all, id) <==> Withdrawn(front, id))
    && (Completed(digest, all, id) <==> Completed(digest, front, id))
    && Content(all, id) == Content(front, id) && Stored(all, id) == Stored(front, id) && Begun(all, id) == Begun(front, id)
  }

  /** Events of other jobs, and events of a job that is over. */
  lemma OtherStory(digest: Digest, front: seq<Step>, last: Step, id: JobId)
    requires AllWellFormed(front + [last]) && AllWellFormed(front) && id <= Starts(front)
    requires last.DoStart? || last.id != id || (!Listening(front, id) && !Withdrawn(front, id))
    ensures SameStory(digest, front, front + [last], id)
  {
    var all := front + [last];
    assert all[..|all| - 1] == front;
    ListeningStep(front, last, id);
    WithdrawnStep(front, last, id);
    CompletedStep(digest, front, last, id);
    assert Stored(all, id) == Stored(front, id) + [];
    assert Content(all, id) == Content(front, id) + [];
  }

  lemma OtherTells(s: State, s': State, digest: Digest, front: seq<Step>, all: seq<Step>, id: JobId)
    requires AllWellFormed(front) && AllWellFormed(all)
    requires Tells(s, digest, front, id) && Untouched(s, s', id) && SameStory(digest, front, all, id)
    ensures Tells(s', digest, all, id)
  {
  }

  /** The start of this job. */
  lemma StartTells(s: State, digest: Digest, front: seq<Step>, last: Step, id: JobId)
    requires AllWellFormed(front + [last]) && AllWellFormed(front) && WellFormed(last)
    requires Accepts(last) && id == s.nextId == Starts(front) + 1
    ensures Tells(Next(s, digest, last), digest, front + [last], id)
  {
    var all := front + [last];
    assert all[..|all| - 1] == front;
    NotStarted(front, id);
    ListeningStep(front, last, id);
    WithdrawnStep(front, last, id);
    NotCompleted(digest, all, id);
  }

  /** A job that just started has not completed. */
  lemma NotCompleted(digest: Digest, all: seq<Step>, id: JobId)
    requires all != [] && AllWellFormed(all) && all[|all| - 1].DoStart? && id > Starts(all[..|all| - 1])
    ensures !Completed(digest, all, id)
  {
    if m: nat :| Completes(digest, all, m, id) {
      assert m < |all| - 1;
      assert all[..m] == all[..|all| - 1][..m];
      StartsGrow(all[..|all| - 1], m);
      NotStarted(all[..m], id);
      assert false;
    }
  }

  lemma {:induction false} StartsGrow(steps: seq<Step>, m: nat)
    requires m <= |steps|
    ensures Starts(steps[..m]) <= Starts(steps)
    decreases |steps|
  {
    if m < |steps| {
      StartsGrow(steps[..|steps| - 1], m);
      assert steps[..|steps| - 1][..m] == steps[..m];
    } else {
      assert steps[..m] == steps;
    }
  }

  /** What an event of this job, while it is listening, adds to its story. */
  lemma OwnStory(digest: Digest, front: seq<Step>, last: Step, id: JobId)
    requires AllWellFormed(front + [last]) && AllWellFormed(front) && WellFormed(last)
    requires !last.DoStart? && last.id == id && Listening(front, id)
    ensures var all := front + [last];
            && (Listening(all, id) <==> !Stops(last, id))
            && (Withdrawn(all, id) <==> last.DoCancel? || (Withdrawn(front, id) && !last.ReplyFinished?))
            && (Completed(digest, all, id) <==> Completed(digest, front, id) || Completes(digest, all, |front|, id))
            && Begun(all, id) == Begun(front, id)
            && Content(all, id) ==
               Content(front, id) + (if last.Chunk? && last.wrote == |last.chunk| then last.chunk
                                     else if last.ReplyFinished? then last.tail else [])
            && Stored(all, id) ==
               Stored(front, id) + (if last.Chunk? && last.wrote == |last.chunk| then last.chunk
                                    else if last.ReplyFinished? then last.tail[..last.tailWrote] else [])
  {
    var all := front + [last];
    assert all[..|all| - 1] == front;
    ListeningStep(front, last, id);
    WithdrawnStep(front, last, id);
    CompletedStep(digest, front, last, id);
  }

  lemma OwnTells(s: State, digest: Digest, front: seq<Step>, last: Step, id: JobId)
    requires AllWellFormed(front + [last]) && AllWellFormed(front) && WellFormed(last)
    requires !last.DoStart? && last.id == id && Listening(front, id) && Tells(s, digest, front, id)
    ensures Tells(Next(s, digest, last), digest, front + [last], id)
  {
    OwnStory(digest, front, last, id);
    var all := front + [last];
    match last {
      case DoCancel(_) =>
      case Chunk(_, chunk, wrote) =>
        assert Content(front, id) + [] == Content(front, id) && Stored(front, id) + [] == Stored(front, id);
      case ErrorOccurred(_) =>
      case ReplyFinished(_, tail, wrote, renames) =>
        HashIsSame(digest, s.jobs[id].request, s.jobs[id].hashed + tail);
        assert all[..|front|] == front && all[..|front| + 1] == all;
    }
  }

  /** A cancelled job waits for its reply to end. */
  lemma WithdrawnTells(s: State, digest: Digest, front: seq<Step>, last: Step, id: JobId)
    requires AllWellFormed(front + [last]) && AllWellFormed(front) && WellFormed(last) && id <= Starts(front)
    requires !last.DoStart? && last.id == id && Withdrawn(front, id) && Tells(s, digest, front, id)
    ensures Tells(Next(s, digest, last), digest, front + [last], id)
  {
    var all := front + [last];
    assert all[..|all| - 1] == front;
    ListeningStep(front, last, id);
    WithdrawnStep(front, last, id);
    CompletedStep(digest, front, last, id);
    assert all[..|front|] == front;
    assert Content(all, id) == Content(front, id) + [] == Content(front, id);
    assert Stored(all, id) == Stored(front, id) + [] == Stored(front, id);
  }

  lemma NextTells(s: State, digest: Digest, front: seq<Step>, last: Step, id: JobId)
    requires AllWellFormed(front + [last]) && AllWellFormed(front) && WellFormed(last) && 1 <= id
    requires id <= Starts(front) && s.nextId == Starts(front) + 1 && Tells(s, digest, front, id)
    ensures Tells(Next(s, digest, last), digest, front + [last], id)
  {
    if !last.DoStart? && last.id == id && Listening(front, id) {
      OwnTells(s, digest, front, last, id);
    } else if !last.DoStart? && last.id == id && Withdrawn(front, id) {
      WithdrawnTells(s, digest, front, last, id);
    } else {
      OtherStory(digest, front, last, id);
      OtherJobStep(s, digest, last, id);
      OtherTells(s, Next(s, digest, last), digest, front, front + [last], id);
    }
  }

  /** Over every run the table is the history: the job of every started id is downloading, cancelling or
      finished exactly when the events say so, and it holds exactly what was delivered for it, in order. */
  lemma {:induction false} TableIsHistory(digest: Digest, steps: seq<Step>, id: JobId)
    requires AllWellFormed(steps) && 1 <= id <= Starts(steps)
    ensures Tells(Run(INIT, digest, steps), digest, steps, id)
    decreases |steps|
  {
    var front, last := steps[..|steps| - 1], steps[|steps| - 1];
    assert steps == front + [last];
    NextIdCounts(digest, front);
    InitInv(digest);
    RunInv(INIT, digest, front);
    if id <= Starts(front) {
      TableIsHistory(digest, front, id);
      NextTells(Run(INIT, digest, front), digest, front, last, id);
    } else {
      StartTells(Run(INIT, digest, front), digest, front, last, id);
    }
  }

  lemma InitInv(digest: Digest)
    ensures Inv(INIT, digest)
  {
  }

  // ----- what is told and staged ---------------------------------------------------------------

  /** What `callback` says reaches the listener of a job that has one. */
  function ToListener(steps: seq<Step>, id: JobId, callback: Callback): seq<Callback> {
    var begun := Begun(steps, id);
    if begun.Some? && begun.value.DoStart? && begun.value.hasListener then [callback] else []
  }

  function Total(steps: seq<Step>, id: JobId): int {
    var begun := Begun(steps, id);
    if begun.Some? && begun.value.DoStart? && begun.value.reply.Created? then begun.value.reply.total else 0
  }

  function Name(steps: seq<Step>, id: JobId): string {
    var begun := Begun(steps, id);
    if begun.Some? && begun.value.DoStart? then begun.value.request.destName else ""
  }

  /** What one more event makes the service say: a refusal, how much has been delivered so far, or how the
      job ended. */
  ghost function Says(digest: Digest, front: seq<Step>, last: Step): seq<Callback>
    requires AllWellFormed(front) && AllWellFormed(front + [last])
  {
    var all := front + [last];
    match last
    case DoStart(r, hasListener, _, _) =>
      if Accepts(last) || !hasListener then [] else [OnError(0, if ValidRequest(r) then Generic else InvalidArgument)]
    case DoCancel(_) => []
    case Chunk(id, chunk, wrote) =>
      if !Listening(front, id) || chunk == [] then []
      else ToListener(front, id, if wrote == |chunk| then OnProgress(id, |Content(all, id)|, Total(front, id))
                                 else OnError(id, Generic))
    case ErrorOccurred(id) => if Listening(front, id) then ToListener(front, id, OnError(id, Generic)) else []
    case ReplyFinished(id, _, _, _) =>
      if Listening(front, id) then
        ToListener(front, id, if Completes(digest, all, |front|, id) then OnFinished(id, Name(front, id))
                              else OnError(id, Generic))
      else if Withdrawn(front, id) then ToListener(front, id, OnError(id, Cancelled))
      else []
  }

  ghost function Said(digest: Digest, steps: seq<Step>): seq<Callback>
    requires AllWellFormed(steps)
  {
    if steps == [] then []
    else
      var front, last := steps[..|steps| - 1], steps[|steps| - 1];
      assert front + [last] == steps;
      Said(digest, front) + Says(digest, front, last)
  }

  /** The staged files: a completed job puts its file under its name, a failed rename takes an older one
      away. */
  ghost function Staged(digest: Digest, steps: seq<Step>): map<string, Bytes>
    requires AllWellFormed(steps)
  {
    if steps == [] then map[]
    else
      var front, last := steps[..|steps| - 1], steps[|steps| - 1];
      assert front + [last] == steps;
      Restaged(digest, Staged(digest, front), front, last)
  }

  ghost function Restaged(digest: Digest, files: map<string, Bytes>, front: seq<Step>, last: Step): map<string, Bytes>
    requires AllWellFormed(front + [last])
  {
    var all := front + [last];
    if !last.ReplyFinished? || !EndsSound(digest, all, |front|, last.id) then files
    else if last.renames then files[Name(front, last.id) := Stored(all, last.id)]
    else files - {Name(front, last.id)}
  }

  /** Over every run everything told and everything staged is the history. */
  lemma {:induction false} LogAndFilesAreHistory(digest: Digest, steps: seq<Step>)
    requires AllWellFormed(steps)
    ensures Run(INIT, digest, steps).log == Said(digest, steps)
    ensures Run(INIT, digest, steps).files == Staged(digest, steps)
    decreases |steps|
  {
    if steps != [] {
      var front, last := steps[..|steps| - 1], steps[|steps| - 1];
      assert steps == front + [last];
      LogAndFilesAreHistory(digest, front);
      StepSays(digest, front, last);
    }
  }

  /** One event says and stages what the history makes of it. */
  ghost predicate Adds(s: State, s': State, digest: Digest, front: seq<Step>, last: Step)
    requires AllWellFormed(front) && AllWellFormed(front + [last])
  {
    s'.log == s.log + Says(digest, front, last) && s'.files == Restaged(digest, s.files, front, last)
  }

  lemma StepSays(digest: Digest, front: seq<Step>, last: Step)
    requires AllWellFormed(front) && AllWellFormed(front + [last]) && WellFormed(last)
    ensures Adds(Run(INIT, digest, front), Next(Run(INIT, digest, front), digest, last), digest, front, last)
  {
    var s := Run(INIT, digest, front);
    if last.DoStart? {
    } else if 1 <= last.id <= Starts(front) {
      TableIsHistory(digest, front, last.id);
      if Listening(front, last.id) {
        ListeningSays(s, digest, front, last);
      } else {
        WaitingSays(s, digest, front, last);
      }
    } else {
      StrangerKnown(digest, front, last.id);
      SilentSays(s, digest, front, last);
    }
  }

  /** Of an id that was not handed out the table knows nothing either. */
  lemma StrangerKnown(digest: Digest, front: seq<Step>, id: JobId)
    requires AllWellFormed(front) && !(1 <= id <= Starts(front))
    ensures id !in Run(INIT, digest, front).jobs && !Listening(front, id) && !Withdrawn(front, id)
  {
    NextIdCounts(digest, front);
    InitInv(digest);
    RunInv(INIT, digest, front);
    if id > Starts(front) {
      NotStarted(front, id);
    } else {
      NobodyIsZero(front);
    }
  }

  lemma NobodyIsZero(steps: seq<Step>)
    ensures !Listening(steps, 0) && !Withdrawn(steps, 0)
  {
    forall m: nat ensures !WithdrawnAt(steps, m, 0) {
    }
  }

  lemma SilentSays(s: State, digest: Digest, front: seq<Step>, last: Step)
    requires AllWellFormed(front) && AllWellFormed(front + [last]) && WellFormed(last) && !last.DoStart?
    requires last.id !in s.jobs && !Listening(front, last.id) && !Withdrawn(front, last.id)
    ensures Adds(s, Next(s, digest, last), digest, front, last)
  {
    assert (front + [last])[..|front|] == front;
  }

  lemma WaitingSays(s: State, digest: Digest, front: seq<Step>, last: Step)
    requires AllWellFormed(front) && AllWellFormed(front + [last]) && WellFormed(last) && !last.DoStart?
    requires !Listening(front, last.id) && Tells(s, digest, front, last.id)
    ensures Adds(s, Next(s, digest, last), digest, front, last)
  {
    assert (front + [last])[..|front|] == front;
  }

  lemma ListeningSays(s: State, digest: Digest, front: seq<Step>, last: Step)
    requires AllWellFormed(front) && AllWellFormed(front + [last]) && WellFormed(last) && !last.DoStart?
    requires Listening(front, last.id) && Tells(s, digest, front, last.id)
    ensures Adds(s, Next(s, digest, last), digest, front, last)
  {
    OwnStory(digest, front, last, last.id);
    if last.ReplyFinished? { EndSays(s, digest, front, last); }
  }

  /** The end of a reply, told and staged by whether everything delivered is sound. */
  lemma EndSays(s: State, digest: Digest, front: seq<Step>, last: Step)
    requires AllWellFormed(front) && AllWellFormed(front + [last]) && WellFormed(last) && last.ReplyFinished?
    requires Listening(front, last.id) && Tells(s, digest, front, last.id)
    ensures Adds(s, Next(s, digest, last), digest, front, last)
  {
    var all, id := front + [last], last.id;
    OwnStory(digest, front, last, id);
    assert all[..|front|] == front && all[..|front| + 1] == all;
    HashIsSame(digest, s.jobs[id].request, s.jobs[id].hashed + last.tail);
    assert EndsSound(digest, all, |front|, id) <==> HashMatches(digest, s.jobs[id].request, s.jobs[id].hashed + last.tail);
  }
}
