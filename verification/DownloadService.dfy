// core::DownloadService as an object: the job table updated in place by the event handlers.
module DownloadService {
  import opened Downloads

  /** validateRequest(): the hash is lower-cased first and then scanned. */
  method ValidateRequest(r: Request) returns (ok: bool)
    ensures ok <==> ValidRequest(r)
    ensures ok <==>
            && r.urlValid && r.scheme in ["https", "file"]
            && r.destName !in ["", ".", ".."] && '/' !in r.destName && '\\' !in r.destName
            && (r.expectedSha256 == ""
                || (|r.expectedSha256| == 64
                    && forall c :: c in r.expectedSha256 ==> '0' <= c <= '9' || 'a' <= c <= 'f' || 'A' <= c <= 'F'))
  {
    if !r.urlValid || (r.scheme != "https" && r.scheme != "file") {
      return false;
    }
    if r.destName == "" || '/' in r.destName || '\\' in r.destName || r.destName == "." || r.destName == ".." {
      return false;
    }
    if r.expectedSha256 != "" {
      var lower := Lower(r.expectedSha256);
      if |lower| != 64 {
        return false;
      }
      for i := 0 to |lower|
        invariant forall k :: 0 <= k < i ==> HexDigit(r.expectedSha256[k])
      {
        if !('0' <= lower[i] <= '9' || 'a' <= lower[i] <= 'f') {
          assert !HexDigit(r.expectedSha256[i]);
          return false;
        }
      }
    }
    return true;
  }

  class DownloadService {
    const digest: Digest
    var jobs: map<JobId, Job>
    var nextJobId: JobId
    /** The listener calls of all jobs, in order. */
    var log: seq<Callback>
    var files: map<string, Bytes>

    function Abs(): Downloads.State
      reads this
    {
      Downloads.State(jobs, nextJobId, log, files)
    }

    constructor (digest: Digest)
      ensures this.digest == digest && Abs() == INIT
    {
      this.digest := digest;
      jobs, nextJobId, log, files := map[], 1, [], map[];
    }

    method Notify(hasListener: bool, callback: Callback)
      modifies this`log
      ensures log == Told(old(log), hasListener, callback)
    {
      if hasListener {
        log := log + [callback];
      }
    }

    method Start(request: Request, hasListener: bool, reply: Reply, opens: bool) returns (id: JobId)
      modifies this
      ensures Abs() == Downloads.Start(old(Abs()), request, hasListener, reply, opens)
      ensures id == StartedId(old(Abs()), request, reply, opens)
    {
      var valid := ValidateRequest(request);
      if !valid {
        Notify(hasListener, OnError(0, InvalidArgument));
        return 0;
      }
      if reply.FactoryThrew? {
        Notify(hasListener, OnError(0, Generic));
        return 0;
      }
      if reply.NoReply? {
        Notify(hasListener, OnError(0, Generic));
        return 0;
      }
      if !opens {
        Notify(hasListener, OnError(0, Generic));
        return 0;
      }
      id := nextJobId;
      nextJobId := nextJobId + 1;
      jobs := jobs[id := Job(request, hasListener, [], [], 0, reply.total, Downloading)];
    }

    method Cancel(id: JobId)
      modifies this`jobs
      ensures Abs() == Downloads.Cancel(old(Abs()), id)
    {
      if id !in jobs || jobs[id].state == Finished || jobs[id].state == Failed {
        return;
      }
      jobs := jobs[id := jobs[id].(state := Cancelling)];
    }

    /** The job is marked failed, told, and cleaned up. */
    method EndJob(id: JobId, code: Code)
      requires id in jobs
      modifies this`jobs, this`log
      ensures Abs() == End(old(Abs()), id, code)
    {
      var hasListener := jobs[id].hasListener;
      jobs := jobs[id := jobs[id].(state := Failed)];
      Notify(hasListener, OnError(id, code));
      jobs := jobs - {id};
    }

    method HandleReadyRead(id: JobId, chunk: Bytes, wrote: nat)
      modifies this`jobs, this`log
      ensures Abs() == ReadyRead(old(Abs()), id, chunk, wrote)
    {
      if id !in jobs || jobs[id].state != Downloading {
        return;
      }
      if chunk == [] {
        return;
      }
      if wrote != |chunk| {
        EndJob(id, Generic);
        return;
      }
      var j := jobs[id];
      j := j.(part := j.part + chunk);
      j := j.(hashed := j.hashed + chunk);
      j := j.(bytesReceived := j.bytesReceived + |chunk|);
      jobs := jobs[id := j];
      Notify(j.hasListener, OnProgress(id, j.bytesReceived, j.bytesTotal));
    }

    method HandleError(id: JobId)
      modifies this`jobs, this`log
      ensures Abs() == NetworkError(old(Abs()), id)
    {
      if id !in jobs || jobs[id].state == Finished || jobs[id].state == Failed {
        return;
      }
      if jobs[id].state == Cancelling {
        return;
      }
      EndJob(id, Generic);
    }

    /** The tail bytes past the last chunk. */
    method Drain(id: JobId, tail: Bytes, wrote: nat) returns (j: Job)
      requires wrote <= |tail| && id in jobs
      ensures j == Drained(jobs[id], tail, wrote)
    {
      j := jobs[id];
      assert j.hashed + [] == j.hashed && j.part + [] == j.part;
      if tail != [] {
        j := j.(part := j.part + tail[..wrote], hashed := j.hashed + tail, bytesReceived := j.bytesReceived + |tail|);
      }
    }

    method CheckHash(j: Job) returns (ok: bool)
      ensures ok == HashMatches(digest, j.request, j.hashed)
    {
      if j.request.expectedSha256 == "" {
        return true;
      }
      return Lower(digest(j.hashed)) == Lower(j.request.expectedSha256);
    }

    method HandleFinished(id: JobId, tail: Bytes, wrote: nat, renames: bool)
      requires wrote <= |tail|
      modifies this`jobs, this`log, this`files
      ensures Abs() == NetworkFinished(old(Abs()), digest, id, tail, wrote, renames)
    {
      if id !in jobs || jobs[id].state == Finished || jobs[id].state == Failed {
        return;
      }
      if jobs[id].state == Cancelling {
        EndJob(id, Cancelled);
        return;
      }
      var j := Drain(id, tail, wrote);
      var matches := CheckHash(j);
      if !matches {
        EndJob(id, Generic);
        return;
      }
      Promote(id, j, renames);
    }

    /** Remove an older file of that name, then rename. */
    method Promote(id: JobId, j: Job, renames: bool)
      requires id in jobs
      modifies this`jobs, this`log, this`files
      ensures Abs() == if renames then Finish(old(Abs()), id, j)
                       else End(old(Abs()), id, Generic).(files := old(files) - {j.request.destName})
    {
      files := files - {j.request.destName};
      if !renames {
        EndJob(id, Generic);
        return;
      }
      files := files[j.request.destName := j.part];
      jobs := jobs[id := j.(state := Finished)];
      Notify(j.hasListener, OnFinished(id, j.request.destName));
    }
  }
}
