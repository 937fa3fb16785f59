/**
 * The asynchronous job machinery of the Flask back end: a submission writes a
 * `queued` record into the job-status dictionary and puts the job on one FIFO
 * queue; one background worker takes the jobs in order, marks each `running`,
 * calls the wrapper and overwrites the record with `done` or `failed`; a status
 * request returns the stored record or "Job not found".
 *
 * `src/app.py` and `app.py` hold the same machinery line for line; it is
 * modelled once here.
 */
module JobQueue {

  import opened Common
  import opened Strings
  import opened JsonValue
  import ClaudeWrapper

  /** One queue entry: the dict `{'id', 'project_name', 'thread_id', 'message'}`. */
  datatype Job = Job(id: string, project: string, thread: string, message: Json)

  /** One value of the job-status dictionary. */
  datatype Record =
    | Queued(project: string, thread: string)
    | Running(project: string, thread: string)
    | Done(project: string, thread: string, response: Json, metadata: map<string, Json>)
    | Failed(project: string, thread: string, error: string)
      /** written by the worker's own exception handler: no project or thread keys */
    | Crashed(error: string)

  /** What the worker's call of the wrapper produced. */
  datatype WorkerOutcome =
    | Returned(result: ClaudeWrapper.SendResult)
    | Raised(error: string)

  /** The value of the record's `'status'` key. */
  function StatusName(r: Record): string
  {
    match r
    case Queued(_, _) => "queued"
    case Running(_, _) => "running"
    case Done(_, _, _, _) => "done"
    case Failed(_, _, _) => "failed"
    case Crashed(_) => "failed"
  }

  /** The record as the dictionary the code stores. */
  function RecordFields(r: Record): map<string, Json>
  {
    match r
    case Queued(p, t) =>
      map["status" := JStr("queued"), "project_name" := JStr(p), "thread_id" := JStr(t)]
    case Running(p, t) =>
      map["status" := JStr("running"), "project_name" := JStr(p), "thread_id" := JStr(t)]
    case Done(p, t, resp, meta) =>
      map["status" := JStr("done"), "project_name" := JStr(p), "thread_id" := JStr(t),
          "response" := resp, "metadata" := JObj(meta)]
    case Failed(p, t, e) =>
      map["status" := JStr("failed"), "project_name" := JStr(p), "thread_id" := JStr(t),
          "error" := JStr(e)]
    case Crashed(e) =>
      map["status" := JStr("failed"), "error" := JStr(e)]
  }

  /**
   * The body of a successful status reply: `{"success": True, "job_id": id, **record}`.
   * The record's keys never clash with the two fixed ones.
   */
  function StatusView(id: string, r: Record): (v: map<string, Json>)
    ensures v.Keys == {"success", "job_id"} + RecordFields(r).Keys
    ensures "success" in v && v["success"] == JBool(true)
    ensures "job_id" in v && v["job_id"] == JStr(id)
    ensures "status" in v && v["status"] == JStr(StatusName(r))
    ensures r.Done? ==> "response" in v && v["response"] == r.response
    ensures r.Failed? || r.Crashed? ==> "error" in v && v["error"] == JStr(r.error)
    ensures forall k :: k in RecordFields(r) ==> k in v && v[k] == RecordFields(r)[k]
  {
    map["success" := JBool(true), "job_id" := JStr(id)] + RecordFields(r)
  }

  /** `f"job_{int(time.time() * 1000)}_{project_name}_{thread_id}"`. */
  function JobId(ms: nat, project: string, thread: string): string
  {
    "job_" + NatToString(ms) + "_" + project + "_" + thread
  }

  /** Two submissions to the same thread at different milliseconds get different ids. */
  lemma JobIdDistinctTimes(a: nat, b: nat, project: string, thread: string)
    requires a != b
    ensures JobId(a, project, thread) != JobId(b, project, thread)
  {
    var sa, sb := NatToString(a), NatToString(b);
    var tail := "_" + project + "_" + thread;
    if JobId(a, project, thread) == JobId(b, project, thread) {
      assert |JobId(a, project, thread)| == 4 + |sa| + |tail|;
      assert |JobId(b, project, thread)| == 4 + |sb| + |tail|;
      assert sa == JobId(a, project, thread)[4..4 + |sa|];
      assert sb == JobId(b, project, thread)[4..4 + |sb|];
      NatToStringInjective(a, b);
    }
  }

  /** The job id starts with `job_` followed by the decimal milliseconds. */
  lemma JobIdShape(ms: nat, project: string, thread: string)
    ensures var id := JobId(ms, project, thread);
      var digits := NatToString(ms);
      |id| == 6 + |digits| + |project| + |thread|
      && id[..4] == "job_" && id[4..4 + |digits|] == digits
      && ParseDecimal(id[4..4 + |digits|]) == ms
  {
    ParseNatToString(ms);
  }

  /** How `data = request.get_json()` and `'message' not in data` judge a request body. */
  datatype MessageCheck = Missing | Present(message: Json) | TypeError

  /**
   * `if not data or 'message' not in data` followed by `data['message']`.
   * `None` stands for a request without a JSON body; the model assumes a
   * `get_json` that returns `None` there rather than answering the request itself. For a list or a string
   * the membership test succeeds or fails as Python's would, and the following
   * subscript raises; for a number or `True` the membership test raises.
   */
  function CheckMessage(body: Option<Json>): (c: MessageCheck)
    ensures body.None? || !Truthy(body.value) ==> c.Missing?
    ensures c.Present? <==> body.Some? && body.value.JObj? && "message" in body.value.fields
    ensures c.Present? ==> c.message == body.value.fields["message"]
    ensures body.Some? && body.value.JObj? && "message" !in body.value.fields ==> c.Missing?
  {
    if body.None? || !Truthy(body.value) then Missing
    else
      match body.value
      case JObj(m) => if "message" in m then Present(m["message"]) else Missing
      case JArr(items) => if JStr("message") in items then TypeError else Missing
      case JStr(s) => if Contains(s, "message") then TypeError else Missing
      case _ => TypeError
  }

  /** The reply of the submission route. */
  datatype SubmitReply =
    | Accepted(jobId: string, project: string, thread: string)  // 202, "status": "queued"
    | BadRequest(error: string)                                 // 400
    | ServerError                                               // 500, str(e)

  /** Reply of the status route. */
  datatype StatusReply = NotFound(error: string) | Found(body: map<string, Json>)

  /** The record the worker writes when the wrapper call has ended. */
  function Terminal(j: Job, o: WorkerOutcome): (r: Record)
    ensures StatusName(r) == (if o.Returned? && o.result.Sent? then "done" else "failed")
    ensures o.Returned? && o.result.Sent? ==> r == Done(j.project, j.thread, o.result.response, o.result.data)
    ensures o.Returned? && o.result.NotSent? ==> r == Failed(j.project, j.thread, o.result.error)
    ensures o.Raised? ==> r == Crashed(o.error)
  {
    match o
    case Returned(res) =>
      if res.Sent? then Done(j.project, j.thread, res.response, res.data)
      else Failed(j.project, j.thread, res.error)
    case Raised(err) => Crashed(err)
  }

  /**
   * What a status request shows once the worker has finished a job: the
   * wrapper's reply and metadata after a success, its message after a failure,
   * and the exception text alone when the worker itself raised.
   */
  lemma TerminalReported(id: string, j: Job, o: WorkerOutcome)
    ensures var v := StatusView(id, Terminal(j, o));
      && (o.Returned? ==>
            v["project_name"] == JStr(j.project) && v["thread_id"] == JStr(j.thread))
      && (o.Returned? && o.result.Sent? ==>
            && v.Keys == {"success", "job_id", "status", "project_name", "thread_id", "response", "metadata"}
            && v["status"] == JStr("done")
            && v["response"] == o.result.response && v["metadata"] == JObj(o.result.data))
      && (o.Returned? && o.result.NotSent? ==>
            && v.Keys == {"success", "job_id", "status", "project_name", "thread_id", "error"}
            && v["status"] == JStr("failed") && v["error"] == JStr(o.result.error))
      && (o.Raised? ==>
            && v.Keys == {"success", "job_id", "status", "error"}
            && v["status"] == JStr("failed") && v["error"] == JStr(o.error))
  {
  }

  /** The status map after the worker has finished `jobs[k]` with `outcomes[k]`, in order. */
  function Processed(status: map<string, Record>, jobs: seq<Job>, outcomes: seq<WorkerOutcome>): map<string, Record>
    requires |jobs| == |outcomes|
    decreases |jobs|
  {
    if |jobs| == 0 then status
    else
      var last := |jobs| - 1;
      Processed(status, jobs[..last], outcomes[..last])[jobs[last].id := Terminal(jobs[last], outcomes[last])]
  }

  /** After processing, every processed id holds a terminal record; the others are untouched. */
  lemma ProcessedRecords(status: map<string, Record>, jobs: seq<Job>, outcomes: seq<WorkerOutcome>)
    requires |jobs| == |outcomes|
    ensures var r := Processed(status, jobs, outcomes);
      r.Keys == status.Keys + set j | j in jobs :: j.id
    ensures var r := Processed(status, jobs, outcomes);
      forall k :: 0 <= k < |jobs| ==> r[jobs[k].id].Done? || r[jobs[k].id].Failed? || r[jobs[k].id].Crashed?
    ensures var r := Processed(status, jobs, outcomes);
      forall id :: id in status && (forall k :: 0 <= k < |jobs| ==> jobs[k].id != id) ==> r[id] == status[id]
    ensures var r := Processed(status, jobs, outcomes);
      forall k :: 0 <= k < |jobs| && (forall k2 :: k < k2 < |jobs| ==> jobs[k2].id != jobs[k].id) ==>
        r[jobs[k].id] == Terminal(jobs[k], outcomes[k])
  {
    ProcessedKeys(status, jobs, outcomes);
    forall k | 0 <= k < |jobs| && (forall k2 :: k < k2 < |jobs| ==> jobs[k2].id != jobs[k].id)
      ensures Processed(status, jobs, outcomes)[jobs[k].id] == Terminal(jobs[k], outcomes[k])
    {
      ProcessedLast(status, jobs, outcomes, k);
    }
    forall k | 0 <= k < |jobs|
      ensures Processed(status, jobs, outcomes)[jobs[k].id].Done? || Processed(status, jobs, outcomes)[jobs[k].id].Failed?
              || Processed(status, jobs, outcomes)[jobs[k].id].Crashed?
    {
      ProcessedTerminal(status, jobs, outcomes, k);
    }
    forall id | id in status && (forall k :: 0 <= k < |jobs| ==> jobs[k].id != id)
      ensures Processed(status, jobs, outcomes)[id] == status[id]
    {
      ProcessedOthers(status, jobs, outcomes, id);
    }
  }

  lemma {:induction false} ProcessedKeys(status: map<string, Record>, jobs: seq<Job>, outcomes: seq<WorkerOutcome>)
    requires |jobs| == |outcomes|
    ensures Processed(status, jobs, outcomes).Keys == status.Keys + set j | j in jobs :: j.id
    decreases |jobs|
  {
    if |jobs| > 0 {
      var last := |jobs| - 1;
      ProcessedKeys(status, jobs[..last], outcomes[..last]);
      assert jobs == jobs[..last] + [jobs[last]];
    }
  }

  lemma {:induction false} ProcessedTerminal(status: map<string, Record>, jobs: seq<Job>, outcomes: seq<WorkerOutcome>, k: nat)
    requires |jobs| == |outcomes| && k < |jobs|
    ensures var r := Processed(status, jobs, outcomes);
      jobs[k].id in r && (r[jobs[k].id].Done? || r[jobs[k].id].Failed? || r[jobs[k].id].Crashed?)
    decreases |jobs|
  {
    var last := |jobs| - 1;
    if k < last && jobs[k].id != jobs[last].id {
      ProcessedTerminal(status, jobs[..last], outcomes[..last], k);
      assert jobs[..last][k] == jobs[k];
    }
  }

  /** The record of a job no later job shares an id with is the one its own outcome gave. */
  lemma {:induction false} ProcessedLast(status: map<string, Record>, jobs: seq<Job>, outcomes: seq<WorkerOutcome>, k: nat)
    requires |jobs| == |outcomes| && k < |jobs|
    requires forall k2 :: k < k2 < |jobs| ==> jobs[k2].id != jobs[k].id
    ensures jobs[k].id in Processed(status, jobs, outcomes)
    ensures Processed(status, jobs, outcomes)[jobs[k].id] == Terminal(jobs[k], outcomes[k])
    decreases |jobs|
  {
    var last := |jobs| - 1;
    if k < last {
      assert jobs[last].id != jobs[k].id;
      assert jobs[..last][k] == jobs[k] && outcomes[..last][k] == outcomes[k];
      forall k2 | k < k2 < last ensures jobs[..last][k2].id != jobs[..last][k].id {
        assert jobs[..last][k2] == jobs[k2];
      }
      ProcessedLast(status, jobs[..last], outcomes[..last], k);
    }
  }

  lemma {:induction false} ProcessedOthers(status: map<string, Record>, jobs: seq<Job>, outcomes: seq<WorkerOutcome>, id: string)
    requires |jobs| == |outcomes| && id in status
    requires forall k :: 0 <= k < |jobs| ==> jobs[k].id != id
    ensures id in Processed(status, jobs, outcomes) && Processed(status, jobs, outcomes)[id] == status[id]
    decreases |jobs|
  {
    if |jobs| > 0 {
      var last := |jobs| - 1;
      assert forall k :: 0 <= k < last ==> jobs[..last][k] == jobs[k];
      ProcessedOthers(status, jobs[..last], outcomes[..last], id);
    }
  }

  /** The job-status dictionary, the FIFO queue and the one worker. */
  class JobManager {
    var status: map<string, Record>
    var queue: seq<Job>
    /** The job the worker has taken off the queue and not yet finished. */
    var current: Option<Job>
    /** Every job ever submitted, and every job the worker has taken, in order. */
    ghost var submitted: seq<Job>
    ghost var started: seq<Job>

    ghost predicate Valid()
      reads this
    {
      && submitted == started + queue
      && (current.Some? ==> |started| > 0 && started[|started| - 1] == current.value)
      && (forall id :: id in status && status[id].Running? ==> current.Some? && current.value.id == id)
    }

    constructor ()
      ensures Valid()
      ensures status == map[] && queue == [] && current == None
      ensures submitted == [] && started == []
    {
      status := map[];
      queue := [];
      current := None;
      submitted := [];
      started := [];
    }

    /** The submission route: validate the body, store `queued`, then enqueue. */
    method Submit(body: Option<Json>, project: string, thread: string, nowMs: nat) returns (reply: SubmitReply)
      requires Valid()
      modifies this
      ensures Valid()
      ensures current == old(current) && started == old(started)
      ensures match CheckMessage(body)
        case Missing =>
          reply == BadRequest("Message is required")
          && status == old(status) && queue == old(queue) && submitted == old(submitted)
        case TypeError =>
          reply == ServerError
          && status == old(status) && queue == old(queue) && submitted == old(submitted)
        case Present(msg) =>
          var job := Job(JobId(nowMs, project, thread), project, thread, msg);
          && reply == Accepted(job.id, project, thread)
          && status == old(status)[job.id := Queued(project, thread)]
          && queue == old(queue) + [job]
          && submitted == old(submitted) + [job]
    {
      match CheckMessage(body)
      case Missing =>
        reply := BadRequest("Message is required");
      case TypeError =>
        reply := ServerError;
      case Present(msg) =>
        var id := JobId(nowMs, project, thread);
        var job := Job(id, project, thread, msg);
        status := status[id := Queued(project, thread)];
        queue := queue + [job];
        submitted := submitted + [job];
        reply := Accepted(id, project, thread);
    }

    /**
     * First half of one worker iteration: take the head of the queue and mark it
     * `running`. An empty queue makes `job_queue.get(timeout=1)` raise `queue.Empty`,
     * and the worker just loops.
     */
    method StartNext() returns (took: bool)
      requires Valid() && current.None?
      modifies this
      ensures Valid()
      ensures took == (old(queue) != [])
      ensures submitted == old(submitted)
      ensures !took ==> status == old(status) && queue == old(queue) && current == None && started == old(started)
      ensures took ==>
        var j := old(queue)[0];
        && current == Some(j)
        && queue == old(queue)[1..]
        && started == old(started) + [j]
        && status == old(status)[j.id := Running(j.project, j.thread)]
    {
      if queue == [] {
        took := false;
      } else {
        var j := queue[0];
        queue := queue[1..];
        started := started + [j];
        current := Some(j);
        status := status[j.id := Running(j.project, j.thread)];
        took := true;
      }
    }

    /** Second half: overwrite the record of the current job with its terminal state. */
    method Finish(outcome: WorkerOutcome)
      requires Valid() && current.Some?
      modifies this
      ensures Valid()
      ensures current == None && queue == old(queue)
      ensures submitted == old(submitted) && started == old(started)
      ensures status == old(status)[old(current).value.id := Terminal(old(current).value, outcome)]
    {
      var j := current.value;
      status := status[j.id := Terminal(j, outcome)];
      current := None;
    }

    /**
     * The worker loop: while jobs are queued and wrapper outcomes are available,
     * take the next job and finish it with the next outcome.
     */
    method RunWorker(outcomes: seq<WorkerOutcome>) returns (n: nat)
      requires Valid() && current.None?
      modifies this
      ensures Valid() && current == None
      ensures n == if |outcomes| < |old(queue)| then |outcomes| else |old(queue)|
      ensures queue == old(queue)[n..]
      ensures started == old(started) + old(queue)[..n]
      ensures submitted == old(submitted)
      ensures status == Processed(old(status), old(queue)[..n], outcomes[..n])
    {
      n := 0;
      while n < |outcomes| && queue != []
        invariant Valid() && current == None
        invariant n <= |outcomes| && n <= |old(queue)|
        invariant queue == old(queue)[n..]
        invariant started == old(started) + old(queue)[..n]
        invariant submitted == old(submitted)
        invariant status == Processed(old(status), old(queue)[..n], outcomes[..n])
        decreases |queue|
      {
        ghost var before := status;
        var j := queue[0];
        var took := StartNext();
        Finish(outcomes[n]);
        assert before[j.id := Running(j.project, j.thread)][j.id := Terminal(j, outcomes[n])]
            == before[j.id := Terminal(j, outcomes[n])];
        assert old(queue)[..n + 1] == old(queue)[..n] + [j];
        assert old(queue)[..n + 1][..n] == old(queue)[..n];
        assert outcomes[..n + 1][..n] == outcomes[..n];
        n := n + 1;
      }
    }

    /** The status route: the stored record, or "Job not found"; nothing changes. */
    function Lookup(id: string): (r: StatusReply)
      reads this
      ensures r.NotFound? <==> id !in status
      ensures r.NotFound? ==> r.error == "Job not found"
      ensures r.Found? ==> r.body == StatusView(id, status[id])
    {
      if id !in status then NotFound("Job not found") else Found(StatusView(id, status[id]))
    }
  }

  /** One worker: at most one record is `running`, and it is the current job's. */
  lemma AtMostOneRunning(m: JobManager, a: string, b: string)
    requires m.Valid()
    requires a in m.status && b in m.status && m.status[a].Running? && m.status[b].Running?
    ensures a == b && m.current.Some? && m.current.value.id == a
  {
  }

  /** FIFO: the worker starts jobs in exactly the order they were submitted. */
  lemma StartedInSubmissionOrder(m: JobManager)
    requires m.Valid()
    ensures |m.started| <= |m.submitted|
    ensures forall k :: 0 <= k < |m.started| ==> m.started[k] == m.submitted[k]
  {
  }
}
