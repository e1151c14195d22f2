/** The stateful form of the job scraper, and the Go fetcher that drives it. */
module JobFetcher {
  import opened Prelude
  import opened SlurmNodes
  import opened JobScraper
  import JM = JobMetrics

  /** Library calls.  Touching a message requires it to be live. */
  class JobLibrary {
    var heap: JobHeap

    constructor ()
      ensures heap == INITIAL.heap
    {
      heap := INITIAL.heap;
    }

    function LastUpdate(p: Ptr): nat
      requires p in heap.jobs
      reads this
    {
      heap.jobs[p].lastUpdate
    }

    function RecordCount(p: Ptr): nat
      requires p in heap.jobs
      reads this
    {
      |heap.jobs[p].rows|
    }

    function Row(p: Ptr, i: nat): JobRow
      requires p in heap.jobs && i < RecordCount(p)
      reads this
    {
      heap.jobs[p].rows[i]
    }

    /** `slurm_load_jobs`: only a fresh answer writes the out-pointer. */
    method LoadJobInfo(updateAt: nat, out: Ptr, at: JobServer, reply: Reply) returns (code: int, errno: int, ptr: Ptr)
      requires Legal(reply, updateAt, at.version)
      modifies this
      ensures reply.Fresh? ==> code == SLURM_SUCCESS && (heap, ptr) == LoadJobs(old(heap), at)
      ensures !reply.Fresh? ==> code == SLURM_ERROR && heap == old(heap) && ptr == out
      ensures reply.NoChange? ==> errno == SLURM_NO_CHANGE_IN_DATA
      ensures reply.Fail? ==> errno == reply.errno
    {
      code, errno, ptr := SLURM_ERROR, SLURM_SUCCESS, out;
      match reply {
        case Fresh =>
          var (h, p) := LoadJobs(heap, at);
          code, heap, ptr := SLURM_SUCCESS, h, p;
        case NoChange => errno := SLURM_NO_CHANGE_IN_DATA;
        case Fail(e) => errno := e;
      }
    }

    method FreeJobInfoMsg(p: Ptr)
      requires p == 0 || p in heap.jobs
      modifies this
      ensures FreeJob(old(heap), p) == Some(heap)
    {
      heap := FreeJob(heap, p).value;
    }
  }

  /** A map iterator: the keys still to come, or unusable after the map was cleared.  The C++ map
      iterates in key order; here the order is left open. */
  datatype Iter = Invalid | At(left: seq<int>)

  class JobMetricScraper {
    const lib: JobLibrary
    var newJob: Ptr
    var oldJob: Ptr
    var jobMetricMap: map<int, PromJobMetric>
    var it: Iter

    ghost function State(): World
      reads this`newJob, this`oldJob, this`jobMetricMap, lib
    {
      World(lib.heap, Scraper(newJob, oldJob, jobMetricMap))
    }

    ghost predicate IterValid()
      reads this`it, this`jobMetricMap
    {
      it.At? ==> NoRepeats(it.left) && forall i :: 0 <= i < |it.left| ==> it.left[i] in jobMetricMap
    }

    constructor (lib: JobLibrary)
      requires lib.heap == INITIAL.heap
      ensures this.lib == lib && State() == INITIAL && Valid(State()) && IterValid() && it == At([])
    {
      this.lib := lib;
      newJob, oldJob := 0, 0;
      jobMetricMap := map[];
      it := At([]);
    }

    /** The refill loop over the rows of the new message. */
    method Refill()
      requires newJob in lib.heap.jobs
      modifies this`jobMetricMap
      ensures jobMetricMap == Fill(old(jobMetricMap), newJob, lib.heap.jobs[newJob].rows, lib.RecordCount(newJob))
    {
      for i := 0 to lib.RecordCount(newJob)
        invariant jobMetricMap == Fill(old(jobMetricMap), newJob, lib.heap.jobs[newJob].rows, i)
      {
        var job := lib.Row(newJob, i);
        jobMetricMap := jobMetricMap[job.jobId := Shallow(newJob, i, job)];
      }
    }

    /** The source's code path by path; `at` is what the server knows, `reply` how it answers. */
    method CollectJobInfo(at: JobServer, reply: Reply) returns (code: int)
      requires Valid(State()) && LegalCollect(State(), at, reply)
      modifies this, lib
      ensures Collect(old(State()), at, reply) == Some((State(), code))
      ensures Valid(State())
    {
      CollectKeepsValid(State(), at, reply);
      var updatedAt := if oldJob != 0 then lib.LastUpdate(oldJob) else 0;
      var errno: int;
      code, errno, newJob := lib.LoadJobInfo(updatedAt, newJob, at, reply);
      if code != SLURM_SUCCESS && errno == SLURM_NO_CHANGE_IN_DATA {
        code := SLURM_SUCCESS;
        newJob := oldJob;
      }
      if code != SLURM_SUCCESS {
        return errno;
      }
      if oldJob != 0 && newJob != oldJob {
        jobMetricMap := map[];
        it := Invalid;
        lib.FreeJobInfoMsg(oldJob);
      }
      Refill();
      oldJob := newJob;
    }

    /** Every key once: as many distinct keys as the map has. */
    method IterReset()
      modifies this`it
      ensures it.At? && IterValid() && |it.left| == |jobMetricMap|
    {
      var keys: seq<int> := [];
      var rest := jobMetricMap.Keys;
      while rest != {}
        invariant rest <= jobMetricMap.Keys && NoRepeats(keys)
        invariant forall i :: 0 <= i < |keys| ==> keys[i] in jobMetricMap && keys[i] !in rest
        invariant |keys| + |rest| == |jobMetricMap|
        decreases rest
      {
        var k := Pick(rest);
        rest := rest - {k};
        keys := keys + [k];
      }
      it := At(keys);
    }

    /** Copies the next entry out and advances; non-zero at the end. */
    method IterNext() returns (code: int, metric: PromJobMetric)
      requires it.At? && IterValid()
      modifies this`it
      ensures it.At? && IterValid()
      ensures code == 0 <==> old(it).left != []
      ensures old(it).left != [] ==> metric == jobMetricMap[old(it).left[0]] && it.left == old(it).left[1..]
      ensures old(it).left == [] ==> it == old(it)
    {
      if it.left == [] {
        return 1, PromJobMetric(0, 0, 0, 0, 0);
      }
      code, metric := 0, jobMetricMap[it.left[0]];
      it := At(it.left[1..]);
    }

    /** The record behind an entry, read through its pointer. */
    function Record(m: PromJobMetric): JobRow
      requires m.msg in lib.heap.jobs && m.row < |lib.heap.jobs[m.msg].rows|
      reads this, lib
    {
      lib.heap.jobs[m.msg].rows[m.row]
    }
  }

  // ---------- the Go side ----------

  const STRING_NULL := "(null)"

  function OrNull(s: Option<string>): string { if s.Some? then s.value else STRING_NULL }

  function UserName(row: JobRow): string { if row.userId == 0 then "root" else OrNull(row.userName) }

  function StateName(state: int): string {
    match state
    case 0 => "PENDING"
    case 1 => "RUNNING"
    case 2 => "SUSPENDED"
    case 3 => "COMPLETE"
    case 4 => "CANCELLED"
    case 5 => "FAILED"
    case 6 => "TIMEOUT"
    case 7 => "NODE_FAIL"
    case 8 => "PREEMPTED"
    case 9 => "BOOT_FAIL"
    case 10 => "DEADLINE"
    case 11 => "OOM"
    case 12 => "END"
    case _ => ""
  }

  function ToJobMetric(row: JobRow): JM.JobMetric {
    JM.JobMetric(OrNull(row.account), row.jobId as real, row.endTime as real, StateName(row.jobState),
                 OrNull(row.partition), UserName(row), "", row.allocCpus as real,
                 map["0" := row.allocMem as real], "")
  }

  /** `values` has one record per job of `seen`, converted, in some order of the job ids `keys`. */
  ghost predicate Reports(values: seq<JM.JobMetric>, keys: seq<int>, seen: map<int, JobRow>) {
    && |values| == |keys| == |seen| && NoRepeats(keys)
    && forall i :: 0 <= i < |keys| ==> keys[i] in seen && values[i] == ToJobMetric(seen[keys[i]])
  }

  class CJobFetcher {
    const scraper: JobMetricScraper
    var errorCounter: nat

    constructor (scraper: JobMetricScraper)
      ensures this.scraper == scraper && errorCounter == 0
    {
      this.scraper := scraper;
      errorCounter := 0;
    }

    /** Collects, then copies every entry out of the library's memory.  Against a versioned server
        the records are those of a full reload. */
    method CToGoMetricConvert(ghost server: JobServer, at: JobServer, reply: Reply)
      returns (result: Result<seq<JM.JobMetric>>, ghost keys: seq<int>)
      requires Valid(scraper.State()) && LegalCollect(scraper.State(), at, reply)
      requires Versioned(scraper.lib.heap, server) && Later(server, at)
      modifies this, scraper, scraper.lib
      ensures Valid(scraper.State()) && Versioned(scraper.lib.heap, at)
      ensures result.Err? <==> reply.Fail?
      ensures errorCounter == old(errorCounter) + if result.Err? then 1 else 0
      ensures result.Ok? ==> Reports(result.value, keys, FullReload(at.jobs))
    {
      keys := [];
      CollectKeepsValid(scraper.State(), at, reply);
      CollectRefinesFullReload(scraper.State(), server, at, reply);
      var errno := scraper.CollectJobInfo(at, reply);
      if errno != 0 {
        errorCounter := errorCounter + 1;
        return Err, keys;
      }
      scraper.IterReset();
      keys := scraper.it.left;
      var metrics := CopyOut();
      return Ok(metrics), keys;
    }

    /** The iteration: one converted record per entry. */
    method CopyOut() returns (metrics: seq<JM.JobMetric>)
      requires Valid(scraper.State()) && scraper.it.At? && scraper.IterValid()
      requires |scraper.it.left| == |scraper.jobMetricMap|
      modifies scraper`it
      ensures Reports(metrics, old(scraper.it.left), View(scraper.State()))
    {
      metrics := [];
      ghost var keys := scraper.it.left;
      ghost var seen := View(scraper.State());
      ViewSize(scraper.State());
      var code, cmetric := scraper.IterNext();
      ghost var n := 0;
      while code == 0
        invariant scraper.it.At? && scraper.IterValid()
        invariant code == 0 ==>
                    n < |keys| && keys[n] in scraper.jobMetricMap && cmetric == scraper.jobMetricMap[keys[n]]
                    && scraper.it.left == keys[n + 1..]
        invariant code != 0 ==> n == |keys|
        invariant 0 <= n <= |keys| && |metrics| == n
        invariant forall i :: 0 <= i < n ==> keys[i] in seen && metrics[i] == ToJobMetric(seen[keys[i]])
        decreases |keys| - n
      {
        EntriesAreLive(scraper.State(), keys[n]);
        var metric := ToJobMetric(scraper.Record(cmetric));
        metrics := metrics + [metric];
        n := n + 1;
        code, cmetric := scraper.IterNext();
      }
    }
  }

  lemma ViewSize(w: World)
    requires Valid(w)
    ensures |View(w)| == |w.s.jobMetricMap|
  {
    assert View(w).Keys == w.s.jobMetricMap.Keys;
    assert |View(w)| == |View(w).Keys| && |w.s.jobMetricMap| == |w.s.jobMetricMap.Keys|;
  }

  // ---------- the figures ----------

  lemma {:induction false} LastRowAt(rows: seq<JobRow>, id: int) returns (i: nat)
    requires id in JobIds(rows)
    ensures i < |rows| && rows[i].jobId == id && forall j :: i < j < |rows| ==> rows[j].jobId != id
    ensures LastRow(rows, id) == Some(rows[i])
  {
    LastRowExists(rows, id);
    i := |rows| - 1;
    if rows[i].jobId != id {
      LastRowExists(rows[..i], id);
      i := LastRowAt(rows[..i], id);
    }
  }

  /** Every reported job against the last row `i` of its id: names that are null read "(null)", the
      user of id 0 is root, the state is by name, memory is under the one node "0". */
  lemma ConvertedFields(values: seq<JM.JobMetric>, keys: seq<int>, jobs: seq<JobRow>, k: nat) returns (i: nat)
    requires Reports(values, keys, FullReload(jobs)) && k < |values|
    ensures i < |jobs| && jobs[i].jobId == keys[k] && forall j :: i < j < |jobs| ==> jobs[j].jobId != keys[k]
    ensures var row, v := jobs[i], values[k];
            && v.jobId == row.jobId as real && v.endTime == row.endTime as real
            && v.account == (if row.account.Some? then row.account.value else "(null)")
            && v.partition == (if row.partition.Some? then row.partition.value else "(null)")
            && v.userName == (if row.userId == 0 then "root"
                              else if row.userName.Some? then row.userName.value else "(null)")
            && v.allocCpus == row.allocCpus as real && v.allocNodes == map["0" := row.allocMem as real]
            && v.features == "" && v.stateReason == ""
    ensures var state := jobs[i].jobState;
            values[k].jobState ==
            if state == 0 then "PENDING" else if state == 1 then "RUNNING" else if state == 2 then "SUSPENDED"
            else if state == 3 then "COMPLETE" else if state == 4 then "CANCELLED" else if state == 5 then "FAILED"
            else if state == 6 then "TIMEOUT" else if state == 7 then "NODE_FAIL" else if state == 8 then "PREEMPTED"
            else if state == 9 then "BOOT_FAIL" else if state == 10 then "DEADLINE" else if state == 11 then "OOM"
            else if state == 12 then "END" else ""
  {
    assert keys[k] in FullReload(jobs);
    i := LastRowAt(jobs, keys[k]);
  }

  lemma {:induction false} KeysCount(keys: seq<int>)
    requires NoRepeats(keys)
    ensures |set k | k in keys| == |keys|
  {
    if |keys| == 0 {
      assert (set k | k in keys) == {};
    } else {
      var init, k := keys[..|keys| - 1], keys[|keys| - 1];
      KeysCount(init);
      assert keys == init + [k];
      assert (set x | x in keys) == (set x | x in init) + {k};
    }
  }

  /** Every job loaded has a record. */
  lemma EveryJobConverted(values: seq<JM.JobMetric>, keys: seq<int>, jobs: seq<JobRow>, row: JobRow)
    requires Reports(values, keys, FullReload(jobs)) && row in jobs
    ensures exists k :: 0 <= k < |values| && keys[k] == row.jobId
  {
    var seen := FullReload(jobs);
    KeysCount(keys);
    var ks := set k | k in keys;
    assert |seen| == |seen.Keys|;
    assert ks <= seen.Keys;
    assert seen.Keys == ks + (seen.Keys - ks);
    assert row.jobId in seen.Keys;
    assert row.jobId in keys;
  }
}
