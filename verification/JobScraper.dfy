/** `JobMetricScraper`: the single-resource form of the reload protocol, first as a function over
    a heap in which every use of a dead pointer is a fault. */
module JobScraper {
  import opened Prelude
  import opened SlurmNodes

  /** A job record; strings and resource figures stay in the message, the rest is copied. */
  datatype JobRow = JobRow(
    jobId: int, endTime: int, jobState: int, userId: int,
    account: Option<string>, partition: Option<string>, userName: Option<string>,
    allocCpus: int, allocMem: int)

  /** What `slurmctld` knows about jobs, with the time of the last change. */
  datatype JobServer = JobServer(version: nat, jobs: seq<JobRow>)

  ghost predicate Later(a: JobServer, b: JobServer) {
    a.version <= b.version && (a.version == b.version ==> a.jobs == b.jobs)
  }

  datatype JobMsg = JobMsg(lastUpdate: nat, rows: seq<JobRow>)

  datatype JobHeap = JobHeap(jobs: map<Ptr, JobMsg>, next: Ptr)

  /** A shallow copy of a row: the copied fields and a pointer for the rest. */
  datatype PromJobMetric = PromJobMetric(msg: Ptr, row: nat, jobId: int, endTime: int, jobState: int)

  datatype Scraper = Scraper(newJob: Ptr, oldJob: Ptr, jobMetricMap: map<int, PromJobMetric>)

  datatype World = World(heap: JobHeap, s: Scraper)

  const INITIAL := World(JobHeap(map[], 1), Scraper(0, 0, map[]))

  function LoadJobs(h: JobHeap, at: JobServer): (r: (JobHeap, Ptr)) {
    (h.(jobs := h.jobs[h.next := JobMsg(at.version, at.jobs)], next := h.next + 1), h.next)
  }

  function FreeJob(h: JobHeap, p: Ptr): Option<JobHeap> {
    if p == 0 then Some(h) else if p in h.jobs then Some(h.(jobs := h.jobs - {p})) else None
  }

  function JobTime(h: JobHeap, p: Ptr): Option<nat> {
    if p == 0 then Some(0) else if p in h.jobs then Some(h.jobs[p].lastUpdate) else None
  }

  function Shallow(p: Ptr, i: nat, row: JobRow): PromJobMetric {
    PromJobMetric(p, i, row.jobId, row.endTime, row.jobState)
  }

  /** Entries for the first `k` rows of a message written over `m`; later rows win. */
  function Fill(m: map<int, PromJobMetric>, p: Ptr, rows: seq<JobRow>, k: nat): map<int, PromJobMetric>
    requires k <= |rows|
  {
    if k == 0 then m else Fill(m, p, rows, k - 1)[rows[k - 1].jobId := Shallow(p, k - 1, rows[k - 1])]
  }

  /** One `CollectJobInfo`: the new world and the return code, `None` for a memory fault. */
  function Collect(w: World, at: JobServer, reply: Reply): Option<(World, int)> {
    var World(h, s) := w;
    var _ :- JobTime(h, s.oldJob);
    match reply
    case Fail(errno) => Some((w, errno))
    case _ =>
      var (h1, newJob) := if reply.Fresh? then LoadJobs(h, at) else (h, s.oldJob);
      var fresh_ := s.oldJob != 0 && newJob != s.oldJob;
      var h2 :- if fresh_ then FreeJob(h1, s.oldJob) else Some(h1);
      if newJob !in h2.jobs then None
      else
        var rows := h2.jobs[newJob].rows;
        var start: map<int, PromJobMetric> := if fresh_ then map[] else s.jobMetricMap;
        Some((World(h2, Scraper(newJob, newJob, Fill(start, newJob, rows, |rows|))), SLURM_SUCCESS))
  }

  ghost function Rows(h: JobHeap, p: Ptr): map<int, PromJobMetric>
    requires p in h.jobs
  {
    Fill(map[], p, h.jobs[p].rows, |h.jobs[p].rows|)
  }

  /** The only live message is the committed one, and the map is exactly its rows. */
  ghost predicate Valid(w: World) {
    var World(h, s) := w;
    && h.next > 0 && (forall p :: p in h.jobs ==> 0 < p < h.next)
    && s.newJob == s.oldJob && h.jobs.Keys == {s.oldJob} - {0}
    && s.jobMetricMap == if s.oldJob == 0 then map[] else Rows(h, s.oldJob)
  }

  lemma {:induction false} FillEntries(m: map<int, PromJobMetric>, p: Ptr, rows: seq<JobRow>, k: nat)
    requires k <= |rows|
    ensures forall id :: id in Fill(map[], p, rows, k) ==>
              var e := Fill(map[], p, rows, k)[id];
              e.msg == p && e.row < k && rows[e.row].jobId == id && e == Shallow(p, e.row, rows[e.row])
    ensures Fill(m, p, rows, k) == m + Fill(map[], p, rows, k)
  {
    if k > 0 { FillEntries(m, p, rows, k - 1); }
  }

  /** Every entry points into the live, committed message, at a row of its own job. */
  lemma EntriesAreLive(w: World, id: int)
    requires Valid(w) && id in w.s.jobMetricMap
    ensures var e := w.s.jobMetricMap[id];
            && e.msg == w.s.oldJob && e.msg in w.heap.jobs
            && e.row < |w.heap.jobs[e.msg].rows|
            && w.heap.jobs[e.msg].rows[e.row].jobId == id
            && e == Shallow(e.msg, e.row, w.heap.jobs[e.msg].rows[e.row])
            && e.jobId == id && e.endTime == w.heap.jobs[e.msg].rows[e.row].endTime
            && e.jobState == w.heap.jobs[e.msg].rows[e.row].jobState
  {
    var rows := w.heap.jobs[w.s.oldJob].rows;
    FillEntries(map[], w.s.oldJob, rows, |rows|);
  }

  ghost predicate LegalCollect(w: World, at: JobServer, reply: Reply) {
    JobTime(w.heap, w.s.oldJob).Some? && Legal(reply, JobTime(w.heap, w.s.oldJob).value, at.version)
  }

  /** A legal collect never faults, keeps the invariant, and on failure changes nothing. */
  lemma CollectKeepsValid(w: World, at: JobServer, reply: Reply)
    requires Valid(w) && LegalCollect(w, at, reply)
    ensures Collect(w, at, reply).Some? && Valid(Collect(w, at, reply).value.0)
    ensures var (w', code) := Collect(w, at, reply).value;
            && (code != SLURM_SUCCESS <==> reply.Fail?)
            && (reply.Fail? ==> w' == w)
            && (!reply.Fail? ==>
                  && w'.heap.jobs == map[w'.s.oldJob :=
                       if reply.Fresh? then JobMsg(at.version, at.jobs) else w.heap.jobs[w.s.oldJob]])
  {
    if !reply.Fail? {
      var (h1, newJob) := if reply.Fresh? then LoadJobs(w.heap, at) else (w.heap, w.s.oldJob);
      var rows := h1.jobs[newJob].rows;
      FillEntries(w.s.jobMetricMap, newJob, rows, |rows|);
      if w.s.oldJob != 0 && newJob != w.s.oldJob {
        assert (h1.jobs - {w.s.oldJob}).Keys == {newJob};
      }
    }
  }

  // ---------- incremental reload refines full reload ----------

  /** What a reader sees of each job through its entry. */
  ghost function View(w: World): map<int, JobRow>
    requires Valid(w)
  {
    map id | id in w.s.jobMetricMap ::
      EntriesAreLive(w, id);
      w.heap.jobs[w.s.jobMetricMap[id].msg].rows[w.s.jobMetricMap[id].row]
  }

  /** The last record of a job in a list with possible duplicates. */
  function LastRow(rows: seq<JobRow>, id: int): Option<JobRow> {
    if |rows| == 0 then None
    else if rows[|rows| - 1].jobId == id then Some(rows[|rows| - 1])
    else LastRow(rows[..|rows| - 1], id)
  }

  ghost function JobIds(rows: seq<JobRow>): set<int> { set row | row in rows :: row.jobId }

  lemma {:induction false} LastRowExists(rows: seq<JobRow>, id: int)
    ensures LastRow(rows, id).Some? <==> id in JobIds(rows)
  {
    if |rows| > 0 {
      LastRowExists(rows[..|rows| - 1], id);
      assert rows == rows[..|rows| - 1] + [rows[|rows| - 1]];
    }
  }

  /** What reading everything anew would give. */
  ghost function FullReload(rows: seq<JobRow>): map<int, JobRow> {
    map id | id in JobIds(rows) :: LastRowExists(rows, id); LastRow(rows, id).value
  }

  lemma {:induction false} FillIsLastRow(p: Ptr, rows: seq<JobRow>, k: nat, id: int)
    requires k <= |rows|
    ensures id in Fill(map[], p, rows, k) <==> LastRow(rows[..k], id).Some?
    ensures id in Fill(map[], p, rows, k) ==>
              var e := Fill(map[], p, rows, k)[id];
              e.row < k && rows[e.row] == LastRow(rows[..k], id).value
  {
    if k > 0 {
      FillIsLastRow(p, rows, k - 1, id);
      assert rows[..k][..k - 1] == rows[..k - 1];
    }
  }

  lemma CommittedView(w: World)
    requires Valid(w) && w.s.oldJob != 0
    ensures View(w) == FullReload(w.heap.jobs[w.s.oldJob].rows)
  {
    var rows := w.heap.jobs[w.s.oldJob].rows;
    assert rows[..|rows|] == rows;
    forall id ensures id in View(w) <==> id in FullReload(rows) {
      FillIsLastRow(w.s.oldJob, rows, |rows|, id);
      LastRowExists(rows, id);
    }
    forall id | id in View(w) ensures View(w)[id] == FullReload(rows)[id] {
      FillIsLastRow(w.s.oldJob, rows, |rows|, id);
      EntriesAreLive(w, id);
    }
  }

  ghost predicate Versioned(h: JobHeap, at: JobServer) {
    forall p :: p in h.jobs ==>
      && h.jobs[p].lastUpdate <= at.version
      && (h.jobs[p].lastUpdate == at.version ==> h.jobs[p].rows == at.jobs)
  }

  /** Incremental reload refines full reload: after a successful collect there is exactly one entry
      per job the server knows, the last duplicate winning. */
  lemma CollectRefinesFullReload(w: World, server: JobServer, at: JobServer, reply: Reply)
    requires Valid(w) && LegalCollect(w, at, reply)
    requires Versioned(w.heap, server) && Later(server, at)
    ensures Collect(w, at, reply).Some?
    ensures var w' := Collect(w, at, reply).value.0;
            Valid(w') && Versioned(w'.heap, at) && (!reply.Fail? ==> View(w') == FullReload(at.jobs))
  {
    CollectKeepsValid(w, at, reply);
    if !reply.Fail? { CommittedView(Collect(w, at, reply).value.0); }
  }

  // ---------- runs ----------

  datatype Event = Event(at: JobServer, reply: Reply)

  function Run(es: seq<Event>): Option<World> {
    if |es| == 0 then Some(INITIAL)
    else
      var w :- Run(es[..|es| - 1]);
      var (w', _) :- Collect(w, es[|es| - 1].at, es[|es| - 1].reply);
      Some(w')
  }

  function ServerAfter(start: JobServer, es: seq<Event>): JobServer {
    if |es| == 0 then start else es[|es| - 1].at
  }

  ghost predicate LegalRun(start: JobServer, es: seq<Event>) {
    |es| > 0 ==>
      && LegalRun(start, es[..|es| - 1])
      && Later(ServerAfter(start, es[..|es| - 1]), es[|es| - 1].at)
      && (Run(es[..|es| - 1]).Some? ==> LegalCollect(Run(es[..|es| - 1]).value, es[|es| - 1].at, es[|es| - 1].reply))
  }

  /** No run faults, and between collects at most one job message is live: the committed one, once
      some collect has succeeded. */
  lemma {:induction false} RunsAreSafe(start: JobServer, es: seq<Event>)
    requires LegalRun(start, es)
    ensures Run(es).Some? && Valid(Run(es).value) && Versioned(Run(es).value.heap, ServerAfter(start, es))
    ensures |Run(es).value.heap.jobs| == if exists i :: 0 <= i < |es| && !es[i].reply.Fail? then 1 else 0
  {
    if |es| > 0 {
      var init, e := es[..|es| - 1], es[|es| - 1];
      assert es == init + [e];
      RunsAreSafe(start, init);
      CollectRefinesFullReload(Run(init).value, ServerAfter(start, init), e.at, e.reply);
      CollectKeepsValid(Run(init).value, e.at, e.reply);
      if e.reply.Fail? {
        assert forall i :: 0 <= i < |init| ==> es[i] == init[i];
      }
    }
  }

  /** After any run, a successful collect shows the server's current jobs. */
  lemma RunsRefineFullReload(start: JobServer, es: seq<Event>)
    requires LegalRun(start, es) && |es| > 0 && !es[|es| - 1].reply.Fail?
    ensures Run(es).Some? && Valid(Run(es).value)
    ensures View(Run(es).value) == FullReload(es[|es| - 1].at.jobs)
  {
    var init, e := es[..|es| - 1], es[|es| - 1];
    RunsAreSafe(start, es);
    RunsAreSafe(start, init);
    CollectRefinesFullReload(Run(init).value, ServerAfter(start, init), e.at, e.reply);
  }
}
