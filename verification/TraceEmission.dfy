/** `TraceCollector.Collect`: the join of the published traces with the running jobs. */
module TraceEmission {
  import opened Prelude
  import opened Sums
  import opened Samples
  import opened JobMetrics
  import opened TraceTable
  import opened MemUnits

  datatype Desc = JobAllocMem | JobAllocCpus | Pid | CpuUsage | MemUsage | ThreadCount | WriteBytes | ReadBytes

  /** Go's `int64(x)` for a float in range: the fraction is cut off. */
  function Truncate(x: real): int {
    if x >= 0.0 then x.Floor else -((-x).Floor)
  }

  /** Truncation cuts towards zero and leaves whole numbers alone. */
  lemma TruncateMeans(x: real, k: int)
    ensures Truncate(k as real) == k
    ensures x >= 0.0 ==> Truncate(x) as real <= x < Truncate(x) as real + 1.0
    ensures x <= 0.0 ==> Truncate(x) as real - 1.0 < x <= Truncate(x) as real
  {
    if k < 0 { assert (-(k as real)).Floor == -k; }
  }

  /** `fmt.Sprint` of an integer. */
  function JobText(id: int): string {
    if id < 0 then "-" + Digits(-id, 1) else Digits(id, 1)
  }

  lemma JobTextSign(a: int)
    ensures JobText(a) != "" && (JobText(a)[0] == '-' <==> a < 0)
  {
    DigitsValue(if a < 0 then -a else a, 1);
    assert a >= 0 ==> IsDigit(JobText(a)[0]);
  }

  lemma NegativeText(a: int)
    requires a < 0
    ensures JobText(a)[1..] == Digits(-a, 1)
  {}

  lemma JobTextInjective(a: int, b: int)
    requires JobText(a) == JobText(b)
    ensures a == b
  {
    JobTextSign(a);
    JobTextSign(b);
    if a < 0 {
      NegativeText(a);
      NegativeText(b);
      DigitsInjective(-a, -b);
    } else {
      DigitsInjective(a, b);
    }
  }

  lemma DigitsInjective(a: nat, b: nat)
    requires Digits(a, 1) == Digits(b, 1)
    ensures a == b
  {
    DigitsValue(a, 1);
    DigitsValue(b, 1);
  }

  lemma {:induction false} NoLeadingZero(n: nat)
    requires n > 0
    ensures |Digits(n, 1)| > 0 && Digits(n, 1)[0] != '0'
  {
    DigitsUnpadded(n);
    if n >= 10 { NoLeadingZero(n / 10); }
  }

  lemma {:induction false} DigitsUnpadded(n: nat)
    ensures Digits(n, 0) == Digits(n, 1)
  {}

  /** The text of an id is its decimal numeral: a minus for a negative one, no leading zeros. */
  lemma JobTextIsDecimal(id: int)
    ensures var ds := if id < 0 then JobText(id)[1..] else JobText(id);
            && AllDigits(ds) && ds != "" && Numeral(ds) == (if id < 0 then -id else id)
            && (ds[0] == '0' ==> ds == "0")
            && JobText(id) == if id < 0 then "-" + ds else ds
  {
    var n: nat := if id < 0 then -id else id;
    DigitsValue(n, 1);
    if n > 0 { NoLeadingZero(n); }
    if id < 0 { NegativeText(id); }
  }

  predicate Joins(procs: map<int, TraceInfo>, j: JobMetric) { Truncate(j.jobId) in procs }

  /** The integer id of a job as it appears on samples. */
  function IdText(j: JobMetric): string { JobText(Truncate(j.jobId)) }

  /** The eight samples of a traced job. */
  function SamplesOf(id: string, j: JobMetric, p: Payload, mem: real): seq<Sample<Desc>> {
    [Sample(JobAllocMem, [id], mem), Sample(JobAllocCpus, [id], j.allocCpus),
     Sample(Pid, [id, p.hostname], p.pid as real), Sample(CpuUsage, [id, p.username], p.cpus),
     Sample(MemUsage, [id, p.username], p.mem), Sample(ThreadCount, [id, p.username], p.threads),
     Sample(WriteBytes, [id, p.username], p.writeBytes), Sample(ReadBytes, [id, p.username], p.readBytes)]
  }

  ghost function JoinAt(procs: map<int, TraceInfo>, j: JobMetric): seq<Sample<Desc>> {
    if Joins(procs, j) then SamplesOf(IdText(j), j, procs[Truncate(j.jobId)].payload, MemOf(j)) else []
  }

  ghost function Join(procs: map<int, TraceInfo>): JobMetric -> seq<Sample<Desc>> { (j: JobMetric) => JoinAt(procs, j) }

  /** One collection from a copy of the trace table and what the job fetcher answers: the traced
      jobs, in job order; nothing at all when the fetch fails. */
  method Collect(procs: map<int, TraceInfo>, fetched: Result<seq<JobMetric>>) returns (ch: seq<Sample<Desc>>)
    requires forall k :: k in procs ==> procs[k].jobId == k
    ensures ch == if fetched.Err? then [] else Flat(fetched.value, Join(procs))
  {
    ch := [];
    if fetched.Err? {
      return;
    }
    var jobMetrics := fetched.value;
    for i := 0 to |jobMetrics|
      invariant ch == Flat(jobMetrics[..i], Join(procs))
    {
      var j := jobMetrics[i];
      NextPrefix(jobMetrics, i);
      FlatSnoc(jobMetrics[..i], j, Join(procs));
      if Truncate(j.jobId) !in procs {
        assert ch + [] == ch;
        continue;
      }
      var p := procs[Truncate(j.jobId)];
      var mem := TotalAllocMem(j.allocNodes);
      var jobid := JobText(p.jobId);
      ch := ch + SamplesOf(jobid, j, p.payload, mem);
    }
    assert jobMetrics[..|jobMetrics|] == jobMetrics;
  }

  /** A job with a whole id joins exactly the trace of that id, and its samples carry that id. */
  lemma WholeIdsJoin(procs: map<int, TraceInfo>, j: JobMetric, id: int)
    requires j.jobId == id as real
    ensures Joins(procs, j) <==> id in procs
    ensures JoinAt(procs, j) ==
            if id in procs then SamplesOf(JobText(id), j, procs[id].payload, SumMap(j.allocNodes)) else []
  {
    TruncateMeans(j.jobId, id);
  }

  /** No two traced jobs have the same integer id. */
  ghost predicate DistinctIds(procs: map<int, TraceInfo>, jobs: seq<JobMetric>) {
    forall i, j :: 0 <= i < j < |jobs| && Joins(procs, jobs[i]) && Joins(procs, jobs[j]) ==>
      Truncate(jobs[i].jobId) != Truncate(jobs[j].jobId)
  }

  lemma JoinLabel(procs: map<int, TraceInfo>, j: JobMetric, k: nat)
    requires k < |JoinAt(procs, j)|
    ensures Joins(procs, j) && |JoinAt(procs, j)[k].labels| > 0 && JoinAt(procs, j)[k].labels[0] == IdText(j)
  {
    var id, p := IdText(j), procs[Truncate(j.jobId)].payload;
    var ls := [[id], [id], [id, p.hostname], [id, p.username], [id, p.username], [id, p.username],
               [id, p.username], [id, p.username]];
    assert JoinAt(procs, j)[k].labels == ls[k];
  }

  /** The samples of one job differ from each other and start with its memory. */
  lemma OneJoin(procs: map<int, TraceInfo>, j: JobMetric)
    ensures Unique(JoinAt(procs, j))
    ensures Joins(procs, j) ==> Has(JoinAt(procs, j), JobAllocMem, [IdText(j)])
  {
    if Joins(procs, j) {
      assert JoinAt(procs, j)[0].desc == JobAllocMem && JoinAt(procs, j)[0].labels == [IdText(j)];
    }
  }

  ghost predicate JoinedAs(procs: map<int, TraceInfo>, jobs: seq<JobMetric>, i: int, id: string) {
    0 <= i < |jobs| && Joins(procs, jobs[i]) && IdText(jobs[i]) == id
  }

  /** Every sample carries the id of some traced job. */
  lemma {:induction false} SampleJob(procs: map<int, TraceInfo>, jobs: seq<JobMetric>, k: nat) returns (i: nat)
    requires k < |Flat(jobs, Join(procs))|
    ensures var s := Flat(jobs, Join(procs))[k];
            |s.labels| > 0 && JoinedAs(procs, jobs, i, s.labels[0])
  {
    var init, j := jobs[..|jobs| - 1], jobs[|jobs| - 1];
    var before := Flat(init, Join(procs));
    assert Flat(jobs, Join(procs)) == before + JoinAt(procs, j);
    if k < |before| {
      i := SampleJob(procs, init, k);
    } else {
      JoinLabel(procs, j, k - |before|);
      i := |jobs| - 1;
      assert JoinAt(procs, j)[k - |before|] == Flat(jobs, Join(procs))[k];
    }
  }

  lemma HasInEither(a: seq<Sample<Desc>>, b: seq<Sample<Desc>>, d: Desc, l: seq<string>)
    requires Has(a, d, l) || Has(b, d, l)
    ensures Has(a + b, d, l)
  {
    if Has(a, d, l) {
      var k :| 0 <= k < |a| && a[k].desc == d && a[k].labels == l;
      assert (a + b)[k] == a[k];
    } else {
      var k :| 0 <= k < |b| && b[k].desc == d && b[k].labels == l;
      assert (a + b)[|a| + k] == b[k];
    }
  }

  /** Every traced job's id is on a memory sample. */
  lemma {:induction false} JobHasSample(procs: map<int, TraceInfo>, jobs: seq<JobMetric>, i: nat)
    requires i < |jobs| && Joins(procs, jobs[i])
    ensures Has(Flat(jobs, Join(procs)), JobAllocMem, [IdText(jobs[i])])
  {
    var init, j := jobs[..|jobs| - 1], jobs[|jobs| - 1];
    assert Flat(jobs, Join(procs)) == Flat(init, Join(procs)) + JoinAt(procs, j);
    if i < |init| { JobHasSample(procs, init, i); } else { OneJoin(procs, j); }
    HasInEither(Flat(init, Join(procs)), JoinAt(procs, j), JobAllocMem, [IdText(jobs[i])]);
  }

  lemma UniqueUnion(a: seq<Sample<Desc>>, b: seq<Sample<Desc>>)
    ensures Unique(a + b) ==> Unique(a)
    ensures Unique(a) && Unique(b)
            && (forall i, k :: 0 <= i < |a| && 0 <= k < |b| ==>
                  a[i].desc != b[k].desc || a[i].labels != b[k].labels) ==>
              Unique(a + b)
    ensures forall d, l :: Unique(a + b) && Has(a, d, l) ==> !Has(b, d, l)
  {
    var both := a + b;
    assert forall i :: 0 <= i < |a| ==> both[i] == a[i];
    assert forall k :: 0 <= k < |b| ==> both[|a| + k] == b[k];
    forall d, l | Unique(both) && Has(a, d, l) ensures !Has(b, d, l) {
      var i :| 0 <= i < |a| && a[i].desc == d && a[i].labels == l;
      forall k | 0 <= k < |b| ensures b[k].desc != d || b[k].labels != l {
        assert both[i] == a[i] && both[|a| + k] == b[k];
      }
    }
  }

  /** The samples of a trace collection are unique exactly when no two traced jobs share an id. */
  lemma {:induction false} UniqueIffDistinctIds(procs: map<int, TraceInfo>, jobs: seq<JobMetric>)
    ensures Unique(Flat(jobs, Join(procs))) <==> DistinctIds(procs, jobs)
  {
    if |jobs| > 0 {
      var init, j := jobs[..|jobs| - 1], jobs[|jobs| - 1];
      UniqueIffDistinctIds(procs, init);
      assert jobs == init + [j];
      assert Flat(jobs, Join(procs)) == Flat(init, Join(procs)) + JoinAt(procs, j);
      UniqueUnion(Flat(init, Join(procs)), JoinAt(procs, j));
      if DistinctIds(procs, jobs) {
        DistinctInit(procs, init, j);
        LastIsApart(procs, init, j);
        OneJoin(procs, j);
      }
      if Unique(Flat(jobs, Join(procs))) { UniqueMeansApart(procs, init, j); }
    }
  }

  lemma DistinctInit(procs: map<int, TraceInfo>, init: seq<JobMetric>, j: JobMetric)
    ensures DistinctIds(procs, init + [j]) <==>
              DistinctIds(procs, init)
              && forall i :: 0 <= i < |init| && Joins(procs, init[i]) && Joins(procs, j) ==>
                   Truncate(init[i].jobId) != Truncate(j.jobId)
  {
    var jobs := init + [j];
    assert forall i :: 0 <= i < |init| ==> jobs[i] == init[i];
    assert jobs[|init|] == j;
  }

  lemma LastIsApart(procs: map<int, TraceInfo>, init: seq<JobMetric>, j: JobMetric)
    requires DistinctIds(procs, init + [j])
    ensures var a, b := Flat(init, Join(procs)), JoinAt(procs, j);
            forall i, k :: 0 <= i < |a| && 0 <= k < |b| ==> a[i].desc != b[k].desc || a[i].labels != b[k].labels
  {
    var a, b := Flat(init, Join(procs)), JoinAt(procs, j);
    DistinctInit(procs, init, j);
    forall i, k | 0 <= i < |a| && 0 <= k < |b| ensures a[i].desc != b[k].desc || a[i].labels != b[k].labels {
      var o := SampleJob(procs, init, i);
      JoinLabel(procs, j, k);
      if a[i].labels == b[k].labels { JobTextInjective(Truncate(init[o].jobId), Truncate(j.jobId)); }
    }
  }

  lemma UniqueMeansApart(procs: map<int, TraceInfo>, init: seq<JobMetric>, j: JobMetric)
    requires Unique(Flat(init, Join(procs)) + JoinAt(procs, j)) && DistinctIds(procs, init)
    ensures DistinctIds(procs, init + [j])
  {
    DistinctInit(procs, init, j);
    UniqueUnion(Flat(init, Join(procs)), JoinAt(procs, j));
    forall i | 0 <= i < |init| && Joins(procs, init[i]) && Joins(procs, j)
      ensures Truncate(init[i].jobId) != Truncate(j.jobId)
    {
      JobHasSample(procs, init, i);
      OneJoin(procs, j);
    }
  }

  /** The samples of job `i` are a stretch of the collection. */
  lemma {:induction false} JoinInFlat(procs: map<int, TraceInfo>, jobs: seq<JobMetric>, i: nat)
    returns (before: seq<Sample<Desc>>, after: seq<Sample<Desc>>)
    requires i < |jobs|
    ensures Flat(jobs, Join(procs)) == before + JoinAt(procs, jobs[i]) + after
  {
    var init, j := jobs[..|jobs| - 1], jobs[|jobs| - 1];
    if i < |init| {
      before, after := JoinInFlat(procs, init, i);
      after := after + JoinAt(procs, j);
    } else {
      before, after := Flat(init, Join(procs)), [];
    }
  }

  lemma ReadUnique(ch: seq<Sample<Desc>>, k: nat)
    requires Unique(ch) && k < |ch|
    ensures Read(ch, ch[k].desc, ch[k].labels) == ch[k].value
  {
    assert Has(ch, ch[k].desc, ch[k].labels);
    ReadFinds(ch, ch[k].desc, ch[k].labels);
    var i :| 0 <= i < |ch| && ch[i].desc == ch[k].desc && ch[i].labels == ch[k].labels
             && ch[i].value == Read(ch, ch[k].desc, ch[k].labels);
    assert i == k by { if i < k {} else if k < i {} }
  }

  lemma InTheMiddle<T>(a: seq<T>, b: seq<T>, c: seq<T>, k: nat)
    requires k < |b|
    ensures (a + b + c)[|a| + k] == b[k]
  {}

  lemma ReadJoined(procs: map<int, TraceInfo>, jobs: seq<JobMetric>, i: nat, k: nat, s: Sample<Desc>)
    requires i < |jobs| && DistinctIds(procs, jobs)
    requires k < |JoinAt(procs, jobs[i])| && s == JoinAt(procs, jobs[i])[k]
    ensures Read(Flat(jobs, Join(procs)), s.desc, s.labels) == s.value
  {
    UniqueIffDistinctIds(procs, jobs);
    var before, after := JoinInFlat(procs, jobs, i);
    InTheMiddle(before, JoinAt(procs, jobs[i]), after, k);
    ReadUnique(Flat(jobs, Join(procs)), |before| + k);
  }

  /** With distinct ids a scrape shows, for every traced job, its allocation from the job record. */
  lemma AllocationReadBack(procs: map<int, TraceInfo>, jobs: seq<JobMetric>, i: nat)
    requires i < |jobs| && Joins(procs, jobs[i]) && DistinctIds(procs, jobs)
    ensures var ch, j, id := Flat(jobs, Join(procs)), jobs[i], IdText(jobs[i]);
            Read(ch, JobAllocMem, [id]) == MemOf(j) && Read(ch, JobAllocCpus, [id]) == j.allocCpus
  {
    var j, id := jobs[i], IdText(jobs[i]);
    ReadJoined(procs, jobs, i, 0, Sample(JobAllocMem, [id], MemOf(j)));
    ReadJoined(procs, jobs, i, 1, Sample(JobAllocCpus, [id], j.allocCpus));
  }

  /** And its usage from the trace. */
  lemma UsageReadBack(procs: map<int, TraceInfo>, jobs: seq<JobMetric>, i: nat)
    requires i < |jobs| && Joins(procs, jobs[i]) && DistinctIds(procs, jobs)
    ensures var ch, id, p := Flat(jobs, Join(procs)), IdText(jobs[i]), procs[Truncate(jobs[i].jobId)].payload;
            && Read(ch, Pid, [id, p.hostname]) == p.pid as real && Read(ch, CpuUsage, [id, p.username]) == p.cpus
            && Read(ch, MemUsage, [id, p.username]) == p.mem && Read(ch, ThreadCount, [id, p.username]) == p.threads
            && Read(ch, WriteBytes, [id, p.username]) == p.writeBytes
            && Read(ch, ReadBytes, [id, p.username]) == p.readBytes
  {
    var id, p := IdText(jobs[i]), procs[Truncate(jobs[i].jobId)].payload;
    ReadJoined(procs, jobs, i, 2, Sample(Pid, [id, p.hostname], p.pid as real));
    ReadJoined(procs, jobs, i, 3, Sample(CpuUsage, [id, p.username], p.cpus));
    ReadJoined(procs, jobs, i, 4, Sample(MemUsage, [id, p.username], p.mem));
    ReadJoined(procs, jobs, i, 5, Sample(ThreadCount, [id, p.username], p.threads));
    ReadJoined(procs, jobs, i, 6, Sample(WriteBytes, [id, p.username], p.writeBytes));
    ReadJoined(procs, jobs, i, 7, Sample(ReadBytes, [id, p.username], p.readBytes));
  }
}
