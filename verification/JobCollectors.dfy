/** The job collector and the trace collector on one shared JSON fetcher.  Both read memory through
    the resource objects the cache holds; what they report over any sequence of collections is given
    in terms of the decoded texts alone. */
module JobCollectors {
  import opened Prelude
  import opened ThrottledCache
  import opened JobJson
  import opened Samples
  import opened TraceTable
  import Sums
  import JM = JobMetrics
  import JE = JobEmission
  import TE = TraceEmission

  /** Who collects; the trace collector brings its copy of the trace table. */
  datatype Collector = JobCollector | TraceCollector(procs: map<int, TraceInfo>)

  /** One collection: the clock readings of its fetch, what a real fetch would get, and the scrape
      duration it reports. */
  datatype Scrape = Scrape(
    who: Collector, check: real, begin: real, returned: real, stamp: real, answer: Answer, duration: real)
  {
    function Fetching(): Call<JM.JobMetric> { Call(check, begin, returned, stamp, Scraped(answer)) }

    ghost predicate Keyed() { who.TraceCollector? ==> forall k :: k in who.procs ==> who.procs[k].jobId == k }
  }

  datatype Shown = JobSamples(jobs: seq<Sample<JE.Desc>>) | TraceSamples(traces: seq<Sample<TE.Desc>>)

  /** What a collection shows of the jobs it got. */
  ghost predicate Tells(shown: Shown, s: Scrape, result: Result<seq<JM.JobMetric>>, errors: nat) {
    match s.who
    case JobCollector =>
      shown.JobSamples? && JE.Shows(shown.jobs, JE.Report(result, s.duration, errors as real))
    case TraceCollector(procs) =>
      shown.TraceSamples? && shown.traces == if result.Err? then [] else Sums.Flat(result.value, TE.Join(procs))
  }

  // ---------- reading through the resource objects ----------

  method ReadNodes(refs: map<string, NodeResource>) returns (nodes: map<string, real>)
    ensures nodes == map n | n in refs :: refs[n].mem
  {
    nodes := map[];
    var left := refs.Keys;
    while left != {}
      invariant left <= refs.Keys && nodes.Keys == refs.Keys - left
      invariant forall n :: n in nodes ==> nodes[n] == refs[n].mem
      decreases left
    {
      var n := Pick(left);
      left := left - {n};
      nodes := nodes[n := refs[n].mem];
    }
  }

  /** Reads the figures of some jobs; nothing is written. */
  method ReadJobs(jobs: seq<RawJob>) returns (values: seq<JM.JobMetric>)
    ensures values == Values(jobs)
  {
    values := [];
    for i := 0 to |jobs|
      invariant |values| == i && forall k :: 0 <= k < i ==> values[k] == Value(jobs[k])
    {
      var nodes := ReadNodes(jobs[i].allocNodes);
      values := values + [jobs[i].job.(allocNodes := nodes)];
    }
  }

  /** A fetch result as its reader sees it. */
  ghost function Seen(result: Result<seq<RawJob>>): Result<seq<JM.JobMetric>>
    reads if result.Ok? then Resources(result.value) else {}
  {
    if result.Ok? then Ok(Values(result.value)) else Err
  }

  /** Fetches on the shared fetcher, then reads the jobs handed out. */
  method FetchAndRead(fetcher: JobJsonFetcher, s: Scrape)
    returns (read: Result<seq<JM.JobMetric>>, ghost result: Result<seq<RawJob>>)
    modifies fetcher, fetcher.cache
    ensures fetcher.Snapshot() == Next(old(fetcher.Snapshot()), fetcher.cache.limit, s.Fetching())
    ensures read == Seen(result) == Reply(old(fetcher.Snapshot()), fetcher.cache.limit, s.Fetching())
    ensures fetcher.errCounter == old(fetcher.errCounter) +
              if !Hit(old(fetcher.Snapshot()), fetcher.cache.limit, s.check) && s.answer.ScrapeError? then 1 else 0
  {
    var fetched := fetcher.FetchMetrics(s.check, s.begin, s.returned, s.stamp, s.answer);
    result := fetched;
    read := Err;
    if fetched.Ok? {
      var values := ReadJobs(fetched.value);
      read := Ok(values);
    }
  }

  method Emit(read: Result<seq<JM.JobMetric>>, s: Scrape, errors: nat) returns (shown: Shown)
    requires s.Keyed()
    ensures Tells(shown, s, read, errors)
  {
    match s.who {
      case JobCollector =>
        var ch := JE.Collect(read, s.duration, errors as real);
        shown := JobSamples(ch);
      case TraceCollector(procs) =>
        var ch := TE.Collect(procs, read);
        shown := TraceSamples(ch);
    }
  }

  /** One collection on the shared fetcher.  `result` is what the fetch handed out. */
  method Collect(fetcher: JobJsonFetcher, s: Scrape) returns (shown: Shown, ghost result: Result<seq<RawJob>>)
    requires s.Keyed()
    modifies fetcher, fetcher.cache
    ensures fetcher.Snapshot() == Next(old(fetcher.Snapshot()), fetcher.cache.limit, s.Fetching())
    ensures Seen(result) == Reply(old(fetcher.Snapshot()), fetcher.cache.limit, s.Fetching())
    ensures Tells(shown, s, Seen(result), fetcher.errCounter)
    ensures fetcher.errCounter == old(fetcher.errCounter) +
              if !Hit(old(fetcher.Snapshot()), fetcher.cache.limit, s.check) && s.answer.ScrapeError? then 1 else 0
  {
    var read;
    read, result := FetchAndRead(fetcher, s);
    label Fetched:
    shown := Emit(read, s, fetcher.errCounter);
    assert result.Ok? ==> Values(result.value) == old@Fetched(Values(result.value));
  }

  // ---------- any sequence of collections ----------

  function Calls(scrapes: seq<Scrape>): seq<Call<JM.JobMetric>> {
    seq(|scrapes|, i requires 0 <= i < |scrapes| => scrapes[i].Fetching())
  }

  /** The failed scrapes among the real fetches of the first `n` collections. */
  function Errors(t0: real, limit: real, scrapes: seq<Scrape>, n: nat): nat
    requires n <= |scrapes|
  {
    if n == 0 then 0
    else
      Errors(t0, limit, scrapes, n - 1) +
      if Fetches(t0, limit, Calls(scrapes), n - 1) && scrapes[n - 1].answer.ScrapeError? then 1 else 0
  }

  /** Collection `i` got the result a cache of plain values gives there, and showed it. */
  ghost predicate Got(t0: real, limit: real, scrapes: seq<Scrape>, i: nat,
                      seen: Result<seq<JM.JobMetric>>, shown: Shown)
    requires i < |scrapes|
  {
    && seen == ResultAt(t0, limit, Calls(scrapes), i)
    && Tells(shown, scrapes[i], seen, Errors(t0, limit, scrapes, i + 1))
  }

  /** What earlier collections were handed still reads the same. */
  ghost predicate StillSeen(results: seq<Result<seq<RawJob>>>, seen: seq<Result<seq<JM.JobMetric>>>)
    reads set i, r | 0 <= i < |results| && results[i].Ok? && r in Resources(results[i].value) :: r
  {
    |results| == |seen| && forall i :: 0 <= i < |results| ==> Seen(results[i]) == seen[i]
  }

  /** The fetcher is where the first `n` collections leave a cache of plain values. */
  ghost predicate Ran(fetcher: JobJsonFetcher, t0: real, limit: real, scrapes: seq<Scrape>, n: nat)
    requires n <= |scrapes|
    reads fetcher, fetcher.cache, Resources(fetcher.cache.cache)
  {
    && fetcher.cache.limit == limit
    && fetcher.Snapshot() == After(t0, limit, Calls(scrapes), n)
    && fetcher.errCounter == Errors(t0, limit, scrapes, n)
  }

  /** One more collection; what earlier ones were handed is not written. */
  method CollectNext(fetcher: JobJsonFetcher, ghost t0: real, ghost limit: real, scrapes: seq<Scrape>, n: nat,
                     ghost results: seq<Result<seq<RawJob>>>, ghost seen: seq<Result<seq<JM.JobMetric>>>)
    returns (shown: Shown, ghost result: Result<seq<RawJob>>)
    requires n < |scrapes| && scrapes[n].Keyed()
    requires Ran(fetcher, t0, limit, scrapes, n) && StillSeen(results, seen)
    modifies fetcher, fetcher.cache
    ensures Ran(fetcher, t0, limit, scrapes, n + 1)
    ensures StillSeen(results + [result], seen + [Seen(result)])
    ensures Got(t0, limit, scrapes, n, Seen(result), shown)
  {
    shown, result := Collect(fetcher, scrapes[n]);
    forall i | 0 <= i < |results| && results[i].Ok?
      ensures Values(results[i].value) == old(Values(results[i].value))
    {}
    NextGot(t0, limit, scrapes, n, Seen(result), shown, fetcher.errCounter);
  }

  /** Any interleaving of job and trace collections on a new fetcher: the snapshot is that of a
      cache of plain values, each collection reports that cache's result, and the objects it was
      handed still read the same after all the others. */
  method CollectAll(limit: real, t0: real, scrapes: seq<Scrape>)
    returns (fetcher: JobJsonFetcher, shown: seq<Shown>,
             ghost results: seq<Result<seq<RawJob>>>, ghost seen: seq<Result<seq<JM.JobMetric>>>)
    requires forall i :: 0 <= i < |scrapes| ==> scrapes[i].Keyed()
    ensures fetcher.Snapshot() == After(t0, limit, Calls(scrapes), |scrapes|)
    ensures |shown| == |seen| == |scrapes|
    ensures forall i :: 0 <= i < |scrapes| ==> Got(t0, limit, scrapes, i, seen[i], shown[i])
    ensures StillSeen(results, seen)
  {
    fetcher := new JobJsonFetcher(limit, t0);
    shown, results, seen := [], [], [];
    for n := 0 to |scrapes|
      invariant fresh(fetcher) && fresh(fetcher.cache)
      invariant Ran(fetcher, t0, limit, scrapes, n) && StillSeen(results, seen)
      invariant |shown| == |seen| == n
      invariant forall i :: 0 <= i < n ==> Got(t0, limit, scrapes, i, seen[i], shown[i])
    {
      ghost var result;
      var next;
      next, result := CollectNext(fetcher, t0, limit, scrapes, n, results, seen);
      shown, results, seen := shown + [next], results + [result], seen + [Seen(result)];
    }
  }

  lemma NextGot(t0: real, limit: real, scrapes: seq<Scrape>, n: nat,
                seen: Result<seq<JM.JobMetric>>, shown: Shown, errors: nat)
    requires n < |scrapes|
    requires var s, before := scrapes[n], After(t0, limit, Calls(scrapes), n);
             && seen == Reply(before, limit, s.Fetching()) && Tells(shown, s, seen, errors)
             && errors == Errors(t0, limit, scrapes, n) +
                          if !Hit(before, limit, s.check) && s.answer.ScrapeError? then 1 else 0
    ensures Got(t0, limit, scrapes, n, seen, shown) && errors == Errors(t0, limit, scrapes, n + 1)
    ensures After(t0, limit, Calls(scrapes), n + 1) ==
            Next(After(t0, limit, Calls(scrapes), n), limit, scrapes[n].Fetching())
  {
    assert Calls(scrapes)[n] == scrapes[n].Fetching();
  }

  /** The jobs a successful fetch stores, figure by figure against its text. */
  lemma StoredJobs(answer: Answer, k: nat)
    requires answer.Decoded? && k < |answer.jobs|
    ensures Scraped(answer).Data? && |Scraped(answer).data| == |answer.jobs|
    ensures var job, decoded := Scraped(answer).data[k], answer.jobs[k];
            && job.(allocNodes := decoded.allocNodes) == decoded
            && job.allocNodes.Keys == decoded.allocNodes.Keys
            && (forall n :: n in job.allocNodes ==> job.allocNodes[n] == 1000000000.0 * decoded.allocNodes[n])
            && JM.MemOf(job) == 1000000000.0 * JM.MemOf(decoded)
  {
    BytesOfJob(answer.jobs[k]);
  }

  /** The shared snapshot changes only at a real fetch that succeeds, to the jobs of that text in
      bytes; every collection reports the last such jobs, of its own fetch or of an earlier one
      whose non-empty answer is younger than the limit. */
  lemma ReportsLastAnswer(t0: real, limit: real, scrapes: seq<Scrape>, i: nat) returns (j: nat)
    requires i < |scrapes|
    ensures var calls := Calls(scrapes);
            After(t0, limit, calls, i + 1).cache ==
            if Succeeds(t0, limit, calls, i) then AllInBytes(scrapes[i].answer.jobs)
            else After(t0, limit, calls, i).cache
    ensures var calls := Calls(scrapes);
            ResultAt(t0, limit, calls, i).Ok? ==>
              && LastSuccess(t0, limit, calls, i + 1, j) && scrapes[j].answer.Decoded?
              && ResultAt(t0, limit, calls, i).value == AllInBytes(scrapes[j].answer.jobs)
              && (j == i || (scrapes[j].answer.jobs != [] && scrapes[i].check - scrapes[j].stamp < limit))
    ensures ResultAt(t0, limit, Calls(scrapes), i).Err? <==>
            Fetches(t0, limit, Calls(scrapes), i) && !scrapes[i].answer.Decoded?
  {
    var calls := Calls(scrapes);
    j := ResultIsLastSuccess(t0, limit, calls, i);
    assert calls[i] == scrapes[i].Fetching();
    if ResultAt(t0, limit, calls, i).Ok? {
      assert calls[j] == scrapes[j].Fetching();
    }
  }
}
