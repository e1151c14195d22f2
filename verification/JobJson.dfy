/** The JSON job fetcher: decoded jobs hold `NodeResource` objects by reference, memory is scaled to
    bytes in place, once, and the cache then hands the same objects to every collector. */
module JobJson {
  import opened Prelude
  import opened ThrottledCache
  import opened Sums
  import JM = JobMetrics

  const GB := 1000000000.0

  class NodeResource {
    var mem: real

    constructor (mem: real)
      ensures this.mem == mem
    {
      this.mem := mem;
    }
  }

  /** A decoded job: its plain fields and its node resources by reference. */
  datatype RawJob = RawJob(job: JM.JobMetric, allocNodes: map<string, NodeResource>)

  /** What the scrape and the decoder answer; a decoded text gives the jobs' values, memory in
      gigabytes. */
  datatype Answer = ScrapeError | DecodeError | Decoded(jobs: seq<JM.JobMetric>)

  ghost function Resources(jobs: seq<RawJob>): set<NodeResource> {
    set i, n | 0 <= i < |jobs| && n in jobs[i].allocNodes :: jobs[i].allocNodes[n]
  }

  /** How many of the keys `ks` of a job refer to `r`. */
  ghost function Refs(m: map<string, NodeResource>, ks: set<string>, r: NodeResource): nat {
    |set n | n in ks && n in m && m[n] == r|
  }

  /** How often `r` occurs in some jobs. */
  ghost function Occurrences(jobs: seq<RawJob>, r: NodeResource): nat {
    if |jobs| == 0 then 0
    else
      var j := jobs[|jobs| - 1];
      Occurrences(jobs[..|jobs| - 1], r) + Refs(j.allocNodes, j.allocNodes.Keys, r)
  }

  /** `x` scaled to bytes `k` times. */
  ghost function Scaled(x: real, k: nat): real {
    if k == 0 then x else Scaled(x, k - 1) * GB
  }

  lemma RefsSnoc(m: map<string, NodeResource>, ks: set<string>, n: string, r: NodeResource)
    requires n in m && n !in ks
    ensures Refs(m, ks + {n}, r) == Refs(m, ks, r) + if m[n] == r then 1 else 0
  {
    var a := set k | k in ks && k in m && m[k] == r;
    var b := set k | k in ks + {n} && k in m && m[k] == r;
    assert n !in a;
    if m[n] == r {
      assert b == a + {n};
    } else {
      assert b == a;
    }
  }

  lemma OccurrencesSnoc(jobs: seq<RawJob>, i: nat, r: NodeResource)
    requires i < |jobs|
    ensures Occurrences(jobs[..i + 1], r) ==
            Occurrences(jobs[..i], r) + Refs(jobs[i].allocNodes, jobs[i].allocNodes.Keys, r)
  {
    assert jobs[..i + 1][..i] == jobs[..i];
  }

  /** The inner loop: the resources of one job. */
  method ScaleJob(m: map<string, NodeResource>)
    modifies m.Values
    ensures forall r: NodeResource :: r in m.Values ==> r.mem == Scaled(old(r.mem), Refs(m, m.Keys, r))
  {
    var left := m.Keys;
    while left != {}
      invariant left <= m.Keys
      invariant forall r: NodeResource :: r in m.Values ==> r.mem == Scaled(old(r.mem), Refs(m, m.Keys - left, r))
      decreases left
    {
      var n := Pick(left);
      forall r: NodeResource | r in m.Values
        ensures Refs(m, m.Keys - (left - {n}), r) == Refs(m, m.Keys - left, r) + if m[n] == r then 1 else 0
      {
        RefsSnoc(m, m.Keys - left, n, r);
        assert m.Keys - (left - {n}) == (m.Keys - left) + {n};
      }
      var resource := m[n];
      resource.mem := resource.mem * GB;
      left := left - {n};
    }
    assert m.Keys - left == m.Keys;
  }

  lemma {:induction false} ScaledTwice(x: real, a: nat, b: nat)
    ensures Scaled(Scaled(x, a), b) == Scaled(x, a + b)
  {
    if b > 0 { ScaledTwice(x, a, b - 1); }
  }

  lemma NoRefs(m: map<string, NodeResource>, ks: set<string>, r: NodeResource)
    requires r !in m.Values
    ensures Refs(m, ks, r) == 0
  {
    assert (set n | n in ks && n in m && m[n] == r) == {};
  }

  /** Scaling one more job adds its references to the exponent. */
  lemma NextScale(jobs: seq<RawJob>, i: nat, r: NodeResource, x: real)
    requires i < |jobs|
    ensures var m := jobs[i].allocNodes;
            && Scaled(Scaled(x, Occurrences(jobs[..i], r)), Refs(m, m.Keys, r)) ==
               Scaled(x, Occurrences(jobs[..i + 1], r))
            && (r !in m.Values ==> Occurrences(jobs[..i + 1], r) == Occurrences(jobs[..i], r))
  {
    var m := jobs[i].allocNodes;
    OccurrencesSnoc(jobs, i, r);
    ScaledTwice(x, Occurrences(jobs[..i], r), Refs(m, m.Keys, r));
    if r !in m.Values { NoRefs(m, m.Keys, r); }
  }

  lemma JobResources(jobs: seq<RawJob>, i: nat)
    requires i < |jobs|
    ensures jobs[i].allocNodes.Values <= Resources(jobs)
  {}

  /** The scaling loop over all jobs: every resource is scaled once per occurrence, whatever is
      shared, and nothing else is touched. */
  method ScaleMemory(jobs: seq<RawJob>)
    modifies Resources(jobs)
    ensures forall r: NodeResource :: r in Resources(jobs) ==> r.mem == Scaled(old(r.mem), Occurrences(jobs, r))
  {
    for i := 0 to |jobs|
      invariant forall r: NodeResource :: r in Resources(jobs) ==>
                  r.mem == Scaled(old(r.mem), Occurrences(jobs[..i], r))
    {
      var m := jobs[i].allocNodes;
      JobResources(jobs, i);
      ghost var before := map r: NodeResource | r in Resources(jobs) :: r.mem;
      ScaleJob(m);
      forall r: NodeResource | r in Resources(jobs)
        ensures r.mem == Scaled(old(r.mem), Occurrences(jobs[..i + 1], r))
      {
        assert before[r] == Scaled(old(r.mem), Occurrences(jobs[..i], r));
        NextScale(jobs, i, r, old(r.mem));
      }
    }
    assert jobs[..|jobs|] == jobs;
  }

  // ---------- jobs as values ----------

  /** A job as the collectors read it. */
  ghost function Value(j: RawJob): JM.JobMetric
    reads j.allocNodes.Values
  {
    j.job.(allocNodes := map n | n in j.allocNodes :: j.allocNodes[n].mem)
  }

  ghost function Values(jobs: seq<RawJob>): seq<JM.JobMetric>
    reads Resources(jobs)
  {
    seq(|jobs|, i requires 0 <= i < |jobs| reads Resources(jobs) => JobResources(jobs, i); Value(jobs[i]))
  }

  /** A job with its memory in bytes instead of gigabytes. */
  function InBytes(j: JM.JobMetric): JM.JobMetric {
    j.(allocNodes := map n | n in j.allocNodes :: j.allocNodes[n] * GB)
  }

  /** No resource object is shared between two nodes of the decoded jobs. */
  ghost predicate Distinct(jobs: seq<RawJob>) {
    forall r: NodeResource :: r in Resources(jobs) ==> Occurrences(jobs, r) == 1
  }

  /** The values of some jobs with every job's memory in bytes. */
  function AllInBytes(js: seq<JM.JobMetric>): seq<JM.JobMetric> {
    seq(|js|, i requires 0 <= i < |js| => InBytes(js[i]))
  }

  lemma {:induction false} SumMapInBytes(m: map<string, real>, bytes: map<string, real>)
    requires bytes.Keys == m.Keys && forall n :: n in m ==> bytes[n] == 1000000000.0 * m[n]
    ensures SumMap(bytes) == 1000000000.0 * SumMap(m)
    decreases |m|
  {
    if m == map[] {
      assert bytes == map[];
    } else {
      var n :| n in m;
      SumMapRemove(m, n);
      SumMapRemove(bytes, n);
      assert |m - {n}| < |m| by { assert (m - {n}).Keys == m.Keys - {n}; }
      SumMapInBytes(m - {n}, bytes - {n});
    }
  }

  /** The size of a gigabyte: every node's memory, and so the job's total, is 10^9 times what the text
      says, and nothing else of the job changes. */
  lemma BytesOfJob(j: JM.JobMetric)
    ensures InBytes(j).allocNodes.Keys == j.allocNodes.Keys
    ensures forall n :: n in j.allocNodes ==> InBytes(j).allocNodes[n] == 1000000000.0 * j.allocNodes[n]
    ensures SumMap(InBytes(j).allocNodes) == 1000000000.0 * SumMap(j.allocNodes)
    ensures InBytes(j).(allocNodes := j.allocNodes) == j
  {
    SumMapInBytes(j.allocNodes, InBytes(j).allocNodes);
  }

  /** Scaling every distinct resource once turns all memory figures from gigabytes into bytes. */
  twostate lemma ScaledOnce(jobs: seq<RawJob>)
    requires Distinct(jobs)
    requires forall r: NodeResource :: r in Resources(jobs) ==> r.mem == Scaled(old(r.mem), Occurrences(jobs, r))
    ensures Values(jobs) == AllInBytes(old(Values(jobs)))
  {
    forall i | 0 <= i < |jobs| ensures Value(jobs[i]) == InBytes(old(Value(jobs[i]))) {
      var m := jobs[i].allocNodes;
      forall n | n in m ensures m[n].mem == old(m[n].mem) * GB {
        assert m[n] in Resources(jobs);
        ScaledByOne(old(m[n].mem));
      }
      ScaledValue(jobs[i]);
    }
  }

  lemma ScaledByOne(x: real)
    ensures Scaled(x, 1) == x * GB
  {
    assert Scaled(x, 1) == Scaled(x, 0) * GB;
  }

  twostate lemma ScaledValue(j: RawJob)
    requires forall n :: n in j.allocNodes ==> j.allocNodes[n].mem == old(j.allocNodes[n].mem) * GB
    ensures Value(j) == InBytes(old(Value(j)))
  {}

  /** The scaling loop on jobs that share no resource object. */
  method ScaleToBytes(jobs: seq<RawJob>)
    requires Distinct(jobs)
    modifies Resources(jobs)
    ensures Values(jobs) == AllInBytes(old(Values(jobs)))
  {
    ScaleMemory(jobs);
    ScaledOnce(jobs);
  }

  // ---------- decoding ----------

  /** The decoder allocates a resource object for every entry of a job's node map. */
  method UnmarshalNodes(nodes: map<string, real>) returns (refs: map<string, NodeResource>)
    ensures refs.Keys == nodes.Keys && fresh(refs.Values)
    ensures forall n :: n in refs ==> refs[n].mem == nodes[n]
    ensures forall m, n :: m in refs && n in refs && refs[m] == refs[n] ==> m == n
  {
    refs := map[];
    var left := nodes.Keys;
    while left != {}
      invariant left <= nodes.Keys && refs.Keys == nodes.Keys - left
      invariant forall n :: n in refs ==> fresh(refs[n])
      invariant forall n :: n in refs ==> refs[n].mem == nodes[n]
      invariant forall m, n :: m in refs && n in refs && refs[m] == refs[n] ==> m == n
      decreases left
    {
      var n := Pick(left);
      left := left - {n};
      var resource := new NodeResource(nodes[n]);
      refs := refs[n := resource];
    }
  }

  lemma OneRef(m: map<string, NodeResource>, r: NodeResource)
    requires r in m.Values
    requires forall a, b :: a in m && b in m && m[a] == m[b] ==> a == b
    ensures Refs(m, m.Keys, r) == 1
  {
    var n :| n in m && m[n] == r;
    assert (set k | k in m.Keys && k in m && m[k] == r) == {n};
  }

  lemma {:induction false} NoOccurrence(jobs: seq<RawJob>, r: NodeResource)
    requires r !in Resources(jobs)
    ensures Occurrences(jobs, r) == 0
  {
    if |jobs| > 0 {
      var init, j := jobs[..|jobs| - 1], jobs[|jobs| - 1];
      JobResources(jobs, |jobs| - 1);
      assert Resources(init) <= Resources(jobs);
      NoOccurrence(init, r);
      NoRefs(j.allocNodes, j.allocNodes.Keys, r);
    }
  }

  lemma ResourcesSnoc(jobs: seq<RawJob>, j: RawJob)
    ensures Resources(jobs + [j]) == Resources(jobs) + j.allocNodes.Values
  {
    var more := jobs + [j];
    assert more[|jobs|] == j;
    forall r | r in Resources(jobs) ensures r in Resources(more) {
      var i, n :| 0 <= i < |jobs| && n in jobs[i].allocNodes && jobs[i].allocNodes[n] == r;
      assert more[i] == jobs[i];
    }
    forall r | r in Resources(more) ensures r in Resources(jobs) + j.allocNodes.Values {
      var i, n :| 0 <= i < |more| && n in more[i].allocNodes && more[i].allocNodes[n] == r;
      if i < |jobs| { assert more[i] == jobs[i]; }
    }
  }

  lemma DistinctSnoc(jobs: seq<RawJob>, j: RawJob)
    requires Distinct(jobs) && Resources(jobs) !! j.allocNodes.Values
    requires forall a, b :: a in j.allocNodes && b in j.allocNodes && j.allocNodes[a] == j.allocNodes[b] ==> a == b
    ensures Distinct(jobs + [j])
  {
    ResourcesSnoc(jobs, j);
    forall r | r in Resources(jobs + [j]) ensures Occurrences(jobs + [j], r) == 1 {
      assert (jobs + [j])[..|jobs|] == jobs;
      if r in j.allocNodes.Values {
        NoOccurrence(jobs, r);
        OneRef(j.allocNodes, r);
      } else {
        NoRefs(j.allocNodes, j.allocNodes.Keys, r);
      }
    }
  }

  /** All jobs of a decoded text: no two nodes share a resource object. */
  method Unmarshal(values: seq<JM.JobMetric>) returns (jobs: seq<RawJob>)
    ensures fresh(Resources(jobs)) && Distinct(jobs) && Values(jobs) == values
  {
    jobs := [];
    for i := 0 to |values|
      invariant fresh(Resources(jobs)) && Distinct(jobs)
      invariant |jobs| == i && forall k :: 0 <= k < i ==> Value(jobs[k]) == values[k]
    {
      var refs := UnmarshalNodes(values[i].allocNodes);
      var job := RawJob(values[i], refs);
      DistinctSnoc(jobs, job);
      ResourcesSnoc(jobs, job);
      assert Value(job) == values[i];
      jobs := jobs + [job];
    }
  }

  // ---------- the fetcher and its cache ----------

  /** What a fetch should give: the decoded jobs in bytes. */
  function Scraped(answer: Answer): Outcome<JM.JobMetric> {
    if answer.Decoded? then Data(AllInBytes(answer.jobs)) else Failed
  }

  class JobJsonFetcher {
    const cache: AtomicThrottledCache<RawJob>
    var errCounter: nat

    constructor (limit: real, now: real)
      ensures fresh(cache) && cache.limit == limit && Snapshot() == Initial(now)
      ensures errCounter == 0
    {
      cache := new AtomicThrottledCache<RawJob>(limit, now);
      errCounter := 0;
      new;
      assert Values([]) == [];
    }

    /** The cache as its readers see it: the stored jobs read through their resource objects. */
    ghost function Snapshot(): State<JM.JobMetric>
      reads this, cache, Resources(cache.cache)
    {
      State(Values(cache.cache), cache.t, cache.duration)
    }

    /** The fetch function proper: decode, then scale in place.  Only new objects are written. */
    method Fetch(answer: Answer) returns (outcome: Outcome<RawJob>)
      modifies this`errCounter
      ensures outcome.Data? <==> answer.Decoded?
      ensures outcome.Data? ==> fresh(Resources(outcome.data)) && Data(Values(outcome.data)) == Scraped(answer)
      ensures errCounter == old(errCounter) + if answer.ScrapeError? then 1 else 0
    {
      match answer {
        case ScrapeError =>
          errCounter := errCounter + 1;
          return Failed;
        case DecodeError =>
          return Failed;
        case Decoded(values) =>
          var jobs := Unmarshal(values);
          ScaleToBytes(jobs);
          return Data(jobs);
      }
    }

    /** `FetchMetrics` through the cache, with the clock readings of the call; `answer` is what a
        real fetch would get.  On what its readers see the call is one step of a cache of plain
        values whose fetches answer in bytes, and objects that existed before are not written. */
    method FetchMetrics(check: real, begin: real, returned: real, stamp: real, answer: Answer)
      returns (result: Result<seq<RawJob>>)
      modifies this, cache
      ensures var call := Call(check, begin, returned, stamp, Scraped(answer));
              && Snapshot() == Next(old(Snapshot()), cache.limit, call)
              && (if result.Ok? then Ok(Values(result.value)) else Err) == Reply(old(Snapshot()), cache.limit, call)
      ensures result.Ok? ==> result.value == cache.cache
      ensures errCounter == old(errCounter) +
                            if !Hit(old(Snapshot()), cache.limit, check) && answer.ScrapeError? then 1 else 0
    {
      if |cache.cache| > 0 && check - cache.t < cache.limit {
        var hit, _ := cache.FetchOrThrottle(Call(check, begin, returned, stamp, Failed));
        return hit;
      }
      var outcome := Fetch(answer);
      var r, _ := cache.FetchOrThrottle(Call(check, begin, returned, stamp, outcome));
      result := r;
    }
  }
}
