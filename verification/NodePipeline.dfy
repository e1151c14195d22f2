/** The node path from `sinfo` text to samples: what a scrape shows, in terms of the lines alone. */
module NodePipeline {
  import opened Prelude
  import opened Sums
  import opened Samples
  import opened ThrottledCache
  import NM = NodeMetrics
  import NF = NodeFallback
  import opened NodeMerge
  import opened NodeEmission

  /** What a fetch makes of the scraped text: the hosts of its good lines, or a failure. */
  ghost predicate Answers(outcome: Outcome<NM.NodeMetric>, raw: Option<string>, decode: string -> Option<NF.SinfoLine>,
                          parse: string -> Option<real>) {
    && (outcome.Failed? <==>
          raw.None? || exists v :: v in NF.Verdicts(NF.Lines(raw.value), decode, parse) && v.BadCpuState?)
    && (outcome.Data? ==>
          NF.Lists(outcome.data, NF.HostTable(NF.AcceptedLines(NF.Verdicts(NF.Lines(raw.value), decode, parse)))))
  }

  /** The fallback fetcher behind its throttled cache, and the collector's view of it. */
  class CachedNodeFetcher {
    const cache: AtomicThrottledCache<NM.NodeMetric>
    const fetcher: NF.NodeCliFallbackFetcher

    constructor (limit: real, now: real)
      ensures fresh(cache) && cache.limit == limit && cache.Fields() == Initial(now)
      ensures fresh(fetcher) && fetcher.errorCounter == 0
    {
      cache := new AtomicThrottledCache<NM.NodeMetric>(limit, now);
      fetcher := new NF.NodeCliFallbackFetcher();
    }

    /** `FetchMetrics`: one step of the cache, whose fetch parses `raw`.  A hit reads no text. */
    method FetchMetrics(check: real, begin: real, returned: real, stamp: real, raw: Option<string>,
                        decode: string -> Option<NF.SinfoLine>, parse: string -> Option<real>)
      returns (result: Result<seq<NM.NodeMetric>>, ghost call: Call<NM.NodeMetric>)
      modifies cache, fetcher
      ensures call.check == check && call.begin == begin && call.returned == returned && call.stamp == stamp
      ensures result == Reply(old(cache.Fields()), cache.limit, call)
      ensures cache.Fields() == Next(old(cache.Fields()), cache.limit, call)
      ensures if Hit(old(cache.Fields()), cache.limit, check) then unchanged(fetcher) && unchanged(cache)
              else Answers(call.outcome, raw, decode, parse)
    {
      var outcome: Outcome<NM.NodeMetric> := Failed;
      if !(|cache.cache| > 0 && check - cache.t < cache.limit) {
        var fetched := fetcher.Fetch(raw, decode, parse);
        outcome := if fetched.Ok? then Data(fetched.value) else Failed;
      }
      call := Call(check, begin, returned, stamp, outcome);
      var r, _ := cache.FetchOrThrottle(Call(check, begin, returned, stamp, outcome));
      result := r;
    }

    /** One collection: within the limit of a non-empty success it reports the hosts stored then,
        whatever the text is now; otherwise it reports the hosts of the text, or, when the scrape
        failed or a cpu state is bad, only duration and error counter. */
    method Scrape(check: real, begin: real, returned: real, stamp: real, raw: Option<string>,
                  decode: string -> Option<NF.SinfoLine>, parse: string -> Option<real>, duration: real)
      returns (ch: seq<Sample<Desc>>, ghost call: Call<NM.NodeMetric>)
      modifies cache, fetcher
      ensures call.check == check && call.begin == begin && call.returned == returned && call.stamp == stamp
      ensures cache.Fields() == Next(old(cache.Fields()), cache.limit, call)
      ensures Shows(ch, Report(Reply(old(cache.Fields()), cache.limit, call), duration, fetcher.errorCounter as real))
      ensures if Hit(old(cache.Fields()), cache.limit, check) then unchanged(fetcher) && unchanged(cache)
              else Answers(call.outcome, raw, decode, parse)
    {
      var fetched;
      fetched, call := FetchMetrics(check, begin, returned, stamp, raw, decode, parse);
      ch := Collect(fetched, duration, fetcher.errorCounter as real);
    }
  }

  lemma ReadsAreSummaries(ch: seq<Sample<Desc>>, hosts: seq<NM.NodeMetric>, duration: real, errors: real, p: string)
    requires Shows(ch, Report(Ok(hosts), duration, errors))
    ensures var v := NM.PartitionAt(NM.PartitionTable(NM.Memberships(hosts)), p).totalCpus;
            Read(ch, PartCpus, [p]) == v <==> v >= 0.0
    ensures Read(ch, TotalCpus, []) == NM.CpuSummary(hosts).total
  {
    var t := Report(Ok(hosts), duration, errors);
    PartitionValueReadBack(ch, t, p, PartCpus);
    TotalReadBack(ch, t, TotalCpus);
  }

  /** A scrape shows, for every partition, the sum over the accepted lines naming it of the cpu
      total on the first line of that host, and for the cluster each host's first total once. */
  lemma ScrapeShowsLines(ch: seq<Sample<Desc>>, lines: seq<NF.Accepted>, hosts: seq<NM.NodeMetric>,
                         duration: real, errors: real, p: string)
    requires NF.Lists(hosts, NF.HostTable(lines)) && Shows(ch, Report(Ok(hosts), duration, errors))
    ensures Read(ch, PartCpus, [p]) == Sum(Naming(lines, p), FirstTotal(lines)) <==>
            Sum(Naming(lines, p), FirstTotal(lines)) >= 0.0
    ensures Read(ch, TotalCpus, []) == SumMap(Group(lines, NF.HostOf, FirstTotalOf))
  {
    ReadsAreSummaries(ch, hosts, duration, errors, p);
    PartitionCpus(lines, hosts, p);
    ClusterCpus(lines, hosts);
  }

  // ---------- lossless scrapes ----------

  /** A line whose figures are not negative and whose free memory is part of its real memory. */
  ghost predicate Plausible(a: NF.Accepted) {
    && a.alloc >= 0.0 && a.idle >= 0.0 && a.total >= 0.0 && a.line.cpuLoad >= 0.0 && a.line.weight >= 0.0
    && 0.0 <= a.line.freeMemory <= a.line.realMemory
  }

  lemma PlausibleHost(lines: seq<NF.Accepted>, host: string, d: Desc)
    requires host in NF.HostTable(lines) && (forall a :: a in lines ==> Plausible(a))
    requires IsPartValue(d) || IsPartStates(d)
    ensures Figure(d)(NF.HostTable(lines)[host]) >= 0.0
  {
    var mine := Filter(lines, Having(NF.HostOf, host));
    NF.HostPresent(lines, host);
    FilterMember(lines, Having(NF.HostOf, host), mine[0]);
    assert Plausible(mine[0]);
  }

  /** A scrape of plausible lines determines every partition figure the collector computed. */
  lemma ScrapeIsLossless(ch: seq<Sample<Desc>>, lines: seq<NF.Accepted>, hosts: seq<NM.NodeMetric>,
                         duration: real, errors: real, p: string, s: string, d: Desc)
    requires NF.Lists(hosts, NF.HostTable(lines)) && Shows(ch, Report(Ok(hosts), duration, errors))
    requires (forall a :: a in lines ==> Plausible(a)) && (IsPartValue(d) || IsPartStates(d))
    ensures var m := NM.PartitionAt(NM.PartitionTable(NM.Memberships(hosts)), p);
            && (IsPartValue(d) ==> Read(ch, d, [p]) == PartValue(m, d))
            && (IsPartStates(d) ==> Read(ch, d, [p, s]) == Get(PartStates(m, d), s))
  {
    forall n | n in hosts ensures Figure(d)(n) >= 0.0 {
      PlausibleHost(lines, n.hostname, d);
    }
    LosslessPartitions(ch, hosts, duration, errors, p, s, d);
  }

  lemma OneHost(a: NF.Accepted, hosts: seq<NM.NodeMetric>)
    requires NF.Lists(hosts, NF.HostTable([a]))
    ensures hosts == [NF.FirstRecord(a)]
  {
    assert [] + [a] == [a];
    NF.HostTableSnoc([], a);
    assert NF.HostTable([a]) == map[a.line.hostname := NF.FirstRecord(a)];
    assert |hosts| == 1 && hosts[0] in hosts;
  }

  /** A node that reports more free than real memory gets negative allocated memory, and the sample
      of its partition and state disappears: the scrape no longer determines the figure. */
  lemma FreeAboveRealIsLost(ch: seq<Sample<Desc>>, a: NF.Accepted, hosts: seq<NM.NodeMetric>,
                            duration: real, errors: real)
    requires NF.Lists(hosts, NF.HostTable([a])) && Shows(ch, Report(Ok(hosts), duration, errors))
    requires a.line.freeMemory > a.line.realMemory
    ensures var p, s := a.line.partition, a.line.state;
            var v := Get(PartStates(NM.PartitionAt(NM.PartitionTable(NM.Memberships(hosts)), p), PartAllocMemory), s);
            && v == 1000000.0 * (a.line.realMemory - a.line.freeMemory) && v < 0.0
            && Read(ch, PartAllocMemory, [p, s]) == 0.0 && !Has(ch, PartAllocMemory, [p, s])
  {
    OneHost(a, hosts);
    var n, p, s := NF.FirstRecord(a), a.line.partition, a.line.state;
    FigureOfOne(n, p, s);
    var t := Report(Ok(hosts), duration, errors);
    ReadFaithful(ch, Expect(t), PartAllocMemory, [p, s]);
    assert ExpectAt(t, PartAllocMemory, [p, s]) == None by { assert [p, s][1..] == [s]; }
  }

  lemma FigureOfOne(n: NM.NodeMetric, p: string, s: string)
    requires n.partitions == [p] && n.state == s
    ensures Get(PartStates(NM.PartitionAt(NM.PartitionTable(NM.Memberships([n])), p), PartAllocMemory), s) ==
            n.allocMemory
  {
    var m := NM.Membership(n, p);
    FlatSnoc([], n, NM.MembershipsOf);
    assert [] + [n] == [n] && NM.MembershipsOf(n) == [m];
    assert NM.Memberships([n]) == [m];
    FilterSnoc([], m, Having(NM.PartitionOf, p));
    assert [] + [m] == [m];
    assert NM.Mentions([m], p) == [m];
    FigureSums([n], p, PartAllocMemory);
    GetByKey([m], NM.MemberState, NM.Member(NM.AllocMemory), s);
    FilterSnoc([], m, Having(NM.MemberState, s));
    SumSnoc([], m, NM.Member(NM.AllocMemory));
  }
}
