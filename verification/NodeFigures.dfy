/** The node summaries figure by figure, as direct sums over the node records, and what a scrape shows
    of each. */
module NodeFigures {
  import opened Prelude
  import opened Sums
  import opened Samples
  import opened NodeMetrics
  import NE = NodeEmission

  lemma NextCount(xs: seq<string>, k: nat, p: string)
    requires k < |xs|
    ensures multiset(xs[..k + 1])[p] == multiset(xs[..k])[p] + if xs[k] == p then 1 else 0
  {
    assert xs[..k + 1] == xs[..k] + [xs[k]];
  }

  /** A node counts once for every time its partition list names `p`. */
  lemma {:induction false} ShareUpTo(n: NodeMetric, k: nat, p: string, w: NodeMetric -> real)
    requires k <= |n.partitions|
    ensures Sum(Mentions(MembershipsUpTo(n, k), p), Member(w)) == Counted(multiset(n.partitions[..k])[p], w(n))
  {
    if k == 0 {
      CountedOnce(0, w(n));
    } else {
      ShareUpTo(n, k - 1, p, w);
      NextShare(n, k - 1, p, w);
      NextCount(n.partitions, k - 1, p);
      CountedOnce(multiset(n.partitions[..k - 1])[p], w(n));
    }
  }

  lemma Share(n: NodeMetric, p: string, w: NodeMetric -> real)
    ensures NodeShare(p, w, n) == Counted(multiset(n.partitions)[p], w(n))
  {
    ShareUpTo(n, |n.partitions|, p, w);
    assert n.partitions[..|n.partitions|] == n.partitions;
  }

  lemma PartitionSum(nodes: seq<NodeMetric>, p: string, w: NodeMetric -> real, direct: NodeMetric -> real)
    requires forall n :: direct(n) == Counted(multiset(n.partitions)[p], w(n))
    ensures Sum(Mentions(Memberships(nodes), p), Member(w)) == Sum(nodes, direct)
  {
    MentionsPerNode(nodes, p, w);
    forall n | n in nodes ensures PerNode(p, w)(n) == direct(n) {
      Share(n, p, w);
    }
    SumPointwise(nodes, PerNode(p, w), direct);
  }

  lemma MentionsOfNode(n: NodeMetric, p: string, s: string)
    ensures Filter(Mentions(MembershipsOf(n), p), Having(MemberState, s)) ==
            if n.state == s then Mentions(MembershipsOf(n), p) else []
  {
    var mine := Mentions(MembershipsOf(n), p);
    forall m | m in mine ensures m.node == n {
      FilterMember(MembershipsOf(n), Having(PartitionOf, p), m);
    }
    if n.state == s {
      FilterAll(mine, Having(MemberState, s));
    } else {
      FilterNone(mine, Having(MemberState, s));
    }
  }

  /** The mentions by nodes in a state are the mentions in that state. */
  lemma {:induction false} MentionsInState(nodes: seq<NodeMetric>, p: string, s: string, inState: NodeMetric -> bool)
    requires forall n :: inState(n) <==> n.state == s
    ensures Filter(Mentions(Memberships(nodes), p), Having(MemberState, s)) ==
            Mentions(Memberships(Filter(nodes, inState)), p)
  {
    if |nodes| > 0 {
      var init, n := nodes[..|nodes| - 1], nodes[|nodes| - 1];
      MentionsInState(init, p, s, inState);
      assert nodes == init + [n];
      FlatSnoc(init, n, MembershipsOf);
      FilterAppend(Memberships(init), MembershipsOf(n), Having(PartitionOf, p));
      FilterAppend(Mentions(Memberships(init), p), Mentions(MembershipsOf(n), p), Having(MemberState, s));
      MentionsOfNode(n, p, s);
      var mine := Filter(init, inState);
      FilterSnoc(init, n, inState);
      if n.state == s {
        FlatSnoc(mine, n, MembershipsOf);
        FilterAppend(Memberships(mine), MembershipsOf(n), Having(PartitionOf, p));
      } else {
        assert mine + [] == mine;
      }
    }
  }

  lemma StateSum(nodes: seq<NodeMetric>, p: string, s: string, w: NodeMetric -> real,
                 inState: NodeMetric -> bool, direct: NodeMetric -> real)
    requires forall n :: inState(n) <==> n.state == s
    requires forall n :: direct(n) == Counted(multiset(n.partitions)[p], w(n))
    ensures Get(ByKey(Mentions(Memberships(nodes), p), MemberState, Member(w)), s) ==
            Sum(Filter(nodes, inState), direct)
  {
    GetByKey(Mentions(Memberships(nodes), p), MemberState, Member(w), s);
    MentionsInState(nodes, p, s, inState);
    PartitionSum(Filter(nodes, inState), p, w, direct);
  }

  /** A partition's cpu figures: each node's figure once for every time it names the partition. */
  lemma PartitionCpuFigures(nodes: seq<NodeMetric>, p: string)
    ensures var m := PartitionAt(PartitionTable(Memberships(nodes)), p);
            && m.totalCpus == Sum(nodes, (n: NodeMetric) => Counted(multiset(n.partitions)[p], n.cpus))
            && m.cpuLoad == Sum(nodes, (n: NodeMetric) => Counted(multiset(n.partitions)[p], n.cpuLoad))
            && m.idleCpus == Sum(nodes, (n: NodeMetric) => Counted(multiset(n.partitions)[p], n.idleCpus))
  {
    PartitionAtIsSummary(Memberships(nodes), p);
    PartitionSum(nodes, p, Cpus, (n: NodeMetric) => Counted(multiset(n.partitions)[p], n.cpus));
    PartitionSum(nodes, p, CpuLoad, (n: NodeMetric) => Counted(multiset(n.partitions)[p], n.cpuLoad));
    PartitionSum(nodes, p, IdleCpus, (n: NodeMetric) => Counted(multiset(n.partitions)[p], n.idleCpus));
  }

  /** Its memory and weight. */
  lemma PartitionMemoryFigures(nodes: seq<NodeMetric>, p: string)
    ensures var m := PartitionAt(PartitionTable(Memberships(nodes)), p);
            && m.realMemory == Sum(nodes, (n: NodeMetric) => Counted(multiset(n.partitions)[p], n.realMemory))
            && m.freeMemory == Sum(nodes, (n: NodeMetric) => Counted(multiset(n.partitions)[p], n.freeMemory))
            && m.weight == Sum(nodes, (n: NodeMetric) => Counted(multiset(n.partitions)[p], n.weight))
  {
    PartitionAtIsSummary(Memberships(nodes), p);
    PartitionSum(nodes, p, RealMemory, (n: NodeMetric) => Counted(multiset(n.partitions)[p], n.realMemory));
    PartitionSum(nodes, p, FreeMemory, (n: NodeMetric) => Counted(multiset(n.partitions)[p], n.freeMemory));
    PartitionSum(nodes, p, Weight, (n: NodeMetric) => Counted(multiset(n.partitions)[p], n.weight));
  }

  /** Its figures per state: the same over the nodes in that state. */
  lemma PartitionStateFigures(nodes: seq<NodeMetric>, p: string, s: string)
    ensures var m := PartitionAt(PartitionTable(Memberships(nodes)), p);
            var mine := Filter(nodes, (n: NodeMetric) => n.state == s);
            && Get(m.stateAllocCpus, s) ==
                 Sum(mine, (n: NodeMetric) => Counted(multiset(n.partitions)[p], n.allocCpus))
            && Get(m.stateAllocMemory, s) ==
                 Sum(mine, (n: NodeMetric) => Counted(multiset(n.partitions)[p], n.allocMemory))
            && Get(m.stateNodeCount, s) == Sum(mine, (n: NodeMetric) => multiset(n.partitions)[p] as real)
  {
    PartitionAtIsSummary(Memberships(nodes), p);
    var inState := (n: NodeMetric) => n.state == s;
    StateSum(nodes, p, s, AllocCpus, inState, (n: NodeMetric) => Counted(multiset(n.partitions)[p], n.allocCpus));
    StateSum(nodes, p, s, AllocMemory, inState, (n: NodeMetric) => Counted(multiset(n.partitions)[p], n.allocMemory));
    StateSum(nodes, p, s, One, inState, (n: NodeMetric) => multiset(n.partitions)[p] as real);
  }

  /** The cluster-wide figures. */
  lemma ClusterFigures(nodes: seq<NodeMetric>)
    ensures var cpu := CpuSummary(nodes);
            && cpu.total == Sum(nodes, (n: NodeMetric) => n.cpus)
            && cpu.idle == Sum(nodes, (n: NodeMetric) => n.idleCpus)
            && cpu.load == Sum(nodes, (n: NodeMetric) => n.cpuLoad)
    ensures var mem := MemSummary(nodes);
            && mem.allocMemory == Sum(nodes, (n: NodeMetric) => n.allocMemory)
            && mem.freeMemory == Sum(nodes, (n: NodeMetric) => n.freeMemory)
            && mem.realMemory == Sum(nodes, (n: NodeMetric) => n.realMemory)
  {
    SumPointwise(nodes, Cpus, (n: NodeMetric) => n.cpus);
    SumPointwise(nodes, IdleCpus, (n: NodeMetric) => n.idleCpus);
    SumPointwise(nodes, CpuLoad, (n: NodeMetric) => n.cpuLoad);
    SumPointwise(nodes, AllocMemory, (n: NodeMetric) => n.allocMemory);
    SumPointwise(nodes, FreeMemory, (n: NodeMetric) => n.freeMemory);
    SumPointwise(nodes, RealMemory, (n: NodeMetric) => n.realMemory);
  }

  /** The cluster's figures per state; a state is listed exactly when some node is in it. */
  lemma ClusterStateFigures(nodes: seq<NodeMetric>, s: string)
    ensures var m, mine := StateAt(CpuSummary(nodes).perState, s), Filter(nodes, (n: NodeMetric) => n.state == s);
            m.cpus == Sum(mine, (n: NodeMetric) => n.cpus) && m.count == |mine| as real
    ensures s in CpuSummary(nodes).perState <==> exists n :: n in nodes && n.state == s
  {
    var inState := (n: NodeMetric) => n.state == s;
    StateAtIsTotals(nodes, s);
    FilterPointwise(nodes, Having(StateOf, s), inState);
    SumPointwise(Filter(nodes, inState), Cpus, (n: NodeMetric) => n.cpus);
    SumOfOnes(Filter(nodes, inState));
    if s in KeySet(nodes, StateOf) {
      var n :| n in nodes && StateOf(n) == s;
      assert n.state == s;
    }
  }

  // ---------- what a scrape shows ----------

  /** Where a partition sample is and what it says. */
  lemma PartitionSamples(ch: seq<Sample<NE.Desc>>, nodes: seq<NodeMetric>, duration: real, errors: real, p: string)
    requires NE.Shows(ch, NE.Report(Ok(nodes), duration, errors))
    ensures var m := PartitionAt(PartitionTable(Memberships(nodes)), p);
            && (Has(ch, NE.PartCpus, [p]) <==> m.totalCpus > 0.0)
            && (m.totalCpus > 0.0 ==> Read(ch, NE.PartCpus, [p]) == m.totalCpus)
            && (Has(ch, NE.PartCpuLoad, [p]) <==> m.cpuLoad > 0.0)
            && (m.cpuLoad > 0.0 ==> Read(ch, NE.PartCpuLoad, [p]) == m.cpuLoad)
            && (Has(ch, NE.PartFreeMemory, [p]) <==> m.freeMemory > 0.0)
            && (m.freeMemory > 0.0 ==> Read(ch, NE.PartFreeMemory, [p]) == m.freeMemory)
            && (Has(ch, NE.PartIdleCpus, [p]) <==> m.idleCpus > 0.0)
            && (m.idleCpus > 0.0 ==> Read(ch, NE.PartIdleCpus, [p]) == m.idleCpus)
            && (Has(ch, NE.PartRealMemory, [p]) <==> m.realMemory > 0.0)
            && (m.realMemory > 0.0 ==> Read(ch, NE.PartRealMemory, [p]) == m.realMemory)
            && (Has(ch, NE.PartWeight, [p]) <==> m.weight > 0.0)
            && (m.weight > 0.0 ==> Read(ch, NE.PartWeight, [p]) == m.weight)
  {
    var t := NE.Report(Ok(nodes), duration, errors);
    PartitionSample(ch, t, p, NE.PartCpus);
    PartitionSample(ch, t, p, NE.PartCpuLoad);
    PartitionSample(ch, t, p, NE.PartFreeMemory);
    PartitionSample(ch, t, p, NE.PartIdleCpus);
    PartitionSample(ch, t, p, NE.PartRealMemory);
    PartitionSample(ch, t, p, NE.PartWeight);
  }

  lemma PartitionSample(ch: seq<Sample<NE.Desc>>, t: NE.Tables, p: string, d: NE.Desc)
    requires NE.Shows(ch, t) && NE.IsPartValue(d)
    ensures var v := NE.PartValue(PartitionAt(t.partitions, p), d);
            (Has(ch, d, [p]) <==> v > 0.0) && (v > 0.0 ==> Read(ch, d, [p]) == v)
  {
    HasFaithful(ch, NE.Expect(t), d, [p]);
    NE.PartitionValueReadBack(ch, t, p, d);
    assert [p][1..] == [];
  }

  /** Where a sample of a partition and state is and what it says. */
  lemma PartitionStateSamples(ch: seq<Sample<NE.Desc>>, nodes: seq<NodeMetric>, duration: real, errors: real,
                              p: string, s: string)
    requires NE.Shows(ch, NE.Report(Ok(nodes), duration, errors))
    ensures var m := PartitionAt(PartitionTable(Memberships(nodes)), p);
            var cpus, memory, count := Get(m.stateAllocCpus, s), Get(m.stateAllocMemory, s), Get(m.stateNodeCount, s);
            && (Has(ch, NE.PartAllocCpus, [p, s]) <==> cpus > 0.0)
            && (cpus > 0.0 ==> Read(ch, NE.PartAllocCpus, [p, s]) == cpus)
            && (Has(ch, NE.PartAllocMemory, [p, s]) <==> memory > 0.0)
            && (memory > 0.0 ==> Read(ch, NE.PartAllocMemory, [p, s]) == memory)
            && (Has(ch, NE.PartNodeCount, [p, s]) <==> count > 0.0)
            && (count > 0.0 ==> Read(ch, NE.PartNodeCount, [p, s]) == count)
  {
    var t := NE.Report(Ok(nodes), duration, errors);
    PartitionStateSample(ch, t, p, s, NE.PartAllocCpus);
    PartitionStateSample(ch, t, p, s, NE.PartAllocMemory);
    PartitionStateSample(ch, t, p, s, NE.PartNodeCount);
  }

  lemma PartitionStateSample(ch: seq<Sample<NE.Desc>>, t: NE.Tables, p: string, s: string, d: NE.Desc)
    requires NE.Shows(ch, t) && NE.IsPartStates(d)
    ensures var v := Get(NE.PartStates(PartitionAt(t.partitions, p), d), s);
            (Has(ch, d, [p, s]) <==> v > 0.0) && (v > 0.0 ==> Read(ch, d, [p, s]) == v)
  {
    HasFaithful(ch, NE.Expect(t), d, [p, s]);
    NE.PartitionStateReadBack(ch, t, p, s, d);
    assert [p, s][1..] == [s];
  }

  lemma ReportedTotals(nodes: seq<NodeMetric>, duration: real, errors: real)
    ensures var t, cpu, mem := NE.Report(Ok(nodes), duration, errors).totals, CpuSummary(nodes), MemSummary(nodes);
            && t.Keys == (set d: NE.Desc | NE.IsTotal(d))
            && t[NE.TotalCpus] == cpu.total && t[NE.TotalIdleCpus] == cpu.idle && t[NE.TotalCpuLoad] == cpu.load
            && t[NE.TotalRealMemory] == mem.realMemory && t[NE.TotalFreeMemory] == mem.freeMemory
            && t[NE.TotalAllocMemory] == mem.allocMemory
            && t[NE.ScrapeDuration] == duration && t[NE.ScrapeError] == errors
  {}

  lemma TotalSample(ch: seq<Sample<NE.Desc>>, t: NE.Tables, d: NE.Desc, v: real)
    requires NE.Shows(ch, t) && NE.IsTotal(d) && d in t.totals && t.totals[d] == v
    ensures Has(ch, d, []) && Read(ch, d, []) == v
  {
    NE.TotalReadBack(ch, t, d);
    HasFaithful(ch, NE.Expect(t), d, []);
  }

  /** The cluster-wide samples, there whatever their value. */
  lemma ClusterSamples(ch: seq<Sample<NE.Desc>>, nodes: seq<NodeMetric>, duration: real, errors: real)
    requires NE.Shows(ch, NE.Report(Ok(nodes), duration, errors))
    ensures Has(ch, NE.TotalCpus, []) && Read(ch, NE.TotalCpus, []) == Sum(nodes, (n: NodeMetric) => n.cpus)
    ensures Has(ch, NE.TotalIdleCpus, [])
            && Read(ch, NE.TotalIdleCpus, []) == Sum(nodes, (n: NodeMetric) => n.idleCpus)
    ensures Has(ch, NE.TotalCpuLoad, []) && Read(ch, NE.TotalCpuLoad, []) == Sum(nodes, (n: NodeMetric) => n.cpuLoad)
    ensures Has(ch, NE.TotalRealMemory, [])
            && Read(ch, NE.TotalRealMemory, []) == Sum(nodes, (n: NodeMetric) => n.realMemory)
    ensures Has(ch, NE.TotalFreeMemory, [])
            && Read(ch, NE.TotalFreeMemory, []) == Sum(nodes, (n: NodeMetric) => n.freeMemory)
    ensures Has(ch, NE.TotalAllocMemory, [])
            && Read(ch, NE.TotalAllocMemory, []) == Sum(nodes, (n: NodeMetric) => n.allocMemory)
  {
    var t := NE.Report(Ok(nodes), duration, errors);
    ReportedTotals(nodes, duration, errors);
    ClusterFigures(nodes);
    TotalSample(ch, t, NE.TotalCpus, Sum(nodes, (n: NodeMetric) => n.cpus));
    TotalSample(ch, t, NE.TotalIdleCpus, Sum(nodes, (n: NodeMetric) => n.idleCpus));
    TotalSample(ch, t, NE.TotalCpuLoad, Sum(nodes, (n: NodeMetric) => n.cpuLoad));
    TotalSample(ch, t, NE.TotalRealMemory, Sum(nodes, (n: NodeMetric) => n.realMemory));
    TotalSample(ch, t, NE.TotalFreeMemory, Sum(nodes, (n: NodeMetric) => n.freeMemory));
    TotalSample(ch, t, NE.TotalAllocMemory, Sum(nodes, (n: NodeMetric) => n.allocMemory));
  }

  /** The samples per state: those of the states some node is in, whatever their value. */
  lemma ClusterStateSamples(ch: seq<Sample<NE.Desc>>, nodes: seq<NodeMetric>, duration: real, errors: real, s: string)
    requires NE.Shows(ch, NE.Report(Ok(nodes), duration, errors))
    ensures var mine := Filter(nodes, (n: NodeMetric) => n.state == s);
            && Read(ch, NE.CpusPerState, [s]) == Sum(mine, (n: NodeMetric) => n.cpus)
            && Read(ch, NE.NodeCountPerState, [s]) == |mine| as real
    ensures Has(ch, NE.CpusPerState, [s]) <==> exists n :: n in nodes && n.state == s
    ensures Has(ch, NE.NodeCountPerState, [s]) <==> exists n :: n in nodes && n.state == s
  {
    var t := NE.Report(Ok(nodes), duration, errors);
    ClusterStateFigures(nodes, s);
    ReadFaithful(ch, NE.Expect(t), NE.CpusPerState, [s]);
    ReadFaithful(ch, NE.Expect(t), NE.NodeCountPerState, [s]);
    HasFaithful(ch, NE.Expect(t), NE.CpusPerState, [s]);
    HasFaithful(ch, NE.Expect(t), NE.NodeCountPerState, [s]);
  }

  /** Duration and error counter are always there. */
  lemma AlwaysReported(ch: seq<Sample<NE.Desc>>, fetched: Result<seq<NodeMetric>>, duration: real, errors: real)
    requires NE.Shows(ch, NE.Report(fetched, duration, errors))
    ensures Has(ch, NE.ScrapeDuration, []) && Read(ch, NE.ScrapeDuration, []) == duration
    ensures Has(ch, NE.ScrapeError, []) && Read(ch, NE.ScrapeError, []) == errors
  {
    var t := NE.Report(fetched, duration, errors);
    if fetched.Ok? { ReportedTotals(fetched.value, duration, errors); }
    TotalSample(ch, t, NE.ScrapeDuration, duration);
    TotalSample(ch, t, NE.ScrapeError, errors);
  }

  /** After a failed fetch nothing else is. */
  lemma NothingElseOnFailure(ch: seq<Sample<NE.Desc>>, duration: real, errors: real)
    requires NE.Shows(ch, NE.Report(Err, duration, errors))
    ensures forall i :: 0 <= i < |ch| ==> ch[i].desc.ScrapeDuration? || ch[i].desc.ScrapeError?
  {
    var t := NE.Report(Err, duration, errors);
    forall i | 0 <= i < |ch| ensures ch[i].desc.ScrapeDuration? || ch[i].desc.ScrapeError? {
      assert NE.Expect(t)(ch[i].desc, ch[i].labels).Some?;
    }
  }
}
