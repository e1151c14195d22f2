/** `NodesCollector.Collect`: from the node summaries to samples. */
module NodeEmission {
  import opened Prelude
  import opened Sums
  import opened Samples
  import opened NodeMetrics

  datatype Desc =
    | ScrapeDuration | ScrapeError
    | PartAllocCpus | PartAllocMemory | PartNodeCount
    | PartCpus | PartCpuLoad | PartFreeMemory | PartIdleCpus | PartRealMemory | PartWeight
    | TotalCpus | TotalIdleCpus | TotalCpuLoad
    | CpusPerState | NodeCountPerState
    | TotalRealMemory | TotalFreeMemory | TotalAllocMemory

  /** Everything one collection reports; `totals` holds the cluster-wide single values. */
  datatype Tables = Tables(
    partitions: map<string, PartitionMetric>,
    perState: map<string, PerStateMetric>,
    totals: map<Desc, real>)

  const NOTHING := Tables(map[], map[], map[])

  /** The single values of a partition, by descriptor. */
  function PartValue(m: PartitionMetric, d: Desc): real {
    match d
    case PartCpus => m.totalCpus
    case PartCpuLoad => m.cpuLoad
    case PartFreeMemory => m.freeMemory
    case PartIdleCpus => m.idleCpus
    case PartRealMemory => m.realMemory
    case PartWeight => m.weight
    case _ => 0.0
  }

  /** The per-state maps of a partition, by descriptor. */
  function PartStates(m: PartitionMetric, d: Desc): map<string, real> {
    match d
    case PartAllocCpus => m.stateAllocCpus
    case PartAllocMemory => m.stateAllocMemory
    case PartNodeCount => m.stateNodeCount
    case _ => map[]
  }

  predicate IsPartValue(d: Desc) {
    d.PartCpus? || d.PartCpuLoad? || d.PartFreeMemory? || d.PartIdleCpus? || d.PartRealMemory? || d.PartWeight?
  }

  predicate IsPartStates(d: Desc) { d.PartAllocCpus? || d.PartAllocMemory? || d.PartNodeCount? }

  /** What a partition's record calls for under the labels after the partition name. */
  function PartAt(m: PartitionMetric, d: Desc, rest: seq<string>): Option<real> {
    if IsPartValue(d) then (if rest == [] then IfPositive(PartValue(m, d)) else None)
    else if |rest| == 1 then Positive(PartStates(m, d), rest[0])
    else None
  }

  function StateAt(m: PerStateMetric, d: Desc): real { if d.CpusPerState? then m.cpus else m.count }

  /** The value a table calls for under a descriptor and labels. */
  function ExpectAt(t: Tables, d: Desc, l: seq<string>): Option<real> {
    if IsPartValue(d) || IsPartStates(d) then
      if |l| > 0 && l[0] in t.partitions then PartAt(t.partitions[l[0]], d, l[1..]) else None
    else if d.CpusPerState? || d.NodeCountPerState? then
      if |l| == 1 && l[0] in t.perState then Some(StateAt(t.perState[l[0]], d)) else None
    else if l == [] && d in t.totals then Some(t.totals[d])
    else None
  }

  function Expect(t: Tables): (Desc, seq<string>) -> Option<real> { (d: Desc, l: seq<string>) => ExpectAt(t, d, l) }

  /** `samples` reports exactly table `t`, each entry once. */
  ghost predicate Shows(samples: seq<Sample<Desc>>, t: Tables) { Faithful(samples, Expect(t)) }

  /** Tables with no entry in common, put together. */
  ghost predicate Together(a: Tables, b: Tables, both: Tables) {
    forall d: Desc, l ::
      && (ExpectAt(a, d, l).Some? ==> ExpectAt(b, d, l).None?)
      && ExpectAt(both, d, l) == if ExpectAt(a, d, l).Some? then ExpectAt(a, d, l) else ExpectAt(b, d, l)
  }

  lemma ShowsTogether(a: seq<Sample<Desc>>, s: Tables, b: seq<Sample<Desc>>, t: Tables, both: Tables)
    requires Shows(a, s) && Shows(b, t) && Together(s, t, both)
    ensures Shows(a + b, both)
  {
    forall d: Desc, l ensures Expect(s)(d, l) == ExpectAt(s, d, l) && Expect(t)(d, l) == ExpectAt(t, d, l)
                              && Expect(both)(d, l) == ExpectAt(both, d, l) {}
    FaithfulUnion(a, Expect(s), b, Expect(t), Expect(both));
  }

  /** Two tables without a common key, put together column by column. */
  ghost predicate Joined(a: Tables, b: Tables, both: Tables) {
    && JoinedMaps(a.partitions, b.partitions, both.partitions) && JoinedMaps(a.perState, b.perState, both.perState)
    && JoinedMaps(a.totals, b.totals, both.totals)
  }

  lemma JoinedAt(s: Tables, t: Tables, both: Tables, d: Desc, l: seq<string>)
    requires Joined(s, t, both)
    ensures ExpectAt(s, d, l).Some? ==> ExpectAt(t, d, l).None?
    ensures ExpectAt(both, d, l) == if ExpectAt(s, d, l).Some? then ExpectAt(s, d, l) else ExpectAt(t, d, l)
  {}

  lemma ShowsJoined(a: seq<Sample<Desc>>, s: Tables, b: seq<Sample<Desc>>, t: Tables, both: Tables)
    requires Shows(a, s) && Shows(b, t) && Joined(s, t, both)
    ensures Shows(a + b, both)
  {
    forall d: Desc, l
      ensures ExpectAt(s, d, l).Some? ==> ExpectAt(t, d, l).None?
      ensures ExpectAt(both, d, l) == if ExpectAt(s, d, l).Some? then ExpectAt(s, d, l) else ExpectAt(t, d, l)
    {
      JoinedAt(s, t, both, d, l);
    }
    ShowsTogether(a, s, b, t, both);
  }

  lemma ShowsNothing()
    ensures Shows([], NOTHING)
  {
    FaithfulEmpty(Expect(NOTHING));
  }

  lemma ShowsOne(d0: Desc, l0: seq<string>, v: real, t: Tables)
    requires forall d: Desc, l :: ExpectAt(t, d, l) == if d == d0 && l == l0 then Some(v) else None
    ensures Shows([Sample(d0, l0, v)], t)
  {
    FaithfulOne(d0, l0, v, Expect(t));
  }

  // ---------- one partition ----------

  function OnePartition(p: string, m: PartitionMetric): Tables { NOTHING.(partitions := map[p := m]) }

  /** Two partial records of a partition that fill different fields of `both`. */
  ghost predicate Parts(a: PartitionMetric, b: PartitionMetric, both: PartitionMetric) {
    forall d: Desc, rest: seq<string> ::
      && (PartAt(a, d, rest).Some? ==> PartAt(b, d, rest).None?)
      && PartAt(both, d, rest) == if PartAt(a, d, rest).Some? then PartAt(a, d, rest) else PartAt(b, d, rest)
  }

  lemma PartsTogether(p: string, a: PartitionMetric, b: PartitionMetric, both: PartitionMetric)
    requires Parts(a, b, both)
    ensures Together(OnePartition(p, a), OnePartition(p, b), OnePartition(p, both))
  {}

  /** A record that has only the states of `d`. */
  function OnlyStates(m: PartitionMetric, d: Desc): PartitionMetric
    requires IsPartStates(d)
  {
    match d
    case PartAllocCpus => EMPTY_PARTITION.(stateAllocCpus := m.stateAllocCpus)
    case PartAllocMemory => EMPTY_PARTITION.(stateAllocMemory := m.stateAllocMemory)
    case _ => EMPTY_PARTITION.(stateNodeCount := m.stateNodeCount)
  }

  /** A record that has only the value of `d`. */
  function OnlyValue(m: PartitionMetric, d: Desc): PartitionMetric
    requires IsPartValue(d)
  {
    match d
    case PartCpus => EMPTY_PARTITION.(totalCpus := m.totalCpus)
    case PartCpuLoad => EMPTY_PARTITION.(cpuLoad := m.cpuLoad)
    case PartFreeMemory => EMPTY_PARTITION.(freeMemory := m.freeMemory)
    case PartIdleCpus => EMPTY_PARTITION.(idleCpus := m.idleCpus)
    case PartRealMemory => EMPTY_PARTITION.(realMemory := m.realMemory)
    case _ => EMPTY_PARTITION.(weight := m.weight)
  }

  lemma StatesShow(out: seq<Sample<Desc>>, p: string, m: PartitionMetric, d0: Desc)
    requires IsPartStates(d0) && Faithful(out, StateFamily(d0, p, PartStates(m, d0)))
    ensures Shows(out, OnePartition(p, OnlyStates(m, d0)))
  {
    var t := OnePartition(p, OnlyStates(m, d0));
    forall d: Desc, l ensures StateFamily(d0, p, PartStates(m, d0))(d, l) == Expect(t)(d, l) {
      StatesExpected(p, m, d0, d, l);
    }
    FaithfulSame(out, StateFamily(d0, p, PartStates(m, d0)), Expect(t));
  }

  lemma StatesExpected(p: string, m: PartitionMetric, d0: Desc, d: Desc, l: seq<string>)
    requires IsPartStates(d0)
    ensures StateFamilyAt(d0, p, PartStates(m, d0), d, l) == ExpectAt(OnePartition(p, OnlyStates(m, d0)), d, l)
  {}

  method EmitIfPositive(p: string, d: Desc, m: PartitionMetric) returns (out: seq<Sample<Desc>>)
    requires IsPartValue(d)
    ensures Shows(out, OnePartition(p, OnlyValue(m, d)))
  {
    ghost var t := OnePartition(p, OnlyValue(m, d));
    forall e: Desc, l ensures ExpectAt(t, e, l) == if e == d && l == [p] then IfPositive(PartValue(m, d)) else None {
      ValueExpected(p, m, d, e, l);
    }
    if PartValue(m, d) > 0.0 {
      out := [Sample(d, [p], PartValue(m, d))];
      ShowsOne(d, [p], PartValue(m, d), t);
    } else {
      out := [];
      FaithfulEmpty(Expect(t));
    }
  }

  lemma ValueExpected(p: string, m: PartitionMetric, d: Desc, e: Desc, l: seq<string>)
    requires IsPartValue(d)
    ensures ExpectAt(OnePartition(p, OnlyValue(m, d)), e, l) ==
            if e == d && l == [p] then IfPositive(PartValue(m, d)) else None
  {
    if |l| > 0 && l[1..] == [] { assert l == [l[0]]; }
  }

  /** One more field of a partition. */
  lemma AddPart(a: seq<Sample<Desc>>, p: string, s: PartitionMetric,
                b: seq<Sample<Desc>>, t: PartitionMetric, both: PartitionMetric)
    requires Shows(a, OnePartition(p, s)) && Shows(b, OnePartition(p, t)) && Parts(s, t, both)
    ensures Shows(a + b, OnePartition(p, both))
  {
    PartsTogether(p, s, t, both);
    ShowsTogether(a, OnePartition(p, s), b, OnePartition(p, t), OnePartition(p, both));
  }

  lemma TwoStateParts(m: PartitionMetric)
    ensures Parts(OnlyStates(m, PartAllocCpus), OnlyStates(m, PartAllocMemory),
                  EMPTY_PARTITION.(stateAllocCpus := m.stateAllocCpus, stateAllocMemory := m.stateAllocMemory))
  {}

  lemma AllStateParts(m: PartitionMetric)
    ensures Parts(EMPTY_PARTITION.(stateAllocCpus := m.stateAllocCpus, stateAllocMemory := m.stateAllocMemory),
                  OnlyStates(m, PartNodeCount), AllStates(m))
  {}

  function AllStates(m: PartitionMetric): PartitionMetric {
    EMPTY_PARTITION.(stateAllocCpus := m.stateAllocCpus, stateAllocMemory := m.stateAllocMemory,
                     stateNodeCount := m.stateNodeCount)
  }

  method EmitPartitionStates(p: string, m: PartitionMetric) returns (out: seq<Sample<Desc>>)
    ensures Shows(out, OnePartition(p, AllStates(m)))
  {
    var cpus := EmitPositive(PartAllocCpus, p, m.stateAllocCpus);
    var memory := EmitPositive(PartAllocMemory, p, m.stateAllocMemory);
    var count := EmitPositive(PartNodeCount, p, m.stateNodeCount);
    StatesShow(cpus, p, m, PartAllocCpus);
    StatesShow(memory, p, m, PartAllocMemory);
    StatesShow(count, p, m, PartNodeCount);
    TwoStateParts(m);
    AllStateParts(m);
    ghost var two := EMPTY_PARTITION.(stateAllocCpus := m.stateAllocCpus, stateAllocMemory := m.stateAllocMemory);
    AddPart(cpus, p, OnlyStates(m, PartAllocCpus), memory, OnlyStates(m, PartAllocMemory), two);
    AddPart(cpus + memory, p, two, count, OnlyStates(m, PartNodeCount), AllStates(m));
    out := cpus + memory + count;
  }

  /** A record with the value of one more descriptor filled in. */
  function With(m: PartitionMetric, d: Desc, v: real): PartitionMetric
    requires IsPartValue(d)
  {
    match d
    case PartCpus => m.(totalCpus := v)
    case PartCpuLoad => m.(cpuLoad := v)
    case PartFreeMemory => m.(freeMemory := v)
    case PartIdleCpus => m.(idleCpus := v)
    case PartRealMemory => m.(realMemory := v)
    case _ => m.(weight := v)
  }

  lemma PartsWith(done: PartitionMetric, m: PartitionMetric, d: Desc)
    requires IsPartValue(d) && PartValue(done, d) == 0.0
    ensures Parts(done, OnlyValue(m, d), With(done, d, PartValue(m, d)))
  {}

  method AddValue(before: seq<Sample<Desc>>, p: string, ghost done: PartitionMetric, d: Desc, m: PartitionMetric)
    returns (out: seq<Sample<Desc>>)
    requires IsPartValue(d) && PartValue(done, d) == 0.0 && Shows(before, OnePartition(p, done))
    ensures Shows(out, OnePartition(p, With(done, d, PartValue(m, d))))
  {
    var next := EmitIfPositive(p, d, m);
    PartsWith(done, m, d);
    AddPart(before, p, done, next, OnlyValue(m, d), With(done, d, PartValue(m, d)));
    out := before + next;
  }

  method EmitPartition(p: string, m: PartitionMetric) returns (out: seq<Sample<Desc>>)
    ensures Shows(out, OnePartition(p, m))
  {
    out := EmitPartitionStates(p, m);
    ghost var m0 := AllStates(m);
    ghost var m1 := m0.(totalCpus := m.totalCpus);
    ghost var m2 := m1.(cpuLoad := m.cpuLoad);
    ghost var m3 := m2.(freeMemory := m.freeMemory);
    ghost var m4 := m3.(idleCpus := m.idleCpus);
    ghost var m5 := m4.(realMemory := m.realMemory);
    out := AddValue(out, p, m0, PartCpus, m);
    out := AddValue(out, p, m1, PartCpuLoad, m);
    out := AddValue(out, p, m2, PartFreeMemory, m);
    out := AddValue(out, p, m3, PartIdleCpus, m);
    out := AddValue(out, p, m4, PartRealMemory, m);
    out := AddValue(out, p, m5, PartWeight, m);
  }

  // ---------- whole tables ----------

  method EmitPartitions(t: map<string, PartitionMetric>) returns (out: seq<Sample<Desc>>)
    ensures Shows(out, NOTHING.(partitions := t))
  {
    out := [];
    ghost var done: map<string, PartitionMetric> := map[];
    ShowsNothing();
    var left := t.Keys;
    while left != {}
      invariant left <= t.Keys && done.Keys == t.Keys - left && forall p :: p in done ==> done[p] == t[p]
      invariant Shows(out, NOTHING.(partitions := done))
      decreases left
    {
      var partition := Pick(left);
      left := left - {partition};
      var next := EmitPartition(partition, t[partition]);
      ShowsJoined(out, NOTHING.(partitions := done), next, OnePartition(partition, t[partition]),
                  NOTHING.(partitions := done[partition := t[partition]]));
      done := done[partition := t[partition]];
      out := out + next;
    }
    assert done == t;
  }

  /** The two samples of one state. */
  lemma ShowsState(s: string, m: PerStateMetric)
    ensures Shows([Sample(CpusPerState, [s], m.cpus), Sample(NodeCountPerState, [s], m.count)],
                  NOTHING.(perState := map[s := m]))
  {
    var out, t := [Sample(CpusPerState, [s], m.cpus), Sample(NodeCountPerState, [s], m.count)],
                  NOTHING.(perState := map[s := m]);
    forall d: Desc, l | Expect(t)(d, l).Some? ensures Has(out, d, l) {
      assert l == [l[0]];
      assert out[0].desc == CpusPerState && out[1].desc == NodeCountPerState;
    }
  }

  method EmitStates(t: map<string, PerStateMetric>) returns (out: seq<Sample<Desc>>)
    ensures Shows(out, NOTHING.(perState := t))
  {
    out := [];
    ghost var done: map<string, PerStateMetric> := map[];
    ShowsNothing();
    var left := t.Keys;
    while left != {}
      invariant left <= t.Keys && done.Keys == t.Keys - left && forall s :: s in done ==> done[s] == t[s]
      invariant Shows(out, NOTHING.(perState := done))
      decreases left
    {
      var state := Pick(left);
      left := left - {state};
      var next := [Sample(CpusPerState, [state], t[state].cpus), Sample(NodeCountPerState, [state], t[state].count)];
      ShowsState(state, t[state]);
      ShowsJoined(out, NOTHING.(perState := done), next, NOTHING.(perState := map[state := t[state]]),
                  NOTHING.(perState := done[state := t[state]]));
      done := done[state := t[state]];
      out := out + next;
    }
    assert done == t;
  }

  predicate IsTotal(d: Desc) { !IsPartValue(d) && !IsPartStates(d) && !d.CpusPerState? && !d.NodeCountPerState? }

  lemma AddTotal(ch: seq<Sample<Desc>>, t: Tables, d: Desc, v: real)
    requires Shows(ch, t) && IsTotal(d) && d !in t.totals
    ensures Shows(ch + [Sample(d, [], v)], t.(totals := t.totals[d := v]))
  {
    var one := NOTHING.(totals := map[d := v]);
    ShowsOne(d, [], v, one);
    ShowsJoined(ch, t, [Sample(d, [], v)], one, t.(totals := t.totals[d := v]));
  }

  function CpuTotals(duration: real, cpu: CpuSummaryMetric): map<Desc, real> {
    map[ScrapeDuration := duration][TotalCpus := cpu.total][TotalIdleCpus := cpu.idle][TotalCpuLoad := cpu.load]
  }

  /** The single values of a successful collection, before the error counter. */
  function Totals(duration: real, cpu: CpuSummaryMetric, mem: MemSummaryMetric): map<Desc, real> {
    CpuTotals(duration, cpu)[TotalRealMemory := mem.realMemory][TotalFreeMemory := mem.freeMemory]
      [TotalAllocMemory := mem.allocMemory]
  }

  /** What one collection should report. */
  ghost function Report(fetched: Result<seq<NodeMetric>>, duration: real, errors: real): Tables {
    match fetched
    case Err => NOTHING.(totals := map[ScrapeDuration := duration, ScrapeError := errors])
    case Ok(nodes) =>
      var cpu, mem := CpuSummary(nodes), MemSummary(nodes);
      Tables(PartitionTable(Memberships(nodes)), cpu.perState,
             Totals(duration, cpu, mem)[ScrapeError := errors])
  }

  /** One collection: `fetched` is what the fetcher answers, `errors` its error counter at the end. */
  method Collect(fetched: Result<seq<NodeMetric>>, duration: real, errors: real) returns (ch: seq<Sample<Desc>>)
    ensures Shows(ch, Report(fetched, duration, errors))
  {
    ShowsNothing();
    AddTotal([], NOTHING, ScrapeDuration, duration);
    ch := [] + [Sample(ScrapeDuration, [], duration)];
    ghost var t := NOTHING.(totals := map[ScrapeDuration := duration]);
    if fetched.Ok? {
      ch, t := CollectTables(ch, fetched.value, t, duration);
    }
    AddTotal(ch, t, ScrapeError, errors);
    ch := ch + [Sample(ScrapeError, [], errors)];
  }

  method CollectTables(before: seq<Sample<Desc>>, nodeMetrics: seq<NodeMetric>,
                       ghost start: Tables, ghost duration: real)
    returns (ch: seq<Sample<Desc>>, ghost t: Tables)
    requires Shows(before, start) && start == NOTHING.(totals := map[ScrapeDuration := duration])
    ensures Shows(ch, t)
    ensures var cpu, mem := CpuSummary(nodeMetrics), MemSummary(nodeMetrics);
            t == Tables(PartitionTable(Memberships(nodeMetrics)), cpu.perState, Totals(duration, cpu, mem))
  {
    var partitionMetrics := FetchNodePartitionMetrics(nodeMetrics);
    var out := EmitPartitions(partitionMetrics);
    ShowsJoined(before, start, out, NOTHING.(partitions := partitionMetrics), start.(partitions := partitionMetrics));
    ch, t := before + out, start.(partitions := partitionMetrics);
    ch, t := CollectCpu(ch, nodeMetrics, t, duration);
    var mem := FetchNodeTotalMemMetrics(nodeMetrics);
    ch, t := EmitTotals(ch, t, TotalRealMemory, mem.realMemory, TotalFreeMemory, mem.freeMemory,
                        TotalAllocMemory, mem.allocMemory);
  }

  method CollectCpu(before: seq<Sample<Desc>>, nodeMetrics: seq<NodeMetric>, ghost start: Tables, ghost duration: real)
    returns (ch: seq<Sample<Desc>>, ghost t: Tables)
    requires Shows(before, start) && start.perState == map[] && start.totals == map[ScrapeDuration := duration]
    ensures Shows(ch, t)
    ensures t == start.(perState := CpuSummary(nodeMetrics).perState,
                        totals := CpuTotals(duration, CpuSummary(nodeMetrics)))
  {
    var cpu := FetchNodeTotalCpuMetrics(nodeMetrics);
    ch, t := EmitTotals(before, start, TotalCpus, cpu.total, TotalIdleCpus, cpu.idle, TotalCpuLoad, cpu.load);
    var out := EmitStates(cpu.perState);
    ShowsJoined(ch, t, out, NOTHING.(perState := cpu.perState), t.(perState := cpu.perState));
    ch, t := ch + out, t.(perState := cpu.perState);
  }

  /** Three cluster-wide values, emitted whatever they are. */
  method EmitTotals(before: seq<Sample<Desc>>, ghost start: Tables,
                    d0: Desc, v0: real, d1: Desc, v1: real, d2: Desc, v2: real)
    returns (ch: seq<Sample<Desc>>, ghost t: Tables)
    requires Shows(before, start) && IsTotal(d0) && IsTotal(d1) && IsTotal(d2)
    requires d0 !in start.totals && d1 !in start.totals && d2 !in start.totals
    requires d0 != d1 && d0 != d2 && d1 != d2
    ensures Shows(ch, t)
    ensures t == start.(totals := start.totals[d0 := v0][d1 := v1][d2 := v2])
  {
    AddTotal(before, start, d0, v0);
    ch, t := before + [Sample(d0, [], v0)], start.(totals := start.totals[d0 := v0]);
    AddTotal(ch, t, d1, v1);
    ch, t := ch + [Sample(d1, [], v1)], t.(totals := t.totals[d1 := v1]);
    AddTotal(ch, t, d2, v2);
    ch, t := ch + [Sample(d2, [], v2)], t.(totals := t.totals[d2 := v2]);
  }

  // ---------- lossless ----------

  /** A partition's single values read back, absent samples as 0, exactly when not negative. */
  lemma PartitionValueReadBack(ch: seq<Sample<Desc>>, t: Tables, p: string, d: Desc)
    requires Shows(ch, t) && IsPartValue(d)
    ensures var v := PartValue(PartitionAt(t.partitions, p), d);
            Read(ch, d, [p]) == v <==> v >= 0.0
  {
    ReadFaithful(ch, Expect(t), d, [p]);
    assert [p][1..] == [];
  }

  /** So do its per-state maps. */
  lemma PartitionStateReadBack(ch: seq<Sample<Desc>>, t: Tables, p: string, s: string, d: Desc)
    requires Shows(ch, t) && IsPartStates(d)
    ensures var v := Get(PartStates(PartitionAt(t.partitions, p), d), s);
            Read(ch, d, [p, s]) == v <==> v >= 0.0
  {
    ReadFaithful(ch, Expect(t), d, [p, s]);
    assert [p, s][1..] == [s];
  }

  /** The node figure that a partition sample adds up. */
  function Figure(d: Desc): NodeMetric -> real
    requires IsPartValue(d) || IsPartStates(d)
  {
    match d
    case PartCpus => Cpus
    case PartCpuLoad => CpuLoad
    case PartFreeMemory => FreeMemory
    case PartIdleCpus => IdleCpus
    case PartRealMemory => RealMemory
    case PartWeight => Weight
    case PartAllocCpus => AllocCpus
    case PartAllocMemory => AllocMemory
    case _ => One
  }

  /** What the partition table holds under a descriptor, as sums over the mentions of a partition. */
  lemma FigureSums(nodes: seq<NodeMetric>, p: string, d: Desc)
    ensures var mine, m := Mentions(Memberships(nodes), p), PartitionAt(PartitionTable(Memberships(nodes)), p);
            && (IsPartValue(d) ==> PartValue(m, d) == Sum(mine, Member(Figure(d))))
            && (IsPartStates(d) ==> PartStates(m, d) == ByKey(mine, MemberState, Member(Figure(d))))
  {
    PartitionAtIsSummary(Memberships(nodes), p);
  }

  /** A scrape of nodes whose figure for `d` is nowhere negative determines the figure of every
      partition, or of every partition and state. */
  lemma LosslessPartitions(ch: seq<Sample<Desc>>, nodes: seq<NodeMetric>, duration: real, errors: real,
                           p: string, s: string, d: Desc)
    requires Shows(ch, Report(Ok(nodes), duration, errors)) && (IsPartValue(d) || IsPartStates(d))
    requires forall n :: n in nodes ==> Figure(d)(n) >= 0.0
    ensures var m := PartitionAt(PartitionTable(Memberships(nodes)), p);
            && (IsPartValue(d) ==> Read(ch, d, [p]) == PartValue(m, d))
            && (IsPartStates(d) ==> Read(ch, d, [p, s]) == Get(PartStates(m, d), s))
  {
    FigureSums(nodes, p, d);
    PartitionSumsNonNegative(nodes, p, s, Figure(d));
    var t := Report(Ok(nodes), duration, errors);
    if IsPartValue(d) { PartitionValueReadBack(ch, t, p, d); } else { PartitionStateReadBack(ch, t, p, s, d); }
  }

  /** The cluster-wide single values always read back. */
  lemma TotalReadBack(ch: seq<Sample<Desc>>, t: Tables, d: Desc)
    requires Shows(ch, t) && IsTotal(d) && d in t.totals
    ensures Read(ch, d, []) == t.totals[d]
  {
    ReadFaithful(ch, Expect(t), d, []);
  }

  /** Every state's node count and cpus read back, 0 for a state no node is in. */
  lemma StateReadBack(ch: seq<Sample<Desc>>, nodes: seq<NodeMetric>, t: Tables, s: string)
    requires Shows(ch, t) && t.perState == StateTable(nodes)
    ensures Read(ch, NodeCountPerState, [s]) == |Filter(nodes, Having(StateOf, s))| as real
    ensures Read(ch, CpusPerState, [s]) == Sum(Filter(nodes, Having(StateOf, s)), Cpus)
  {
    ReadFaithful(ch, Expect(t), NodeCountPerState, [s]);
    ReadFaithful(ch, Expect(t), CpusPerState, [s]);
    StateEntry(nodes, s);
  }

  lemma StateEntry(nodes: seq<NodeMetric>, s: string)
    ensures var m := if s in StateTable(nodes) then StateTable(nodes)[s] else PerStateMetric(0.0, 0.0);
            m == PerStateMetric(Sum(Filter(nodes, Having(StateOf, s)), Cpus),
                                |Filter(nodes, Having(StateOf, s))| as real)
  {
    SumOfOnes(Filter(nodes, Having(StateOf, s)));
    if s !in KeySet(nodes, StateOf) { FilterAbsent(nodes, StateOf, s); }
  }
}
