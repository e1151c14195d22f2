/** Node records and the three summaries the node collector builds from them.  `float64` sums are
    exact reals here. */
module NodeMetrics {
  import opened Sums

  datatype NodeMetric = NodeMetric(
    hostname: string,
    cpus: real,
    realMemory: real,
    freeMemory: real,
    partitions: seq<string>,
    state: string,
    allocMemory: real,
    allocCpus: real,
    idleCpus: real,
    weight: real,
    cpuLoad: real)

  datatype PartitionMetric = PartitionMetric(
    totalCpus: real,
    realMemory: real,
    freeMemory: real,
    stateAllocMemory: map<string, real>,
    stateAllocCpus: map<string, real>,
    stateNodeCount: map<string, real>,
    cpuLoad: real,
    idleCpus: real,
    weight: real)

  datatype PerStateMetric = PerStateMetric(cpus: real, count: real)

  datatype CpuSummaryMetric = CpuSummaryMetric(
    total: real, idle: real, load: real, perState: map<string, PerStateMetric>)

  datatype MemSummaryMetric = MemSummaryMetric(allocMemory: real, freeMemory: real, realMemory: real)

  // ---------- weights of a node ----------

  function Cpus(n: NodeMetric): real { n.cpus }
  function RealMemory(n: NodeMetric): real { n.realMemory }
  function FreeMemory(n: NodeMetric): real { n.freeMemory }
  function AllocMemory(n: NodeMetric): real { n.allocMemory }
  function AllocCpus(n: NodeMetric): real { n.allocCpus }
  function IdleCpus(n: NodeMetric): real { n.idleCpus }
  function Weight(n: NodeMetric): real { n.weight }
  function CpuLoad(n: NodeMetric): real { n.cpuLoad }
  function StateOf(n: NodeMetric): string { n.state }

  // ---------- partitions ----------

  /** One mention of a partition by a node. */
  datatype Membership = Membership(node: NodeMetric, partition: string)

  function MembershipsUpTo(n: NodeMetric, k: nat): seq<Membership>
    requires k <= |n.partitions|
  {
    seq(k, i requires 0 <= i < k => Membership(n, n.partitions[i]))
  }

  function MembershipsOf(n: NodeMetric): seq<Membership> { MembershipsUpTo(n, |n.partitions|) }

  function Memberships(nodes: seq<NodeMetric>): seq<Membership> { Flat(nodes, MembershipsOf) }

  function PartitionOf(m: Membership): string { m.partition }
  function MemberState(m: Membership): string { m.node.state }
  function Member(w: NodeMetric -> real): Membership -> real { (m: Membership) => w(m.node) }

  /** The mentions of partition `p`. */
  function Mentions(ms: seq<Membership>, p: string): seq<Membership> { Filter(ms, Having(PartitionOf, p)) }

  /** The summary of the nodes that mention one partition. */
  ghost function Summarise(mine: seq<Membership>): PartitionMetric {
    PartitionMetric(
      Sum(mine, Member(Cpus)), Sum(mine, Member(RealMemory)), Sum(mine, Member(FreeMemory)),
      ByKey(mine, MemberState, Member(AllocMemory)),
      ByKey(mine, MemberState, Member(AllocCpus)),
      ByKey(mine, MemberState, Member(One)),
      Sum(mine, Member(CpuLoad)), Sum(mine, Member(IdleCpus)), Sum(mine, Member(Weight)))
  }

  ghost function PartitionTable(ms: seq<Membership>): map<string, PartitionMetric> {
    Group(ms, PartitionOf, Summarise)
  }

  const EMPTY_PARTITION := PartitionMetric(0.0, 0.0, 0.0, map[], map[], map[], 0.0, 0.0, 0.0)

  /** What one iteration of the inner loop adds. */
  function AddNode(m: PartitionMetric, node: NodeMetric): PartitionMetric {
    m.(stateAllocCpus := Bump(m.stateAllocCpus, node.state, node.allocCpus),
       stateAllocMemory := Bump(m.stateAllocMemory, node.state, node.allocMemory),
       stateNodeCount := Bump(m.stateNodeCount, node.state, 1.0),
       totalCpus := m.totalCpus + node.cpus,
       cpuLoad := m.cpuLoad + node.cpuLoad,
       freeMemory := m.freeMemory + node.freeMemory,
       idleCpus := m.idleCpus + node.idleCpus,
       realMemory := m.realMemory + node.realMemory,
       weight := m.weight + node.weight)
  }

  lemma MemberSumSnoc(mine: seq<Membership>, m: Membership, w: NodeMetric -> real, v: real)
    requires v == w(m.node)
    ensures Sum(mine + [m], Member(w)) == Sum(mine, Member(w)) + v
  {
    SumSnoc(mine, m, Member(w));
  }

  lemma MemberTallySnoc(mine: seq<Membership>, m: Membership, w: NodeMetric -> real, v: real)
    requires v == w(m.node)
    ensures ByKey(mine + [m], MemberState, Member(w)) == Bump(ByKey(mine, MemberState, Member(w)), m.node.state, v)
  {
    ByKeySnoc(mine, m, MemberState, Member(w));
  }

  lemma SummariseSnoc(mine: seq<Membership>, m: Membership)
    ensures Summarise(mine + [m]) == AddNode(Summarise(mine), m.node)
  {
    var n := m.node;
    MemberSumSnoc(mine, m, Cpus, n.cpus);
    MemberSumSnoc(mine, m, RealMemory, n.realMemory);
    MemberSumSnoc(mine, m, FreeMemory, n.freeMemory);
    MemberSumSnoc(mine, m, CpuLoad, n.cpuLoad);
    MemberSumSnoc(mine, m, IdleCpus, n.idleCpus);
    MemberSumSnoc(mine, m, Weight, n.weight);
    MemberTallySnoc(mine, m, AllocMemory, n.allocMemory);
    MemberTallySnoc(mine, m, AllocCpus, n.allocCpus);
    MemberTallySnoc(mine, m, One, 1.0);
    OneNodeMore(Summarise(mine), Summarise(mine + [m]), n);
  }

  lemma OneNodeMore(a: PartitionMetric, b: PartitionMetric, n: NodeMetric)
    requires b.totalCpus == a.totalCpus + n.cpus
    requires b.realMemory == a.realMemory + n.realMemory
    requires b.freeMemory == a.freeMemory + n.freeMemory
    requires b.cpuLoad == a.cpuLoad + n.cpuLoad
    requires b.idleCpus == a.idleCpus + n.idleCpus
    requires b.weight == a.weight + n.weight
    requires b.stateAllocMemory == Bump(a.stateAllocMemory, n.state, n.allocMemory)
    requires b.stateAllocCpus == Bump(a.stateAllocCpus, n.state, n.allocCpus)
    requires b.stateNodeCount == Bump(a.stateNodeCount, n.state, 1.0)
    ensures b == AddNode(a, n)
  {}

  lemma SummariseEmpty()
    ensures Summarise([]) == EMPTY_PARTITION
  {
    assert KeySet([], MemberState) == {};
    assert ByKey([], MemberState, Member(AllocMemory)) == map[];
    assert ByKey([], MemberState, Member(AllocCpus)) == map[];
    assert ByKey([], MemberState, Member(One)) == map[];
  }

  function PartitionAt(t: map<string, PartitionMetric>, p: string): PartitionMetric {
    if p in t then t[p] else EMPTY_PARTITION
  }

  lemma PartitionTableSnoc(ms: seq<Membership>, m: Membership)
    ensures PartitionTable(ms + [m]) ==
            PartitionTable(ms)[m.partition := AddNode(PartitionAt(PartitionTable(ms), m.partition), m.node)]
  {
    GroupSnoc(ms, m, PartitionOf, Summarise);
    SummariseSnoc(Mentions(ms, m.partition), m);
    if m.partition !in PartitionTable(ms) { SummariseEmpty(); }
  }

  lemma NoMembership(before: seq<Membership>, n: NodeMetric)
    ensures before + MembershipsUpTo(n, 0) == before
  {}

  lemma NextMembership(before: seq<Membership>, n: NodeMetric, j: nat)
    requires j < |n.partitions|
    ensures before + MembershipsUpTo(n, j + 1) == before + MembershipsUpTo(n, j) + [Membership(n, n.partitions[j])]
  {}

  /** The inner loop: one node's partitions.  The source updates the map entry in place, field by
      field; here the record is replaced as a whole. */
  method AddToPartitions(before: map<string, PartitionMetric>, node: NodeMetric, ghost ms: seq<Membership>)
    returns (partitions: map<string, PartitionMetric>)
    requires before == PartitionTable(ms)
    ensures partitions == PartitionTable(ms + MembershipsOf(node))
  {
    partitions := before;
    NoMembership(ms, node);
    for j := 0 to |node.partitions|
      invariant partitions == PartitionTable(ms + MembershipsUpTo(node, j))
    {
      var p := node.partitions[j];
      PartitionTableSnoc(ms + MembershipsUpTo(node, j), Membership(node, p));
      NextMembership(ms, node, j);
      partitions := partitions[p := AddNode(PartitionAt(partitions, p), node)];
    }
  }

  method FetchNodePartitionMetrics(nodes: seq<NodeMetric>) returns (partitions: map<string, PartitionMetric>)
    ensures partitions == PartitionTable(Memberships(nodes))
  {
    partitions := map[];
    for i := 0 to |nodes|
      invariant partitions == PartitionTable(Memberships(nodes[..i]))
    {
      partitions := AddToPartitions(partitions, nodes[i], Memberships(nodes[..i]));
      NextPrefix(nodes, i);
      FlatSnoc(nodes[..i], nodes[i], MembershipsOf);
    }
    assert nodes[..|nodes|] == nodes;
  }

  // ---------- cluster-wide sums ----------

  function StateTotals(mine: seq<NodeMetric>): PerStateMetric {
    PerStateMetric(Sum(mine, Cpus), Sum(mine, One))
  }

  ghost function StateTable(nodes: seq<NodeMetric>): map<string, PerStateMetric> {
    Group(nodes, StateOf, StateTotals)
  }

  ghost function CpuSummary(nodes: seq<NodeMetric>): CpuSummaryMetric {
    CpuSummaryMetric(Sum(nodes, Cpus), Sum(nodes, IdleCpus), Sum(nodes, CpuLoad), StateTable(nodes))
  }

  ghost function MemSummary(nodes: seq<NodeMetric>): MemSummaryMetric {
    MemSummaryMetric(Sum(nodes, AllocMemory), Sum(nodes, FreeMemory), Sum(nodes, RealMemory))
  }

  const NO_STATE := PerStateMetric(0.0, 0.0)

  function StateAt(t: map<string, PerStateMetric>, s: string): PerStateMetric { if s in t then t[s] else NO_STATE }

  /** Adds a node to its state; a state seen for the first time starts from zero. */
  function AddState(t: map<string, PerStateMetric>, n: NodeMetric): map<string, PerStateMetric> {
    t[n.state := CountNode(StateAt(t, n.state), n)]
  }

  function CountNode(m: PerStateMetric, n: NodeMetric): PerStateMetric {
    PerStateMetric(m.cpus + n.cpus, m.count + 1.0)
  }

  lemma StateTotalsSnoc(mine: seq<NodeMetric>, n: NodeMetric, m: PerStateMetric)
    requires m == if |mine| == 0 then NO_STATE else StateTotals(mine)
    ensures StateTotals(mine + [n]) == CountNode(m, n)
  {
    SumSnoc(mine, n, Cpus);
    SumSnoc(mine, n, One);
  }

  lemma StateTableSnoc(nodes: seq<NodeMetric>, n: NodeMetric)
    ensures StateTable(nodes + [n]) == AddState(StateTable(nodes), n)
  {
    GroupSnoc(nodes, n, StateOf, StateTotals);
    KeyPresent(nodes, StateOf, n.state);
    StateTotalsSnoc(Filter(nodes, Having(StateOf, n.state)), n, StateAt(StateTable(nodes), n.state));
  }

  lemma NextState(nodes: seq<NodeMetric>, i: nat, t: map<string, PerStateMetric>)
    requires i < |nodes| && t == StateTable(nodes[..i])
    ensures AddState(t, nodes[i]) == StateTable(nodes[..i + 1])
  {
    NextPrefix(nodes, i);
    StateTableSnoc(nodes[..i], nodes[i]);
  }

  method FetchNodeTotalCpuMetrics(nodes: seq<NodeMetric>) returns (summary: CpuSummaryMetric)
    ensures summary == CpuSummary(nodes)
  {
    var total, idle, load := 0.0, 0.0, 0.0;
    var perState: map<string, PerStateMetric> := map[];
    for i := 0 to |nodes|
      invariant total == Sum(nodes[..i], Cpus)
      invariant idle == Sum(nodes[..i], IdleCpus)
      invariant load == Sum(nodes[..i], CpuLoad)
      invariant perState == StateTable(nodes[..i])
    {
      var node := nodes[i];
      NextSum(nodes, i, Cpus);
      NextSum(nodes, i, IdleCpus);
      NextSum(nodes, i, CpuLoad);
      NextState(nodes, i, perState);
      total := total + node.cpus;
      idle := idle + node.idleCpus;
      load := load + node.cpuLoad;
      perState := AddState(perState, node);
    }
    assert nodes[..|nodes|] == nodes;
    summary := CpuSummaryMetric(total, idle, load, perState);
  }

  method FetchNodeTotalMemMetrics(nodes: seq<NodeMetric>) returns (summary: MemSummaryMetric)
    ensures summary == MemSummary(nodes)
  {
    summary := MemSummaryMetric(0.0, 0.0, 0.0);
    for i := 0 to |nodes|
      invariant summary == MemSummary(nodes[..i])
    {
      var node := nodes[i];
      NextSum(nodes, i, AllocMemory);
      NextSum(nodes, i, FreeMemory);
      NextSum(nodes, i, RealMemory);
      summary := MemSummaryMetric(summary.allocMemory + node.allocMemory,
                                  summary.freeMemory + node.freeMemory,
                                  summary.realMemory + node.realMemory);
    }
    assert nodes[..|nodes|] == nodes;
  }

  // ---------- order independence ----------

  lemma SummarisePermutation(xs: seq<Membership>, ys: seq<Membership>)
    requires multiset(xs) == multiset(ys)
    ensures Summarise(xs) == Summarise(ys)
  {
    SumPermutation(xs, ys, Member(Cpus));
    SumPermutation(xs, ys, Member(RealMemory));
    SumPermutation(xs, ys, Member(FreeMemory));
    SumPermutation(xs, ys, Member(CpuLoad));
    SumPermutation(xs, ys, Member(IdleCpus));
    SumPermutation(xs, ys, Member(Weight));
    ByKeyPermutation(xs, ys, MemberState, Member(AllocMemory));
    ByKeyPermutation(xs, ys, MemberState, Member(AllocCpus));
    ByKeyPermutation(xs, ys, MemberState, Member(One));
  }

  /** The partition table is the same for every order of the nodes. */
  lemma PartitionOrderIndependent(xs: seq<NodeMetric>, ys: seq<NodeMetric>)
    requires multiset(xs) == multiset(ys)
    ensures PartitionTable(Memberships(xs)) == PartitionTable(Memberships(ys))
  {
    FlatPermutation(xs, ys, MembershipsOf);
    var a, b := Memberships(xs), Memberships(ys);
    forall p | p in KeySet(a, PartitionOf)
      ensures Summarise(Filter(a, Having(PartitionOf, p))) == Summarise(Filter(b, Having(PartitionOf, p)))
    {
      FilterPermutation(a, b, Having(PartitionOf, p));
      SummarisePermutation(Mentions(a, p), Mentions(b, p));
    }
    GroupPermutation(a, b, PartitionOf, Summarise);
  }

  /** So are the cluster-wide cpu and memory summaries. */
  lemma SummariesOrderIndependent(xs: seq<NodeMetric>, ys: seq<NodeMetric>)
    requires multiset(xs) == multiset(ys)
    ensures CpuSummary(xs) == CpuSummary(ys) && MemSummary(xs) == MemSummary(ys)
  {
    SumPermutation(xs, ys, Cpus);
    SumPermutation(xs, ys, IdleCpus);
    SumPermutation(xs, ys, CpuLoad);
    SumPermutation(xs, ys, AllocMemory);
    SumPermutation(xs, ys, FreeMemory);
    SumPermutation(xs, ys, RealMemory);
    forall s | s in KeySet(xs, StateOf)
      ensures StateTotals(Filter(xs, Having(StateOf, s))) == StateTotals(Filter(ys, Having(StateOf, s)))
    {
      FilterPermutation(xs, ys, Having(StateOf, s));
      SumPermutation(Filter(xs, Having(StateOf, s)), Filter(ys, Having(StateOf, s)), Cpus);
      SumPermutation(Filter(xs, Having(StateOf, s)), Filter(ys, Having(StateOf, s)), One);
    }
    GroupPermutation(xs, ys, StateOf, StateTotals);
  }

  // ---------- mentions and their nodes ----------

  function PerNode(p: string, w: NodeMetric -> real): NodeMetric -> real {
    (n: NodeMetric) => NodeShare(p, w, n)
  }

  /** What one node adds to the total of `p`. */
  function NodeShare(p: string, w: NodeMetric -> real, n: NodeMetric): real {
    Sum(Mentions(MembershipsOf(n), p), Member(w))
  }

  lemma NextShare(n: NodeMetric, k: nat, p: string, w: NodeMetric -> real)
    requires k < |n.partitions|
    ensures Sum(Mentions(MembershipsUpTo(n, k + 1), p), Member(w)) ==
            Sum(Mentions(MembershipsUpTo(n, k), p), Member(w)) + if n.partitions[k] == p then w(n) else 0.0
  {
    var m := Membership(n, n.partitions[k]);
    assert MembershipsUpTo(n, k + 1) == MembershipsUpTo(n, k) + [m];
    FilterSnoc(MembershipsUpTo(n, k), m, Having(PartitionOf, p));
    if m.partition == p {
      SumSnoc(Mentions(MembershipsUpTo(n, k), p), m, Member(w));
    } else {
      assert Mentions(MembershipsUpTo(n, k), p) + [] == Mentions(MembershipsUpTo(n, k), p);
    }
  }

  lemma {:induction false} MentionsPerNode(nodes: seq<NodeMetric>, p: string, w: NodeMetric -> real)
    ensures Sum(Mentions(Memberships(nodes), p), Member(w)) == Sum(nodes, PerNode(p, w))
  {
    if |nodes| > 0 {
      var init, n := nodes[..|nodes| - 1], nodes[|nodes| - 1];
      MentionsPerNode(init, p, w);
      FilterAppend(Memberships(init), MembershipsOf(n), Having(PartitionOf, p));
      SumAppend(Mentions(Memberships(init), p), Mentions(MembershipsOf(n), p), Member(w));
    }
  }

  /** A mention is one of some node in the list. */
  lemma {:induction false} MentionedNode(nodes: seq<NodeMetric>, m: Membership)
    requires m in Memberships(nodes)
    ensures m.node in nodes
  {
    var init, n := nodes[..|nodes| - 1], nodes[|nodes| - 1];
    if m in Memberships(init) { MentionedNode(init, m); }
  }

  /** Figures that are not negative on any node add up to partition figures that are not. */
  lemma PartitionSumsNonNegative(nodes: seq<NodeMetric>, p: string, s: string, w: NodeMetric -> real)
    requires forall n :: n in nodes ==> w(n) >= 0.0
    ensures Sum(Mentions(Memberships(nodes), p), Member(w)) >= 0.0
    ensures Get(ByKey(Mentions(Memberships(nodes), p), MemberState, Member(w)), s) >= 0.0
  {
    var mine := Mentions(Memberships(nodes), p);
    forall m | m in mine ensures Member(w)(m) >= 0.0 {
      FilterMember(Memberships(nodes), Having(PartitionOf, p), m);
      MentionedNode(nodes, m);
    }
    SumNonNegative(mine, Member(w));
    var inState := Filter(mine, Having(MemberState, s));
    forall m | m in inState ensures Member(w)(m) >= 0.0 {
      FilterMember(mine, Having(MemberState, s), m);
    }
    SumNonNegative(inState, Member(w));
    GetByKey(mine, MemberState, Member(w), s);
  }

  // ---------- concatenation ----------

  /** Two partition summaries added field by field. */
  ghost function Plus(a: PartitionMetric, b: PartitionMetric): PartitionMetric {
    PartitionMetric(
      a.totalCpus + b.totalCpus, a.realMemory + b.realMemory, a.freeMemory + b.freeMemory,
      Pointwise(a.stateAllocMemory, b.stateAllocMemory),
      Pointwise(a.stateAllocCpus, b.stateAllocCpus),
      Pointwise(a.stateNodeCount, b.stateNodeCount),
      a.cpuLoad + b.cpuLoad, a.idleCpus + b.idleCpus, a.weight + b.weight)
  }

  lemma SummariseAppend(xs: seq<Membership>, ys: seq<Membership>)
    ensures Summarise(xs + ys) == Plus(Summarise(xs), Summarise(ys))
  {
    SumAppend(xs, ys, Member(Cpus));
    SumAppend(xs, ys, Member(RealMemory));
    SumAppend(xs, ys, Member(FreeMemory));
    SumAppend(xs, ys, Member(CpuLoad));
    SumAppend(xs, ys, Member(IdleCpus));
    SumAppend(xs, ys, Member(Weight));
    ByKeyAppend(xs, ys, MemberState, Member(AllocMemory));
    ByKeyAppend(xs, ys, MemberState, Member(AllocCpus));
    ByKeyAppend(xs, ys, MemberState, Member(One));
  }

  lemma PartitionAtIsSummary(ms: seq<Membership>, p: string)
    ensures PartitionAt(PartitionTable(ms), p) == Summarise(Mentions(ms, p))
  {
    if p !in KeySet(ms, PartitionOf) {
      FilterAbsent(ms, PartitionOf, p);
      SummariseEmpty();
    }
  }

  /** Summarising a concatenation is adding the summaries, partition by partition. */
  lemma PartitionsOfConcatenation(xs: seq<NodeMetric>, ys: seq<NodeMetric>)
    ensures var a, b, both := PartitionTable(Memberships(xs)), PartitionTable(Memberships(ys)),
                              PartitionTable(Memberships(xs + ys));
            && both.Keys == a.Keys + b.Keys
            && forall p :: p in both ==> both[p] == Plus(PartitionAt(a, p), PartitionAt(b, p))
  {
    var a, b := Memberships(xs), Memberships(ys);
    FlatAppend(xs, ys, MembershipsOf);
    KeySetAppend(a, b, PartitionOf);
    forall p | p in KeySet(a + b, PartitionOf)
      ensures Summarise(Mentions(a + b, p)) ==
              Plus(PartitionAt(PartitionTable(a), p), PartitionAt(PartitionTable(b), p))
    {
      FilterAppend(a, b, Having(PartitionOf, p));
      SummariseAppend(Mentions(a, p), Mentions(b, p));
      PartitionAtIsSummary(a, p);
      PartitionAtIsSummary(b, p);
    }
  }

  function PlusState(a: PerStateMetric, b: PerStateMetric): PerStateMetric {
    PerStateMetric(a.cpus + b.cpus, a.count + b.count)
  }

  lemma StateAtIsTotals(nodes: seq<NodeMetric>, s: string)
    ensures StateAt(StateTable(nodes), s) == StateTotals(Filter(nodes, Having(StateOf, s)))
  {
    KeyPresent(nodes, StateOf, s);
  }

  /** The cluster-wide summaries of a concatenation are the sums of the two, figure by figure and
      state by state, a state that does not occur counting as zero. */
  lemma SummariesOfConcatenation(xs: seq<NodeMetric>, ys: seq<NodeMetric>)
    ensures var a, b, both := CpuSummary(xs), CpuSummary(ys), CpuSummary(xs + ys);
            && both.total == a.total + b.total && both.idle == a.idle + b.idle && both.load == a.load + b.load
            && both.perState.Keys == a.perState.Keys + b.perState.Keys
            && forall s :: StateAt(both.perState, s) == PlusState(StateAt(a.perState, s), StateAt(b.perState, s))
    ensures var a, b, both := MemSummary(xs), MemSummary(ys), MemSummary(xs + ys);
            && both.allocMemory == a.allocMemory + b.allocMemory && both.freeMemory == a.freeMemory + b.freeMemory
            && both.realMemory == a.realMemory + b.realMemory
  {
    SumAppend(xs, ys, Cpus);
    SumAppend(xs, ys, IdleCpus);
    SumAppend(xs, ys, CpuLoad);
    SumAppend(xs, ys, AllocMemory);
    SumAppend(xs, ys, FreeMemory);
    SumAppend(xs, ys, RealMemory);
    KeySetAppend(xs, ys, StateOf);
    forall s
      ensures StateAt(StateTable(xs + ys), s) == PlusState(StateAt(StateTable(xs), s), StateAt(StateTable(ys), s))
    {
      StateOfConcatenation(xs, ys, s);
    }
  }

  lemma StateTotalsAppend(a: seq<NodeMetric>, b: seq<NodeMetric>)
    ensures StateTotals(a + b) == PlusState(StateTotals(a), StateTotals(b))
  {
    SumAppend(a, b, Cpus);
    SumAppend(a, b, One);
  }

  lemma StateOfConcatenation(xs: seq<NodeMetric>, ys: seq<NodeMetric>, s: string)
    ensures StateAt(StateTable(xs + ys), s) == PlusState(StateAt(StateTable(xs), s), StateAt(StateTable(ys), s))
  {
    StateAtIsTotals(xs, s);
    StateAtIsTotals(ys, s);
    StateAtIsTotals(xs + ys, s);
    FilterAppend(xs, ys, Having(StateOf, s));
    StateTotalsAppend(Filter(xs, Having(StateOf, s)), Filter(ys, Having(StateOf, s)));
  }

  lemma StateColumns(nodes: seq<NodeMetric>)
    ensures (map s | s in StateTable(nodes) :: StateTable(nodes)[s].cpus) == ByKey(nodes, StateOf, Cpus)
    ensures (map s | s in StateTable(nodes) :: StateTable(nodes)[s].count) == ByKey(nodes, StateOf, One)
  {}

  /** Every node is in exactly one state: the per-state cpus and counts add up to the totals. */
  lemma StatesPartitionTheCluster(nodes: seq<NodeMetric>)
    ensures SumMap(map s | s in StateTable(nodes) :: StateTable(nodes)[s].cpus) == CpuSummary(nodes).total
    ensures SumMap(map s | s in StateTable(nodes) :: StateTable(nodes)[s].count) == |nodes| as real
  {
    StateColumns(nodes);
    TallyTotal(nodes, StateOf, Cpus);
    TallyTotal(nodes, StateOf, One);
    SumOfOnes(nodes);
  }
}
