/** The node path end to end: merging lines into hosts and then hosts into partitions gives the
    same numbers as adding up the `sinfo` lines directly. */
module NodeMerge {
  import opened Prelude
  import opened Sums
  import opened NodeMetrics
  import opened NodeFallback

  /** All accepted lines of the host of `a`. */
  function SameHost(lines: seq<Accepted>, a: Accepted): seq<Accepted> {
    Filter(lines, Having(HostOf, a.line.hostname))
  }

  /** A weight of the host a line belongs to. */
  function HostWeight(lines: seq<Accepted>, w: NodeMetric -> real): Accepted -> real {
    (a: Accepted) => WeightOfHost(lines, w, a)
  }

  function WeightOfHost(lines: seq<Accepted>, w: NodeMetric -> real, a: Accepted): real {
    w(HostRecord(SameHost(lines, a)))
  }

  /** The cpu total on the first accepted line of the host of `a`. */
  function FirstTotal(lines: seq<Accepted>): Accepted -> real {
    (a: Accepted) => FirstTotalOfHost(lines, a)
  }

  function FirstTotalOfHost(lines: seq<Accepted>, a: Accepted): real { FirstTotalOf(SameHost(lines, a)) }

  /** The cpu total of the first of a host's lines. */
  function FirstTotalOf(mine: seq<Accepted>): real { if |mine| == 0 then 0.0 else mine[0].total }

  /** The accepted lines that name partition `p`. */
  function Naming(lines: seq<Accepted>, p: string): seq<Accepted> { Filter(lines, Having(LinePartition, p)) }

  ghost function TableSums(t: map<string, NodeMetric>, g: NodeMetric -> real): map<string, real> {
    map h | h in t :: g(t[h])
  }

  lemma ListsInit(values: seq<NodeMetric>, t: map<string, NodeMetric>)
    requires Lists(values, t) && |values| > 0
    ensures var v := values[|values| - 1];
            && v.hostname in t && t[v.hostname] == v
            && Lists(values[..|values| - 1], t - {v.hostname})
  {
    var v := values[|values| - 1];
    assert v in values;
    assert (t - {v.hostname}).Keys == t.Keys - {v.hostname};
    assert |t - {v.hostname}| == |t| - 1;
  }

  /** A sum over the listed records is a sum over the table, whatever the listing order. */
  lemma {:induction false} SumOfListing(values: seq<NodeMetric>, t: map<string, NodeMetric>, g: NodeMetric -> real)
    requires Lists(values, t)
    ensures Sum(values, g) == SumMap(TableSums(t, g))
  {
    if |values| == 0 {
      assert t == map[];
      assert TableSums(t, g) == map[];
    } else {
      var v := values[|values| - 1];
      ListsInit(values, t);
      var rest := t - {v.hostname};
      SumOfListing(values[..|values| - 1], rest, g);
      SumMapRemove(TableSums(t, g), v.hostname);
      assert TableSums(t, g) - {v.hostname} == TableSums(rest, g);
    }
  }

  lemma NextNaming(mine: seq<Accepted>, k: nat, p: string, v: Accepted -> real)
    requires k < |mine|
    ensures Sum(Naming(mine[..k + 1], p), v) ==
            Sum(Naming(mine[..k], p), v) + if mine[k].line.partition == p then v(mine[k]) else 0.0
  {
    var a := mine[k];
    assert mine[..k + 1] == mine[..k] + [a];
    FilterSnoc(mine[..k], a, Having(LinePartition, p));
    assert LinePartition(a) == a.line.partition;
    if a.line.partition == p {
      SumSnoc(Naming(mine[..k], p), a, v);
    } else {
      assert Naming(mine[..k], p) + [] == Naming(mine[..k], p);
    }
  }

  /** A host mentions `p` once for each of its lines that names `p`. */
  lemma {:induction false} HostMentions(n: NodeMetric, mine: seq<Accepted>, k: nat, p: string,
                                        w: NodeMetric -> real, v: Accepted -> real)
    requires n.partitions == PartitionsIn(mine) && k <= |mine|
    requires forall a :: a in mine ==> v(a) == w(n)
    ensures Sum(Mentions(MembershipsUpTo(n, k), p), Member(w)) == Sum(Naming(mine[..k], p), v)
  {
    if k > 0 {
      HostMentions(n, mine, k - 1, p, w, v);
      NextShare(n, k - 1, p, w);
      NextNaming(mine, k - 1, p, v);
      assert mine[k - 1] in mine;
    }
  }

  lemma HostShare(lines: seq<Accepted>, h: string, p: string, w: NodeMetric -> real)
    requires h in HostTable(lines)
    ensures PerNode(p, w)(HostTable(lines)[h]) ==
            Sum(Filter(Naming(lines, p), Having(HostOf, h)), HostWeight(lines, w))
  {
    var mine := Filter(lines, Having(HostOf, h));
    var n := HostRecord(mine);
    HostPresent(lines, h);
    forall a | a in mine ensures HostWeight(lines, w)(a) == w(n) {
      FilterHaving(lines, HostOf, h, a);
      assert HostOf(a) == a.line.hostname;
    }
    HostMentions(n, mine, |mine|, p, w, HostWeight(lines, w));
    assert mine[..|mine|] == mine;
    FilterCommutes(lines, Having(HostOf, h), Having(LinePartition, p));
  }

  /** Two stages equal one: for every weight, the partition's total over merged hosts is the sum
      over the accepted lines naming the partition of the weight of the line's host. */
  lemma TwoStageMerge(lines: seq<Accepted>, values: seq<NodeMetric>, p: string, w: NodeMetric -> real)
    requires Lists(values, HostTable(lines))
    ensures Sum(Mentions(Memberships(values), p), Member(w)) == Sum(Naming(lines, p), HostWeight(lines, w))
  {
    var t := HostTable(lines);
    MentionsPerNode(values, p, w);
    SumOfListing(values, t, PerNode(p, w));
    NamingHosts(lines, p);
    GroupTotal(Naming(lines, p), HostOf, HostWeight(lines, w), t.Keys);
    var shares := GroupSums(Naming(lines, p), HostOf, HostWeight(lines, w), t.Keys);
    forall h | h in t ensures TableSums(t, PerNode(p, w))[h] == shares[h] { HostShare(lines, h, p, w); }
    SameEntries(TableSums(t, PerNode(p, w)), shares);
  }

  lemma NamingHosts(lines: seq<Accepted>, p: string)
    ensures KeySet(Naming(lines, p), HostOf) <= KeySet(lines, HostOf)
    ensures forall a :: a in Naming(lines, p) <==> a in lines && a.line.partition == p
  {
    forall a ensures a in Naming(lines, p) <==> a in lines && a.line.partition == p {
      FilterHaving(lines, LinePartition, p, a);
      assert LinePartition(a) == a.line.partition;
    }
  }

  /** `TotalCpus` of a partition is the sum over the accepted lines naming it of the cpu total on
      the first accepted line of that host. */
  lemma PartitionCpus(lines: seq<Accepted>, values: seq<NodeMetric>, p: string)
    requires Lists(values, HostTable(lines))
    ensures PartitionAt(PartitionTable(Memberships(values)), p).totalCpus == Sum(Naming(lines, p), FirstTotal(lines))
  {
    TwoStageMerge(lines, values, p, Cpus);
    PartitionAtIsSummary(Memberships(values), p);
    NamingHosts(lines, p);
    forall a | a in Naming(lines, p) ensures HostWeight(lines, Cpus)(a) == FirstTotal(lines)(a) {
      HostCpus(lines, a);
    }
    SumPointwise(Naming(lines, p), HostWeight(lines, Cpus), FirstTotal(lines));
  }

  lemma HostCpus(lines: seq<Accepted>, a: Accepted)
    ensures HostWeight(lines, Cpus)(a) == FirstTotal(lines)(a)
  {
    RecordCpus(SameHost(lines, a));
  }

  lemma {:induction false} HostOnes(lines: seq<Accepted>, xs: seq<Accepted>)
    ensures Sum(xs, HostWeight(lines, One)) == |xs| as real
  {
    if |xs| > 0 {
      HostOnes(lines, xs[..|xs| - 1]);
      assert WeightOfHost(lines, One, xs[|xs| - 1]) == 1.0;
    }
  }

  lemma MemberWeight(m: Membership, w: NodeMetric -> real)
    ensures Member(w)(m) == w(m.node)
  {}

  lemma {:induction false} MemberOnes(ms: seq<Membership>)
    ensures Sum(ms, Member(One)) == |ms| as real
  {
    if |ms| > 0 {
      MemberOnes(ms[..|ms| - 1]);
      MemberWeight(ms[|ms| - 1], One);
    }
  }

  /** The node counts of a partition, summed over states, are the number of lines naming it. */
  lemma PartitionNodeCount(lines: seq<Accepted>, values: seq<NodeMetric>, p: string)
    requires Lists(values, HostTable(lines))
    ensures SumMap(PartitionAt(PartitionTable(Memberships(values)), p).stateNodeCount) == |Naming(lines, p)| as real
  {
    var mine := Mentions(Memberships(values), p);
    PartitionAtIsSummary(Memberships(values), p);
    TallyTotal(mine, MemberState, Member(One));
    TwoStageMerge(lines, values, p, One);
    HostOnes(lines, Naming(lines, p));
  }

  /** No line repeats the host and partition of an earlier one. */
  ghost predicate DistinctPairs(lines: seq<Accepted>) {
    forall i, j :: 0 <= i < j < |lines| ==>
      lines[i].line.hostname != lines[j].line.hostname || lines[i].line.partition != lines[j].line.partition
  }

  lemma {:induction false} DistinctHostCount(lines: seq<Accepted>, p: string)
    requires DistinctPairs(lines)
    ensures |Naming(lines, p)| == |KeySet(Naming(lines, p), HostOf)|
  {
    if |lines| > 0 {
      var init, a := lines[..|lines| - 1], lines[|lines| - 1];
      DistinctHostCount(init, p);
      assert lines == init + [a];
      FilterSnoc(init, a, Having(LinePartition, p));
      if a.line.partition == p {
        NamingHosts(init, p);
        assert HostOf(a) !in KeySet(Naming(init, p), HostOf) by {
          forall b | b in Naming(init, p) ensures HostOf(b) != HostOf(a) {
            var i :| 0 <= i < |init| && init[i] == b;
            assert lines[i] == b;
          }
        }
        KeySetSnoc(Naming(init, p), a, HostOf);
      }
    }
  }

  /** With distinct (host, partition) pairs every host of the partition is counted once. */
  lemma OneCountPerHost(lines: seq<Accepted>, values: seq<NodeMetric>, p: string)
    requires Lists(values, HostTable(lines)) && DistinctPairs(lines)
    ensures SumMap(PartitionAt(PartitionTable(Memberships(values)), p).stateNodeCount) ==
            |set a | a in lines && a.line.partition == p :: a.line.hostname| as real
  {
    PartitionNodeCount(lines, values, p);
    DistinctHostCount(lines, p);
    HostsNaming(lines, p);
  }

  lemma HostsNaming(lines: seq<Accepted>, p: string)
    ensures KeySet(Naming(lines, p), HostOf) == set a | a in lines && a.line.partition == p :: a.line.hostname
  {
    NamingHosts(lines, p);
  }

  /** The cluster-wide total counts each distinct host once, with the cpus of its first line. */
  lemma ClusterCpus(lines: seq<Accepted>, values: seq<NodeMetric>)
    requires Lists(values, HostTable(lines))
    ensures CpuSummary(values).total == SumMap(Group(lines, HostOf, FirstTotalOf))
  {
    SumOfListing(values, HostTable(lines), Cpus);
    forall h | h in KeySet(lines, HostOf)
      ensures TableSums(HostTable(lines), Cpus)[h] == Group(lines, HostOf, FirstTotalOf)[h]
    {
      RecordCpus(Filter(lines, Having(HostOf, h)));
    }
    SameEntries(TableSums(HostTable(lines), Cpus), Group(lines, HostOf, FirstTotalOf));
  }

  lemma RecordCpus(mine: seq<Accepted>)
    ensures HostRecord(mine).cpus == FirstTotalOf(mine)
  {}

  /** The partitions reported are exactly those some accepted line names. */
  lemma {:induction false} ReportedPartitions(lines: seq<Accepted>, values: seq<NodeMetric>, p: string)
    requires Lists(values, HostTable(lines))
    ensures p in PartitionTable(Memberships(values)) <==> exists a :: a in lines && a.line.partition == p
  {
    TwoStageMerge(lines, values, p, One);
    MemberOnes(Mentions(Memberships(values), p));
    HostOnes(lines, Naming(lines, p));
    NamingHosts(lines, p);
    if p in PartitionTable(Memberships(values)) {
      var m :| m in Memberships(values) && PartitionOf(m) == p;
      FilterMember(Memberships(values), Having(PartitionOf, p), m);
      assert Naming(lines, p)[0] in Naming(lines, p);
    } else {
      FilterAbsent(Memberships(values), PartitionOf, p);
    }
  }

  /** Two listings of the same table are permutations of each other, so the arbitrary order in
      which hosts are emitted reaches none of the summaries. */
  lemma {:induction false} ListingsPermute(xs: seq<NodeMetric>, ys: seq<NodeMetric>, t: map<string, NodeMetric>)
    requires Lists(xs, t) && Lists(ys, t)
    ensures multiset(xs) == multiset(ys)
  {
    forall v | v in multiset(xs) + multiset(ys) ensures multiset(xs)[v] == multiset(ys)[v] {
      ListedOnce(xs, t, v);
      ListedOnce(ys, t, v);
    }
    MultisetExtensional(multiset(xs), multiset(ys));
  }

  lemma {:induction false} ListedOnce(xs: seq<NodeMetric>, t: map<string, NodeMetric>, v: NodeMetric)
    requires Lists(xs, t)
    ensures multiset(xs)[v] == if v.hostname in t && t[v.hostname] == v then 1 else 0
  {
    if |xs| == 0 {
      assert t == map[];
    } else {
      var u := xs[|xs| - 1];
      ListsInit(xs, t);
      ListedOnce(xs[..|xs| - 1], t - {u.hostname}, v);
      assert xs == xs[..|xs| - 1] + [u];
    }
  }

  /** Whatever order the hosts come in, all three summaries are functions of the lines alone. */
  lemma SummariesIgnoreHostOrder(xs: seq<NodeMetric>, ys: seq<NodeMetric>, lines: seq<Accepted>)
    requires Lists(xs, HostTable(lines)) && Lists(ys, HostTable(lines))
    ensures PartitionTable(Memberships(xs)) == PartitionTable(Memberships(ys))
    ensures CpuSummary(xs) == CpuSummary(ys) && MemSummary(xs) == MemSummary(ys)
  {
    ListingsPermute(xs, ys, HostTable(lines));
    PartitionOrderIndependent(xs, ys);
    SummariesOrderIndependent(xs, ys);
  }
}
