/** Job records and the per-user, per-account, per-partition, per-feature and pending-reason
    summaries of the job collector.  `float64` sums are exact reals here. */
module JobMetrics {
  import opened Prelude
  import opened Sums
  import opened Strings

  /** `allocNodes` maps a node to its allocated memory in bytes. */
  datatype JobMetric = JobMetric(
    account: string,
    jobId: real,
    endTime: real,
    jobState: string,
    partition: string,
    userName: string,
    features: string,
    allocCpus: real,
    allocNodes: map<string, real>,
    stateReason: string)

  datatype UserJobMetric = UserJobMetric(
    stateJobCount: map<string, real>,
    totalJobCount: real,
    allocMemory: map<string, real>,
    allocCpu: map<string, real>)

  datatype AccountMetric = AccountMetric(
    stateAllocMem: map<string, real>,
    stateAllocCpu: map<string, real>,
    stateJobCount: map<string, real>)

  datatype FeatureJobMetric = FeatureJobMetric(allocMem: real, allocCpu: real, total: real)

  const PENDING := "PENDING"
  const REQ_NODE_NOT_AVAIL := "ReqNodeNotAvail, UnavailableNodes"
  const NOT_AVAIL_BUCKET := "(" + REQ_NODE_NOT_AVAIL + ")"

  // ---------- keys and weights of a job ----------

  function UserOf(j: JobMetric): string { j.userName }
  function AccountOf(j: JobMetric): string { j.account }
  function PartitionOf(j: JobMetric): string { j.partition }
  function StateOf(j: JobMetric): string { j.jobState }
  function CpuOf(j: JobMetric): real { j.allocCpus }
  ghost function MemOf(j: JobMetric): real { SumMap(j.allocNodes) }

  method TotalAllocMem(allocNodes: map<string, real>) returns (allocMem: real)
    ensures allocMem == SumMap(allocNodes)
  {
    allocMem := 0.0;
    var left := allocNodes.Keys;
    ghost var rest := allocNodes;
    while left != {}
      invariant rest.Keys == left && forall k :: k in rest ==> k in allocNodes && rest[k] == allocNodes[k]
      invariant allocMem + SumMap(rest) == SumMap(allocNodes)
      decreases left
    {
      var k := Pick(left);
      SumMapRemove(rest, k);
      left := left - {k};
      rest := rest - {k};
      allocMem := allocMem + allocNodes[k];
    }
  }

  // ---------- users ----------

  ghost function UserTotals(mine: seq<JobMetric>): UserJobMetric {
    UserJobMetric(ByKey(mine, StateOf, One), Sum(mine, One), ByKey(mine, StateOf, MemOf), ByKey(mine, StateOf, CpuOf))
  }

  ghost function UserTable(jobs: seq<JobMetric>): map<string, UserJobMetric> { Group(jobs, UserOf, UserTotals) }

  const NO_USER := UserJobMetric(map[], 0.0, map[], map[])

  function AddToUser(m: UserJobMetric, j: JobMetric, mem: real): UserJobMetric {
    UserJobMetric(Bump(m.stateJobCount, j.jobState, 1.0), m.totalJobCount + 1.0,
                  Bump(m.allocMemory, j.jobState, mem), Bump(m.allocCpu, j.jobState, j.allocCpus))
  }

  lemma TallySnoc(mine: seq<JobMetric>, j: JobMetric, w: JobMetric -> real, v: real)
    requires v == w(j)
    ensures ByKey(mine + [j], StateOf, w) == Bump(ByKey(mine, StateOf, w), j.jobState, v)
  {
    ByKeySnoc(mine, j, StateOf, w);
  }

  lemma TallyEmpty(w: JobMetric -> real)
    ensures ByKey([], StateOf, w) == map[]
  {
    assert KeySet([], StateOf) == {};
  }

  lemma UserTotalsSnoc(mine: seq<JobMetric>, j: JobMetric, m: UserJobMetric)
    requires m == if |mine| == 0 then NO_USER else UserTotals(mine)
    ensures UserTotals(mine + [j]) == AddToUser(m, j, MemOf(j))
  {
    TallyEmpty(One);
    TallyEmpty(MemOf);
    TallyEmpty(CpuOf);
    TallySnoc(mine, j, One, 1.0);
    TallySnoc(mine, j, MemOf, MemOf(j));
    TallySnoc(mine, j, CpuOf, j.allocCpus);
    SumSnoc(mine, j, One);
  }

  function UserAt(t: map<string, UserJobMetric>, u: string): UserJobMetric { if u in t then t[u] else NO_USER }

  lemma UserTableSnoc(jobs: seq<JobMetric>, j: JobMetric)
    ensures UserTable(jobs + [j]) ==
            UserTable(jobs)[j.userName := AddToUser(UserAt(UserTable(jobs), j.userName), j, MemOf(j))]
  {
    GroupSnoc(jobs, j, UserOf, UserTotals);
    KeyPresent(jobs, UserOf, j.userName);
    UserTotalsSnoc(Filter(jobs, Having(UserOf, j.userName)), j, UserAt(UserTable(jobs), j.userName));
  }

  lemma NextUser(jobs: seq<JobMetric>, i: nat, m: map<string, UserJobMetric>, mem: real)
    requires i < |jobs| && m == UserTable(jobs[..i]) && mem == MemOf(jobs[i])
    ensures m[jobs[i].userName := AddToUser(UserAt(m, jobs[i].userName), jobs[i], mem)] == UserTable(jobs[..i + 1])
  {
    NextPrefix(jobs, i);
    UserTableSnoc(jobs[..i], jobs[i]);
  }

  method ParseUserJobMetrics(jobMetrics: seq<JobMetric>) returns (userMetricMap: map<string, UserJobMetric>)
    ensures userMetricMap == UserTable(jobMetrics)
  {
    userMetricMap := map[];
    for i := 0 to |jobMetrics|
      invariant userMetricMap == UserTable(jobMetrics[..i])
    {
      var j := jobMetrics[i];
      var mem := TotalAllocMem(j.allocNodes);
      NextUser(jobMetrics, i, userMetricMap, mem);
      userMetricMap := userMetricMap[j.userName := AddToUser(UserAt(userMetricMap, j.userName), j, mem)];
    }
    assert jobMetrics[..|jobMetrics|] == jobMetrics;
  }

  // ---------- accounts ----------

  ghost function AccountTotals(mine: seq<JobMetric>): AccountMetric {
    AccountMetric(ByKey(mine, StateOf, MemOf), ByKey(mine, StateOf, CpuOf), ByKey(mine, StateOf, One))
  }

  ghost function AccountTable(jobs: seq<JobMetric>): map<string, AccountMetric> {
    Group(jobs, AccountOf, AccountTotals)
  }

  const NO_ACCOUNT := AccountMetric(map[], map[], map[])

  function AddToAccount(m: AccountMetric, j: JobMetric, mem: real): AccountMetric {
    AccountMetric(Bump(m.stateAllocMem, j.jobState, mem), Bump(m.stateAllocCpu, j.jobState, j.allocCpus),
                  Bump(m.stateJobCount, j.jobState, 1.0))
  }

  function AccountAt(t: map<string, AccountMetric>, a: string): AccountMetric { if a in t then t[a] else NO_ACCOUNT }

  lemma AccountTotalsSnoc(mine: seq<JobMetric>, j: JobMetric, m: AccountMetric)
    requires m == if |mine| == 0 then NO_ACCOUNT else AccountTotals(mine)
    ensures AccountTotals(mine + [j]) == AddToAccount(m, j, MemOf(j))
  {
    TallyEmpty(One);
    TallyEmpty(MemOf);
    TallyEmpty(CpuOf);
    TallySnoc(mine, j, One, 1.0);
    TallySnoc(mine, j, MemOf, MemOf(j));
    TallySnoc(mine, j, CpuOf, j.allocCpus);
  }

  lemma AccountTableSnoc(jobs: seq<JobMetric>, j: JobMetric)
    ensures AccountTable(jobs + [j]) ==
            AccountTable(jobs)[j.account := AddToAccount(AccountAt(AccountTable(jobs), j.account), j, MemOf(j))]
  {
    GroupSnoc(jobs, j, AccountOf, AccountTotals);
    KeyPresent(jobs, AccountOf, j.account);
    AccountTotalsSnoc(Filter(jobs, Having(AccountOf, j.account)), j, AccountAt(AccountTable(jobs), j.account));
  }

  lemma NextAccount(jobs: seq<JobMetric>, i: nat, m: map<string, AccountMetric>, mem: real)
    requires i < |jobs| && m == AccountTable(jobs[..i]) && mem == MemOf(jobs[i])
    ensures m[jobs[i].account := AddToAccount(AccountAt(m, jobs[i].account), jobs[i], mem)] ==
            AccountTable(jobs[..i + 1])
  {
    NextPrefix(jobs, i);
    AccountTableSnoc(jobs[..i], jobs[i]);
  }

  method ParseAccountMetrics(jobs: seq<JobMetric>) returns (accountMap: map<string, AccountMetric>)
    ensures accountMap == AccountTable(jobs)
  {
    accountMap := map[];
    for i := 0 to |jobs|
      invariant accountMap == AccountTable(jobs[..i])
    {
      var j := jobs[i];
      var mem := TotalAllocMem(j.allocNodes);
      NextAccount(jobs, i, accountMap, mem);
      accountMap := accountMap[j.account := AddToAccount(AccountAt(accountMap, j.account), j, mem)];
    }
    assert jobs[..|jobs|] == jobs;
  }

  // ---------- partitions ----------

  ghost function StateCounts(mine: seq<JobMetric>): map<string, real> { ByKey(mine, StateOf, One) }

  ghost function PartitionTable(jobs: seq<JobMetric>): map<string, map<string, real>> {
    Group(jobs, PartitionOf, StateCounts)
  }

  function CountsAt(t: map<string, map<string, real>>, p: string): map<string, real> { if p in t then t[p] else map[] }

  lemma PartitionTableSnoc(jobs: seq<JobMetric>, j: JobMetric)
    ensures PartitionTable(jobs + [j]) ==
            PartitionTable(jobs)[j.partition := Bump(CountsAt(PartitionTable(jobs), j.partition), j.jobState, 1.0)]
  {
    GroupSnoc(jobs, j, PartitionOf, StateCounts);
    TallySnoc(Filter(jobs, Having(PartitionOf, j.partition)), j, One, 1.0);
    TallyEmpty(One);
  }

  method ParsePartitionJobMetrics(jobs: seq<JobMetric>) returns (partitionMetric: map<string, map<string, real>>)
    ensures partitionMetric == PartitionTable(jobs)
  {
    partitionMetric := map[];
    for i := 0 to |jobs|
      invariant partitionMetric == PartitionTable(jobs[..i])
    {
      var j := jobs[i];
      PartitionTableSnoc(jobs[..i], j);
      NextPrefix(jobs, i);
      partitionMetric :=
        partitionMetric[j.partition := Bump(CountsAt(partitionMetric, j.partition), j.jobState, 1.0)];
    }
    assert jobs[..|jobs|] == jobs;
  }

  // ---------- pending reasons ----------

  predicate IsPending(j: JobMetric) { j.jobState == PENDING }

  /** Go's `strings.Contains`. */
  predicate Contains(s: string, sub: string) {
    sub <= s || (s != "" && Contains(s[1..], sub))
  }

  /** The reason a pending job is counted under. */
  function ReasonOf(j: JobMetric): string {
    if Contains(j.stateReason, REQ_NODE_NOT_AVAIL) then NOT_AVAIL_BUCKET else j.stateReason
  }

  ghost function ReasonTable(jobs: seq<JobMetric>): map<string, real> { ByKey(Filter(jobs, IsPending), ReasonOf, One) }

  method ParseStateReasonMetric(jobs: seq<JobMetric>) returns (pendingStateCount: map<string, real>)
    ensures pendingStateCount == ReasonTable(jobs)
  {
    pendingStateCount := map[];
    assert KeySet([], ReasonOf) == {};
    for i := 0 to |jobs|
      invariant pendingStateCount == ReasonTable(jobs[..i])
    {
      var job := jobs[i];
      NextPrefix(jobs, i);
      FilterSnoc(jobs[..i], job, IsPending);
      if job.jobState != PENDING {
        assert Filter(jobs[..i], IsPending) + [] == Filter(jobs[..i], IsPending);
        continue;
      }
      ByKeySnoc(Filter(jobs[..i], IsPending), job, ReasonOf, One);
      var reason := job.stateReason;
      if Contains(reason, REQ_NODE_NOT_AVAIL) {
        reason := NOT_AVAIL_BUCKET;
      }
      pendingStateCount := Bump(pendingStateCount, reason, 1.0);
    }
    assert jobs[..|jobs|] == jobs;
  }

  // ---------- features ----------

  /** One feature of one job. */
  datatype Use = Use(job: JobMetric, feature: string)

  function UsesUpTo(j: JobMetric, k: nat): seq<Use>
    requires k <= |Split(j.features, '&')|
  {
    seq(k, i requires 0 <= i < k => Use(j, Split(j.features, '&')[i]))
  }

  function UsesOf(j: JobMetric): seq<Use> { UsesUpTo(j, |Split(j.features, '&')|) }

  function FeatureOf(u: Use): string { u.feature }
  function UseCpu(u: Use): real { u.job.allocCpus }
  ghost function UseMem(u: Use): real { MemOf(u.job) }

  ghost function FeatureTotals(mine: seq<Use>): FeatureJobMetric {
    FeatureJobMetric(Sum(mine, UseMem), Sum(mine, UseCpu), Sum(mine, One))
  }

  ghost function FeatureTable(uses: seq<Use>): map<string, FeatureJobMetric> { Group(uses, FeatureOf, FeatureTotals) }

  const NO_FEATURE := FeatureJobMetric(0.0, 0.0, 0.0)

  function FeatureAt(t: map<string, FeatureJobMetric>, f: string): FeatureJobMetric {
    if f in t then t[f] else NO_FEATURE
  }

  function AddToFeature(m: FeatureJobMetric, cpu: real, mem: real): FeatureJobMetric {
    FeatureJobMetric(m.allocMem + mem, m.allocCpu + cpu, m.total + 1.0)
  }

  lemma FeatureTotalsSnoc(mine: seq<Use>, u: Use)
    ensures FeatureTotals(mine + [u]) == AddToFeature(FeatureTotals(mine), u.job.allocCpus, MemOf(u.job))
    ensures FeatureTotals([]) == NO_FEATURE
  {
    SumSnoc(mine, u, UseMem);
    SumSnoc(mine, u, UseCpu);
    SumSnoc(mine, u, One);
  }

  lemma FeatureTableSnoc(uses: seq<Use>, u: Use)
    ensures FeatureTable(uses + [u]) ==
            FeatureTable(uses)[u.feature :=
              AddToFeature(FeatureAt(FeatureTable(uses), u.feature), u.job.allocCpus, MemOf(u.job))]
  {
    GroupSnoc(uses, u, FeatureOf, FeatureTotals);
    FeatureTotalsSnoc(Filter(uses, Having(FeatureOf, u.feature)), u);
  }

  lemma NoUse(before: seq<Use>, j: JobMetric)
    ensures before + UsesUpTo(j, 0) == before
  {}

  lemma NextUse(before: seq<Use>, j: JobMetric, k: nat)
    requires k < |Split(j.features, '&')|
    ensures before + UsesUpTo(j, k + 1) == before + UsesUpTo(j, k) + [Use(j, Split(j.features, '&')[k])]
  {}

  /** `m` counts the uses so far and the first `k` features of `j`. */
  ghost predicate UsedSoFar(uses: seq<Use>, j: JobMetric, k: nat, m: map<string, FeatureJobMetric>) {
    k <= |Split(j.features, '&')| && m == FeatureTable(uses + UsesUpTo(j, k))
  }

  lemma NextFeature(uses: seq<Use>, j: JobMetric, k: nat, m: map<string, FeatureJobMetric>, mem: real)
    requires k < |Split(j.features, '&')| && UsedSoFar(uses, j, k, m) && mem == MemOf(j)
    ensures var f := Split(j.features, '&')[k];
            UsedSoFar(uses, j, k + 1, m[f := AddToFeature(FeatureAt(m, f), j.allocCpus, mem)])
  {
    FeatureTableSnoc(uses + UsesUpTo(j, k), Use(j, Split(j.features, '&')[k]));
    NextUse(uses, j, k);
  }

  /** The inner loop: the features of one job. */
  method AddToFeatures(before: map<string, FeatureJobMetric>, job: JobMetric, ghost uses: seq<Use>)
    returns (featureMap: map<string, FeatureJobMetric>)
    requires before == FeatureTable(uses)
    ensures featureMap == FeatureTable(uses + UsesOf(job))
  {
    featureMap := before;
    var features := Split(job.features, '&');
    NoUse(uses, job);
    for k := 0 to |features|
      invariant UsedSoFar(uses, job, k, featureMap)
    {
      var feature := features[k];
      var mem := TotalAllocMem(job.allocNodes);
      NextFeature(uses, job, k, featureMap, mem);
      featureMap := featureMap[feature := AddToFeature(FeatureAt(featureMap, feature), job.allocCpus, mem)];
    }
  }

  method ParseFeatureMetric(jobs: seq<JobMetric>) returns (featureMap: map<string, FeatureJobMetric>)
    ensures featureMap == FeatureTable(Flat(jobs, UsesOf))
  {
    featureMap := map[];
    for i := 0 to |jobs|
      invariant featureMap == FeatureTable(Flat(jobs[..i], UsesOf))
    {
      featureMap := AddToFeatures(featureMap, jobs[i], Flat(jobs[..i], UsesOf));
      NextPrefix(jobs, i);
      FlatSnoc(jobs[..i], jobs[i], UsesOf);
    }
    assert jobs[..|jobs|] == jobs;
  }

  // ---------- conservation ----------

  function InState(jobs: seq<JobMetric>, s: string): seq<JobMetric> { Filter(jobs, Having(StateOf, s)) }

  /** What each group contributes in state `s`. */
  ghost function StateShares(jobs: seq<JobMetric>, key: JobMetric -> string, w: JobMetric -> real, s: string)
    : map<string, real>
  {
    map k | k in KeySet(jobs, key) :: Get(ByKey(Filter(jobs, Having(key, k)), StateOf, w), s)
  }

  /** However the jobs are grouped, the groups' shares of a state add up to the state's total. */
  lemma SharesAddUp(jobs: seq<JobMetric>, key: JobMetric -> string, w: JobMetric -> real, s: string)
    ensures SumMap(StateShares(jobs, key, w, s)) == Sum(InState(jobs, s), w)
  {
    var shares := StateShares(jobs, key, w, s);
    var sums := GroupSums(InState(jobs, s), key, w, KeySet(jobs, key));
    forall k | k in KeySet(jobs, key) ensures shares[k] == sums[k] {
      GetByKey(Filter(jobs, Having(key, k)), StateOf, w, s);
      FilterCommutes(jobs, Having(key, k), Having(StateOf, s));
    }
    SameEntries(shares, sums);
    forall k | k in KeySet(InState(jobs, s), key) ensures k in KeySet(jobs, key) {
      var j :| j in InState(jobs, s) && key(j) == k;
      FilterMember(jobs, Having(StateOf, s), j);
    }
    GroupTotal(InState(jobs, s), key, w, KeySet(jobs, key));
  }

  /** For every state the job counts summed over users, over accounts and over partitions all
      equal the number of jobs in that state. */
  lemma CountsConserved(jobs: seq<JobMetric>, s: string)
    ensures SumMap(UserColumn(UserTable(jobs), Jobs, s)) == |InState(jobs, s)| as real
    ensures SumMap(AccountColumn(AccountTable(jobs), Jobs, s)) == |InState(jobs, s)| as real
    ensures SumMap(PartitionColumn(PartitionTable(jobs), s)) == |InState(jobs, s)| as real
  {
    SumOfOnes(InState(jobs, s));
    SharesAddUp(jobs, UserOf, One, s);
    SharesAddUp(jobs, AccountOf, One, s);
    SharesAddUp(jobs, PartitionOf, One, s);
    SameEntries(UserColumn(UserTable(jobs), Jobs, s), StateShares(jobs, UserOf, One, s));
    SameEntries(AccountColumn(AccountTable(jobs), Jobs, s), StateShares(jobs, AccountOf, One, s));
    SameEntries(PartitionColumn(PartitionTable(jobs), s), StateShares(jobs, PartitionOf, One, s));
  }

  datatype Column = Jobs | Cpu | Mem

  /** One column of the user table in state `s`, user by user. */
  function UserColumn(t: map<string, UserJobMetric>, c: Column, s: string): map<string, real> {
    map u | u in t ::
      Get(match c case Jobs => t[u].stateJobCount case Cpu => t[u].allocCpu case Mem => t[u].allocMemory, s)
  }

  function AccountColumn(t: map<string, AccountMetric>, c: Column, s: string): map<string, real> {
    map a | a in t ::
      Get(match c case Jobs => t[a].stateJobCount case Cpu => t[a].stateAllocCpu case Mem => t[a].stateAllocMem, s)
  }

  function PartitionColumn(t: map<string, map<string, real>>, s: string): map<string, real> {
    map p | p in t :: Get(t[p], s)
  }

  /** Allocated cpus in a state are the same total seen by user or by account. */
  lemma CpusConserved(jobs: seq<JobMetric>, s: string)
    ensures SumMap(UserColumn(UserTable(jobs), Cpu, s)) == Sum(InState(jobs, s), CpuOf)
    ensures SumMap(AccountColumn(AccountTable(jobs), Cpu, s)) == Sum(InState(jobs, s), CpuOf)
  {
    SharesAddUp(jobs, UserOf, CpuOf, s);
    SharesAddUp(jobs, AccountOf, CpuOf, s);
    SameEntries(UserColumn(UserTable(jobs), Cpu, s), StateShares(jobs, UserOf, CpuOf, s));
    SameEntries(AccountColumn(AccountTable(jobs), Cpu, s), StateShares(jobs, AccountOf, CpuOf, s));
  }

  /** So is allocated memory. */
  lemma MemoryConserved(jobs: seq<JobMetric>, s: string)
    ensures SumMap(UserColumn(UserTable(jobs), Mem, s)) == Sum(InState(jobs, s), MemOf)
    ensures SumMap(AccountColumn(AccountTable(jobs), Mem, s)) == Sum(InState(jobs, s), MemOf)
  {
    SharesAddUp(jobs, UserOf, MemOf, s);
    SharesAddUp(jobs, AccountOf, MemOf, s);
    SameEntries(UserColumn(UserTable(jobs), Mem, s), StateShares(jobs, UserOf, MemOf, s));
    SameEntries(AccountColumn(AccountTable(jobs), Mem, s), StateShares(jobs, AccountOf, MemOf, s));
  }

  /** A user's total is the sum of the user's state counts. */
  lemma UserTotalIsStateSum(jobs: seq<JobMetric>, u: string)
    requires u in UserTable(jobs)
    ensures UserTable(jobs)[u].totalJobCount == SumMap(UserTable(jobs)[u].stateJobCount)
  {
    TallyTotal(Filter(jobs, Having(UserOf, u)), StateOf, One);
  }

  /** The `&` characters in the feature strings of some jobs. */
  ghost function Ampersands(jobs: seq<JobMetric>): nat {
    if |jobs| == 0 then 0 else Ampersands(jobs[..|jobs| - 1]) + Count(jobs[|jobs| - 1].features, '&')
  }

  lemma {:induction false} UsesCount(jobs: seq<JobMetric>)
    ensures |Flat(jobs, UsesOf)| == |jobs| + Ampersands(jobs)
  {
    if |jobs| > 0 {
      UsesCount(jobs[..|jobs| - 1]);
      SplitLength(jobs[|jobs| - 1].features, '&');
    }
  }

  /** The totals column of the feature table. */
  function FeatureColumn(t: map<string, FeatureJobMetric>): map<string, real> { map f | f in t :: t[f].total }

  lemma FeatureColumnIsTally(uses: seq<Use>)
    ensures FeatureColumn(FeatureTable(uses)) == ByKey(uses, FeatureOf, One)
  {
    SameEntries(FeatureColumn(FeatureTable(uses)), ByKey(uses, FeatureOf, One));
  }

  /** Feature totals add up to the number of jobs plus the number of `&` in their features. */
  lemma FeaturesConserved(jobs: seq<JobMetric>)
    ensures SumMap(FeatureColumn(FeatureTable(Flat(jobs, UsesOf)))) == (|jobs| + Ampersands(jobs)) as real
  {
    var uses := Flat(jobs, UsesOf);
    FeatureColumnIsTally(uses);
    TallyTotal(uses, FeatureOf, One);
    SumOfOnes(uses);
    UsesCount(jobs);
  }

  lemma {:induction false} ContainsInside(a: string, sub: string, b: string)
    ensures Contains(a + sub + b, sub)
  {
    if a == "" {
      assert a + sub + b == sub + b;
    } else {
      assert (a + sub + b)[1..] == a[1..] + sub + b;
      ContainsInside(a[1..], sub, b);
    }
  }

  predicate Unavailable(j: JobMetric) { IsPending(j) && Contains(j.stateReason, REQ_NODE_NOT_AVAIL) }

  /** Pending-reason counts add up to the PENDING jobs; every job whose reason mentions an
      unavailable node is in the one common bucket, and no other bucket mentions one. */
  lemma ReasonsConserved(jobs: seq<JobMetric>)
    ensures SumMap(ReasonTable(jobs)) == |Filter(jobs, IsPending)| as real
    ensures Get(ReasonTable(jobs), NOT_AVAIL_BUCKET) == |Filter(jobs, Unavailable)| as real
    ensures forall r :: r in ReasonTable(jobs) && Contains(r, REQ_NODE_NOT_AVAIL) ==> r == NOT_AVAIL_BUCKET
  {
    var pending := Filter(jobs, IsPending);
    TallyTotal(pending, ReasonOf, One);
    SumOfOnes(pending);
    GetByKey(pending, ReasonOf, One, NOT_AVAIL_BUCKET);
    SumOfOnes(Filter(pending, Having(ReasonOf, NOT_AVAIL_BUCKET)));
    UnavailableBucket(jobs);
  }

  lemma {:induction false} UnavailableBucket(jobs: seq<JobMetric>)
    ensures Filter(Filter(jobs, IsPending), Having(ReasonOf, NOT_AVAIL_BUCKET)) == Filter(jobs, Unavailable)
  {
    if |jobs| > 0 {
      var init, j := jobs[..|jobs| - 1], jobs[|jobs| - 1];
      UnavailableBucket(init);
      FilterSnoc(Filter(init, IsPending), j, Having(ReasonOf, NOT_AVAIL_BUCKET));
      ContainsInside("(", REQ_NODE_NOT_AVAIL, ")");
    }
  }
}
