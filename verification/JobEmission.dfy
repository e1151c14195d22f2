/** `JobsCollector.Collect`: from the job summaries to samples. */
module JobEmission {
  import opened Prelude
  import opened Sums
  import opened Samples
  import opened JobMetrics

  datatype Desc =
    | ScrapeDuration | ScrapeError
    | UserCpu | UserMem | UserTotal
    | AccountCpu | AccountMem | AccountTotal
    | PartitionTotal
    | FeatureCpu | FeatureMem | FeatureCount
    | PendingReason

  /** Everything one collection reports. */
  datatype Tables = Tables(
    duration: Option<real>,
    errors: Option<real>,
    users: map<string, UserJobMetric>,
    accounts: map<string, AccountMetric>,
    partitions: map<string, map<string, real>>,
    features: map<string, FeatureJobMetric>,
    reasons: map<string, real>)

  const NOTHING := Tables(None, None, map[], map[], map[], map[], map[])

  function Plain(l: seq<string>, v: Option<real>): Option<real> { if l == [] then v else None }

  /** The value a table calls for under a descriptor and labels. */
  function ExpectAt(t: Tables, d: Desc, l: seq<string>): Option<real> {
    match d
    case ScrapeDuration => Plain(l, t.duration)
    case ScrapeError => Plain(l, t.errors)
    case UserCpu => if |l| == 2 && l[0] in t.users then Positive(t.users[l[0]].allocCpu, l[1]) else None
    case UserMem => if |l| == 2 && l[0] in t.users then Positive(t.users[l[0]].allocMemory, l[1]) else None
    case UserTotal => if |l| == 2 && l[0] in t.users then Positive(t.users[l[0]].stateJobCount, l[1]) else None
    case AccountCpu => if |l| == 2 && l[0] in t.accounts then Positive(t.accounts[l[0]].stateAllocCpu, l[1]) else None
    case AccountMem => if |l| == 2 && l[0] in t.accounts then Positive(t.accounts[l[0]].stateAllocMem, l[1]) else None
    case AccountTotal => if |l| == 2 && l[0] in t.accounts then Positive(t.accounts[l[0]].stateJobCount, l[1]) else None
    case PartitionTotal =>
      if |l| == 2 && l[0] in t.partitions && l[1] in t.partitions[l[0]] then Some(t.partitions[l[0]][l[1]]) else None
    case FeatureCpu => if |l| == 1 && l[0] in t.features then IfPositive(t.features[l[0]].allocCpu) else None
    case FeatureMem => if |l| == 1 && l[0] in t.features then IfPositive(t.features[l[0]].allocMem) else None
    case FeatureCount => if |l| == 1 && l[0] in t.features then IfPositive(t.features[l[0]].total) else None
    case PendingReason => if |l| == 1 && l[0] in t.reasons then Some(t.reasons[l[0]]) else None
  }

  function Expect(t: Tables): (Desc, seq<string>) -> Option<real> { (d: Desc, l: seq<string>) => ExpectAt(t, d, l) }

  /** `samples` reports exactly table `t`, each entry once. */
  ghost predicate Shows(samples: seq<Sample<Desc>>, t: Tables) { Faithful(samples, Expect(t)) }

  /** Tables with no entry in common, put together. */
  ghost predicate Together(a: Tables, b: Tables, both: Tables) {
    forall d: Desc, l ::
      && (ExpectAt(a, d, l).Some? ==> ExpectAt(b, d, l).None?)
      && ExpectAt(both, d, l) == if ExpectAt(a, d, l).Some? then ExpectAt(a, d, l) else ExpectAt(b, d, l)
  }

  lemma ShowsTogether(a: seq<Sample<Desc>>, s: Tables, b: seq<Sample<Desc>>, t: Tables, both: Tables)
    requires Shows(a, s) && Shows(b, t) && Together(s, t, both)
    ensures Shows(a + b, both)
  {
    forall d: Desc, l ensures Expect(s)(d, l) == ExpectAt(s, d, l) && Expect(t)(d, l) == ExpectAt(t, d, l)
                              && Expect(both)(d, l) == ExpectAt(both, d, l) {}
    FaithfulUnion(a, Expect(s), b, Expect(t), Expect(both));
  }

  ghost predicate Single(a: Option<real>, b: Option<real>, both: Option<real>) {
    (b.None? && both == a) || (a.None? && both == b)
  }

  /** Two tables without a common key, put together column by column. */
  ghost predicate Joined(a: Tables, b: Tables, both: Tables) {
    && Single(a.duration, b.duration, both.duration) && Single(a.errors, b.errors, both.errors)
    && JoinedMaps(a.users, b.users, both.users) && JoinedMaps(a.accounts, b.accounts, both.accounts)
    && JoinedMaps(a.partitions, b.partitions, both.partitions) && JoinedMaps(a.features, b.features, both.features)
    && JoinedMaps(a.reasons, b.reasons, both.reasons)
  }

  lemma JoinedAt(s: Tables, t: Tables, both: Tables, d: Desc, l: seq<string>)
    requires Joined(s, t, both)
    ensures ExpectAt(s, d, l).Some? ==> ExpectAt(t, d, l).None?
    ensures ExpectAt(both, d, l) == if ExpectAt(s, d, l).Some? then ExpectAt(s, d, l) else ExpectAt(t, d, l)
  {
    if |l| > 0 {
      match d {
        case UserCpu | UserMem | UserTotal => JoinedAtKey(s.users, t.users, both.users, l[0]);
        case AccountCpu | AccountMem | AccountTotal => JoinedAtKey(s.accounts, t.accounts, both.accounts, l[0]);
        case PartitionTotal => JoinedAtKey(s.partitions, t.partitions, both.partitions, l[0]);
        case FeatureCpu | FeatureMem | FeatureCount => JoinedAtKey(s.features, t.features, both.features, l[0]);
        case PendingReason => JoinedAtKey(s.reasons, t.reasons, both.reasons, l[0]);
        case _ =>
      }
    }
  }

  lemma ShowsJoined(a: seq<Sample<Desc>>, s: Tables, b: seq<Sample<Desc>>, t: Tables, both: Tables)
    requires Shows(a, s) && Shows(b, t) && Joined(s, t, both)
    ensures Shows(a + b, both)
  {
    forall d: Desc, l
      ensures ExpectAt(s, d, l).Some? ==> ExpectAt(t, d, l).None?
      ensures ExpectAt(both, d, l) == if ExpectAt(s, d, l).Some? then ExpectAt(s, d, l) else ExpectAt(t, d, l)
    {
      JoinedAt(s, t, both, d, l);
    }
    ShowsTogether(a, s, b, t, both);
  }

  lemma ShowsFamily(out: seq<Sample<Desc>>, d0: Desc, name: string, m: map<string, real>, t: Tables)
    requires Faithful(out, StateFamily(d0, name, m))
    requires forall d: Desc, l :: ExpectAt(t, d, l) == StateFamilyAt(d0, name, m, d, l)
    ensures Shows(out, t)
  {
    FaithfulSame(out, StateFamily(d0, name, m), Expect(t));
  }

  lemma ShowsOne(d0: Desc, l0: seq<string>, v: real, t: Tables)
    requires forall d: Desc, l :: ExpectAt(t, d, l) == if d == d0 && l == l0 then Some(v) else None
    ensures Shows([Sample(d0, l0, v)], t)
  {
    FaithfulOne(d0, l0, v, Expect(t));
  }

  lemma ShowsNothing()
    ensures Shows([], NOTHING)
  {
    FaithfulEmpty(Expect(NOTHING));
  }

  // ---------- one user, one account, one partition, one feature ----------

  function OneUser(u: string, m: UserJobMetric): Tables { NOTHING.(users := map[u := m]) }

  lemma UserTogetherTwo(u: string, m: UserJobMetric)
    ensures Together(OneUser(u, NO_USER.(allocCpu := m.allocCpu)), OneUser(u, NO_USER.(allocMemory := m.allocMemory)),
                     OneUser(u, NO_USER.(allocCpu := m.allocCpu, allocMemory := m.allocMemory)))
  {}

  lemma UserTogetherThree(u: string, m: UserJobMetric)
    ensures Together(OneUser(u, NO_USER.(allocCpu := m.allocCpu, allocMemory := m.allocMemory)),
                     OneUser(u, NO_USER.(stateJobCount := m.stateJobCount)), OneUser(u, m))
  {}

  method EmitUser(u: string, m: UserJobMetric) returns (out: seq<Sample<Desc>>)
    ensures Shows(out, OneUser(u, m))
  {
    var cpu := EmitPositive(UserCpu, u, m.allocCpu);
    var mem := EmitPositive(UserMem, u, m.allocMemory);
    var total := EmitPositive(UserTotal, u, m.stateJobCount);
    ghost var c := OneUser(u, NO_USER.(allocCpu := m.allocCpu));
    ghost var s := OneUser(u, NO_USER.(allocMemory := m.allocMemory));
    ghost var n := OneUser(u, NO_USER.(stateJobCount := m.stateJobCount));
    ghost var cs := OneUser(u, NO_USER.(allocCpu := m.allocCpu, allocMemory := m.allocMemory));
    ShowsFamily(cpu, UserCpu, u, m.allocCpu, c);
    ShowsFamily(mem, UserMem, u, m.allocMemory, s);
    ShowsFamily(total, UserTotal, u, m.stateJobCount, n);
    UserTogetherTwo(u, m);
    UserTogetherThree(u, m);
    ShowsTogether(cpu, c, mem, s, cs);
    ShowsTogether(cpu + mem, cs, total, n, OneUser(u, m));
    out := cpu + mem + total;
  }

  function OneAccount(a: string, m: AccountMetric): Tables { NOTHING.(accounts := map[a := m]) }

  lemma AccountTogetherTwo(a: string, m: AccountMetric)
    ensures Together(OneAccount(a, NO_ACCOUNT.(stateAllocCpu := m.stateAllocCpu)),
                     OneAccount(a, NO_ACCOUNT.(stateAllocMem := m.stateAllocMem)),
                     OneAccount(a, NO_ACCOUNT.(stateAllocCpu := m.stateAllocCpu, stateAllocMem := m.stateAllocMem)))
  {}

  lemma AccountTogetherThree(a: string, m: AccountMetric)
    ensures Together(OneAccount(a, NO_ACCOUNT.(stateAllocCpu := m.stateAllocCpu, stateAllocMem := m.stateAllocMem)),
                     OneAccount(a, NO_ACCOUNT.(stateJobCount := m.stateJobCount)), OneAccount(a, m))
  {}

  method EmitAccount(a: string, m: AccountMetric) returns (out: seq<Sample<Desc>>)
    ensures Shows(out, OneAccount(a, m))
  {
    var cpu := EmitPositive(AccountCpu, a, m.stateAllocCpu);
    var mem := EmitPositive(AccountMem, a, m.stateAllocMem);
    var total := EmitPositive(AccountTotal, a, m.stateJobCount);
    ghost var c := OneAccount(a, NO_ACCOUNT.(stateAllocCpu := m.stateAllocCpu));
    ghost var s := OneAccount(a, NO_ACCOUNT.(stateAllocMem := m.stateAllocMem));
    ghost var n := OneAccount(a, NO_ACCOUNT.(stateJobCount := m.stateJobCount));
    ghost var cs := OneAccount(a, NO_ACCOUNT.(stateAllocCpu := m.stateAllocCpu, stateAllocMem := m.stateAllocMem));
    ShowsFamily(cpu, AccountCpu, a, m.stateAllocCpu, c);
    ShowsFamily(mem, AccountMem, a, m.stateAllocMem, s);
    ShowsFamily(total, AccountTotal, a, m.stateJobCount, n);
    AccountTogetherTwo(a, m);
    AccountTogetherThree(a, m);
    ShowsTogether(cpu, c, mem, s, cs);
    ShowsTogether(cpu + mem, cs, total, n, OneAccount(a, m));
    out := cpu + mem + total;
  }

  function OnePartition(p: string, m: map<string, real>): Tables { NOTHING.(partitions := map[p := m]) }

  lemma PartitionTogether(p: string, done: map<string, real>, s: string, v: real)
    requires s !in done
    ensures Together(OnePartition(p, done), OnePartition(p, map[s := v]), OnePartition(p, done[s := v]))
  {}

  lemma ShowsState(p: string, s: string, v: real)
    ensures Shows([Sample(PartitionTotal, [p, s], v)], OnePartition(p, map[s := v]))
  {
    ShowsOne(PartitionTotal, [p, s], v, OnePartition(p, map[s := v]));
  }

  /** All states of a partition, whatever their count. */
  method EmitPartition(p: string, m: map<string, real>) returns (out: seq<Sample<Desc>>)
    ensures Shows(out, OnePartition(p, m))
  {
    out := [];
    ghost var done: map<string, real> := map[];
    var left := m.Keys;
    FaithfulEmpty(Expect(OnePartition(p, map[])));
    while left != {}
      invariant left <= m.Keys && done.Keys == m.Keys - left && forall s :: s in done ==> done[s] == m[s]
      invariant Shows(out, OnePartition(p, done))
      decreases left
    {
      var state := Pick(left);
      left := left - {state};
      var next := [Sample(PartitionTotal, [p, state], m[state])];
      ShowsState(p, state, m[state]);
      PartitionTogether(p, done, state, m[state]);
      ShowsTogether(out, OnePartition(p, done), next, OnePartition(p, map[state := m[state]]),
                    OnePartition(p, done[state := m[state]]));
      done := done[state := m[state]];
      out := out + next;
    }
    assert done == m;
  }

  function OneFeature(f: string, m: FeatureJobMetric): Tables { NOTHING.(features := map[f := m]) }

  method EmitIfPositive(d: Desc, f: string, v: real, ghost t: Tables) returns (out: seq<Sample<Desc>>)
    requires forall e: Desc, l :: ExpectAt(t, e, l) == if e == d && l == [f] then IfPositive(v) else None
    ensures Shows(out, t)
  {
    if v > 0.0 {
      out := [Sample(d, [f], v)];
      ShowsOne(d, [f], v, t);
    } else {
      out := [];
      FaithfulEmpty(Expect(t));
    }
  }

  lemma FeatureTogetherTwo(f: string, m: FeatureJobMetric)
    ensures Together(OneFeature(f, NO_FEATURE.(allocCpu := m.allocCpu)),
                     OneFeature(f, NO_FEATURE.(allocMem := m.allocMem)),
                     OneFeature(f, NO_FEATURE.(allocCpu := m.allocCpu, allocMem := m.allocMem)))
  {}

  lemma FeatureTogetherThree(f: string, m: FeatureJobMetric)
    ensures Together(OneFeature(f, NO_FEATURE.(allocCpu := m.allocCpu, allocMem := m.allocMem)),
                     OneFeature(f, NO_FEATURE.(total := m.total)), OneFeature(f, m))
  {}

  method EmitFeature(f: string, m: FeatureJobMetric) returns (out: seq<Sample<Desc>>)
    ensures Shows(out, OneFeature(f, m))
  {
    ghost var c := OneFeature(f, NO_FEATURE.(allocCpu := m.allocCpu));
    ghost var s := OneFeature(f, NO_FEATURE.(allocMem := m.allocMem));
    ghost var n := OneFeature(f, NO_FEATURE.(total := m.total));
    ghost var cs := OneFeature(f, NO_FEATURE.(allocCpu := m.allocCpu, allocMem := m.allocMem));
    var cpu := EmitIfPositive(FeatureCpu, f, m.allocCpu, c);
    var mem := EmitIfPositive(FeatureMem, f, m.allocMem, s);
    var total := EmitIfPositive(FeatureCount, f, m.total, n);
    FeatureTogetherTwo(f, m);
    FeatureTogetherThree(f, m);
    ShowsTogether(cpu, c, mem, s, cs);
    ShowsTogether(cpu + mem, cs, total, n, OneFeature(f, m));
    out := cpu + mem + total;
  }

  // ---------- whole tables ----------

  method EmitUsers(t: map<string, UserJobMetric>) returns (out: seq<Sample<Desc>>)
    ensures Shows(out, NOTHING.(users := t))
  {
    out := [];
    ghost var done: map<string, UserJobMetric> := map[];
    ShowsNothing();
    var left := t.Keys;
    while left != {}
      invariant left <= t.Keys && done.Keys == t.Keys - left && forall u :: u in done ==> done[u] == t[u]
      invariant Shows(out, NOTHING.(users := done))
      decreases left
    {
      var user := Pick(left);
      left := left - {user};
      var next := EmitUser(user, t[user]);
      ShowsJoined(out, NOTHING.(users := done), next, OneUser(user, t[user]),
                  NOTHING.(users := done[user := t[user]]));
      done := done[user := t[user]];
      out := out + next;
    }
    assert done == t;
  }

  method EmitAccounts(t: map<string, AccountMetric>) returns (out: seq<Sample<Desc>>)
    ensures Shows(out, NOTHING.(accounts := t))
  {
    out := [];
    ghost var done: map<string, AccountMetric> := map[];
    ShowsNothing();
    var left := t.Keys;
    while left != {}
      invariant left <= t.Keys && done.Keys == t.Keys - left && forall a :: a in done ==> done[a] == t[a]
      invariant Shows(out, NOTHING.(accounts := done))
      decreases left
    {
      var account := Pick(left);
      left := left - {account};
      var next := EmitAccount(account, t[account]);
      ShowsJoined(out, NOTHING.(accounts := done), next, OneAccount(account, t[account]),
                  NOTHING.(accounts := done[account := t[account]]));
      done := done[account := t[account]];
      out := out + next;
    }
    assert done == t;
  }

  method EmitPartitions(t: map<string, map<string, real>>) returns (out: seq<Sample<Desc>>)
    ensures Shows(out, NOTHING.(partitions := t))
  {
    out := [];
    ghost var done: map<string, map<string, real>> := map[];
    ShowsNothing();
    var left := t.Keys;
    while left != {}
      invariant left <= t.Keys && done.Keys == t.Keys - left && forall p :: p in done ==> done[p] == t[p]
      invariant Shows(out, NOTHING.(partitions := done))
      decreases left
    {
      var partition := Pick(left);
      left := left - {partition};
      var next := EmitPartition(partition, t[partition]);
      ShowsJoined(out, NOTHING.(partitions := done), next, OnePartition(partition, t[partition]),
                  NOTHING.(partitions := done[partition := t[partition]]));
      done := done[partition := t[partition]];
      out := out + next;
    }
    assert done == t;
  }

  method EmitFeatures(t: map<string, FeatureJobMetric>) returns (out: seq<Sample<Desc>>)
    ensures Shows(out, NOTHING.(features := t))
  {
    out := [];
    ghost var done: map<string, FeatureJobMetric> := map[];
    ShowsNothing();
    var left := t.Keys;
    while left != {}
      invariant left <= t.Keys && done.Keys == t.Keys - left && forall f :: f in done ==> done[f] == t[f]
      invariant Shows(out, NOTHING.(features := done))
      decreases left
    {
      var feature := Pick(left);
      left := left - {feature};
      var next := EmitFeature(feature, t[feature]);
      ShowsJoined(out, NOTHING.(features := done), next, OneFeature(feature, t[feature]),
                  NOTHING.(features := done[feature := t[feature]]));
      done := done[feature := t[feature]];
      out := out + next;
    }
    assert done == t;
  }

  lemma ShowsReason(r: string, v: real)
    ensures Shows([Sample(PendingReason, [r], v)], NOTHING.(reasons := map[r := v]))
  {
    ShowsOne(PendingReason, [r], v, NOTHING.(reasons := map[r := v]));
  }

  method EmitReasons(t: map<string, real>) returns (out: seq<Sample<Desc>>)
    ensures Shows(out, NOTHING.(reasons := t))
  {
    out := [];
    ghost var done: map<string, real> := map[];
    ShowsNothing();
    var left := t.Keys;
    while left != {}
      invariant left <= t.Keys && done.Keys == t.Keys - left && forall r :: r in done ==> done[r] == t[r]
      invariant Shows(out, NOTHING.(reasons := done))
      decreases left
    {
      var reason := Pick(left);
      left := left - {reason};
      var next := [Sample(PendingReason, [reason], t[reason])];
      ShowsReason(reason, t[reason]);
      ShowsJoined(out, NOTHING.(reasons := done), next, NOTHING.(reasons := map[reason := t[reason]]),
                  NOTHING.(reasons := done[reason := t[reason]]));
      done := done[reason := t[reason]];
      out := out + next;
    }
    assert done == t;
  }

  /** What one collection should report. */
  ghost function Report(fetched: Result<seq<JobMetric>>, duration: real, errors: real): Tables {
    match fetched
    case Err => NOTHING.(duration := Some(duration), errors := Some(errors))
    case Ok(jobs) =>
      Tables(Some(duration), Some(errors), UserTable(jobs), AccountTable(jobs), PartitionTable(jobs),
             FeatureTable(Flat(jobs, UsesOf)), ReasonTable(jobs))
  }

  lemma ShowsDuration(v: real)
    ensures Shows([Sample(ScrapeDuration, [], v)], NOTHING.(duration := Some(v)))
  {
    ShowsOne(ScrapeDuration, [], v, NOTHING.(duration := Some(v)));
  }

  lemma ShowsErrors(v: real)
    ensures Shows([Sample(ScrapeError, [], v)], NOTHING.(errors := Some(v)))
  {
    ShowsOne(ScrapeError, [], v, NOTHING.(errors := Some(v)));
  }

  /** One collection: `fetched` is what the fetcher answers, `errors` its error counter at the end. */
  method Collect(fetched: Result<seq<JobMetric>>, duration: real, errors: real) returns (ch: seq<Sample<Desc>>)
    ensures Shows(ch, Report(fetched, duration, errors))
  {
    ch := [Sample(ScrapeDuration, [], duration)];
    ShowsDuration(duration);
    ghost var t := NOTHING.(duration := Some(duration));
    if fetched.Ok? {
      ch, t := CollectTables(ch, fetched.value, t);
    }
    ShowsErrors(errors);
    ShowsJoined(ch, t, [Sample(ScrapeError, [], errors)], NOTHING.(errors := Some(errors)), t.(errors := Some(errors)));
    ch := ch + [Sample(ScrapeError, [], errors)];
  }

  method CollectTables(before: seq<Sample<Desc>>, jobMetrics: seq<JobMetric>, ghost start: Tables)
    returns (ch: seq<Sample<Desc>>, ghost t: Tables)
    requires Shows(before, start) && start == NOTHING.(duration := start.duration)
    ensures Shows(ch, t)
    ensures t == Tables(start.duration, None, UserTable(jobMetrics), AccountTable(jobMetrics),
                        PartitionTable(jobMetrics), FeatureTable(Flat(jobMetrics, UsesOf)), ReasonTable(jobMetrics))
  {
    ch, t := before, start;
    var userMetrics := ParseUserJobMetrics(jobMetrics);
    var out := EmitUsers(userMetrics);
    ShowsJoined(ch, t, out, NOTHING.(users := userMetrics), t.(users := userMetrics));
    ch, t := ch + out, t.(users := userMetrics);
    var accountMetrics := ParseAccountMetrics(jobMetrics);
    out := EmitAccounts(accountMetrics);
    ShowsJoined(ch, t, out, NOTHING.(accounts := accountMetrics), t.(accounts := accountMetrics));
    ch, t := ch + out, t.(accounts := accountMetrics);
    var partitionJobMetrics := ParsePartitionJobMetrics(jobMetrics);
    out := EmitPartitions(partitionJobMetrics);
    ShowsJoined(ch, t, out, NOTHING.(partitions := partitionJobMetrics), t.(partitions := partitionJobMetrics));
    ch, t := ch + out, t.(partitions := partitionJobMetrics);
    var featureJobMetric := ParseFeatureMetric(jobMetrics);
    out := EmitFeatures(featureJobMetric);
    ShowsJoined(ch, t, out, NOTHING.(features := featureJobMetric), t.(features := featureJobMetric));
    ch, t := ch + out, t.(features := featureJobMetric);
    var stateReasonMetric := ParseStateReasonMetric(jobMetrics);
    out := EmitReasons(stateReasonMetric);
    ShowsJoined(ch, t, out, NOTHING.(reasons := stateReasonMetric), t.(reasons := stateReasonMetric));
    ch, t := ch + out, t.(reasons := stateReasonMetric);
  }

  // ---------- lossless ----------

  /** Reading a scrape gives a user's cpu figure back for every user and state, present or not,
      exactly when no user's figure is negative; likewise for the other filtered maps. */
  lemma UserReadBack(ch: seq<Sample<Desc>>, t: Tables, u: string, s: string)
    requires Shows(ch, t)
    ensures var m := UserAt(t.users, u);
            && (Read(ch, UserCpu, [u, s]) == Get(m.allocCpu, s) <==> Get(m.allocCpu, s) >= 0.0)
            && (Read(ch, UserMem, [u, s]) == Get(m.allocMemory, s) <==> Get(m.allocMemory, s) >= 0.0)
            && (Read(ch, UserTotal, [u, s]) == Get(m.stateJobCount, s) <==> Get(m.stateJobCount, s) >= 0.0)
  {
    ReadFaithful(ch, Expect(t), UserCpu, [u, s]);
    ReadFaithful(ch, Expect(t), UserMem, [u, s]);
    ReadFaithful(ch, Expect(t), UserTotal, [u, s]);
  }

  lemma AccountReadBack(ch: seq<Sample<Desc>>, t: Tables, a: string, s: string)
    requires Shows(ch, t)
    ensures var m := AccountAt(t.accounts, a);
            && (Read(ch, AccountCpu, [a, s]) == Get(m.stateAllocCpu, s) <==> Get(m.stateAllocCpu, s) >= 0.0)
            && (Read(ch, AccountMem, [a, s]) == Get(m.stateAllocMem, s) <==> Get(m.stateAllocMem, s) >= 0.0)
            && (Read(ch, AccountTotal, [a, s]) == Get(m.stateJobCount, s) <==> Get(m.stateJobCount, s) >= 0.0)
  {
    ReadFaithful(ch, Expect(t), AccountCpu, [a, s]);
    ReadFaithful(ch, Expect(t), AccountMem, [a, s]);
    ReadFaithful(ch, Expect(t), AccountTotal, [a, s]);
  }

  lemma PartitionReadBack(ch: seq<Sample<Desc>>, t: Tables, p: string, s: string)
    requires Shows(ch, t)
    ensures Read(ch, PartitionTotal, [p, s]) == Get(CountsAt(t.partitions, p), s)
  {
    ReadFaithful(ch, Expect(t), PartitionTotal, [p, s]);
  }

  lemma ReasonReadBack(ch: seq<Sample<Desc>>, t: Tables, r: string)
    requires Shows(ch, t)
    ensures Read(ch, PendingReason, [r]) == Get(t.reasons, r)
  {
    ReadFaithful(ch, Expect(t), PendingReason, [r]);
  }

  lemma FeatureReadBack(ch: seq<Sample<Desc>>, t: Tables, f: string)
    requires Shows(ch, t)
    ensures var m := FeatureAt(t.features, f);
            && (Read(ch, FeatureCpu, [f]) == m.allocCpu <==> m.allocCpu >= 0.0)
            && (Read(ch, FeatureMem, [f]) == m.allocMem <==> m.allocMem >= 0.0)
            && (Read(ch, FeatureCount, [f]) == m.total <==> m.total >= 0.0)
  {
    ReadFaithful(ch, Expect(t), FeatureCpu, [f]);
    ReadFaithful(ch, Expect(t), FeatureMem, [f]);
    ReadFaithful(ch, Expect(t), FeatureCount, [f]);
  }

  ghost predicate NonNegative(j: JobMetric) {
    j.allocCpus >= 0.0 && forall n :: n in j.allocNodes ==> j.allocNodes[n] >= 0.0
  }

  lemma GroupNonNegative(jobs: seq<JobMetric>, key: JobMetric -> string, k: string, s: string, w: JobMetric -> real)
    requires forall j :: j in jobs ==> w(j) >= 0.0
    ensures Get(ByKey(Filter(jobs, Having(key, k)), StateOf, w), s) >= 0.0
  {
    GetByKey(Filter(jobs, Having(key, k)), StateOf, w, s);
    forall j | j in JobsWith(jobs, key, k, s) ensures j in jobs {
      FilterMember(Filter(jobs, Having(key, k)), Having(StateOf, s), j);
      FilterMember(jobs, Having(key, k), j);
    }
    SumNonNegative(JobsWith(jobs, key, k, s), w);
  }

  lemma WeightsNonNegative(jobs: seq<JobMetric>)
    requires forall j :: j in jobs ==> NonNegative(j)
    ensures forall j :: j in jobs ==> CpuOf(j) >= 0.0 && MemOf(j) >= 0.0 && One(j) >= 0.0
  {
    forall j | j in jobs ensures MemOf(j) >= 0.0 { SumMapNonNegative(j.allocNodes); }
  }

  /** A scrape of jobs without negative cpus or node memory determines every user and account
      figure. */
  lemma LosslessGroups(ch: seq<Sample<Desc>>, jobs: seq<JobMetric>, duration: real, errors: real, k: string, s: string)
    requires Shows(ch, Report(Ok(jobs), duration, errors))
    requires forall j :: j in jobs ==> NonNegative(j)
    ensures var u := UserAt(UserTable(jobs), k);
            && Read(ch, UserCpu, [k, s]) == Get(u.allocCpu, s) && Read(ch, UserMem, [k, s]) == Get(u.allocMemory, s)
            && Read(ch, UserTotal, [k, s]) == Get(u.stateJobCount, s)
    ensures var a := AccountAt(AccountTable(jobs), k);
            && Read(ch, AccountCpu, [k, s]) == Get(a.stateAllocCpu, s)
            && Read(ch, AccountMem, [k, s]) == Get(a.stateAllocMem, s)
            && Read(ch, AccountTotal, [k, s]) == Get(a.stateJobCount, s)
  {
    var t := Report(Ok(jobs), duration, errors);
    WeightsNonNegative(jobs);
    GroupNonNegative(jobs, UserOf, k, s, CpuOf);
    GroupNonNegative(jobs, UserOf, k, s, MemOf);
    GroupNonNegative(jobs, UserOf, k, s, One);
    GroupNonNegative(jobs, AccountOf, k, s, CpuOf);
    GroupNonNegative(jobs, AccountOf, k, s, MemOf);
    GroupNonNegative(jobs, AccountOf, k, s, One);
    UserReadBack(ch, t, k, s);
    AccountReadBack(ch, t, k, s);
  }

  /** A feature's job is one in the list. */
  lemma {:induction false} UsedJob(jobs: seq<JobMetric>, u: Use)
    requires u in Flat(jobs, UsesOf)
    ensures u.job in jobs
  {
    var init, j := jobs[..|jobs| - 1], jobs[|jobs| - 1];
    if u in Flat(init, UsesOf) { UsedJob(init, u); }
  }

  /** And every feature figure. */
  lemma LosslessFeatures(ch: seq<Sample<Desc>>, jobs: seq<JobMetric>, duration: real, errors: real, f: string)
    requires Shows(ch, Report(Ok(jobs), duration, errors))
    requires forall j :: j in jobs ==> NonNegative(j)
    ensures var m := FeatureAt(FeatureTable(Flat(jobs, UsesOf)), f);
            && Read(ch, FeatureCpu, [f]) == m.allocCpu && Read(ch, FeatureMem, [f]) == m.allocMem
            && Read(ch, FeatureCount, [f]) == m.total
  {
    var uses := Flat(jobs, UsesOf);
    var mine := Filter(uses, Having(FeatureOf, f));
    WeightsNonNegative(jobs);
    forall u | u in mine ensures UseCpu(u) >= 0.0 && UseMem(u) >= 0.0 {
      FilterMember(uses, Having(FeatureOf, f), u);
      UsedJob(jobs, u);
    }
    SumNonNegative(mine, UseCpu);
    SumNonNegative(mine, UseMem);
    SumNonNegative(mine, One);
    FeatureReadBack(ch, Report(Ok(jobs), duration, errors), f);
  }

  /** Job counts are never negative, so they always read back: the sample of a user and state is
      the number of that user's jobs in that state, and likewise for accounts and partitions. */
  lemma CountsReadBack(ch: seq<Sample<Desc>>, jobs: seq<JobMetric>, duration: real, errors: real, k: string, s: string)
    requires Shows(ch, Report(Ok(jobs), duration, errors))
    ensures Read(ch, UserTotal, [k, s]) == |JobsWith(jobs, UserOf, k, s)| as real
    ensures Read(ch, AccountTotal, [k, s]) == |JobsWith(jobs, AccountOf, k, s)| as real
    ensures Read(ch, PartitionTotal, [k, s]) == |JobsWith(jobs, PartitionOf, k, s)| as real
  {
    var t := Report(Ok(jobs), duration, errors);
    UserReadBack(ch, t, k, s);
    AccountReadBack(ch, t, k, s);
    PartitionReadBack(ch, t, k, s);
    TableCounts(jobs, k, s);
  }

  /** The jobs of one group that are in state `s`. */
  function JobsWith(jobs: seq<JobMetric>, key: JobMetric -> string, k: string, s: string): seq<JobMetric> {
    Filter(Filter(jobs, Having(key, k)), Having(StateOf, s))
  }

  lemma TableCounts(jobs: seq<JobMetric>, k: string, s: string)
    ensures Get(UserAt(UserTable(jobs), k).stateJobCount, s) == |JobsWith(jobs, UserOf, k, s)| as real
    ensures Get(AccountAt(AccountTable(jobs), k).stateJobCount, s) == |JobsWith(jobs, AccountOf, k, s)| as real
    ensures Get(CountsAt(PartitionTable(jobs), k), s) == |JobsWith(jobs, PartitionOf, k, s)| as real
  {
    GroupCount(jobs, UserOf, k, s);
    GroupCount(jobs, AccountOf, k, s);
    GroupCount(jobs, PartitionOf, k, s);
  }

  lemma GroupCount(jobs: seq<JobMetric>, key: JobMetric -> string, k: string, s: string)
    ensures Get(ByKey(Filter(jobs, Having(key, k)), StateOf, One), s) == |JobsWith(jobs, key, k, s)| as real
    ensures k !in KeySet(jobs, key) ==> |JobsWith(jobs, key, k, s)| == 0
  {
    GetByKey(Filter(jobs, Having(key, k)), StateOf, One, s);
    SumOfOnes(JobsWith(jobs, key, k, s));
    KeyPresent(jobs, key, k);
  }
}
