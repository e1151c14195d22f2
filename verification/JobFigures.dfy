/** The job summaries figure by figure, as direct sums over the job records, and what a scrape shows of
    each. */
module JobFigures {
  import opened Prelude
  import opened Sums
  import opened Strings
  import opened Samples
  import opened JobMetrics
  import JE = JobEmission

  /** A group's share of a state is the sum over the jobs that are in both. */
  lemma GroupFigure(jobs: seq<JobMetric>, key: JobMetric -> string, k: string, s: string, w: JobMetric -> real,
                    mine: JobMetric -> bool, direct: JobMetric -> real)
    requires forall j :: mine(j) <==> key(j) == k && j.jobState == s
    requires forall j :: direct(j) == w(j)
    ensures Get(ByKey(Filter(jobs, Having(key, k)), StateOf, w), s) == Sum(Filter(jobs, mine), direct)
    ensures Get(ByKey(Filter(jobs, Having(key, k)), StateOf, One), s) == |Filter(jobs, mine)| as real
    ensures k !in KeySet(jobs, key) ==> Filter(jobs, Having(key, k)) == []
  {
    GetByKey(Filter(jobs, Having(key, k)), StateOf, w, s);
    GetByKey(Filter(jobs, Having(key, k)), StateOf, One, s);
    FilterTwice(jobs, Having(key, k), Having(StateOf, s), mine);
    SumPointwise(Filter(jobs, mine), w, direct);
    SumOfOnes(Filter(jobs, mine));
    if k !in KeySet(jobs, key) { FilterAbsent(jobs, key, k); }
  }

  /** What the user table holds of a user and a state. */
  lemma UserFigures(jobs: seq<JobMetric>, u: string, s: string)
    ensures var m := UserAt(UserTable(jobs), u);
            var mine := Filter(jobs, (j: JobMetric) => j.userName == u && j.jobState == s);
            && Get(m.allocCpu, s) == Sum(mine, (j: JobMetric) => j.allocCpus)
            && Get(m.allocMemory, s) == Sum(mine, (j: JobMetric) => SumMap(j.allocNodes))
            && Get(m.stateJobCount, s) == |mine| as real
  {
    var mine := (j: JobMetric) => j.userName == u && j.jobState == s;
    GroupFigure(jobs, UserOf, u, s, CpuOf, mine, (j: JobMetric) => j.allocCpus);
    GroupFigure(jobs, UserOf, u, s, MemOf, mine, (j: JobMetric) => SumMap(j.allocNodes));
  }

  lemma UsersListed(jobs: seq<JobMetric>, u: string)
    ensures u in UserTable(jobs) <==> exists j :: j in jobs && j.userName == u
    ensures u in UserTable(jobs) ==>
              UserTable(jobs)[u].totalJobCount == |Filter(jobs, (j: JobMetric) => j.userName == u)| as real
  {
    var mine := (j: JobMetric) => j.userName == u;
    FilterPointwise(jobs, Having(UserOf, u), mine);
    SumOfOnes(Filter(jobs, mine));
    if u in KeySet(jobs, UserOf) {
      var j :| j in jobs && UserOf(j) == u;
      assert j.userName == u;
    }
  }

  lemma AccountFigures(jobs: seq<JobMetric>, a: string, s: string)
    ensures var m := AccountAt(AccountTable(jobs), a);
            var mine := Filter(jobs, (j: JobMetric) => j.account == a && j.jobState == s);
            && Get(m.stateAllocCpu, s) == Sum(mine, (j: JobMetric) => j.allocCpus)
            && Get(m.stateAllocMem, s) == Sum(mine, (j: JobMetric) => SumMap(j.allocNodes))
            && Get(m.stateJobCount, s) == |mine| as real
  {
    var mine := (j: JobMetric) => j.account == a && j.jobState == s;
    GroupFigure(jobs, AccountOf, a, s, CpuOf, mine, (j: JobMetric) => j.allocCpus);
    GroupFigure(jobs, AccountOf, a, s, MemOf, mine, (j: JobMetric) => SumMap(j.allocNodes));
  }

  /** A partition lists a state exactly when one of its jobs is in it. */
  lemma PartitionFigures(jobs: seq<JobMetric>, p: string, s: string)
    ensures var counts := CountsAt(PartitionTable(jobs), p);
            && Get(counts, s) == |Filter(jobs, (j: JobMetric) => j.partition == p && j.jobState == s)| as real
            && (s in counts <==> exists j :: j in jobs && j.partition == p && j.jobState == s)
  {
    var mine := (j: JobMetric) => j.partition == p && j.jobState == s;
    var ofPartition := Filter(jobs, Having(PartitionOf, p));
    GroupFigure(jobs, PartitionOf, p, s, One, mine, (j: JobMetric) => 1.0);
    forall j ensures j in ofPartition <==> j in jobs && j.partition == p {
      FilterHaving(jobs, PartitionOf, p, j);
      assert PartitionOf(j) == j.partition;
    }
    if s in CountsAt(PartitionTable(jobs), p) {
      var j :| j in ofPartition && StateOf(j) == s;
      assert j.jobState == s;
    }
    if j :| j in jobs && j.partition == p && j.jobState == s {
      assert PartitionOf(j) == p && p in KeySet(jobs, PartitionOf);
      assert j in ofPartition && StateOf(j) == s;
    }
  }

  // ---------- features ----------

  /** How often a job's feature list names `f`. */
  ghost function Mentions(j: JobMetric, f: string): nat { multiset(Split(j.features, '&'))[f] }

  function UsesNamed(j: JobMetric, names: seq<string>): seq<Use> {
    seq(|names|, i requires 0 <= i < |names| => Use(j, names[i]))
  }

  ghost function Weight(uses: seq<Use>, f: string, w: Use -> real): real { Sum(Filter(uses, Having(FeatureOf, f)), w) }

  lemma NextUse(uses: seq<Use>, u: Use, f: string, w: Use -> real)
    ensures Weight(uses + [u], f, w) == Weight(uses, f, w) + if u.feature == f then w(u) else 0.0
  {
    FilterSnoc(uses, u, Having(FeatureOf, f));
    var mine := Filter(uses, Having(FeatureOf, f));
    assert FeatureOf(u) == u.feature;
    assert Having(FeatureOf, f)(u) == (u.feature == f);
    if u.feature == f {
      SumSnoc(mine, u, w);
    } else {
      assert mine + [] == mine;
    }
  }

  /** Each of the names that is `f` counts the job once. */
  lemma {:induction false} NamesCounted(j: JobMetric, names: seq<string>, f: string, w: Use -> real)
    ensures Weight(UsesNamed(j, names), f, w) == Counted(multiset(names)[f], w(Use(j, f)))
  {
    if |names| == 0 {
      CountedOnce(0, w(Use(j, f)));
    } else {
      var init, last := names[..|names| - 1], names[|names| - 1];
      NamesCounted(j, init, f, w);
      assert names == init + [last];
      assert UsesNamed(j, names) == UsesNamed(j, init) + [Use(j, last)];
      NextUse(UsesNamed(j, init), Use(j, last), f, w);
      CountedOnce(multiset(init)[f], w(Use(j, f)));
    }
  }

  lemma UsesOfJob(j: JobMetric, f: string, w: Use -> real)
    ensures Weight(UsesOf(j), f, w) == Counted(Mentions(j, f), w(Use(j, f)))
  {
    NamesCounted(j, Split(j.features, '&'), f, w);
    assert UsesOf(j) == UsesNamed(j, Split(j.features, '&'));
  }

  /** A job counts once for every time its feature list names `f`. */
  lemma {:induction false} FeatureSum(jobs: seq<JobMetric>, f: string, w: Use -> real, direct: JobMetric -> real)
    requires forall j :: direct(j) == Counted(Mentions(j, f), w(Use(j, f)))
    ensures Sum(Filter(Flat(jobs, UsesOf), Having(FeatureOf, f)), w) == Sum(jobs, direct)
  {
    if |jobs| > 0 {
      var init, j := jobs[..|jobs| - 1], jobs[|jobs| - 1];
      FeatureSum(init, f, w, direct);
      FilterAppend(Flat(init, UsesOf), UsesOf(j), Having(FeatureOf, f));
      SumAppend(Filter(Flat(init, UsesOf), Having(FeatureOf, f)), Filter(UsesOf(j), Having(FeatureOf, f)), w);
      UsesOfJob(j, f, w);
    }
  }

  lemma FeatureEntry(uses: seq<Use>, f: string)
    ensures FeatureAt(FeatureTable(uses), f) == FeatureTotals(Filter(uses, Having(FeatureOf, f)))
  {
    if f !in KeySet(uses, FeatureOf) { FilterAbsent(uses, FeatureOf, f); }
  }

  /** A feature's figures: each job's once for every time the job names the feature. */
  lemma FeatureFigures(jobs: seq<JobMetric>, f: string)
    ensures var m := FeatureAt(FeatureTable(Flat(jobs, UsesOf)), f);
            && m.allocCpu == Sum(jobs, (j: JobMetric) => Counted(Mentions(j, f), j.allocCpus))
            && m.allocMem == Sum(jobs, (j: JobMetric) => Counted(Mentions(j, f), SumMap(j.allocNodes)))
            && m.total == Sum(jobs, (j: JobMetric) => Mentions(j, f) as real)
  {
    FeatureEntry(Flat(jobs, UsesOf), f);
    FeatureSum(jobs, f, UseCpu, (j: JobMetric) => Counted(Mentions(j, f), j.allocCpus));
    FeatureSum(jobs, f, UseMem, (j: JobMetric) => Counted(Mentions(j, f), SumMap(j.allocNodes)));
    FeatureSum(jobs, f, One, (j: JobMetric) => Mentions(j, f) as real);
  }

  // ---------- pending reasons ----------

  /** Containing a text is having it between two others. */
  lemma {:induction false} ContainsMeans(s: string, sub: string)
    ensures Contains(s, sub) <==> exists a, b :: s == a + sub + b
  {
    if sub <= s {
      assert s == "" + sub + s[|sub|..];
    } else if s != "" {
      ContainsMeans(s[1..], sub);
      if Contains(s[1..], sub) {
        var a, b :| s[1..] == a + sub + b;
        assert s == ([s[0]] + a) + sub + b;
      }
    }
    if a, b :| s == a + sub + b { ContainsInside(a, sub, b); }
  }

  /** An ordinary reason counts the PENDING jobs that give exactly it, and is listed exactly when
      there is one. */
  lemma OrdinaryReasons(jobs: seq<JobMetric>, r: string)
    requires !Contains(r, "ReqNodeNotAvail, UnavailableNodes")
    ensures Get(ReasonTable(jobs), r) ==
            |Filter(jobs, (j: JobMetric) => j.jobState == "PENDING" && j.stateReason == r)| as real
    ensures r in ReasonTable(jobs) <==> exists j :: j in jobs && j.jobState == "PENDING" && j.stateReason == r
  {
    var mine := (j: JobMetric) => j.jobState == "PENDING" && j.stateReason == r;
    ContainsInside("(", "ReqNodeNotAvail, UnavailableNodes", ")");
    ReasonCount(jobs, r, mine);
  }

  /** All reasons that mention an unavailable node are counted together. */
  lemma UnavailableReasons(jobs: seq<JobMetric>)
    ensures var mine := Filter(jobs, (j: JobMetric) =>
              j.jobState == "PENDING" && Contains(j.stateReason, "ReqNodeNotAvail, UnavailableNodes"));
            Get(ReasonTable(jobs), "(ReqNodeNotAvail, UnavailableNodes)") == |mine| as real
    ensures forall r :: r in ReasonTable(jobs) && Contains(r, "ReqNodeNotAvail, UnavailableNodes") ==>
                          r == "(ReqNodeNotAvail, UnavailableNodes)"
  {
    var bucket := "(ReqNodeNotAvail, UnavailableNodes)";
    var mine := (j: JobMetric) =>
      j.jobState == "PENDING" && Contains(j.stateReason, "ReqNodeNotAvail, UnavailableNodes");
    assert bucket == NOT_AVAIL_BUCKET;
    ContainsInside("(", "ReqNodeNotAvail, UnavailableNodes", ")");
    ReasonCount(jobs, bucket, mine);
    ReasonsConserved(jobs);
  }

  lemma ReasonCount(jobs: seq<JobMetric>, r: string, mine: JobMetric -> bool)
    requires forall j :: mine(j) <==> IsPending(j) && ReasonOf(j) == r
    ensures Get(ReasonTable(jobs), r) == |Filter(jobs, mine)| as real
    ensures r in ReasonTable(jobs) <==> exists j :: j in jobs && mine(j)
  {
    var pending := Filter(jobs, IsPending);
    GetByKey(pending, ReasonOf, One, r);
    FilterTwice(jobs, IsPending, Having(ReasonOf, r), mine);
    SumOfOnes(Filter(jobs, mine));
    forall j ensures j in pending <==> j in jobs && IsPending(j) {
      FilterMember(jobs, IsPending, j);
    }
    if r in KeySet(pending, ReasonOf) {
      var j :| j in pending && ReasonOf(j) == r;
      assert j in jobs && mine(j);
    }
  }

  // ---------- what a scrape shows ----------

  ghost predicate ShowsJobs(ch: seq<Sample<JE.Desc>>, jobs: seq<JobMetric>, duration: real, errors: real) {
    JE.Shows(ch, JE.Report(Ok(jobs), duration, errors))
  }

  /** A sample is there exactly for a positive figure, and then it is the figure. */
  ghost predicate ShownIfPositive(ch: seq<Sample<JE.Desc>>, d: JE.Desc, l: seq<string>, v: real) {
    (Has(ch, d, l) <==> v > 0.0) && (v > 0.0 ==> Read(ch, d, l) == v)
  }

  lemma UserSamples(ch: seq<Sample<JE.Desc>>, jobs: seq<JobMetric>, duration: real, errors: real, u: string, s: string)
    requires ShowsJobs(ch, jobs, duration, errors)
    ensures var mine := Filter(jobs, (j: JobMetric) => j.userName == u && j.jobState == s);
            && ShownIfPositive(ch, JE.UserCpu, [u, s], Sum(mine, (j: JobMetric) => j.allocCpus))
            && ShownIfPositive(ch, JE.UserMem, [u, s], Sum(mine, (j: JobMetric) => SumMap(j.allocNodes)))
            && ShownIfPositive(ch, JE.UserTotal, [u, s], |mine| as real)
  {
    var t := JE.Report(Ok(jobs), duration, errors);
    UserFigures(jobs, u, s);
    UserSample(ch, t, u, s);
  }

  lemma UserSample(ch: seq<Sample<JE.Desc>>, t: JE.Tables, u: string, s: string)
    requires JE.Shows(ch, t)
    ensures var m := UserAt(t.users, u);
            && ShownIfPositive(ch, JE.UserCpu, [u, s], Get(m.allocCpu, s))
            && ShownIfPositive(ch, JE.UserMem, [u, s], Get(m.allocMemory, s))
            && ShownIfPositive(ch, JE.UserTotal, [u, s], Get(m.stateJobCount, s))
  {
    JE.UserReadBack(ch, t, u, s);
    HasFaithful(ch, JE.Expect(t), JE.UserCpu, [u, s]);
    HasFaithful(ch, JE.Expect(t), JE.UserMem, [u, s]);
    HasFaithful(ch, JE.Expect(t), JE.UserTotal, [u, s]);
  }

  lemma AccountSamples(ch: seq<Sample<JE.Desc>>, jobs: seq<JobMetric>, duration: real, errors: real,
                       a: string, s: string)
    requires ShowsJobs(ch, jobs, duration, errors)
    ensures var mine := Filter(jobs, (j: JobMetric) => j.account == a && j.jobState == s);
            && ShownIfPositive(ch, JE.AccountCpu, [a, s], Sum(mine, (j: JobMetric) => j.allocCpus))
            && ShownIfPositive(ch, JE.AccountMem, [a, s], Sum(mine, (j: JobMetric) => SumMap(j.allocNodes)))
            && ShownIfPositive(ch, JE.AccountTotal, [a, s], |mine| as real)
  {
    var t := JE.Report(Ok(jobs), duration, errors);
    AccountFigures(jobs, a, s);
    AccountSample(ch, t, a, s);
  }

  lemma AccountSample(ch: seq<Sample<JE.Desc>>, t: JE.Tables, a: string, s: string)
    requires JE.Shows(ch, t)
    ensures var m := AccountAt(t.accounts, a);
            && ShownIfPositive(ch, JE.AccountCpu, [a, s], Get(m.stateAllocCpu, s))
            && ShownIfPositive(ch, JE.AccountMem, [a, s], Get(m.stateAllocMem, s))
            && ShownIfPositive(ch, JE.AccountTotal, [a, s], Get(m.stateJobCount, s))
  {
    JE.AccountReadBack(ch, t, a, s);
    HasFaithful(ch, JE.Expect(t), JE.AccountCpu, [a, s]);
    HasFaithful(ch, JE.Expect(t), JE.AccountMem, [a, s]);
    HasFaithful(ch, JE.Expect(t), JE.AccountTotal, [a, s]);
  }

  lemma PartitionSamples(ch: seq<Sample<JE.Desc>>, jobs: seq<JobMetric>, duration: real, errors: real,
                         p: string, s: string)
    requires ShowsJobs(ch, jobs, duration, errors)
    ensures Read(ch, JE.PartitionTotal, [p, s]) ==
            |Filter(jobs, (j: JobMetric) => j.partition == p && j.jobState == s)| as real
    ensures Has(ch, JE.PartitionTotal, [p, s]) <==> exists j :: j in jobs && j.partition == p && j.jobState == s
  {
    var t := JE.Report(Ok(jobs), duration, errors);
    PartitionFigures(jobs, p, s);
    JE.PartitionReadBack(ch, t, p, s);
    HasFaithful(ch, JE.Expect(t), JE.PartitionTotal, [p, s]);
  }

  lemma FeatureSamples(ch: seq<Sample<JE.Desc>>, jobs: seq<JobMetric>, duration: real, errors: real, f: string)
    requires ShowsJobs(ch, jobs, duration, errors)
    ensures ShownIfPositive(ch, JE.FeatureCpu, [f], Sum(jobs, (j: JobMetric) => Counted(Mentions(j, f), j.allocCpus)))
    ensures ShownIfPositive(ch, JE.FeatureMem, [f],
                            Sum(jobs, (j: JobMetric) => Counted(Mentions(j, f), SumMap(j.allocNodes))))
    ensures ShownIfPositive(ch, JE.FeatureCount, [f], Sum(jobs, (j: JobMetric) => Mentions(j, f) as real))
  {
    var t := JE.Report(Ok(jobs), duration, errors);
    FeatureFigures(jobs, f);
    FeatureSample(ch, t, f);
  }

  lemma FeatureSample(ch: seq<Sample<JE.Desc>>, t: JE.Tables, f: string)
    requires JE.Shows(ch, t)
    ensures var m := FeatureAt(t.features, f);
            && ShownIfPositive(ch, JE.FeatureCpu, [f], m.allocCpu)
            && ShownIfPositive(ch, JE.FeatureMem, [f], m.allocMem)
            && ShownIfPositive(ch, JE.FeatureCount, [f], m.total)
  {
    JE.FeatureReadBack(ch, t, f);
    HasFaithful(ch, JE.Expect(t), JE.FeatureCpu, [f]);
    HasFaithful(ch, JE.Expect(t), JE.FeatureMem, [f]);
    HasFaithful(ch, JE.Expect(t), JE.FeatureCount, [f]);
  }

  /** The pending samples are those of the reason table, whatever their value. */
  lemma ReasonSamples(ch: seq<Sample<JE.Desc>>, jobs: seq<JobMetric>, duration: real, errors: real, r: string)
    requires ShowsJobs(ch, jobs, duration, errors)
    requires !Contains(r, "ReqNodeNotAvail, UnavailableNodes")
    ensures Read(ch, JE.PendingReason, [r]) ==
            |Filter(jobs, (j: JobMetric) => j.jobState == "PENDING" && j.stateReason == r)| as real
    ensures Has(ch, JE.PendingReason, [r]) <==>
            exists j :: j in jobs && j.jobState == "PENDING" && j.stateReason == r
  {
    var t := JE.Report(Ok(jobs), duration, errors);
    OrdinaryReasons(jobs, r);
    JE.ReasonReadBack(ch, t, r);
    HasFaithful(ch, JE.Expect(t), JE.PendingReason, [r]);
  }

  lemma UnavailableSample(ch: seq<Sample<JE.Desc>>, jobs: seq<JobMetric>, duration: real, errors: real)
    requires ShowsJobs(ch, jobs, duration, errors)
    ensures var mine := Filter(jobs, (j: JobMetric) =>
              j.jobState == "PENDING" && Contains(j.stateReason, "ReqNodeNotAvail, UnavailableNodes"));
            Read(ch, JE.PendingReason, ["(ReqNodeNotAvail, UnavailableNodes)"]) == |mine| as real
  {
    UnavailableReasons(jobs);
    JE.ReasonReadBack(ch, JE.Report(Ok(jobs), duration, errors), "(ReqNodeNotAvail, UnavailableNodes)");
  }

  lemma PlainSample(ch: seq<Sample<JE.Desc>>, t: JE.Tables, d: JE.Desc, v: real)
    requires JE.Shows(ch, t) && JE.ExpectAt(t, d, []) == Some(v)
    ensures Has(ch, d, []) && Read(ch, d, []) == v
  {
    ReadFaithful(ch, JE.Expect(t), d, []);
    HasFaithful(ch, JE.Expect(t), d, []);
  }

  /** Duration and error counter are always there. */
  lemma AlwaysReported(ch: seq<Sample<JE.Desc>>, fetched: Result<seq<JobMetric>>, duration: real, errors: real)
    requires JE.Shows(ch, JE.Report(fetched, duration, errors))
    ensures Has(ch, JE.ScrapeDuration, []) && Read(ch, JE.ScrapeDuration, []) == duration
    ensures Has(ch, JE.ScrapeError, []) && Read(ch, JE.ScrapeError, []) == errors
  {
    var t := JE.Report(fetched, duration, errors);
    PlainSample(ch, t, JE.ScrapeDuration, duration);
    PlainSample(ch, t, JE.ScrapeError, errors);
  }

  /** After a failed fetch nothing else is. */
  lemma NothingElseOnFailure(ch: seq<Sample<JE.Desc>>, duration: real, errors: real)
    requires JE.Shows(ch, JE.Report(Err, duration, errors))
    ensures forall i :: 0 <= i < |ch| ==> ch[i].desc.ScrapeDuration? || ch[i].desc.ScrapeError?
  {
    var t := JE.Report(Err, duration, errors);
    forall i | 0 <= i < |ch| ensures ch[i].desc.ScrapeDuration? || ch[i].desc.ScrapeError? {
      assert JE.Expect(t)(ch[i].desc, ch[i].labels) == JE.ExpectAt(t, ch[i].desc, ch[i].labels);
    }
  }
}
