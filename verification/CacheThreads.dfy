/** `FetchOrThrottle` under concurrency: any number of callers, each stepping through lock, age
    check, fetch, store, stamp and unlock, interleaved with each other and with a clock that only
    moves forward.  Every run is shown to be a history of the sequential cache in lock order. */
module CacheThreads {
  import opened Prelude
  import opened ThrottledCache

  /** Where a caller is.  `Storing` has written `cache` and `duration` but not yet `t`. */
  datatype Pc<+C> =
    | Waiting
    | Checking
    | Missed(check: real)
    | Fetching(check: real, begin: real)
    | Storing(check: real, begin: real, returned: real, data: seq<C>)
    | Returning(result: Result<seq<C>>)
    | Done(result: Result<seq<C>>)

  /** A completed critical section: who, under which readings, with which result. */
  datatype Entry<+C> = Entry(id: nat, call: Call<C>, result: Result<seq<C>>)

  datatype System<+C> = System(
    limit: real,
    now: real,
    owner: Option<nat>,
    shared: State<C>,
    threads: map<nat, Pc<C>>,
    log: seq<Entry<C>>)

  datatype Step<+C> =
    | Tick(to: real)
    | Enter(id: nat)
    | Acquire(id: nat)
    | Check(id: nat)
    | Begin(id: nat)
    | FetchFails(id: nat)
    | FetchReturns(id: nat, data: seq<C>)
    | Stamp(id: nat)
    | Release(id: nat)

  function Start<C>(limit: real, t0: real): System<C> {
    System(limit, t0, None, Initial(t0), map[], [])
  }

  predicate Enabled<C>(s: System<C>, step: Step<C>) {
    match step
    case Tick(to) => s.now <= to
    case Enter(id) => id !in s.threads
    case Acquire(id) => id in s.threads && s.threads[id].Waiting? && s.owner == None
    case Check(id) => id in s.threads && s.threads[id].Checking?
    case Begin(id) => id in s.threads && s.threads[id].Missed?
    case FetchFails(id) => id in s.threads && s.threads[id].Fetching?
    case FetchReturns(id, _) => id in s.threads && s.threads[id].Fetching?
    case Stamp(id) => id in s.threads && s.threads[id].Storing?
    case Release(id) => id in s.threads && s.threads[id].Returning?
  }

  function At<C>(s: System<C>, id: nat, pc: Pc<C>): System<C> { s.(threads := s.threads[id := pc]) }

  function Finish<C>(s: System<C>, id: nat, call: Call<C>, result: Result<seq<C>>): System<C> {
    At(s, id, Returning(result)).(log := s.log + [Entry(id, call, result)])
  }

  function Do<C>(s: System<C>, step: Step<C>): System<C>
    requires Enabled(s, step)
  {
    match step
    case Tick(to) => s.(now := to)
    case Enter(id) => At(s, id, Waiting)
    case Acquire(id) => At(s, id, Checking).(owner := Some(id))
    case Check(id) =>
      if Hit(s.shared, s.limit, s.now) then
        Finish(s, id, Call(s.now, s.now, s.now, s.now, Failed), Ok(s.shared.cache))
      else At(s, id, Missed(s.now))
    case Begin(id) => At(s, id, Fetching(s.threads[id].check, s.now))
    case FetchFails(id) =>
      var pc := s.threads[id];
      Finish(s, id, Call(pc.check, pc.begin, s.now, s.now, Failed), Err)
    case FetchReturns(id, data) =>
      var pc := s.threads[id];
      At(s, id, Storing(pc.check, pc.begin, s.now, data))
        .(shared := s.shared.(cache := data, duration := s.now - pc.begin))
    case Stamp(id) =>
      var pc := s.threads[id];
      Finish(s, id, Call(pc.check, pc.begin, pc.returned, s.now, Data(pc.data)), Ok(pc.data))
        .(shared := s.shared.(t := s.now))
    case Release(id) => At(s, id, Done(s.threads[id].result)).(owner := None)
  }

  /** The state a run reaches, `None` if some step is not enabled where it is taken. */
  function Run<C>(s: System<C>, steps: seq<Step<C>>): Option<System<C>> {
    if |steps| == 0 then Some(s)
    else
      match Run(s, steps[..|steps| - 1])
      case None => None
      case Some(mid) =>
        if Enabled(mid, steps[|steps| - 1]) then Some(Do(mid, steps[|steps| - 1])) else None
  }

  // ---------- the invariant ----------

  function Calls<C>(log: seq<Entry<C>>): seq<Call<C>> { seq(|log|, i requires 0 <= i < |log| => log[i].call) }

  function Sequential<C>(s: System<C>, t0: real): State<C> {
    After(t0, s.limit, Calls(s.log), |s.log|)
  }

  predicate InCritical<C>(pc: Pc<C>) { !pc.Waiting? && !pc.Done? }

  /** The lock is held by exactly the caller that is past `Lock` and before `Unlock`. */
  ghost predicate LockInv<C>(s: System<C>) {
    && (s.owner.Some? ==> s.owner.value in s.threads)
    && forall id :: id in s.threads ==> (InCritical(s.threads[id]) <==> s.owner == Some(id))
  }

  ghost predicate ClockInv<C>(s: System<C>) {
    && History(Calls(s.log))
    && (|s.log| > 0 ==> s.log[|s.log| - 1].call.stamp <= s.now)
  }

  /** What the lock holder has read and written so far. */
  ghost predicate HolderInv<C>(s: System<C>, t0: real) {
    var seqState := Sequential(s, t0);
    var last := if |s.log| > 0 then s.log[|s.log| - 1].call.stamp else t0;
    match if s.owner.Some? && s.owner.value in s.threads then s.threads[s.owner.value] else Waiting
    case Missed(check) =>
      s.shared == seqState && last <= check <= s.now && !Hit(seqState, s.limit, check)
    case Fetching(check, begin) =>
      s.shared == seqState && last <= check <= begin <= s.now && !Hit(seqState, s.limit, check)
    case Storing(check, begin, returned, data) =>
      && s.shared == State(data, seqState.t, returned - begin)
      && last <= check <= begin <= returned <= s.now && !Hit(seqState, s.limit, check)
    case _ => s.shared == seqState
  }

  ghost predicate Returned<C>(pc: Pc<C>) { pc.Returning? || pc.Done? }

  /** The log has one entry for each caller that has a result, with that result. */
  ghost predicate EntriesInv<C>(s: System<C>) {
    && (forall i :: 0 <= i < |s.log| ==>
          && s.log[i].id in s.threads && Returned(s.threads[s.log[i].id])
          && s.threads[s.log[i].id].result == s.log[i].result)
    && (forall i, j :: 0 <= i < j < |s.log| ==> s.log[i].id != s.log[j].id)
  }

  ghost predicate OwnersInv<C>(s: System<C>) {
    forall id :: id in s.threads && Returned(s.threads[id]) ==> exists i :: 0 <= i < |s.log| && s.log[i].id == id
  }

  /** The sequential cache gives each caller the result it has. */
  ghost predicate ReplayInv<C>(s: System<C>, t0: real) {
    forall i :: 0 <= i < |s.log| ==> s.log[i].result == ResultAt(t0, s.limit, Calls(s.log), i)
  }

  ghost predicate LogInv<C>(s: System<C>, t0: real) { EntriesInv(s) && OwnersInv(s) && ReplayInv(s, t0) }

  ghost predicate Inv<C>(s: System<C>, t0: real) {
    t0 <= s.now && LockInv(s) && ClockInv(s) && HolderInv(s, t0) && LogInv(s, t0)
  }

  // ---------- every step keeps it ----------

  lemma LockKept<C>(s: System<C>, step: Step<C>)
    requires LockInv(s) && Enabled(s, step)
    ensures LockInv(Do(s, step))
  {
    match step {
      case Tick(_) =>
      case Enter(id) =>
      case Acquire(id) =>
      case Check(id) =>
      case Begin(id) =>
      case FetchFails(id) =>
      case FetchReturns(id, _) =>
      case Stamp(id) =>
      case Release(id) =>
    }
  }

  /** Steps that add no log entry give nobody a new result. */
  ghost predicate Quiet<C>(s: System<C>, s': System<C>) {
    && s'.log == s.log && s'.limit == s.limit && s.now <= s'.now
    && forall id :: (id in s'.threads && Returned(s'.threads[id])) == (id in s.threads && Returned(s.threads[id]))
                    && (id in s.threads && Returned(s.threads[id]) ==>
                          s'.threads[id].result == s.threads[id].result)
  }

  lemma LogKept<C>(s: System<C>, s': System<C>, t0: real)
    requires LogInv(s, t0) && Quiet(s, s')
    ensures LogInv(s', t0)
  {}

  lemma ClockKept<C>(s: System<C>, s': System<C>)
    requires ClockInv(s) && s'.log == s.log && s.now <= s'.now
    ensures ClockInv(s')
  {}

  predicate IsQuiet<C>(s: System<C>, step: Step<C>) {
    match step
    case Check(_) => !Hit(s.shared, s.limit, s.now)
    case FetchFails(_) => false
    case Stamp(_) => false
    case _ => true
  }

  lemma QuietSteps<C>(s: System<C>, step: Step<C>)
    requires Enabled(s, step) && IsQuiet(s, step)
    ensures Quiet(s, Do(s, step))
  {
    var s' := Do(s, step);
    match step {
      case Tick(_) =>
      case Enter(id) =>
      case Acquire(id) =>
      case Check(id) =>
      case Begin(id) =>
      case FetchReturns(id, _) =>
      case Release(id) => assert s'.threads[id].result == s.threads[id].result;
    }
  }

  lemma HolderKept<C>(s: System<C>, t0: real, step: Step<C>)
    requires t0 <= s.now && LockInv(s) && ClockInv(s) && HolderInv(s, t0)
    requires Enabled(s, step) && IsQuiet(s, step)
    ensures HolderInv(Do(s, step), t0)
  {
    var s' := Do(s, step);
    assert s'.log == s.log && s'.limit == s.limit;
    assert Sequential(s', t0) == Sequential(s, t0);
    match step {
      case Tick(_) =>
      case Enter(id) =>
      case Acquire(id) =>
      case Check(id) => assert s.owner == Some(id);
      case Begin(id) => assert s.owner == Some(id);
      case FetchReturns(id, _) => assert s.owner == Some(id);
      case Release(id) => assert s.owner == Some(id);
    }
  }

  lemma {:induction false} AfterPrefix<C>(t0: real, limit: real, calls: seq<Call<C>>, more: seq<Call<C>>, n: nat)
    requires n <= |calls|
    ensures After(t0, limit, calls + more, n) == After(t0, limit, calls, n)
  {
    if n > 0 { AfterPrefix(t0, limit, calls, more, n - 1); }
  }

  lemma HistorySnoc<C>(calls: seq<Call<C>>, call: Call<C>)
    requires History(calls) && call.Ordered()
    requires |calls| > 0 ==> calls[|calls| - 1].stamp <= call.check
    ensures History(calls + [call])
  {
    forall i | 0 <= i < |calls| ensures calls[i].stamp <= call.check {
      if i < |calls| - 1 {
        assert calls[i].stamp <= calls[|calls| - 1].check;
        assert calls[|calls| - 1].Ordered();
      }
    }
  }

  /** Closing a critical section appends one sequential call. */
  lemma FinishClock<C>(s: System<C>, id: nat, call: Call<C>, result: Result<seq<C>>)
    requires ClockInv(s) && call.Ordered() && call.stamp <= s.now
    requires |s.log| > 0 ==> s.log[|s.log| - 1].call.stamp <= call.check
    ensures ClockInv(Finish(s, id, call, result))
    ensures Calls(Finish(s, id, call, result).log) == Calls(s.log) + [call]
  {
    HistorySnoc(Calls(s.log), call);
    assert Calls(Finish(s, id, call, result).log) == Calls(s.log) + [call];
  }

  lemma FinishState<C>(s: System<C>, t0: real, id: nat, call: Call<C>, result: Result<seq<C>>)
    ensures Sequential(Finish(s, id, call, result), t0) == Next(Sequential(s, t0), s.limit, call)
  {
    assert Calls(Finish(s, id, call, result).log) == Calls(s.log) + [call];
    AfterPrefix(t0, s.limit, Calls(s.log), [call], |s.log|);
  }

  lemma FinishResult<C>(s: System<C>, t0: real, id: nat, call: Call<C>, result: Result<seq<C>>, i: nat)
    requires i <= |s.log|
    requires i < |s.log| ==> s.log[i].result == ResultAt(t0, s.limit, Calls(s.log), i)
    requires result == Reply(Sequential(s, t0), s.limit, call)
    ensures var s' := Finish(s, id, call, result);
            s'.log[i].result == ResultAt(t0, s.limit, Calls(s'.log), i)
  {
    var calls := Calls(s.log);
    assert Calls(Finish(s, id, call, result).log) == calls + [call];
    AfterPrefix(t0, s.limit, calls, [call], i);
  }

  lemma FinishReplay<C>(s: System<C>, t0: real, id: nat, call: Call<C>, result: Result<seq<C>>)
    requires ReplayInv(s, t0) && result == Reply(Sequential(s, t0), s.limit, call)
    ensures ReplayInv(Finish(s, id, call, result), t0)
  {
    forall i | 0 <= i < |s.log| + 1
      ensures var s' := Finish(s, id, call, result);
              s'.log[i].result == ResultAt(t0, s.limit, Calls(s'.log), i)
    {
      FinishResult(s, t0, id, call, result, i);
    }
  }

  lemma FinishEntries<C>(s: System<C>, id: nat, call: Call<C>, result: Result<seq<C>>)
    requires EntriesInv(s) && id in s.threads && !Returned(s.threads[id])
    ensures EntriesInv(Finish(s, id, call, result))
  {
    assert forall i :: 0 <= i < |s.log| ==> s.log[i].id != id;
  }

  lemma FinishLog<C>(s: System<C>, t0: real, id: nat, call: Call<C>, result: Result<seq<C>>)
    requires LogInv(s, t0) && id in s.threads && !Returned(s.threads[id])
    requires result == Reply(Sequential(s, t0), s.limit, call)
    ensures LogInv(Finish(s, id, call, result), t0)
  {
    FinishReplay(s, t0, id, call, result);
    FinishEntries(s, id, call, result);
    FinishOwners(s, id, call, result);
  }

  lemma FinishOwners<C>(s: System<C>, id: nat, call: Call<C>, result: Result<seq<C>>)
    requires OwnersInv(s)
    ensures OwnersInv(Finish(s, id, call, result))
  {
    var s' := Finish(s, id, call, result);
    forall k | k in s'.threads && Returned(s'.threads[k])
      ensures exists i :: 0 <= i < |s'.log| && s'.log[i].id == k
    {
      if k == id {
        assert s'.log[|s.log|].id == id;
      } else {
        var i :| 0 <= i < |s.log| && s.log[i].id == k;
        assert s'.log[i].id == k;
      }
    }
  }

  lemma FinishKeepsInv<C>(s: System<C>, t0: real, id: nat, call: Call<C>, result: Result<seq<C>>, s': System<C>)
    requires t0 <= s.now && ClockInv(s) && LogInv(s, t0)
    requires id in s.threads && s.owner == Some(id) && !Returned(s.threads[id])
    requires call.Ordered() && call.stamp <= s.now
    requires |s.log| > 0 ==> s.log[|s.log| - 1].call.stamp <= call.check
    requires result == Reply(Sequential(s, t0), s.limit, call)
    requires s' == Finish(s, id, call, result).(shared := s'.shared)
    requires s'.shared == Next(Sequential(s, t0), s.limit, call)
    requires LockInv(s')
    ensures Inv(s', t0)
  {
    var f := Finish(s, id, call, result);
    FinishClock(s, id, call, result);
    FinishState(s, t0, id, call, result);
    FinishLog(s, t0, id, call, result);
    SharedIrrelevant(f, s', t0);
    assert s'.threads[id] == Returning(result) && s'.owner == Some(id);
  }

  lemma SharedIrrelevant<C>(s: System<C>, m: System<C>, t0: real)
    requires m == s.(shared := m.shared) && ClockInv(s) && LogInv(s, t0)
    ensures ClockInv(m) && LogInv(m, t0) && Sequential(m, t0) == Sequential(s, t0)
  {
    assert Quiet(s, m);
    LogKept(s, m, t0);
  }

  lemma CheckHitKeepsInv<C>(s: System<C>, t0: real, id: nat)
    requires Inv(s, t0) && Enabled(s, Check(id)) && Hit(s.shared, s.limit, s.now)
    ensures Inv(Do(s, Check(id)), t0)
  {
    LockKept(s, Check(id));
    FinishKeepsInv(s, t0, id, Call(s.now, s.now, s.now, s.now, Failed), Ok(s.shared.cache),
                   Do(s, Check(id)));
  }

  lemma FailKeepsInv<C>(s: System<C>, t0: real, id: nat)
    requires Inv(s, t0) && Enabled(s, FetchFails(id))
    ensures Inv(Do(s, FetchFails(id)), t0)
  {
    LockKept(s, FetchFails(id));
    var pc := s.threads[id];
    assert s.owner == Some(id);
    FinishKeepsInv(s, t0, id, Call(pc.check, pc.begin, s.now, s.now, Failed), Err, Do(s, FetchFails(id)));
  }

  /** Storing the fetched snapshot is the sequential cache's step for this call. */
  lemma StampIsNext<C>(s: System<C>, t0: real, id: nat, call: Call<C>)
    requires LockInv(s) && HolderInv(s, t0) && Enabled(s, Stamp(id))
    requires var pc := s.threads[id];
             call == Call(pc.check, pc.begin, pc.returned, s.now, Data(pc.data))
    ensures s.owner == Some(id)
    ensures call.Ordered() && |s.log| > 0 ==> s.log[|s.log| - 1].call.stamp <= call.check
    ensures call.Ordered()
    ensures s.shared.(t := s.now) == Next(Sequential(s, t0), s.limit, call)
    ensures Ok(s.threads[id].data) == Reply(Sequential(s, t0), s.limit, call)
  {
    assert s.owner == Some(id);
  }

  lemma StampKeepsInv<C>(s: System<C>, t0: real, id: nat)
    requires Inv(s, t0) && Enabled(s, Stamp(id))
    ensures Inv(Do(s, Stamp(id)), t0)
  {
    LockKept(s, Stamp(id));
    var pc := s.threads[id];
    var call := Call(pc.check, pc.begin, pc.returned, s.now, Data(pc.data));
    StampIsNext(s, t0, id, call);
    FinishKeepsInv(s, t0, id, call, Ok(pc.data), Do(s, Stamp(id)));
  }

  lemma StepKeepsInv<C>(s: System<C>, t0: real, step: Step<C>)
    requires Inv(s, t0) && Enabled(s, step)
    ensures Inv(Do(s, step), t0) && Do(s, step).limit == s.limit
  {
    if IsQuiet(s, step) {
      LockKept(s, step);
      QuietSteps(s, step);
      LogKept(s, Do(s, step), t0);
      ClockKept(s, Do(s, step));
      HolderKept(s, t0, step);
    } else {
      match step {
        case Check(id) => CheckHitKeepsInv(s, t0, id);
        case FetchFails(id) => FailKeepsInv(s, t0, id);
        case Stamp(id) => StampKeepsInv(s, t0, id);
      }
    }
  }

  /** Every reachable state, for any callers and any interleaving. */
  lemma {:induction false} RunKeepsInv<C>(limit: real, t0: real, steps: seq<Step<C>>, s: System<C>)
    requires Run(Start(limit, t0), steps) == Some(s)
    ensures Inv(s, t0) && s.limit == limit
  {
    if |steps| > 0 {
      var mid := Run(Start(limit, t0), steps[..|steps| - 1]).value;
      RunKeepsInv(limit, t0, steps[..|steps| - 1], mid);
      StepKeepsInv(mid, t0, steps[|steps| - 1]);
    }
  }

  // ---------- what follows for every run ----------

  /** At most one caller is between lock and unlock, so at most one fetch is in flight. */
  lemma AtMostOneFetch<C>(limit: real, t0: real, steps: seq<Step<C>>, s: System<C>, i: nat, j: nat)
    requires Run(Start(limit, t0), steps) == Some(s)
    requires i in s.threads && j in s.threads && InCritical(s.threads[i]) && InCritical(s.threads[j])
    ensures i == j
  {
    RunKeepsInv(limit, t0, steps, s);
  }

  /** Each finished caller holds one place in the lock order; its result is the data of the last
      successful fetch up to that place, its own or one younger than `limit`, or an error exactly
      when its own fetch failed.  Between critical sections the shared fields are those of the
      sequential cache after the log. */
  lemma ResultsAreSequential<C>(limit: real, t0: real, steps: seq<Step<C>>, s: System<C>, id: nat)
    returns (k: nat, j: nat)
    requires Run(Start(limit, t0), steps) == Some(s)
    requires id in s.threads && s.threads[id].Done?
    ensures History(Calls(s.log))
    ensures s.owner == None ==> s.shared == Sequential(s, t0)
    ensures k < |s.log| && s.log[k].id == id && forall i :: 0 <= i < |s.log| && s.log[i].id == id ==> i == k
    ensures var calls, result := Calls(s.log), s.threads[id].result;
            && (result.Err? <==> Fetches(t0, limit, calls, k) && calls[k].outcome.Failed?)
            && (result.Ok? ==>
                  && LastSuccess(t0, limit, calls, k + 1, j)
                  && result.value == calls[j].outcome.data
                  && (j == k || calls[k].check - calls[j].stamp < limit))
  {
    RunKeepsInv(limit, t0, steps, s);
    var p: nat :| p < |s.log| && s.log[p].id == id;
    k := p;
    j := ResultIsLastSuccess(t0, limit, Calls(s.log), k);
  }

  /** Fetches of different callers are throttled in every interleaving: a fetch later in lock order
      than a non-empty success started at least `limit` after its stamp, and a caller whose age
      check came earlier than that got the stored data without fetching. */
  lemma RunsAreThrottled<C>(limit: real, t0: real, steps: seq<Step<C>>, s: System<C>, i: nat, k: nat)
    requires Run(Start(limit, t0), steps) == Some(s)
    requires i < k < |s.log|
    requires Succeeds(t0, limit, Calls(s.log), i) && Calls(s.log)[i].outcome.data != []
    ensures var calls := Calls(s.log);
            && (Fetches(t0, limit, calls, k) ==> calls[k].begin >= calls[i].stamp + limit)
            && (calls[k].check < calls[i].stamp + limit ==>
                  !Fetches(t0, limit, calls, k) && s.log[k].result == Ok(calls[i].outcome.data))
  {
    RunKeepsInv(limit, t0, steps, s);
    var calls := Calls(s.log);
    if Fetches(t0, limit, calls, k) { NoEarlyFetch(t0, limit, calls, i, k); }
    if calls[k].check < calls[i].stamp + limit { QueuedCallersShare(t0, limit, calls, i, k); }
  }

  /** The rate bound holds in every interleaving. */
  lemma RunsAreRateBounded<C>(limit: real, t0: real, steps: seq<Step<C>>, s: System<C>,
                              from: real, width: real, done: set<nat>)
    requires Run(Start(limit, t0), steps) == Some(s)
    requires limit > 0.0 && width >= 0.0
    requires Completions(t0, limit, Calls(s.log), from, width, done)
    ensures |done| <= (width / limit).Floor + 1
  {
    RunKeepsInv(limit, t0, steps, s);
    RateBound(t0, limit, Calls(s.log), from, width, done);
  }

  /** While one caller is fetching, only its own return can write the shared fields; if the fetch
      fails they are exactly what the earlier callers left. */
  lemma FailureLeavesCache<C>(limit: real, t0: real, steps: seq<Step<C>>, s: System<C>, id: nat, step: Step<C>)
    requires Run(Start(limit, t0), steps) == Some(s)
    requires id in s.threads && s.threads[id].Fetching? && Enabled(s, step)
    ensures s.shared == Sequential(s, t0)
    ensures Do(s, step).shared == s.shared || (step.FetchReturns? && step.id == id)
  {
    RunKeepsInv(limit, t0, steps, s);
    assert forall k :: k in s.threads && InCritical(s.threads[k]) ==> k == id;
  }
}
