/** `AtomicThrottledCache`: a snapshot that is refetched at most once per `limit` seconds.  One
    call is described by its clock readings and by what its fetch returns if it is made; a
    history is the sequence of calls in the order they held the lock. */
module ThrottledCache {
  import opened Prelude

  datatype Outcome<+C> = Data(data: seq<C>) | Failed

  /** The fields the lock protects. */
  datatype State<+C> = State(cache: seq<C>, t: real, duration: real)

  /** The readings of one call: the age check, then around the fetch, then the new stamp. */
  datatype Call<+C> = Call(check: real, begin: real, returned: real, stamp: real, outcome: Outcome<C>) {
    predicate Ordered() { check <= begin <= returned <= stamp }
  }

  function Initial<C>(t: real): State<C> { State([], t, 0.0) }

  predicate Hit<C>(s: State<C>, limit: real, now: real) {
    |s.cache| > 0 && now - s.t < limit
  }

  function Next<C>(s: State<C>, limit: real, c: Call<C>): State<C> {
    if Hit(s, limit, c.check) || c.outcome.Failed? then s
    else State(c.outcome.data, c.stamp, c.returned - c.begin)
  }

  function Reply<C>(s: State<C>, limit: real, c: Call<C>): Result<seq<C>> {
    if Hit(s, limit, c.check) then Ok(s.cache)
    else if c.outcome.Failed? then Err
    else Ok(c.outcome.data)
  }

  class AtomicThrottledCache<C> {
    var t: real
    const limit: real
    var cache: seq<C>
    var duration: real

    ghost function Fields(): State<C>
      reads this
    {
      State(cache, t, duration)
    }

    constructor (limit: real, now: real)
      ensures this.limit == limit && Fields() == Initial(now)
    {
      this.limit := limit;
      t := now;
      cache := [];
      duration := 0.0;
    }

    /** `call.outcome` is what `fetchFunc` answers; `fetched` says whether it was called. */
    method FetchOrThrottle(call: Call<C>) returns (result: Result<seq<C>>, fetched: bool)
      modifies this
      ensures Fields() == Next(old(Fields()), limit, call)
      ensures result == Reply(old(Fields()), limit, call)
      ensures fetched <==> !Hit(old(Fields()), limit, call.check)
      ensures !fetched || result.Err? ==> unchanged(this)
      ensures result.Ok? ==> result.value == cache
    {
      if |cache| > 0 && call.check - t < limit {
        return Ok(cache), false;
      }
      var begin := call.begin;
      if call.outcome.Failed? {
        return Err, true;
      }
      var slurmData := call.outcome.data;
      duration := call.returned - begin;
      cache := slurmData;
      t := call.stamp;
      return Ok(slurmData), true;
    }
  }

  // ---------- histories ----------

  /** Calls in lock order under a monotone clock. */
  ghost predicate History<C>(calls: seq<Call<C>>) {
    && (forall i :: 0 <= i < |calls| ==> calls[i].Ordered())
    && (forall i, j :: 0 <= i < j < |calls| ==> calls[i].stamp <= calls[j].check)
  }

  /** The shared state after the first `n` calls. */
  function After<C>(t0: real, limit: real, calls: seq<Call<C>>, n: nat): State<C>
    requires n <= |calls|
  {
    if n == 0 then Initial(t0) else Next(After(t0, limit, calls, n - 1), limit, calls[n - 1])
  }

  function ResultAt<C>(t0: real, limit: real, calls: seq<Call<C>>, k: nat): Result<seq<C>>
    requires k < |calls|
  {
    Reply(After(t0, limit, calls, k), limit, calls[k])
  }

  /** Call `k` runs the fetch. */
  predicate Fetches<C>(t0: real, limit: real, calls: seq<Call<C>>, k: nat)
    requires k < |calls|
  {
    !Hit(After(t0, limit, calls, k), limit, calls[k].check)
  }

  predicate Succeeds<C>(t0: real, limit: real, calls: seq<Call<C>>, k: nat)
    requires k < |calls|
  {
    Fetches(t0, limit, calls, k) && calls[k].outcome.Data?
  }

  /** `j` is the last successful fetch among the first `n` calls. */
  ghost predicate LastSuccess<C>(t0: real, limit: real, calls: seq<Call<C>>, n: nat, j: nat)
    requires n <= |calls|
  {
    && j < n && Succeeds(t0, limit, calls, j)
    && forall i :: j < i < n ==> !Succeeds(t0, limit, calls, i)
  }

  /** The state is the initial one or what the last successful fetch stored. */
  lemma {:induction false} StateIsLastSuccess<C>(t0: real, limit: real, calls: seq<Call<C>>, n: nat)
    requires n <= |calls|
    ensures var s := After(t0, limit, calls, n);
            || (s == Initial(t0) && forall i :: 0 <= i < n ==> !Succeeds(t0, limit, calls, i))
            || exists j: nat :: LastSuccess(t0, limit, calls, n, j)
                           && s == State(calls[j].outcome.data, calls[j].stamp, calls[j].returned - calls[j].begin)
  {
    if n > 0 {
      StateIsLastSuccess(t0, limit, calls, n - 1);
      var s := After(t0, limit, calls, n - 1);
      if Succeeds(t0, limit, calls, n - 1) {
        assert LastSuccess(t0, limit, calls, n, n - 1);
      } else if s != Initial(t0) || exists i :: 0 <= i < n - 1 && Succeeds(t0, limit, calls, i) {
        var j: nat :| LastSuccess(t0, limit, calls, n - 1, j)
                 && s == State(calls[j].outcome.data, calls[j].stamp, calls[j].returned - calls[j].begin);
        assert LastSuccess(t0, limit, calls, n, j);
      }
    }
  }

  /** Every non-error result is the data of the most recent successful fetch, which is this call's
      own or is non-empty and younger than `limit`; errors are exactly the failed fetches. */
  lemma ResultIsLastSuccess<C>(t0: real, limit: real, calls: seq<Call<C>>, k: nat) returns (j: nat)
    requires k < |calls|
    ensures ResultAt(t0, limit, calls, k).Err? <==>
            Fetches(t0, limit, calls, k) && calls[k].outcome.Failed?
    ensures ResultAt(t0, limit, calls, k).Ok? ==>
              && LastSuccess(t0, limit, calls, k + 1, j)
              && ResultAt(t0, limit, calls, k).value == calls[j].outcome.data
              && (j == k || (calls[j].outcome.data != [] && calls[k].check - calls[j].stamp < limit))
  {
    j := k;
    StateIsLastSuccess(t0, limit, calls, k);
    if !Fetches(t0, limit, calls, k) {
      var i: nat :| LastSuccess(t0, limit, calls, k, i)
               && After(t0, limit, calls, k).cache == calls[i].outcome.data
               && After(t0, limit, calls, k).t == calls[i].stamp;
      j := i;
    }
  }

  /** Until `limit` has passed since a non-empty success, the state is what that success stored. */
  lemma {:induction false} StoredUntilStale<C>(t0: real, limit: real, calls: seq<Call<C>>, i: nat, n: nat)
    requires History(calls) && i < n <= |calls|
    requires Succeeds(t0, limit, calls, i) && calls[i].outcome.data != []
    ensures || (After(t0, limit, calls, n).cache == calls[i].outcome.data
                && After(t0, limit, calls, n).t == calls[i].stamp)
            || calls[n - 1].stamp >= calls[i].stamp + limit
  {
    if n - 1 > i {
      StoredUntilStale(t0, limit, calls, i, n - 1);
      assert calls[n - 2].stamp <= calls[n - 1].check;
      assert calls[n - 1].Ordered();
    }
  }

  /** Throttling: after a non-empty success no fetch starts before `limit` has passed. */
  lemma NoEarlyFetch<C>(t0: real, limit: real, calls: seq<Call<C>>, i: nat, k: nat)
    requires History(calls) && i < k < |calls|
    requires Succeeds(t0, limit, calls, i) && calls[i].outcome.data != []
    requires Fetches(t0, limit, calls, k)
    ensures calls[k].begin >= calls[i].stamp + limit
  {
    StoredUntilStale(t0, limit, calls, i, k);
    assert calls[k - 1].stamp <= calls[k].check;
    assert calls[k].Ordered();
  }

  /** Every caller that gets the lock within `limit` of a non-empty success shares its data. */
  lemma QueuedCallersShare<C>(t0: real, limit: real, calls: seq<Call<C>>, i: nat, k: nat)
    requires History(calls) && i < k < |calls|
    requires Succeeds(t0, limit, calls, i) && calls[i].outcome.data != []
    requires calls[k].check < calls[i].stamp + limit
    ensures !Fetches(t0, limit, calls, k)
    ensures ResultAt(t0, limit, calls, k) == Ok(calls[i].outcome.data)
  {
    StoredUntilStale(t0, limit, calls, i, k);
    assert calls[k - 1].stamp <= calls[k].check;
  }

  /** Only a non-empty success throttles: with nothing stored every call fetches again. */
  lemma EmptyAndFailedDoNotThrottle<C>(t0: real, limit: real, calls: seq<Call<C>>, k: nat)
    requires k < |calls|
    ensures !Fetches(t0, limit, calls, k) <==>
            exists i: nat :: LastSuccess(t0, limit, calls, k, i) && calls[i].outcome.data != []
                        && calls[k].check - calls[i].stamp < limit
  {
    StateIsLastSuccess(t0, limit, calls, k);
    forall i: nat, j: nat | LastSuccess(t0, limit, calls, k, i) && LastSuccess(t0, limit, calls, k, j)
      ensures i == j
    {}
  }

  // ---------- the rate bound ----------

  ghost predicate Completions<C>(t0: real, limit: real, calls: seq<Call<C>>, from: real, width: real, done: set<nat>) {
    forall k: nat :: k in done ==>
      && k < |calls| && Succeeds(t0, limit, calls, k) && calls[k].outcome.data != []
      && from <= calls[k].stamp <= from + width
  }

  lemma {:induction false} Largest(s: set<nat>) returns (m: nat)
    requires s != {}
    ensures m in s && forall k: nat :: k in s ==> k <= m
  {
    m :| m in s;
    var rest := s - {m};
    if rest != {} {
      var r := Largest(rest);
      assert forall k: nat :: k in s ==> k == m || k in rest;
      m := if m > r then m else r;
    } else {
      assert forall k: nat :: k in s ==> k == m || k in rest;
    }
  }

  /** `n` times `limit`, by repeated addition. */
  ghost function Times(n: nat, limit: real): real {
    if n == 0 then 0.0 else Times(n - 1, limit) + limit
  }

  lemma Distribute(a: real, b: real)
    ensures (a + 1.0) * b == a * b + b
  {}

  lemma {:induction false} TimesIsProduct(n: nat, limit: real)
    ensures Times(n, limit) == n as real * limit
  {
    if n > 0 {
      TimesIsProduct(n - 1, limit);
      Distribute((n - 1) as real, limit);
      assert n as real == (n - 1) as real + 1.0;
    }
  }

  lemma {:induction false} CompletionsSpread<C>(t0: real, limit: real, calls: seq<Call<C>>,
                                                from: real, width: real, done: set<nat>, last: nat)
    requires History(calls) && Completions(t0, limit, calls, from, width, done)
    requires last in done && forall k: nat :: k in done ==> k <= last
    ensures calls[last].stamp >= from + Times(|done| - 1, limit)
    decreases |done|
  {
    var rest := done - {last};
    assert |rest| == |done| - 1;
    if rest != {} {
      var prev := Largest(rest);
      CompletionsSpread(t0, limit, calls, from, width, rest, prev);
      NoEarlyFetch(t0, limit, calls, prev, last);
      assert calls[last].Ordered();
    }
  }

  /** Any window of length `width` holds at most `floor(width / limit) + 1` completed non-empty
      fetches, whatever empty and failed fetches lie between them. */
  lemma RateBound<C>(t0: real, limit: real, calls: seq<Call<C>>, from: real, width: real, done: set<nat>)
    requires History(calls) && limit > 0.0 && width >= 0.0
    requires Completions(t0, limit, calls, from, width, done)
    ensures |done| <= (width / limit).Floor + 1
  {
    if done == {} {
      TimesBound(0, limit, width);
    } else {
      var last := Largest(done);
      CompletionsSpread(t0, limit, calls, from, width, done, last);
      TimesBound(|done| - 1, limit, width);
    }
  }

  lemma TimesBound(n: nat, limit: real, width: real)
    requires limit > 0.0 && Times(n, limit) <= width
    ensures n <= (width / limit).Floor
  {
    TimesIsProduct(n, limit);
    QuotientBound(n as real, limit, width);
  }

  lemma QuotientBound(x: real, limit: real, width: real)
    requires limit > 0.0 && x * limit <= width
    ensures x <= width / limit
  {
    var q := width / limit;
    assert q * limit == width;
    if x > q { LessTimes(q, x, limit); }
  }

  lemma LessTimes(a: real, b: real, limit: real)
    requires a < b && limit > 0.0
    ensures a * limit < b * limit
  {}
}
