/** `AtomicProcFetcher`: the latest process trace of each job, with lazy eviction: by age on every
    `Fetch`, and on `Add` once the table is large.  The table is shown to be an economical form of
    the log of all accepted `Add` calls. */
module TraceTable {
  import opened Prelude

  datatype Payload = Payload(
    pid: int, cpus: real, writeBytes: real, readBytes: real, threads: real, mem: real,
    username: string, hostname: string)

  /** A monotone clock; every read may find it later than before. */
  class Clock {
    var now: real

    method Read(elapsed: real) returns (t: real)
      requires elapsed >= 0.0
      modifies this
      ensures now == old(now) + elapsed && t == now
    {
      now := now + elapsed;
      t := now;
    }
  }

  /** A published trace.  Its upload time is overwritten by `Add`. */
  class TraceInfo {
    const jobId: int
    const payload: Payload
    var uploadAt: real

    constructor (jobId: int, payload: Payload)
      ensures this.jobId == jobId && this.payload == payload
    {
      this.jobId := jobId;
      this.payload := payload;
      uploadAt := 0.0;
    }
  }

  /** One accepted `Add`. */
  datatype Entry = Entry(jobId: int, record: TraceInfo, at: real)

  /** The most recent `Add` for a job. */
  ghost function LastAdd(log: seq<Entry>, k: int): Option<Entry> {
    if |log| == 0 then None
    else if log[|log| - 1].jobId == k then Some(log[|log| - 1])
    else LastAdd(log[..|log| - 1], k)
  }

  /** A job whose last trace is at most `rate` seconds old. */
  ghost predicate FreshAt(log: seq<Entry>, rate: nat, k: int, now: real) {
    LastAdd(log, k).Some? && now - LastAdd(log, k).value.at <= rate as real
  }

  /** Go's conversion of the `uint64` threshold to `int`. */
  function AsInt64(n: nat): int {
    var m := n % 0x1_0000_0000_0000_0000;
    if m < 0x8000_0000_0000_0000 then m else m - 0x1_0000_0000_0000_0000
  }

  /** A threshold below 2^63 is itself; a larger one turns negative, and every `Add` cleans up. */
  lemma ThresholdAsInt64(n: nat)
    ensures n < 0x8000_0000_0000_0000 ==> AsInt64(n) == n
    ensures 0x8000_0000_0000_0000 <= n < 0x1_0000_0000_0000_0000 ==> AsInt64(n) < 0
  {}

  // ---------- the table on values, each operation at one instant ----------

  datatype Op = AddOp(jobId: int, payload: Payload, now: real) | FetchOp(now: real)

  datatype Stored = Stored(payload: Payload, at: real)

  type Table = map<int, Stored>

  /** Age-based cleanup at one instant. */
  function Clean(t: Table, rate: nat, now: real): Table {
    map k | k in t && now - t[k].at <= rate as real :: t[k]
  }

  /** Size-triggered cleanup. */
  function Bounded(t: Table, rate: nat, threshold: int, now: real): Table {
    if |t| > threshold then Clean(t, rate, now) else t
  }

  function Step(t: Table, op: Op, rate: nat, threshold: int): Table {
    match op
    case AddOp(0, _, _) => t
    case AddOp(id, p, now) => Bounded(t[id := Stored(p, now)], rate, threshold, now)
    case FetchOp(now) => Clean(t, rate, now)
  }

  // ---------- the table ----------

  class AtomicProcFetcher {
    var info: map<int, TraceInfo>
    const sampleRate: nat
    const cleanupThreshold: nat
    ghost var log: seq<Entry>

    constructor (sampleRate: nat, cleanupThreshold: nat)
      ensures this.sampleRate == sampleRate && this.cleanupThreshold == cleanupThreshold
      ensures info == map[] && log == []
      ensures Valid() && forall now :: Complete(now)
    {
      this.sampleRate := sampleRate;
      this.cleanupThreshold := cleanupThreshold;
      info := map[];
      log := [];
    }

    /** Every entry is the job's last accepted `Add`, filed under its own non-zero job id. */
    ghost predicate Valid()
      reads this, info.Values
    {
      forall k :: k in info ==>
        && k != 0 && info[k].jobId == k
        && LastAdd(log, k) == Some(Entry(k, info[k], info[k].uploadAt))
    }

    /** Nothing that is still fresh has been evicted. */
    ghost predicate Complete(now: real)
      reads this
    {
      forall k :: FreshAt(log, sampleRate, k, now) ==> k in info
    }

    /** The table without its record objects. */
    ghost function Contents(): Table
      reads this, info.Values
    {
      map k | k in info :: Stored(info[k].payload, info[k].uploadAt)
    }

    /** Deletes entries that are stale when their turn comes; the clock is read once per entry and
        runs on in between (`elapsed` says by how much). */
    method Cleanup(clock: Clock, elapsed: int -> real)
      requires Valid() && Complete(clock.now)
      requires forall k :: elapsed(k) >= 0.0
      modifies this`info, clock
      ensures Valid() && Complete(clock.now) && clock.now >= old(clock.now)
      ensures info.Keys <= old(info).Keys && forall k :: k in info ==> info[k] == old(info)[k]
      ensures forall k :: k in info ==> FreshAt(log, sampleRate, k, old(clock.now))
      ensures forall k :: k in info ==> old(clock.now) - info[k].uploadAt <= sampleRate as real
      ensures forall k :: k in old(info) && k !in info ==> clock.now - old(info)[k].uploadAt > sampleRate as real
      ensures (forall k :: elapsed(k) == 0.0) ==>
                clock.now == old(clock.now) && Contents() == Clean(old(Contents()), sampleRate, clock.now)
    {
      var left := info.Keys;
      ghost var before := Contents();
      while left != {}
        invariant left <= info.Keys <= old(info).Keys
        invariant forall k :: k in info ==> info[k] == old(info)[k]
        invariant clock.now >= old(clock.now)
        invariant (forall k :: elapsed(k) == 0.0) ==> clock.now == old(clock.now)
        invariant forall k :: k in old(info) && k !in info ==>
                    clock.now - old(info)[k].uploadAt > sampleRate as real
        invariant forall k :: k in info && k !in left ==>
                    old(clock.now) - info[k].uploadAt <= sampleRate as real
        decreases left
      {
        var jobid := Pick(left);
        left := left - {jobid};
        var metric := info[jobid];
        var now := clock.Read(elapsed(jobid));
        if now - metric.uploadAt > sampleRate as real {
          info := info - {jobid};
        }
      }
      if forall k :: elapsed(k) == 0.0 {
        assert forall k :: k in before ==> before[k] == Stored(old(info)[k].payload, old(info)[k].uploadAt);
        forall k ensures k in info <==> k in Clean(before, sampleRate, clock.now) {}
        assert forall k :: k in info ==> Contents()[k] == before[k];
      }
    }

    /** Stamps a trace and files it, over an earlier one of its job. */
    method File(trace: TraceInfo, now: real)
      requires Valid() && trace.jobId != 0
      modifies this`info, this`log, trace
      ensures Valid() && info == old(info)[trace.jobId := trace] && trace.uploadAt == now
      ensures log == old(log) + [Entry(trace.jobId, trace, now)]
      ensures Contents() == old(Contents())[trace.jobId := Stored(trace.payload, now)]
      ensures forall t :: old(Complete(t)) ==> Complete(t)
    {
      assert forall k :: k in info && k != trace.jobId ==> info[k] != trace;
      trace.uploadAt := now;
      info := info[trace.jobId := trace];
      log := log + [Entry(trace.jobId, trace, now)];
      assert log[..|log| - 1] == old(log);
    }

    method CleanupIfLarge(clock: Clock, elapsed: int -> real)
      requires Valid() && Complete(clock.now)
      requires forall k :: elapsed(k) >= 0.0
      modifies this`info, clock
      ensures Valid() && Complete(clock.now) && clock.now >= old(clock.now)
      ensures info.Keys <= old(info).Keys && forall k :: k in info ==> info[k] == old(info)[k]
      ensures || |info| <= AsInt64(cleanupThreshold)
              || forall k :: k in info ==> FreshAt(log, sampleRate, k, old(clock.now))
      ensures (forall k :: elapsed(k) == 0.0) ==>
                && clock.now == old(clock.now)
                && Contents() == Bounded(old(Contents()), sampleRate, AsInt64(cleanupThreshold), clock.now)
    {
      assert |Contents()| == |info| by { assert Contents().Keys == info.Keys; }
      if |info| > AsInt64(cleanupThreshold) {
        Cleanup(clock, elapsed);
      }
    }

    /** Files a trace under its job id, stamped with the current time.  Only the table, the clock
        and the stamp of `trace` itself change, so a copy `Fetch` returned earlier keeps its
        records unless `trace` is one of them. */
    method Add(trace: TraceInfo, clock: Clock, reading: real, elapsed: int -> real) returns (ok: bool)
      requires Valid() && Complete(clock.now)
      requires reading >= 0.0 && forall k :: elapsed(k) >= 0.0
      modifies this, trace, clock
      ensures ok <==> trace.jobId != 0
      ensures !ok ==> unchanged(this) && unchanged(trace) && unchanged(clock)
      ensures ok ==> log == old(log) + [Entry(trace.jobId, trace, trace.uploadAt)]
      ensures ok ==> trace.uploadAt == old(clock.now) + reading
      ensures Valid() && Complete(clock.now) && clock.now >= old(clock.now)
      ensures (forall k :: elapsed(k) == 0.0) ==> clock.now == if ok then trace.uploadAt else old(clock.now)
      ensures ok ==>
                || |info| <= AsInt64(cleanupThreshold)
                || forall k :: k in info ==> FreshAt(log, sampleRate, k, trace.uploadAt)
      ensures ok && cleanupThreshold < 0x1_0000_0000_0000_0000 ==>
                || (cleanupThreshold < 0x8000_0000_0000_0000 && |info| <= cleanupThreshold)
                || forall k :: k in info ==> FreshAt(log, sampleRate, k, trace.uploadAt)
      ensures ok && (forall k :: elapsed(k) == 0.0) ==>
                Contents() == Bounded(old(Contents())[trace.jobId := Stored(trace.payload, trace.uploadAt)],
                                      sampleRate, AsInt64(cleanupThreshold), trace.uploadAt)
    {
      if trace.jobId == 0 {
        return false;
      }
      var now := clock.Read(reading);
      File(trace, now);
      CleanupIfLarge(clock, elapsed);
      ThresholdAsInt64(cleanupThreshold);
      ok := true;
    }

    /** A copy of the table after cleanup.  A run from `old(clock.now)` to `clock.now` returns the
        last `Add` of every job still fresh at its end and of none already stale at its start. */
    method Fetch(clock: Clock, elapsed: int -> real) returns (cpy: map<int, TraceInfo>)
      requires Valid() && Complete(clock.now)
      requires forall k :: elapsed(k) >= 0.0
      modifies this`info, clock
      ensures Valid() && Complete(clock.now) && clock.now >= old(clock.now)
      ensures cpy.Keys == info.Keys
      ensures forall k :: k in info ==> k in old(info) && cpy[k] == info[k] == old(info)[k]
      ensures forall k :: k in cpy ==> LastAdd(log, k) == Some(Entry(k, cpy[k], cpy[k].uploadAt))
      ensures forall k :: FreshAt(log, sampleRate, k, clock.now) ==> k in cpy
      ensures forall k :: k in cpy ==> FreshAt(log, sampleRate, k, old(clock.now))
      ensures (forall k :: elapsed(k) == 0.0) ==>
                && (forall k :: k in cpy <==> FreshAt(log, sampleRate, k, old(clock.now)))
                && clock.now == old(clock.now)
                && Contents() == Step(old(Contents()), FetchOp(clock.now), sampleRate, AsInt64(cleanupThreshold))
    {
      Cleanup(clock, elapsed);
      cpy := map[];
      var left := info.Keys;
      while left != {}
        modifies {}
        invariant left <= info.Keys
        invariant cpy.Keys == info.Keys - left
        invariant forall k :: k in cpy ==> cpy[k] == info[k]
        decreases left
      {
        var k := Pick(left);
        left := left - {k};
        cpy := cpy[k := info[k]];
      }
    }
  }

  /** What is fresh later is fresh now, so waiting never makes the table incomplete. */
  lemma StaysComplete(f: AtomicProcFetcher, now: real, later: real)
    requires f.Complete(now) && now <= later
    ensures f.Complete(later)
  {}

  /** A copy still shows, after any number of later `Add`s of records that were not in the table
      when it was taken, the last `Add` of every job as of that time. */
  method CopySurvivesAdds(f: AtomicProcFetcher, clock: Clock, traces: seq<TraceInfo>, reading: real,
                          elapsed: int -> real)
    returns (cpy: map<int, TraceInfo>)
    requires f.Valid() && f.Complete(clock.now)
    requires reading >= 0.0 && forall k :: elapsed(k) >= 0.0
    requires forall i :: 0 <= i < |traces| ==> traces[i] !in f.info.Values
    modifies f, clock, traces
    ensures forall k :: k in cpy ==> LastAdd(old(f.log), k) == Some(Entry(k, cpy[k], cpy[k].uploadAt))
    ensures forall k :: FreshAt(old(f.log), f.sampleRate, k, clock.now) ==> k in cpy
  {
    cpy := f.Fetch(clock, elapsed);
    assert forall k :: k in cpy ==> cpy[k] !in traces;
    for i := 0 to |traces|
      invariant f.Valid() && f.Complete(clock.now)
      invariant old(clock.now) <= clock.now
      invariant forall k :: k in cpy ==> LastAdd(old(f.log), k) == Some(Entry(k, cpy[k], cpy[k].uploadAt))
      invariant forall k :: FreshAt(old(f.log), f.sampleRate, k, clock.now) ==> k in cpy
    {
      var _ := f.Add(traces[i], clock, reading, elapsed);
    }
  }

  // ---------- whole runs with one clock read per operation ----------

  function TableAfter(ops: seq<Op>, rate: nat, threshold: int): Table {
    if |ops| == 0 then map[] else Step(TableAfter(ops[..|ops| - 1], rate, threshold), ops[|ops| - 1], rate, threshold)
  }

  /** The last accepted `Add` of every job, with nothing ever evicted. */
  function LogTable(ops: seq<Op>): Table {
    if |ops| == 0 then map[]
    else
      var t := LogTable(ops[..|ops| - 1]);
      match ops[|ops| - 1]
      case AddOp(id, p, now) => if id == 0 then t else t[id := Stored(p, now)]
      case FetchOp(_) => t
  }

  ghost predicate Monotone(ops: seq<Op>) {
    forall i, j :: 0 <= i <= j < |ops| ==> ops[i].now <= ops[j].now
  }

  /** The table holds only last `Add`s, and every last `Add` it lacks is stale. */
  lemma {:induction false} TableWithinLog(ops: seq<Op>, rate: nat, threshold: int, now: real)
    requires Monotone(ops) && (|ops| > 0 ==> ops[|ops| - 1].now <= now)
    ensures var t, l := TableAfter(ops, rate, threshold), LogTable(ops);
            && (forall k :: k in t ==> k in l && t[k] == l[k])
            && (forall k :: k in l && k !in t ==> now - l[k].at > rate as real)
            && 0 !in t
  {
    if |ops| > 0 {
      var op := ops[|ops| - 1];
      TableWithinLog(ops[..|ops| - 1], rate, threshold, op.now);
    }
  }

  /** Size-triggered cleanup is unobservable: for every threshold, a `Fetch` after any operations
      returns exactly the last `Add` of each job whose age is at most the sample rate. */
  lemma FetchShowsFreshLog(ops: seq<Op>, rate: nat, threshold: int, now: real)
    requires Monotone(ops) && (|ops| > 0 ==> ops[|ops| - 1].now <= now)
    ensures Step(TableAfter(ops, rate, threshold), FetchOp(now), rate, threshold) == Clean(LogTable(ops), rate, now)
  {
    TableWithinLog(ops, rate, threshold, now);
    CleanAgrees(TableAfter(ops, rate, threshold), LogTable(ops), rate, now);
  }

  lemma CleanAgrees(t: Table, l: Table, rate: nat, now: real)
    requires forall k :: k in t ==> k in l && t[k] == l[k]
    requires forall k :: k in l && k !in t ==> now - l[k].at > rate as real
    ensures Clean(t, rate, now) == Clean(l, rate, now)
  {
    var a, b := Clean(t, rate, now), Clean(l, rate, now);
    forall k | k in a ensures k in b && a[k] == b[k] {
      assert k in t && k in l;
    }
    forall k | k in b ensures k in a {
      assert k in l;
    }
  }

  /** The jobs with an accepted `Add` in the last `rate` seconds. */
  ghost function RecentJobs(ops: seq<Op>, rate: nat, now: real): set<int> {
    set op | op in ops && op.AddOp? && op.jobId != 0 && now - op.now <= rate as real :: op.jobId
  }

  ghost predicate Adds(op: Op, k: int, at: real) { op.AddOp? && op.jobId == k && k != 0 && op.now == at }

  lemma {:induction false} LogTableEntry(ops: seq<Op>, k: int) returns (op: Op)
    requires k in LogTable(ops)
    ensures op in ops && Adds(op, k, LogTable(ops)[k].at)
  {
    op := ops[|ops| - 1];
    if !(op.AddOp? && op.jobId == k && k != 0) {
      op := LogTableEntry(ops[..|ops| - 1], k);
    }
  }

  lemma SubsetSize(a: set<int>, b: set<int>)
    requires a <= b
    ensures |a| <= |b|
  {
    assert b == a + (b - a);
  }

  /** After an accepted `Add` the table holds at most `threshold` jobs or at most those added
      within the last `rate` seconds, whichever is more. */
  lemma SizeBound(ops: seq<Op>, rate: nat, threshold: int)
    requires Monotone(ops) && |ops| > 0
    requires ops[|ops| - 1].AddOp? && ops[|ops| - 1].jobId != 0
    ensures var n := |TableAfter(ops, rate, threshold)|;
            n <= threshold || n <= |RecentJobs(ops, rate, ops[|ops| - 1].now)|
  {
    var now := ops[|ops| - 1].now;
    var t := TableAfter(ops, rate, threshold);
    if |t| > threshold {
      TableWithinLog(ops, rate, threshold, now);
      assert t == Clean(t, rate, now);
      forall k | k in t ensures k in RecentJobs(ops, rate, now) {
        var op := LogTableEntry(ops, k);
        assert op.now == t[k].at;
      }
      SubsetSize(t.Keys, RecentJobs(ops, rate, now));
    }
  }

  /** The class's log holds the last `Add`s of the operations. */
  ghost predicate LogShows(log: seq<Entry>, t: Table) {
    && (forall k :: LastAdd(log, k).Some? <==> k in t)
    && (forall k :: k in t ==>
          var e := LastAdd(log, k).value; t[k] == Stored(e.record.payload, e.at))
  }

  function Instant(k: int): real { 0.0 }

  /** Publishes a new record at one instant. */
  method Publish(f: AtomicProcFetcher, clock: Clock, id: int, payload: Payload) returns (trace: TraceInfo)
    requires f.Valid() && f.Complete(clock.now)
    modifies f, clock
    ensures f.Valid() && f.Complete(clock.now) && clock.now == old(clock.now)
    ensures f.Contents() ==
            Step(old(f.Contents()), AddOp(id, payload, clock.now), f.sampleRate, AsInt64(f.cleanupThreshold))
    ensures trace.payload == payload
    ensures f.log == if id == 0 then old(f.log) else old(f.log) + [Entry(id, trace, clock.now)]
  {
    trace := new TraceInfo(id, payload);
    var _ := f.Add(trace, clock, 0.0, Instant);
  }

  /** The table and the log of `f` are those of the operations. */
  ghost predicate Replays(f: AtomicProcFetcher, ops: seq<Op>)
    reads f, f.info.Values
  {
    && f.Contents() == TableAfter(ops, f.sampleRate, AsInt64(f.cleanupThreshold))
    && LogShows(f.log, LogTable(ops))
  }

  /** One operation on the class, at one instant. */
  method Apply(f: AtomicProcFetcher, clock: Clock, op: Op, ghost ops: seq<Op>)
    requires f.Valid() && f.Complete(clock.now) && clock.now <= op.now
    requires Replays(f, ops)
    modifies f, clock
    ensures f.Valid() && f.Complete(clock.now) && clock.now == op.now
    ensures Replays(f, ops + [op])
  {
    StaysComplete(f, clock.now, op.now);
    clock.now := op.now;
    assert (ops + [op])[..|ops|] == ops;
    match op {
      case AddOp(id, payload, now) =>
        var trace := Publish(f, clock, id, payload);
        LogShowsNext(old(f.log), ops, op, trace);
      case FetchOp(now) =>
        var _ := f.Fetch(clock, Instant);
    }
  }

  method ReplayFrom(f: AtomicProcFetcher, clock: Clock, ops: seq<Op>)
    requires f.Valid() && f.Complete(clock.now) && Replays(f, [])
    requires Monotone(ops) && (|ops| > 0 ==> clock.now <= ops[0].now)
    modifies f, clock
    ensures f.Valid() && Replays(f, ops)
  {
    for i := 0 to |ops|
      invariant f.Valid() && f.Complete(clock.now)
      invariant i < |ops| ==> clock.now <= ops[i].now
      invariant Replays(f, ops[..i])
    {
      Apply(f, clock, ops[i], ops[..i]);
      assert ops[..i + 1] == ops[..i] + [ops[i]];
    }
    assert ops[..|ops|] == ops;
  }

  /** Any operations on a new table leave the table and the log that the operations describe, so
      what is proved of `TableAfter` and `LogTable` holds of the class. */
  method Replay(ops: seq<Op>, sampleRate: nat, threshold: nat) returns (f: AtomicProcFetcher)
    requires Monotone(ops)
    ensures f.Valid() && f.sampleRate == sampleRate && f.cleanupThreshold == threshold
    ensures f.Contents() == TableAfter(ops, sampleRate, AsInt64(threshold)) && LogShows(f.log, LogTable(ops))
  {
    f := new AtomicProcFetcher(sampleRate, threshold);
    var clock := new Clock;
    if |ops| > 0 { clock.now := ops[0].now; }
    ReplayFrom(f, clock, ops);
  }

  lemma LogShowsNext(log: seq<Entry>, ops: seq<Op>, op: Op, trace: TraceInfo)
    requires LogShows(log, LogTable(ops)) && op.AddOp? && trace.payload == op.payload
    ensures LogShows(if op.jobId == 0 then log else log + [Entry(op.jobId, trace, op.now)], LogTable(ops + [op]))
  {
    assert (ops + [op])[..|ops|] == ops;
    var next := log + [Entry(op.jobId, trace, op.now)];
    assert next[..|next| - 1] == log;
  }
}
