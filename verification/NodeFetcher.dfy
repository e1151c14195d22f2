/** The stateful form of the node scraper, and the Go fetcher that drives it: collect, reset the
    iterator, copy every entry out. */
module NodeFetcher {
  import opened Prelude
  import opened Strings
  import opened Sums
  import opened SlurmNodes
  import opened NodeScraper
  import NM = NodeMetrics

  /** Library calls.  Touching a message requires it to be live. */
  class SlurmLibrary {
    var heap: Heap

    constructor ()
      ensures heap == INITIAL.heap
    {
      heap := INITIAL.heap;
    }

    function PartLastUpdate(p: Ptr): nat
      requires p in heap.parts
      reads this
    {
      heap.parts[p].lastUpdate
    }

    function NodeLastUpdate(p: Ptr): nat
      requires p in heap.nodes
      reads this
    {
      heap.nodes[p].lastUpdate
    }

    function RecordCount(p: Ptr): nat
      requires p in heap.nodes
      reads this
    {
      |heap.nodes[p].rows|
    }

    function Row(p: Ptr, i: nat): NodeRow
      requires p in heap.nodes && i < RecordCount(p)
      reads this
    {
      heap.nodes[p].rows[i]
    }

    /** `slurm_load_partitions`: only a fresh answer writes the out-pointer. */
    method LoadPartitionInfo(updateAt: nat, out: Ptr, at: Server, reply: Reply)
      returns (code: int, errno: int, ptr: Ptr)
      requires Legal(reply, updateAt, at.partVersion)
      modifies this
      ensures reply.Fresh? ==> code == SLURM_SUCCESS && (heap, ptr) == LoadPartitions(old(heap), at)
      ensures !reply.Fresh? ==> code == SLURM_ERROR && heap == old(heap) && ptr == out
      ensures reply.NoChange? ==> errno == SLURM_NO_CHANGE_IN_DATA
      ensures reply.Fail? ==> errno == reply.errno
    {
      code, errno, ptr := SLURM_ERROR, SLURM_SUCCESS, out;
      match reply {
        case Fresh =>
          var (h, p) := LoadPartitions(heap, at);
          code, heap, ptr := SLURM_SUCCESS, h, p;
        case NoChange => errno := SLURM_NO_CHANGE_IN_DATA;
        case Fail(e) => errno := e;
      }
    }

    method LoadNodeInfo(updateAt: nat, out: Ptr, at: Server, reply: Reply) returns (code: int, errno: int, ptr: Ptr)
      requires Legal(reply, updateAt, at.nodeVersion)
      modifies this
      ensures reply.Fresh? ==> code == SLURM_SUCCESS && (heap, ptr) == LoadNodes(old(heap), at)
      ensures !reply.Fresh? ==> code == SLURM_ERROR && heap == old(heap) && ptr == out
      ensures reply.NoChange? ==> errno == SLURM_NO_CHANGE_IN_DATA
      ensures reply.Fail? ==> errno == reply.errno
    {
      code, errno, ptr := SLURM_ERROR, SLURM_SUCCESS, out;
      match reply {
        case Fresh =>
          var (h, p) := LoadNodes(heap, at);
          code, heap, ptr := SLURM_SUCCESS, h, p;
        case NoChange => errno := SLURM_NO_CHANGE_IN_DATA;
        case Fail(e) => errno := e;
      }
    }

    method PopulateNodePartitions(n: Ptr, p: Ptr)
      requires n in heap.nodes && p in heap.parts
      modifies this
      ensures Populate(old(heap), n, p) == Some(heap)
    {
      heap := Populate(heap, n, p).value;
    }

    method FreePartitionInfoMsg(p: Ptr)
      requires p == 0 || p in heap.parts
      modifies this
      ensures FreePart(old(heap), p) == Some(heap)
    {
      heap := FreePart(heap, p).value;
    }

    method FreeNodeInfoMsg(p: Ptr)
      requires p == 0 || p in heap.nodes
      modifies this
      ensures FreeNode(old(heap), p) == Some(heap)
    {
      heap := FreeNode(heap, p).value;
    }
  }

  /** A map iterator: the keys still to come, or unusable after the map was cleared.  The C++ map
      iterates in key order; here the order is left open. */
  datatype Iter = Invalid | At(left: seq<string>)

  class NodeMetricScraper {
    const lib: SlurmLibrary
    var newPart: Ptr
    var oldPart: Ptr
    var newNode: Ptr
    var oldNode: Ptr
    var enriched: map<string, PromNodeMetric>
    var it: Iter

    ghost function State(): World
      reads this`newPart, this`oldPart, this`newNode, this`oldNode, this`enriched, lib
    {
      World(lib.heap, Scraper(newPart, oldPart, newNode, oldNode, enriched))
    }

    ghost predicate IterValid()
      reads this`it, this`enriched
    {
      it.At? ==> NoRepeats(it.left) && forall k :: k in it.left ==> k in enriched
    }

    constructor (lib: SlurmLibrary)
      requires lib.heap == INITIAL.heap
      ensures this.lib == lib && State() == INITIAL && Valid(State()) && IterValid() && it == At([])
    {
      this.lib := lib;
      newPart, oldPart, newNode, oldNode := 0, 0, 0, 0;
      enriched := map[];
      it := At([]);
    }

    /** The refill loop over the rows of the new message. */
    method Refill()
      requires newNode in lib.heap.nodes
      modifies this`enriched
      ensures enriched == Fill(old(enriched), newNode, lib.heap.nodes[newNode].rows, lib.RecordCount(newNode))
    {
      for i := 0 to lib.RecordCount(newNode)
        invariant enriched == Fill(old(enriched), newNode, lib.heap.nodes[newNode].rows, i)
      {
        var row := lib.Row(newNode, i);
        enriched := enriched[row.hostname := PromNodeMetric(newNode, i, row.scalars)];
      }
    }

    /** Frees what the new messages supersede and refills the map. */
    method CommitLoads()
      requires Loaded(lib.heap, State().s)
      modifies this, lib
      ensures Commit(old(lib.heap), old(State().s)) == Some(State())
      ensures it == old(it) || (it == Invalid && old(oldNode) != 0)
    {
      lib.PopulateNodePartitions(newNode, newPart);
      if oldNode != 0 && oldNode != newNode {
        enriched := map[];
        it := Invalid;
        lib.FreeNodeInfoMsg(oldNode);
      }
      if oldPart != newPart {
        lib.FreePartitionInfoMsg(oldPart);
      }
      Refill();
      oldNode := newNode;
      oldPart := newPart;
    }

    /** The source's code path by path; `atPart` and `atNode` are what the server knows at each
        load, the replies are how it answers. */
    method CollectNodeInfo(atPart: Server, partReply: Reply, atNode: Server, nodeReply: Reply) returns (code: int)
      requires Valid(State()) && LegalCollect(State(), atPart, partReply, atNode, nodeReply)
      modifies this, lib
      ensures Collect(old(State()), atPart, partReply, atNode, nodeReply) == Some((State(), code))
      ensures Valid(State())
    {
      CollectKeepsValid(State(), atPart, partReply, atNode, nodeReply);
      if !partReply.Fail? && !nodeReply.Fail? {
        LoadedBeforeCommit(State(), atPart, partReply, atNode, nodeReply);
      }
      var partUpdateAt := if oldPart != 0 then lib.PartLastUpdate(oldPart) else 0;
      var errno: int;
      code, errno, newPart := lib.LoadPartitionInfo(partUpdateAt, newPart, atPart, partReply);
      if code != SLURM_SUCCESS && errno == SLURM_NO_CHANGE_IN_DATA {
        code := SLURM_SUCCESS;
        newPart := oldPart;
      }
      if code != SLURM_SUCCESS {
        return errno;
      }
      var nodeUpdateAt := if oldNode != 0 then lib.NodeLastUpdate(oldNode) else 0;
      code, errno, newNode := lib.LoadNodeInfo(nodeUpdateAt, newNode, atNode, nodeReply);
      if code != SLURM_SUCCESS && errno == SLURM_NO_CHANGE_IN_DATA {
        code := SLURM_SUCCESS;
        newNode := oldNode;
      }
      if code != SLURM_SUCCESS {
        return code;
      }
      CommitLoads();
    }

    /** `CollectNodeInfo` against a versioned server. */
    method CollectCurrent(ghost server: Server, atPart: Server, partReply: Reply, atNode: Server, nodeReply: Reply)
      returns (code: int)
      requires Valid(State()) && LegalCollect(State(), atPart, partReply, atNode, nodeReply)
      requires Versioned(lib.heap, server) && Evolves(server, atPart) && Evolves(atPart, atNode)
      modifies this, lib
      ensures Valid(State()) && Versioned(lib.heap, atNode)
      ensures code != SLURM_SUCCESS <==> partReply.Fail? || nodeReply.Fail?
      ensures code == SLURM_SUCCESS ==> View(State()) == FullReload(atNode.nodes, atPart.parts)
    {
      CollectEffect(State(), server, atPart, partReply, atNode, nodeReply);
      code := CollectNodeInfo(atPart, partReply, atNode, nodeReply);
    }

    /** Every key once. */
    method IterReset()
      modifies this`it
      ensures it.At? && IterValid() && (set k | k in it.left) == enriched.Keys && |it.left| == |enriched|
    {
      var keys: seq<string> := [];
      var rest := enriched.Keys;
      while rest != {}
        invariant rest <= enriched.Keys && NoRepeats(keys)
        invariant forall k :: k in keys <==> k in enriched && k !in rest
        invariant |keys| + |rest| == |enriched|
        decreases rest
      {
        var k := Pick(rest);
        rest := rest - {k};
        keys := keys + [k];
      }
      it := At(keys);
    }

    /** Copies the next entry out and advances; non-zero at the end. */
    method IterNext() returns (code: int, metric: PromNodeMetric)
      requires it.At? && IterValid()
      modifies this`it
      ensures it.At? && IterValid()
      ensures code == SLURM_SUCCESS <==> old(it).left != []
      ensures old(it).left != [] ==> metric == enriched[old(it).left[0]] && it.left == old(it).left[1..]
      ensures old(it).left == [] ==> it == old(it)
    {
      if it.left == [] {
        return SLURM_ERROR, PromNodeMetric(0, 0, Scalars(0, 0, 0, 0, 0, 0, 0, 0));
      }
      code, metric := SLURM_SUCCESS, enriched[it.left[0]];
      it := At(it.left[1..]);
    }

    /** The destructor's frees, wherever they are legal. */
    method FreeMessages()
      requires Destroy(State()).Some?
      modifies this, lib
      ensures Destroy(old(State())) == Some(lib.heap)
      ensures newPart == oldPart == newNode == oldNode == 0
    {
      if newNode != 0 {
        lib.FreeNodeInfoMsg(newNode);
      }
      if oldNode != newNode && oldNode != 0 {
        lib.FreeNodeInfoMsg(oldNode);
      }
      oldNode, newNode := 0, 0;
      if newPart != 0 {
        lib.FreePartitionInfoMsg(newPart);
      }
      if oldPart != newPart && oldPart != 0 {
        lib.FreePartitionInfoMsg(oldPart);
      }
      oldPart, newPart := 0, 0;
    }

    /** The destructor between collects: every free is legal, no node message survives, and of the
        partition messages exactly the lost ones do. */
    method Deinit()
      requires Valid(State())
      modifies this, lib
      ensures Destroy(old(State())) == Some(lib.heap)
      ensures lib.heap.nodes == map[] && lib.heap.parts.Keys == Lost(old(State()))
      ensures newPart == oldPart == newNode == oldNode == 0
    {
      DestroyWorld(State());
      FreeMessages();
    }
  }

  // ---------- the Go side ----------

  /** Megabytes to bytes, as the getters report memory. */
  const MB := 1000000.0

  function StateName(state: int): string {
    match state
    case 0 => "UNKNOWN"
    case 1 => "DOWN"
    case 2 => "IDLE"
    case 3 => "ALLOCATED"
    case 4 => "ERROR"
    case 5 => "MIXED"
    case 6 => "FUTURE"
    case 7 => "END"
    case _ => ""
  }

  function ToNodeMetric(hostname: string, partitions: string, sc: Scalars): NM.NodeMetric {
    NM.NodeMetric(
      hostname, sc.cpus as real, sc.realMemory as real * MB, sc.freeMem as real * MB,
      Split(partitions, ','), StateName(sc.state), sc.allocMem as real * MB, sc.allocCpus as real,
      sc.cpus as real - sc.allocCpus as real, sc.weight as real, sc.cpuLoad as real / 100.0)
  }

  /** The record made of what is found behind an entry. */
  function MetricOf(hostname: string, seen: Seen): NM.NodeMetric
    requires seen.partitions.Some?
  {
    ToNodeMetric(hostname, seen.partitions.value, seen.scalars)
  }

  /** `values` has one record per host of `seen`, converted, in some order. */
  ghost predicate Reports(values: seq<NM.NodeMetric>, seen: map<string, Seen>) {
    && |values| == |seen|
    && (forall v :: v in values ==>
          && v.hostname in seen && seen[v.hostname].partitions.Some?
          && v == MetricOf(v.hostname, seen[v.hostname]))
    && (forall i, j :: 0 <= i < j < |values| ==> values[i].hostname != values[j].hostname)
  }

  class CNodeFetcher {
    const scraper: NodeMetricScraper
    var duration: real
    var errorCounter: nat

    constructor (scraper: NodeMetricScraper)
      ensures this.scraper == scraper && errorCounter == 0 && duration == 0.0
    {
      this.scraper := scraper;
      duration := 0.0;
      errorCounter := 0;
    }

    /** Collects, then copies every entry out of the library's memory; `None` is a memory fault.
        Against a versioned server the records are those of a full reload, and the copying faults
        exactly when the nodes loaded have a host in none of the partitions loaded.  `begin` and
        `end` are the clock around the copying. */
    method CToGoMetricConvert(ghost server: Server, atPart: Server, partReply: Reply, atNode: Server, nodeReply: Reply,
                              begin: real, end: real)
      returns (result: Option<Result<seq<NM.NodeMetric>>>)
      requires Valid(scraper.State()) && LegalCollect(scraper.State(), atPart, partReply, atNode, nodeReply)
      requires Versioned(scraper.lib.heap, server) && Evolves(server, atPart) && Evolves(atPart, atNode)
      modifies this, scraper, scraper.lib
      ensures Valid(scraper.State()) && Versioned(scraper.lib.heap, atNode)
      ensures result == Some(Err) <==> partReply.Fail? || nodeReply.Fail?
      ensures result.None? <==>
                !partReply.Fail? && !nodeReply.Fail? && !AllPlaced(atPart.parts, atNode.nodes)
      ensures result.Some? && result.value.Ok? ==>
                Reports(result.value.value, FullReload(atNode.nodes, atPart.parts))
      ensures errorCounter == old(errorCounter) + if result == Some(Err) then 1 else 0
      ensures duration == if result.Some? && result.value.Ok? then end - begin else old(duration)
    {
      var errno := scraper.CollectCurrent(server, atPart, partReply, atNode, nodeReply);
      if errno != 0 {
        errorCounter := errorCounter + 1;
        return Some(Err);
      }
      ReadableIffPlaced(atNode.nodes, atPart.parts);
      var metrics := ReadEntries();
      if metrics.None? {
        return None;
      }
      duration := end - begin;
      return Some(Ok(metrics.value));
    }

    /** Resets the iterator and copies everything out. */
    method ReadEntries() returns (nodeMetrics: Option<seq<NM.NodeMetric>>)
      requires Valid(scraper.State())
      modifies scraper`it
      ensures nodeMetrics.Some? <==> Readable(View(scraper.State()))
      ensures nodeMetrics.Some? ==> Reports(nodeMetrics.value, View(scraper.State()))
    {
      scraper.IterReset();
      nodeMetrics := CopyOut();
    }

    /** Reads one entry through its pointers. */
    method Convert(metric: PromNodeMetric, ghost key: string) returns (next: Option<NM.NodeMetric>)
      requires Valid(scraper.State()) && key in scraper.enriched && metric == scraper.enriched[key]
      ensures key in View(scraper.State())
      ensures var seen := View(scraper.State())[key];
              next == if seen.partitions.Some? then Some(MetricOf(key, seen)) else None
    {
      EntriesAreLive(scraper.State(), key);
      var hostname := GetHostname(scraper.lib.heap, metric.msg, metric.row).value;
      var partitions :- GetPartitions(scraper.lib.heap, metric.msg, metric.row);
      next := Some(ToNodeMetric(hostname, partitions, metric.scalars));
    }

    /** The iteration: one converted record per entry, up to the first fault. */
    method CopyOut() returns (nodeMetrics: Option<seq<NM.NodeMetric>>)
      requires Valid(scraper.State()) && scraper.it.At? && scraper.IterValid()
      requires (set k | k in scraper.it.left) == scraper.enriched.Keys && |scraper.it.left| == |scraper.enriched|
      modifies scraper`it
      ensures nodeMetrics.Some? <==> Readable(View(scraper.State()))
      ensures nodeMetrics.Some? ==> Reports(nodeMetrics.value, View(scraper.State()))
    {
      var metrics: seq<NM.NodeMetric> := [];
      ghost var keys := scraper.it.left;
      ghost var seen := View(scraper.State());
      ViewSize(scraper.State());
      forall k | k in scraper.enriched ensures k in keys { assert k in (set x | x in keys); }
      var code, metric := scraper.IterNext();
      ghost var n := 0;
      while code == SLURM_SUCCESS
        invariant scraper.it.At? && scraper.IterValid()
        invariant AtEntry(keys, n, code, metric, scraper.enriched, scraper.it.left)
        invariant |metrics| == n
        invariant Copied(keys, metrics, seen)
        decreases |keys| - n
      {
        var next := Convert(metric, keys[n]);
        if next.None? {
          return None;
        }
        CopiedSnoc(keys, metrics, seen, next.value);
        metrics := metrics + [next.value];
        n := n + 1;
        code, metric := scraper.IterNext();
      }
      ReportsFromKeys(keys, metrics, seen);
      nodeMetrics := Some(metrics);
    }
  }

  /** The last `IterNext` gave entry `n`, or there is none. */
  ghost predicate AtEntry(keys: seq<string>, n: int, code: int, metric: PromNodeMetric,
                          enriched: map<string, PromNodeMetric>, left: seq<string>) {
    && 0 <= n <= |keys|
    && (code != SLURM_SUCCESS ==> n == |keys|)
    && (code == SLURM_SUCCESS ==>
          n < |keys| && keys[n] in enriched && metric == enriched[keys[n]] && left == keys[n + 1..])
  }

  /** The values so far are those of the first keys. */
  ghost predicate Copied(keys: seq<string>, values: seq<NM.NodeMetric>, seen: map<string, Seen>) {
    && |values| <= |keys|
    && forall i :: 0 <= i < |values| ==>
         && keys[i] in seen && seen[keys[i]].partitions.Some?
         && values[i] == MetricOf(keys[i], seen[keys[i]])
  }

  lemma CopiedSnoc(keys: seq<string>, values: seq<NM.NodeMetric>, seen: map<string, Seen>, v: NM.NodeMetric)
    requires Copied(keys, values, seen) && |values| < |keys|
    requires var k := keys[|values|]; k in seen && seen[k].partitions.Some? && v == MetricOf(k, seen[k])
    ensures Copied(keys, values + [v], seen)
  {}

  lemma ReportsFromKeys(keys: seq<string>, values: seq<NM.NodeMetric>, seen: map<string, Seen>)
    requires NoRepeats(keys) && |keys| == |seen| == |values| && Copied(keys, values, seen)
    requires forall k :: k in seen ==> k in keys
    ensures Reports(values, seen) && Readable(seen)
  {}

  // ---------- hosts in no partition ----------

  /** No partition text is null. */
  ghost predicate Readable(seen: map<string, Seen>) { forall k :: k in seen ==> seen[k].partitions.Some? }

  /** Every node is in some partition. */
  ghost predicate AllPlaced(parts: seq<Partition>, nodes: seq<NodeRow>) {
    forall row :: row in nodes ==> Placed(parts, row.hostname)
  }

  lemma ReadableIffPlaced(nodes: seq<NodeRow>, parts: seq<Partition>)
    ensures Readable(FullReload(nodes, parts)) <==> AllPlaced(parts, nodes)
  {
    var seen := FullReload(nodes, parts);
    forall row | row in nodes
      ensures row.hostname in seen && (seen[row.hostname].partitions.Some? <==> Placed(parts, row.hostname))
    {
      TextOfPlaced(parts, row.hostname);
    }
    forall k | k in seen ensures exists row :: row in nodes && row.hostname == k {
      assert k in Hosts(nodes);
    }
  }

  /** After any run that ends in a successful collect, every entry can be read without a fault
      exactly when every node loaded is in some partition loaded. */
  lemma ReadsFaultUnlessPlaced(start: Server, es: seq<Event>)
    requires LegalRun(start, es) && |es| > 0
    requires !es[|es| - 1].partReply.Fail? && !es[|es| - 1].nodeReply.Fail?
    ensures Run(es).Some?
    ensures var World(h, s) := Run(es).value;
            (forall k :: k in s.enriched ==> GetPartitions(h, s.enriched[k].msg, s.enriched[k].row).Some?) <==>
            AllPlaced(es[|es| - 1].atPart.parts, es[|es| - 1].atNode.nodes)
  {
    RunsRefineFullReload(start, es);
    ReadableIffPlaced(es[|es| - 1].atNode.nodes, es[|es| - 1].atPart.parts);
    var w := Run(es).value;
    forall k | k in w.s.enriched
      ensures GetPartitions(w.heap, w.s.enriched[k].msg, w.s.enriched[k].row) == View(w)[k].partitions
    {
      EntriesAreLive(w, k);
    }
    assert forall k :: k in w.s.enriched <==> k in View(w);
  }

  /** One node outside every partition is enough: the collect succeeds and the conversion
      faults. */
  lemma LoneNodeFaults(host: string, sc: Scalars)
    ensures var at := Server(1, [], 1, [NodeRow(host, sc)]);
            var es := [Event(at, Fresh, at, Fresh)];
            && LegalRun(at, es) && Run(es).Some? && host in Run(es).value.s.enriched
            && var e := Run(es).value.s.enriched[host];
               && GetHostname(Run(es).value.heap, e.msg, e.row) == Some(host)
               && GetPartitions(Run(es).value.heap, e.msg, e.row) == None
  {
    var at := Server(1, [], 1, [NodeRow(host, sc)]);
    var es := [Event(at, Fresh, at, Fresh)];
    assert es[..0] == [];
    assert Run(es[..0]) == Some(INITIAL);
    RunsRefineFullReload(at, es);
    var w := Run(es).value;
    assert NodeRow(host, sc) in at.nodes;
    assert host in View(w);
    EntriesAreLive(w, host);
    TextOfPlaced([], host);
  }

  /** The partition list of a node in some partition survives the trip through the comma-separated
      text exactly when no name contains a comma; the text itself always survives. */
  lemma PartitionListRoundTrip(parts: seq<Partition>, hostname: string, sc: Scalars)
    requires Placed(parts, hostname)
    ensures PartitionText(parts, hostname).Some?
    ensures var text := PartitionText(parts, hostname).value;
            var list := ToNodeMetric(hostname, text, sc).partitions;
            && (list == MemberNames(parts, hostname) <==>
                forall name :: name in MemberNames(parts, hostname) ==> ',' !in name)
            && Join(list, ',') == text
  {
    TextOfPlaced(parts, hostname);
    SplitJoin(MemberNames(parts, hostname), ',');
    JoinSplit(PartitionText(parts, hostname).value, ',');
  }

  // ---------- the figures ----------

  lemma {:induction false} LastRowAt(rows: seq<NodeRow>, host: string) returns (i: nat)
    requires host in Hosts(rows)
    ensures i < |rows| && rows[i].hostname == host && forall j :: i < j < |rows| ==> rows[j].hostname != host
    ensures LastRow(rows, host) == Some(rows[i].scalars)
  {
    LastRowExists(rows, host);
    i := |rows| - 1;
    if rows[i].hostname != host {
      LastRowExists(rows[..i], host);
      i := LastRowAt(rows[..i], host);
    }
  }

  /** Every reported record against the last row `i` of its host: memory in bytes, the load
      unscaled, the idle cpus as what is not allocated, the state by name. */
  lemma ConvertedFigures(values: seq<NM.NodeMetric>, nodes: seq<NodeRow>, parts: seq<Partition>, v: NM.NodeMetric)
    returns (i: nat)
    requires Reports(values, FullReload(nodes, parts)) && v in values
    ensures i < |nodes| && nodes[i].hostname == v.hostname
    ensures forall j :: i < j < |nodes| ==> nodes[j].hostname != v.hostname
    ensures var sc := nodes[i].scalars;
            && v.cpus == sc.cpus as real && v.allocCpus == sc.allocCpus as real
            && v.allocCpus + v.idleCpus == v.cpus
            && v.realMemory == 1000000.0 * sc.realMemory as real
            && v.freeMemory == 1000000.0 * sc.freeMem as real
            && v.allocMemory == 1000000.0 * sc.allocMem as real
            && v.weight == sc.weight as real && 100.0 * v.cpuLoad == sc.cpuLoad as real
    ensures var state := nodes[i].scalars.state;
            v.state == if state == 0 then "UNKNOWN" else if state == 1 then "DOWN" else if state == 2 then "IDLE"
                       else if state == 3 then "ALLOCATED" else if state == 4 then "ERROR"
                       else if state == 5 then "MIXED" else if state == 6 then "FUTURE"
                       else if state == 7 then "END" else ""
  {
    assert v.hostname in FullReload(nodes, parts);
    i := LastRowAt(nodes, v.hostname);
  }

  lemma {:induction false} NamesOf(values: seq<NM.NodeMetric>) returns (names: set<string>)
    requires forall i, j :: 0 <= i < j < |values| ==> values[i].hostname != values[j].hostname
    ensures names == (set v | v in values :: v.hostname) && |names| == |values|
  {
    if |values| == 0 {
      names := {};
    } else {
      var init, v := values[..|values| - 1], values[|values| - 1];
      var rest := NamesOf(init);
      assert values == init + [v];
      names := rest + {v.hostname};
    }
  }

  lemma FullSubset<T>(a: set<T>, b: set<T>)
    requires a <= b && |a| == |b|
    ensures a == b
  {
    assert b == a + (b - a);
  }

  /** Every node loaded has a record. */
  lemma EveryNodeConverted(values: seq<NM.NodeMetric>, nodes: seq<NodeRow>, parts: seq<Partition>, row: NodeRow)
    requires Reports(values, FullReload(nodes, parts)) && row in nodes
    ensures exists v :: v in values && v.hostname == row.hostname
  {
    var seen := FullReload(nodes, parts);
    var names := NamesOf(values);
    assert |seen| == |seen.Keys|;
    FullSubset(names, seen.Keys);
    assert row.hostname in seen.Keys;
  }

  lemma {:induction false} NamesOfMembers(parts: seq<Partition>, host: string, has: Partition -> bool)
    requires forall p :: has(p) <==> host in p.hosts
    ensures |MemberNames(parts, host)| == |Filter(parts, has)|
    ensures forall k :: 0 <= k < |Filter(parts, has)| ==> MemberNames(parts, host)[k] == Filter(parts, has)[k].name
  {
    if |parts| > 0 {
      NamesOfMembers(parts[1..], host, has);
      assert parts == [parts[0]] + parts[1..];
      FilterAppend([parts[0]], parts[1..], has);
      FilterSnoc([], parts[0], has);
      assert [] + [parts[0]] == [parts[0]];
    }
  }

  /** The partitions of a record are the names of the partitions that have the host, in the order
      the server lists them, when no such name contains a comma. */
  lemma ConvertedPartitions(values: seq<NM.NodeMetric>, nodes: seq<NodeRow>, parts: seq<Partition>, v: NM.NodeMetric)
    requires Reports(values, FullReload(nodes, parts)) && v in values
    requires forall p :: p in parts && v.hostname in p.hosts ==> ',' !in p.name
    ensures var mine := Filter(parts, (p: Partition) => v.hostname in p.hosts);
            && |v.partitions| == |mine| >= 1
            && forall k :: 0 <= k < |mine| ==> v.partitions[k] == mine[k].name
  {
    var host := v.hostname;
    var has := (p: Partition) => v.hostname in p.hosts;
    NamesOfMembers(parts, host, has);
    var mine := Filter(parts, has);
    forall k | 0 <= k < |mine| ensures ',' !in mine[k].name {
      FilterMember(parts, has, mine[k]);
    }
    TextOfPlaced(parts, host);
    SplitJoin(MemberNames(parts, host), ',');
  }
}
