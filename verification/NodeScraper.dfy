/** `NodeMetricScraper`: a double-buffered scraper of two resources.  `old` pointers are the
    committed messages, `new` pointers the latest loads.  The reload protocol is first given as a
    function over a heap in which every use of a dead pointer is a fault, then as the class. */
module NodeScraper {
  import opened Prelude
  import opened SlurmNodes

  /** A shallow copy of a row: scalars by value, strings through a pointer into the message. */
  datatype PromNodeMetric = PromNodeMetric(msg: Ptr, row: nat, scalars: Scalars)

  datatype Scraper = Scraper(
    newPart: Ptr, oldPart: Ptr, newNode: Ptr, oldNode: Ptr, enriched: map<string, PromNodeMetric>)

  datatype World = World(heap: Heap, s: Scraper)

  const INITIAL := World(Heap(map[], map[], 1), Scraper(0, 0, 0, 0, map[]))

  /** Entries for the first `k` rows of a message written over `m`; later rows win. */
  function Fill(m: map<string, PromNodeMetric>, p: Ptr, rows: seq<NodeRow>, k: nat): map<string, PromNodeMetric>
    requires k <= |rows|
  {
    if k == 0 then m
    else Fill(m, p, rows, k - 1)[rows[k - 1].hostname := PromNodeMetric(p, k - 1, rows[k - 1].scalars)]
  }

  /** The second half of a collect, once both loads have succeeded. */
  function Commit(h0: Heap, s: Scraper): Option<World> {
    var h1 :- Populate(h0, s.newNode, s.newPart);
    var fresh_ := s.oldNode != 0 && s.oldNode != s.newNode;
    var h2 :- if fresh_ then FreeNode(h1, s.oldNode) else Some(h1);
    var h3 :- if s.oldPart != s.newPart then FreePart(h2, s.oldPart) else Some(h2);
    var start: map<string, PromNodeMetric> := if fresh_ then map[] else s.enriched;
    if s.newNode !in h3.nodes then None
    else
      var rows := h3.nodes[s.newNode].rows;
      Some(World(h3, Scraper(s.newPart, s.newPart, s.newNode, s.newNode, Fill(start, s.newNode, rows, |rows|))))
  }

  /** One `CollectNodeInfo`: the partitions are loaded when the server is at `atPart`, the nodes
      when it is at `atNode`.  The result is the new world and the return code. */
  function Collect(w: World, atPart: Server, partReply: Reply, atNode: Server, nodeReply: Reply): Option<(World, int)> {
    var World(h, s) := w;
    var _ :- PartTime(h, s.oldPart);
    var _ :- NodeTime(h, s.oldNode);
    match partReply
    case Fail(errno) => Some((w, errno))
    case _ =>
      var (h1, newPart) := if partReply.Fresh? then LoadPartitions(h, atPart) else (h, s.oldPart);
      var s1 := s.(newPart := newPart);
      match nodeReply
      case Fail(_) => Some((World(h1, s1), SLURM_ERROR))
      case _ =>
        var (h2, newNode) := if nodeReply.Fresh? then LoadNodes(h1, atNode) else (h1, s.oldNode);
        var w' :- Commit(h2, s1.(newNode := newNode));
        Some((w', SLURM_SUCCESS))
  }

  /** The destructor. */
  function Destroy(w: World): Option<Heap> {
    var World(h, s) := w;
    var h1 :- FreeNode(h, s.newNode);
    var h2 :- if s.oldNode != s.newNode then FreeNode(h1, s.oldNode) else Some(h1);
    var h3 :- FreePart(h2, s.newPart);
    if s.oldPart != s.newPart then FreePart(h3, s.oldPart) else Some(h3)
  }

  // ---------- the invariant ----------

  ghost predicate Addresses(h: Heap) {
    && h.next > 0
    && (forall p :: p in h.parts ==> 0 < p < h.next)
    && (forall p :: p in h.nodes ==> 0 < p < h.next && |h.nodes[p].partitions| == |h.nodes[p].rows|)
  }

  /** Committed pointers are live, the node pointers agree, and the map is exactly the committed
      message's rows, last duplicate winning: every entry points into the live node message. */
  ghost predicate Valid(w: World) {
    var World(h, s) := w;
    && Addresses(h)
    && s.newNode == s.oldNode && h.nodes.Keys == {s.oldNode} - {0}
    && (s.oldPart != 0 ==> s.oldPart in h.parts) && (s.newPart != 0 ==> s.newPart in h.parts)
    && (s.oldPart == 0 <==> s.oldNode == 0)
    && (s.newPart == 0 ==> s.oldPart == 0)
    && s.enriched == if s.oldNode == 0 then map[] else Rows(h, s.oldNode)
  }

  ghost function Rows(h: Heap, p: Ptr): map<string, PromNodeMetric>
    requires p in h.nodes
  {
    Fill(map[], p, h.nodes[p].rows, |h.nodes[p].rows|)
  }

  lemma {:induction false} FillEntries(m: map<string, PromNodeMetric>, p: Ptr, rows: seq<NodeRow>, k: nat)
    requires k <= |rows|
    ensures forall h :: h in Fill(map[], p, rows, k) ==>
              var e := Fill(map[], p, rows, k)[h];
              e.msg == p && e.row < k && rows[e.row].hostname == h && e.scalars == rows[e.row].scalars
    ensures Fill(m, p, rows, k) == m + Fill(map[], p, rows, k)
  {
    if k > 0 { FillEntries(m, p, rows, k - 1); }
  }

  /** Every entry points into the live, committed node message, at a row of its own host. */
  lemma EntriesAreLive(w: World, host: string)
    requires Valid(w) && host in w.s.enriched
    ensures var e := w.s.enriched[host];
            && e.msg == w.s.oldNode && e.msg in w.heap.nodes
            && e.row < |w.heap.nodes[e.msg].rows|
            && w.heap.nodes[e.msg].rows[e.row] == NodeRow(host, e.scalars)
  {
    var rows := w.heap.nodes[w.s.oldNode].rows;
    FillEntries(map[], w.s.oldNode, rows, |rows|);
  }

  ghost predicate LegalCollect(w: World, atPart: Server, partReply: Reply, atNode: Server, nodeReply: Reply) {
    && PartTime(w.heap, w.s.oldPart).Some? && NodeTime(w.heap, w.s.oldNode).Some?
    && Legal(partReply, PartTime(w.heap, w.s.oldPart).value, atPart.partVersion)
    && Legal(nodeReply, NodeTime(w.heap, w.s.oldNode).value, atNode.nodeVersion)
  }

  /** Loads have succeeded: what `Commit` may rely on. */
  ghost predicate Loaded(h: Heap, s: Scraper) {
    && Addresses(h)
    && s.newNode in h.nodes && s.newPart in h.parts
    && h.nodes.Keys == ({s.oldNode} - {0}) + {s.newNode}
    && (s.oldPart != 0 ==> s.oldPart in h.parts)
    && (s.oldPart == 0 <==> s.oldNode == 0)
    && s.enriched == if s.oldNode == 0 then map[] else Rows(h, s.oldNode)
  }

  lemma RefillIsRows(h: Heap, s: Scraper, start: map<string, PromNodeMetric>)
    requires s.newNode in h.nodes
    requires start == map[] || start == Rows(h, s.newNode)
    ensures Fill(start, s.newNode, h.nodes[s.newNode].rows, |h.nodes[s.newNode].rows|) == Rows(h, s.newNode)
  {
    FillEntries(start, s.newNode, h.nodes[s.newNode].rows, |h.nodes[s.newNode].rows|);
  }

  /** A commit never faults and leaves one node message, the new one, with the partitions of the
      new partition message. */
  lemma CommitEffect(h: Heap, s: Scraper)
    requires Loaded(h, s)
    ensures Commit(h, s).Some?
    ensures var World(h', s') := Commit(h, s).value;
            && s'.newPart == s'.oldPart == s.newPart && s'.newNode == s'.oldNode == s.newNode
            && h'.parts == (if s.oldPart != s.newPart then h.parts - {s.oldPart} else h.parts)
            && h'.nodes == map[s.newNode := h.nodes[s.newNode].(
                 partitions := PartitionTexts(h.nodes[s.newNode].rows, h.parts[s.newPart].parts))]
            && h'.next == h.next
            && s'.enriched == Rows(h', s.newNode)
  {
    var h1 := Populate(h, s.newNode, s.newPart).value;
    assert h1.nodes.Keys == h.nodes.Keys;
    RefillIsRows(h, s, if s.oldNode != 0 && s.oldNode != s.newNode then map[] else s.enriched);
    if s.oldNode != 0 && s.oldNode != s.newNode {
      assert (h1.nodes - {s.oldNode}).Keys == {s.newNode};
    }
  }

  lemma CommitValid(h: Heap, s: Scraper)
    requires Loaded(h, s)
    ensures Commit(h, s).Some? && Valid(Commit(h, s).value)
  {
    CommitEffect(h, s);
  }

  /** The state in which `Commit` runs satisfies its demands. */
  lemma LoadedBeforeCommit(w: World, atPart: Server, partReply: Reply, atNode: Server, nodeReply: Reply)
    requires Valid(w) && LegalCollect(w, atPart, partReply, atNode, nodeReply)
    requires !partReply.Fail? && !nodeReply.Fail?
    ensures var (h1, newPart) := if partReply.Fresh? then LoadPartitions(w.heap, atPart) else (w.heap, w.s.oldPart);
            var (h2, newNode) := if nodeReply.Fresh? then LoadNodes(h1, atNode) else (h1, w.s.oldNode);
            Loaded(h2, w.s.(newPart := newPart, newNode := newNode))
  {}

  /** A legal collect never faults and keeps the invariant, whichever load fails. */
  lemma CollectKeepsValid(w: World, atPart: Server, partReply: Reply, atNode: Server, nodeReply: Reply)
    requires Valid(w) && LegalCollect(w, atPart, partReply, atNode, nodeReply)
    ensures Collect(w, atPart, partReply, atNode, nodeReply).Some?
    ensures Valid(Collect(w, atPart, partReply, atNode, nodeReply).value.0)
  {
    if !partReply.Fail? && !nodeReply.Fail? {
      LoadedBeforeCommit(w, atPart, partReply, atNode, nodeReply);
      var (h1, newPart) := if partReply.Fresh? then LoadPartitions(w.heap, atPart) else (w.heap, w.s.oldPart);
      var (h2, newNode) := if nodeReply.Fresh? then LoadNodes(h1, atNode) else (h1, w.s.oldNode);
      CommitEffect(h2, w.s.(newPart := newPart, newNode := newNode));
      CommitValid(h2, w.s.(newPart := newPart, newNode := newNode));
    }
  }

  /** A failed collect reports a non-zero code and leaves the committed messages and the map. */
  lemma FailureKeepsCommitted(w: World, atPart: Server, partReply: Reply, atNode: Server, nodeReply: Reply)
    requires Valid(w) && LegalCollect(w, atPart, partReply, atNode, nodeReply)
    ensures var (w', code) := Collect(w, atPart, partReply, atNode, nodeReply).value;
            && (code != SLURM_SUCCESS <==> partReply.Fail? || nodeReply.Fail?)
            && (code != SLURM_SUCCESS ==>
                  && w'.s.(newPart := w.s.newPart) == w.s
                  && w'.heap.nodes == w.heap.nodes
                  && forall p :: p in w.heap.parts ==> p in w'.heap.parts && w'.heap.parts[p] == w.heap.parts[p])
  {
    CollectKeepsValid(w, atPart, partReply, atNode, nodeReply);
  }

  // ---------- incremental reload refines full reload ----------

  /** What a reader finds behind an entry; the partition text may be null. */
  datatype Seen = Seen(scalars: Scalars, partitions: Option<string>)

  ghost function View(w: World): map<string, Seen>
    requires Valid(w)
  {
    map h | h in w.s.enriched ::
      EntriesAreLive(w, h);
      var e := w.s.enriched[h];
      Seen(e.scalars, w.heap.nodes[e.msg].partitions[e.row])
  }

  lemma ViewSize(w: World)
    requires Valid(w)
    ensures View(w).Keys == w.s.enriched.Keys && |View(w)| == |w.s.enriched|
  {
    assert View(w).Keys == w.s.enriched.Keys;
    assert |View(w)| == |View(w).Keys| && |w.s.enriched| == |w.s.enriched.Keys|;
  }

  /** The last record of a host in a list with possible duplicates. */
  function LastRow(rows: seq<NodeRow>, host: string): Option<Scalars> {
    if |rows| == 0 then None
    else if rows[|rows| - 1].hostname == host then Some(rows[|rows| - 1].scalars)
    else LastRow(rows[..|rows| - 1], host)
  }

  ghost function Hosts(rows: seq<NodeRow>): set<string> { set row | row in rows :: row.hostname }

  lemma {:induction false} LastRowExists(rows: seq<NodeRow>, host: string)
    ensures LastRow(rows, host).Some? <==> host in Hosts(rows)
  {
    if |rows| > 0 {
      LastRowExists(rows[..|rows| - 1], host);
      assert rows == rows[..|rows| - 1] + [rows[|rows| - 1]];
    }
  }

  /** What reading everything anew would give: one entry per host, the last duplicate winning. */
  ghost function FullReload(rows: seq<NodeRow>, parts: seq<Partition>): map<string, Seen> {
    map host | host in Hosts(rows) ::
      LastRowExists(rows, host);
      Seen(LastRow(rows, host).value, PartitionText(parts, host))
  }

  lemma {:induction false} FillIsLastRow(p: Ptr, rows: seq<NodeRow>, k: nat, host: string)
    requires k <= |rows|
    ensures host in Fill(map[], p, rows, k) <==> LastRow(rows[..k], host).Some?
    ensures host in Fill(map[], p, rows, k) ==> Fill(map[], p, rows, k)[host].scalars == LastRow(rows[..k], host).value
  {
    if k > 0 {
      FillIsLastRow(p, rows, k - 1, host);
      assert rows[..k][..k - 1] == rows[..k - 1];
    }
  }

  /** Every live message that carries the server's current time also carries its current records. */
  ghost predicate Versioned(h: Heap, at: Server) {
    && (forall p :: p in h.parts ==>
          && h.parts[p].lastUpdate <= at.partVersion
          && (h.parts[p].lastUpdate == at.partVersion ==> h.parts[p].parts == at.parts))
    && (forall p :: p in h.nodes ==>
          && h.nodes[p].lastUpdate <= at.nodeVersion
          && (h.nodes[p].lastUpdate == at.nodeVersion ==> h.nodes[p].rows == at.nodes))
  }

  lemma VersionedLater(h: Heap, a: Server, b: Server)
    requires Versioned(h, a) && Evolves(a, b)
    ensures Versioned(h, b)
  {}

  /** What a committed world shows is the full reload of the records in its two messages. */
  lemma CommittedView(w: World)
    requires Valid(w) && w.s.oldNode != 0
    requires var n := w.heap.nodes[w.s.oldNode];
             n.partitions == PartitionTexts(n.rows, w.heap.parts[w.s.oldPart].parts)
    ensures View(w) == FullReload(w.heap.nodes[w.s.oldNode].rows, w.heap.parts[w.s.oldPart].parts)
  {
    var rows, parts := w.heap.nodes[w.s.oldNode].rows, w.heap.parts[w.s.oldPart].parts;
    assert rows[..|rows|] == rows;
    forall host ensures host in View(w) <==> host in FullReload(rows, parts) {
      FillIsLastRow(w.s.oldNode, rows, |rows|, host);
      LastRowExists(rows, host);
    }
    forall host | host in View(w) ensures View(w)[host] == FullReload(rows, parts)[host] {
      FillIsLastRow(w.s.oldNode, rows, |rows|, host);
      LastRowExists(rows, host);
      EntriesAreLive(w, host);
    }
  }

  /** The messages a successful collect commits. */
  lemma CommittedMessages(w: World, server: Server, atPart: Server, partReply: Reply, atNode: Server, nodeReply: Reply)
    requires Valid(w) && LegalCollect(w, atPart, partReply, atNode, nodeReply)
    requires Versioned(w.heap, server) && Evolves(server, atPart) && Evolves(atPart, atNode)
    requires !partReply.Fail? && !nodeReply.Fail?
    ensures Collect(w, atPart, partReply, atNode, nodeReply).Some?
    ensures var w' := Collect(w, atPart, partReply, atNode, nodeReply).value.0;
            && Valid(w') && w'.s.oldNode != 0
            && w'.heap.parts[w'.s.oldPart].parts == atPart.parts
            && w'.heap.nodes[w'.s.oldNode].rows == atNode.nodes
            && w'.heap.nodes[w'.s.oldNode].partitions == PartitionTexts(atNode.nodes, atPart.parts)
  {
    CollectKeepsValid(w, atPart, partReply, atNode, nodeReply);
    LoadedBeforeCommit(w, atPart, partReply, atNode, nodeReply);
    var (h1, newPart) := if partReply.Fresh? then LoadPartitions(w.heap, atPart) else (w.heap, w.s.oldPart);
    var (h2, newNode) := if nodeReply.Fresh? then LoadNodes(h1, atNode) else (h1, w.s.oldNode);
    CommitEffect(h2, w.s.(newPart := newPart, newNode := newNode));
    CommitValid(h2, w.s.(newPart := newPart, newNode := newNode));
    VersionedLater(w.heap, server, atPart);
    VersionedLater(w.heap, atPart, atNode);
    assert h2.parts[newPart].parts == atPart.parts;
    assert h2.nodes[newNode].rows == atNode.nodes;
  }

  /** Incremental reload refines full reload: after a successful collect the entries are exactly
      one per host of the server's current node records, the last duplicate winning, with the
      partitions as they were at the partition load, whatever failed before. */
  lemma CollectRefinesFullReload(w: World, server: Server, atPart: Server, partReply: Reply,
                                 atNode: Server, nodeReply: Reply)
    requires Valid(w) && LegalCollect(w, atPart, partReply, atNode, nodeReply)
    requires Versioned(w.heap, server) && Evolves(server, atPart) && Evolves(atPart, atNode)
    requires Collect(w, atPart, partReply, atNode, nodeReply).Some?
    requires Collect(w, atPart, partReply, atNode, nodeReply).value.1 == SLURM_SUCCESS
    ensures Valid(Collect(w, atPart, partReply, atNode, nodeReply).value.0)
    ensures View(Collect(w, atPart, partReply, atNode, nodeReply).value.0) == FullReload(atNode.nodes, atPart.parts)
  {
    FailureKeepsCommitted(w, atPart, partReply, atNode, nodeReply);
    CommittedMessages(w, server, atPart, partReply, atNode, nodeReply);
    CommittedView(Collect(w, atPart, partReply, atNode, nodeReply).value.0);
  }

  lemma CommitKeepsVersioned(h: Heap, s: Scraper, at: Server)
    requires Loaded(h, s) && Versioned(h, at)
    ensures Commit(h, s).Some? && Versioned(Commit(h, s).value.heap, at)
  {
    CommitEffect(h, s);
  }

  lemma CollectKeepsVersioned(w: World, server: Server, atPart: Server, partReply: Reply,
                              atNode: Server, nodeReply: Reply)
    requires Valid(w) && LegalCollect(w, atPart, partReply, atNode, nodeReply)
    requires Versioned(w.heap, server) && Evolves(server, atPart) && Evolves(atPart, atNode)
    ensures Collect(w, atPart, partReply, atNode, nodeReply).Some?
    ensures Versioned(Collect(w, atPart, partReply, atNode, nodeReply).value.0.heap, atNode)
  {
    CollectKeepsValid(w, atPart, partReply, atNode, nodeReply);
    VersionedLater(w.heap, server, atPart);
    VersionedLater(w.heap, atPart, atNode);
    if !partReply.Fail? && !nodeReply.Fail? {
      LoadedBeforeCommit(w, atPart, partReply, atNode, nodeReply);
      var (h1, newPart) := if partReply.Fresh? then LoadPartitions(w.heap, atPart) else (w.heap, w.s.oldPart);
      var (h2, newNode) := if nodeReply.Fresh? then LoadNodes(h1, atNode) else (h1, w.s.oldNode);
      CommitEffect(h2, w.s.(newPart := newPart, newNode := newNode));
      CommitKeepsVersioned(h2, w.s.(newPart := newPart, newNode := newNode), atNode);
      CommitValid(h2, w.s.(newPart := newPart, newNode := newNode));
    }
  }

  /** What a caller may rely on after one collect, whatever happened. */
  lemma CollectEffect(w: World, server: Server, atPart: Server, partReply: Reply, atNode: Server, nodeReply: Reply)
    requires Valid(w) && LegalCollect(w, atPart, partReply, atNode, nodeReply)
    requires Versioned(w.heap, server) && Evolves(server, atPart) && Evolves(atPart, atNode)
    ensures Collect(w, atPart, partReply, atNode, nodeReply).Some?
    ensures var (w', code) := Collect(w, atPart, partReply, atNode, nodeReply).value;
            && Valid(w') && Versioned(w'.heap, atNode)
            && (code != SLURM_SUCCESS <==> partReply.Fail? || nodeReply.Fail?)
            && (code == SLURM_SUCCESS ==> View(w') == FullReload(atNode.nodes, atPart.parts))
  {
    CollectKeepsValid(w, atPart, partReply, atNode, nodeReply);
    CollectKeepsVersioned(w, server, atPart, partReply, atNode, nodeReply);
    FailureKeepsCommitted(w, atPart, partReply, atNode, nodeReply);
    if !partReply.Fail? && !nodeReply.Fail? {
      CollectRefinesFullReload(w, server, atPart, partReply, atNode, nodeReply);
    }
  }

  // ---------- runs ----------

  /** One collect of a run: what the server knows at each load, and how each load is answered. */
  datatype Event = Event(atPart: Server, partReply: Reply, atNode: Server, nodeReply: Reply)

  /** The world after a run, `None` after a memory fault. */
  function Run(es: seq<Event>): Option<World> {
    if |es| == 0 then Some(INITIAL)
    else
      var w :- Run(es[..|es| - 1]);
      var e := es[|es| - 1];
      var (w', _) :- Collect(w, e.atPart, e.partReply, e.atNode, e.nodeReply);
      Some(w')
  }

  function ServerAfter(start: Server, es: seq<Event>): Server {
    if |es| == 0 then start else es[|es| - 1].atNode
  }

  /** The library keeps its promises and the server only moves forward. */
  ghost predicate LegalRun(start: Server, es: seq<Event>) {
    |es| > 0 ==>
      && LegalRun(start, es[..|es| - 1])
      && var e := es[|es| - 1];
         && Evolves(ServerAfter(start, es[..|es| - 1]), e.atPart)
         && Evolves(e.atPart, e.atNode)
         && (Run(es[..|es| - 1]).Some? ==>
               LegalCollect(Run(es[..|es| - 1]).value, e.atPart, e.partReply, e.atNode, e.nodeReply))
  }

  /** No run faults: no dead pointer is ever read, populated or freed, nothing is freed twice. */
  lemma {:induction false} RunsAreSafe(start: Server, es: seq<Event>)
    requires LegalRun(start, es)
    ensures Run(es).Some? && Valid(Run(es).value) && Versioned(Run(es).value.heap, ServerAfter(start, es))
  {
    if |es| > 0 {
      var init, e := es[..|es| - 1], es[|es| - 1];
      RunsAreSafe(start, init);
      var w := Run(init).value;
      CollectKeepsValid(w, e.atPart, e.partReply, e.atNode, e.nodeReply);
      CollectKeepsVersioned(w, ServerAfter(start, init), e.atPart, e.partReply, e.atNode, e.nodeReply);
    }
  }

  /** After any run, a collect whose loads both succeed shows the current records: partial failures
      on the way lose no update. */
  lemma RunsRefineFullReload(start: Server, es: seq<Event>)
    requires LegalRun(start, es) && |es| > 0
    requires !es[|es| - 1].partReply.Fail? && !es[|es| - 1].nodeReply.Fail?
    ensures Run(es).Some? && Valid(Run(es).value)
    ensures View(Run(es).value) == FullReload(es[|es| - 1].atNode.nodes, es[|es| - 1].atPart.parts)
  {
    var init, e := es[..|es| - 1], es[|es| - 1];
    RunsAreSafe(start, es);
    RunsAreSafe(start, init);
    var w := Run(init).value;
    FailureKeepsCommitted(w, e.atPart, e.partReply, e.atNode, e.nodeReply);
    CollectRefinesFullReload(w, ServerAfter(start, init), e.atPart, e.partReply, e.atNode, e.nodeReply);
  }

  // ---------- the live messages ----------

  /** A fresh partition message that the failing node load left uncommitted. */
  predicate Uncommitted(e: Event) { e.partReply.Fresh? && e.nodeReply.Fail? }

  /** A partition load that overwrites `new_part_ptr`. */
  predicate Overwrites(e: Event) { !e.partReply.Fail? }

  ghost predicate OverwrittenLater(es: seq<Event>, i: nat) {
    exists j :: i < j < |es| && Overwrites(es[j])
  }

  /** The collects whose partition message was orphaned. */
  ghost function Orphaned(es: seq<Event>): set<nat> {
    set i: nat | i < |es| && Uncommitted(es[i]) && OverwrittenLater(es, i)
  }

  /** The collect whose uncommitted partition message `new_part_ptr` still holds. */
  ghost predicate IsPending(es: seq<Event>, i: nat) {
    i < |es| && Uncommitted(es[i]) && !OverwrittenLater(es, i)
  }

  /** The live partition messages no field points to. */
  ghost function Lost(w: World): set<Ptr> { w.heap.parts.Keys - {w.s.oldPart, w.s.newPart} }

  lemma OverwrittenSnoc(es: seq<Event>, e: Event, i: nat)
    requires i < |es|
    ensures OverwrittenLater(es + [e], i) <==> OverwrittenLater(es, i) || Overwrites(e)
  {
    var more := es + [e];
    if OverwrittenLater(more, i) && !Overwrites(e) {
      var j :| i < j < |more| && Overwrites(more[j]);
      assert more[j] == es[j];
    }
    if OverwrittenLater(es, i) {
      var j :| i < j < |es| && Overwrites(es[j]);
      assert more[j] == es[j];
    }
    if Overwrites(e) { assert more[|es|] == e; }
  }

  /** What one more collect does to the orphans. */
  lemma OrphanedSnoc(es: seq<Event>, e: Event)
    ensures Overwrites(e) ==> forall i: nat :: i in Orphaned(es + [e]) <==> i in Orphaned(es) || IsPending(es, i)
    ensures !Overwrites(e) ==> forall i: nat :: i in Orphaned(es + [e]) <==> i in Orphaned(es)
    ensures forall i: nat :: i < |es| ==> (IsPending(es + [e], i) <==> IsPending(es, i) && !Overwrites(e))
    ensures IsPending(es + [e], |es|) <==> Uncommitted(e)
  {
    forall i: nat | i < |es| ensures OverwrittenLater(es + [e], i) <==> OverwrittenLater(es, i) || Overwrites(e) {
      OverwrittenSnoc(es, e, i);
    }
    assert forall i: nat :: i < |es| ==> (es + [e])[i] == es[i];
    assert !OverwrittenLater(es + [e], |es|);
  }

  lemma AtMostOnePending(es: seq<Event>, i: nat, j: nat)
    requires IsPending(es, i) && IsPending(es, j)
    ensures i == j
  {
    if i < j { assert Overwrites(es[j]); }
    if j < i { assert Overwrites(es[i]); }
  }

  lemma CommitLosses(h: Heap, s: Scraper)
    requires Loaded(h, s) && 0 !in h.parts
    ensures Commit(h, s).Some?
    ensures Lost(Commit(h, s).value) == h.parts.Keys - {s.oldPart, s.newPart}
    ensures Commit(h, s).value.s.newPart == Commit(h, s).value.s.oldPart
  {
    CommitEffect(h, s);
  }

  /** One collect's effect on the partition messages, by how the loads are answered. */
  lemma CollectLosses(w: World, atPart: Server, partReply: Reply, atNode: Server, nodeReply: Reply)
    requires Valid(w) && LegalCollect(w, atPart, partReply, atNode, nodeReply)
    ensures Collect(w, atPart, partReply, atNode, nodeReply).Some?
    ensures var w' := Collect(w, atPart, partReply, atNode, nodeReply).value.0;
            && (partReply.Fail? ==> w' == w)
            && (!partReply.Fail? ==> Lost(w') == Lost(w) + ({w.s.newPart} - {w.s.oldPart, 0}))
            && (!partReply.Fail? ==> (w'.s.newPart != w'.s.oldPart <==> partReply.Fresh? && nodeReply.Fail?))
  {
    CollectKeepsValid(w, atPart, partReply, atNode, nodeReply);
    if !partReply.Fail? && !nodeReply.Fail? {
      LoadedBeforeCommit(w, atPart, partReply, atNode, nodeReply);
      var (h1, newPart) := if partReply.Fresh? then LoadPartitions(w.heap, atPart) else (w.heap, w.s.oldPart);
      var (h2, newNode) := if nodeReply.Fresh? then LoadNodes(h1, atNode) else (h1, w.s.oldNode);
      CommitLosses(h2, w.s.(newPart := newPart, newNode := newNode));
    }
  }

  /** Every live message is one a field points to or a lost one. */
  lemma HeldAndLost(w: World)
    requires Valid(w)
    ensures {w.s.oldPart, w.s.newPart} - {0} <= w.heap.parts.Keys
    ensures w.heap.parts.Keys == ({w.s.oldPart, w.s.newPart} - {0}) + Lost(w)
  {
    assert 0 !in w.heap.parts;
  }

  /** Exact accounting for every run: one node message, the committed pair of partition pointers,
      and one orphan for each uncommitted partition message that was overwritten. */
  lemma LiveMessages(start: Server, es: seq<Event>)
    requires LegalRun(start, es)
    ensures Run(es).Some?
    ensures var w := Run(es).value;
            && w.heap.nodes.Keys == {w.s.oldNode} - {0}
            && w.heap.parts.Keys == ({w.s.oldPart, w.s.newPart} - {0}) + Lost(w)
            && |Lost(w)| == |Orphaned(es)|
            && (w.s.newPart != w.s.oldPart <==> exists i: nat :: IsPending(es, i))
  {
    RunsAreSafe(start, es);
    HeldAndLost(Run(es).value);
    CountLost(start, es);
  }

  lemma {:induction false} CountLost(start: Server, es: seq<Event>)
    requires LegalRun(start, es)
    ensures Run(es).Some? && |Lost(Run(es).value)| == |Orphaned(es)|
    ensures Run(es).value.s.newPart != Run(es).value.s.oldPart <==> exists i: nat :: IsPending(es, i)
  {
    if |es| == 0 {
      assert Orphaned(es) == {};
      assert Lost(INITIAL) == {};
    } else {
      var init, e := es[..|es| - 1], es[|es| - 1];
      assert es == init + [e];
      CountLost(start, init);
      RunsAreSafe(start, init);
      var w := Run(init).value;
      CollectLosses(w, e.atPart, e.partReply, e.atNode, e.nodeReply);
      CountOrphans(init, e, w, Run(es).value);
    }
  }

  lemma OrphansKept(init: seq<Event>, e: Event)
    requires !Overwrites(e) || !exists i: nat :: IsPending(init, i)
    ensures Orphaned(init + [e]) == Orphaned(init)
  {
    OrphanedSnoc(init, e);
  }

  lemma OrphansGrow(init: seq<Event>, e: Event, i: nat)
    requires Overwrites(e) && IsPending(init, i)
    ensures |Orphaned(init + [e])| == |Orphaned(init)| + 1
  {
    OrphanedSnoc(init, e);
    forall j: nat | IsPending(init, j) ensures j == i { AtMostOnePending(init, i, j); }
    assert Orphaned(init + [e]) == Orphaned(init) + {i};
    assert i !in Orphaned(init);
  }

  lemma LossesGrow(w: World, w': World)
    requires Lost(w') == Lost(w) + ({w.s.newPart} - {w.s.oldPart, 0})
    requires w.s.newPart == 0 ==> w.s.oldPart == 0
    ensures |Lost(w')| == |Lost(w)| + if w.s.newPart != w.s.oldPart then 1 else 0
  {
    if w.s.newPart == w.s.oldPart {
      assert Lost(w') == Lost(w);
    } else {
      assert Lost(w') == Lost(w) + {w.s.newPart};
      assert w.s.newPart !in Lost(w);
    }
  }

  lemma CountOrphans(init: seq<Event>, e: Event, w: World, w': World)
    requires |Lost(w)| == |Orphaned(init)|
    requires w.s.newPart != w.s.oldPart <==> exists i: nat :: IsPending(init, i)
    requires w.s.newPart == 0 ==> w.s.oldPart == 0
    requires !Overwrites(e) ==> w' == w
    requires Overwrites(e) ==> Lost(w') == Lost(w) + ({w.s.newPart} - {w.s.oldPart, 0})
    requires Overwrites(e) ==> (w'.s.newPart != w'.s.oldPart <==> Uncommitted(e))
    ensures |Lost(w')| == |Orphaned(init + [e])|
    ensures w'.s.newPart != w'.s.oldPart <==> exists i: nat :: IsPending(init + [e], i)
  {
    PendingSnoc(init, e);
    if !Overwrites(e) {
      OrphansKept(init, e);
    } else {
      LossesGrow(w, w');
      if w.s.newPart == w.s.oldPart {
        OrphansKept(init, e);
      } else {
        var i: nat :| IsPending(init, i);
        OrphansGrow(init, e, i);
      }
    }
  }

  lemma PendingSnoc(init: seq<Event>, e: Event)
    ensures (exists i: nat :: IsPending(init + [e], i)) <==>
            if Overwrites(e) then Uncommitted(e) else exists i: nat :: IsPending(init, i)
  {
    OrphanedSnoc(init, e);
    if Uncommitted(e) { assert IsPending(init + [e], |init|); }
    if !Overwrites(e) && exists i: nat :: IsPending(init, i) {
      var i: nat :| IsPending(init, i);
      assert IsPending(init + [e], i);
    }
  }

  lemma DestroyWorld(w: World)
    requires Valid(w)
    ensures Destroy(w).Some?
    ensures Destroy(w).value.nodes == map[] && Destroy(w).value.parts.Keys == Lost(w)
  {
    var h := Destroy(w).value;
    assert h.nodes.Keys == {};
    assert 0 !in w.heap.parts;
  }

  /** Destruction after any run faults nowhere, frees every node message and leaves exactly the
      orphaned partition messages. */
  lemma DestroyFreesAllButOrphans(start: Server, es: seq<Event>)
    requires LegalRun(start, es)
    ensures Run(es).Some? && Destroy(Run(es).value).Some?
    ensures var h := Destroy(Run(es).value).value;
            h.nodes == map[] && h.parts.Keys == Lost(Run(es).value) && |h.parts| == |Orphaned(es)|
  {
    RunsAreSafe(start, es);
    CountLost(start, es);
    DestroyWorld(Run(es).value);
    assert |Destroy(Run(es).value).value.parts| == |Destroy(Run(es).value).value.parts.Keys|;
  }

  /** Leaking takes two collects: a fresh partition load whose node load fails, then a collect that
      succeeds. */
  lemma LeakingRun(at: Server, errno: int)
    requires Legal(Fail(errno), 0, at.nodeVersion)
    ensures var es := [Event(at, Fresh, at, Fail(errno)), Event(at, Fresh, at, Fresh)];
            && LegalRun(at, es) && Orphaned(es) == {0}
            && Run(es).Some? && Destroy(Run(es).value).Some? && |Destroy(Run(es).value).value.parts| == 1
  {
    var first, last := Event(at, Fresh, at, Fail(errno)), Event(at, Fresh, at, Fresh);
    var es := [first, last];
    assert es[..1] == [first] && [first][..0] == [];
    RunsAreSafe(at, [first]);
    OrphanedSnoc([first], last);
    assert IsPending([first], 0);
    assert Orphaned([first]) == {};
    assert [first] + [last] == es;
    assert Orphaned(es) == {0};
    DestroyFreesAllButOrphans(at, es);
  }
}
