/** The part of the Slurm library the node scraper uses.  Messages live in library-owned memory,
    addressed by pointers; what is freed is gone from the heap, and pointers are not reused.
    Assumed of the library: it answers `NoChange` only to a non-zero update time that is current,
    a load that does not succeed leaves the out-pointer alone, freeing null does nothing, and
    populating rewrites only the partition names in the node message. */
module SlurmNodes {
  import opened Prelude
  import opened Strings

  /** 0 is the null pointer. */
  type Ptr = nat

  /** The fields of a node record that are copied by value. */
  datatype Scalars = Scalars(
    cpus: int, realMemory: int, freeMem: int, weight: int, cpuLoad: int, state: int, allocCpus: int, allocMem: int)

  datatype NodeRow = NodeRow(hostname: string, scalars: Scalars)

  datatype Partition = Partition(name: string, hosts: set<string>)

  /** What `slurmctld` knows: each kind of record with the time of its last change. */
  datatype Server = Server(partVersion: nat, parts: seq<Partition>, nodeVersion: nat, nodes: seq<NodeRow>)

  /** Later knowledge: a version that has not moved stands for the same records. */
  ghost predicate Evolves(a: Server, b: Server) {
    && a.partVersion <= b.partVersion && (a.partVersion == b.partVersion ==> a.parts == b.parts)
    && a.nodeVersion <= b.nodeVersion && (a.nodeVersion == b.nodeVersion ==> a.nodes == b.nodes)
  }

  datatype PartMsg = PartMsg(lastUpdate: nat, parts: seq<Partition>)

  /** `partitions[i]` is the partition text of row `i`: null until it is populated, and null for good
      when no partition has the host. */
  datatype NodeMsg = NodeMsg(lastUpdate: nat, rows: seq<NodeRow>, partitions: seq<Option<string>>)

  datatype Heap = Heap(parts: map<Ptr, PartMsg>, nodes: map<Ptr, NodeMsg>, next: Ptr)

  datatype Reply = Fresh | NoChange | Fail(errno: int)

  const SLURM_SUCCESS := 0
  const SLURM_ERROR := -1
  const SLURM_NO_CHANGE_IN_DATA := 1900

  predicate Legal(reply: Reply, updateAt: nat, version: nat) {
    match reply
    case Fresh => true
    case NoChange => updateAt != 0 && updateAt == version
    case Fail(errno) => errno != SLURM_SUCCESS && errno != SLURM_NO_CHANGE_IN_DATA
  }

  // ---------- library calls on the heap; `None` is a memory fault ----------

  function LoadPartitions(h: Heap, at: Server): (r: (Heap, Ptr)) {
    (h.(parts := h.parts[h.next := PartMsg(at.partVersion, at.parts)], next := h.next + 1), h.next)
  }

  function LoadNodes(h: Heap, at: Server): (r: (Heap, Ptr)) {
    var msg := NodeMsg(at.nodeVersion, at.nodes, seq(|at.nodes|, _ => None));
    (h.(nodes := h.nodes[h.next := msg], next := h.next + 1), h.next)
  }

  function FreePart(h: Heap, p: Ptr): Option<Heap> {
    if p == 0 then Some(h) else if p in h.parts then Some(h.(parts := h.parts - {p})) else None
  }

  function FreeNode(h: Heap, p: Ptr): Option<Heap> {
    if p == 0 then Some(h) else if p in h.nodes then Some(h.(nodes := h.nodes - {p})) else None
  }

  function MemberNames(parts: seq<Partition>, host: string): seq<string> {
    if |parts| == 0 then []
    else (if host in parts[0].hosts then [parts[0].name] else []) + MemberNames(parts[1..], host)
  }

  /** The comma-separated names of the partitions a host belongs to, null when there is none. */
  function PartitionText(parts: seq<Partition>, host: string): Option<string> {
    if |MemberNames(parts, host)| == 0 then None else Some(Join(MemberNames(parts, host), ','))
  }

  /** Some partition has the host. */
  ghost predicate Placed(parts: seq<Partition>, host: string) {
    exists i :: 0 <= i < |parts| && host in parts[i].hosts
  }

  lemma {:induction false} TextOfPlaced(parts: seq<Partition>, host: string)
    ensures PartitionText(parts, host).Some? <==> Placed(parts, host)
  {
    if |parts| > 0 {
      TextOfPlaced(parts[1..], host);
      if Placed(parts[1..], host) {
        var i :| 0 <= i < |parts[1..]| && host in parts[1..][i].hosts;
        assert parts[i + 1] == parts[1..][i];
      }
      if Placed(parts, host) && host !in parts[0].hosts {
        var i :| 0 <= i < |parts| && host in parts[i].hosts;
        assert parts[1..][i - 1] == parts[i];
      }
    }
  }

  function PartitionTexts(rows: seq<NodeRow>, parts: seq<Partition>): seq<Option<string>> {
    seq(|rows|, i requires 0 <= i < |rows| => PartitionText(parts, rows[i].hostname))
  }

  function Populate(h: Heap, n: Ptr, p: Ptr): Option<Heap> {
    if n in h.nodes && p in h.parts then
      var msg := h.nodes[n];
      Some(h.(nodes := h.nodes[n := msg.(partitions := PartitionTexts(msg.rows, h.parts[p].parts))]))
    else None
  }

  /** Reads the host name of a row through a pointer. */
  function GetHostname(h: Heap, msg: Ptr, row: nat): Option<string> {
    if msg in h.nodes && row < |h.nodes[msg].rows| then Some(h.nodes[msg].rows[row].hostname) else None
  }

  /** Reads the partition text of a row.  The text is made into a string unchecked, so a null text is
      a fault like a dead pointer. */
  function GetPartitions(h: Heap, msg: Ptr, row: nat): Option<string> {
    if msg in h.nodes && row < |h.nodes[msg].partitions| then h.nodes[msg].partitions[row] else None
  }

  /** `ptr ? ptr->last_update : 0`. */
  function PartTime(h: Heap, p: Ptr): Option<nat> {
    if p == 0 then Some(0) else if p in h.parts then Some(h.parts[p].lastUpdate) else None
  }

  function NodeTime(h: Heap, p: Ptr): Option<nat> {
    if p == 0 then Some(0) else if p in h.nodes then Some(h.nodes[p].lastUpdate) else None
  }
}
