/** The `sinfo` fallback: text to lines, lines to one record per host.  Line decoding (`decode`)
    and float parsing (`parse`) are parameters, so the results hold for every decoder. */
module NodeFallback {
  import opened Prelude
  import opened Sums
  import opened Strings
  import opened NodeMetrics

  /** A decoded line; memory is in MB as `sinfo` prints it. */
  datatype SinfoLine = SinfoLine(
    hostname: string,
    realMemory: real,
    freeMemory: real,
    cpuState: string,
    partition: string,
    cpuLoad: real,
    state: string,
    weight: real)

  /** A decoded line whose four cpu counts are valid. */
  datatype Accepted = Accepted(line: SinfoLine, alloc: real, idle: real, other: real, total: real)

  datatype Verdict = Undecodable | BadCpuState | Good(entry: Accepted)

  // ---------- text to lines ----------

  function Lines(text: string): seq<string> { Split(Trim(text, IsNewline), '\n') }

  // ---------- one line ----------

  function Classify(text: string, decode: string -> Option<SinfoLine>, parse: string -> Option<real>): Verdict {
    match decode(text)
    case None => Undecodable
    case Some(line) =>
      var parts := Split(line.cpuState, '/');
      if |parts| != 4 then BadCpuState
      else
        match (parse(parts[0]), parse(parts[1]), parse(parts[2]), parse(parts[3]))
        case (Some(alloc), Some(idle), Some(other), Some(total)) =>
          Good(Accepted(line, alloc, idle, other, total))
        case _ => BadCpuState
  }

  function Verdicts(lines: seq<string>, decode: string -> Option<SinfoLine>, parse: string -> Option<real>)
    : seq<Verdict>
  {
    seq(|lines|, i requires 0 <= i < |lines| => Classify(lines[i], decode, parse))
  }

  /** Four counts between slashes, all of them numbers. */
  ghost predicate FourNumbers(cpuState: string, parse: string -> Option<real>) {
    exists a, i, o, t ::
      && Split(cpuState, '/') == [a, i, o, t]
      && parse(a).Some? && parse(i).Some? && parse(o).Some? && parse(t).Some?
  }

  /** A line that can be decoded and whose cpu state is not four numbers: one fails the fetch. */
  ghost predicate HasBadCpus(text: string, decode: string -> Option<SinfoLine>, parse: string -> Option<real>) {
    decode(text).Some? && !FourNumbers(decode(text).value.cpuState, parse)
  }

  /** How many lines cannot be decoded. */
  ghost function Undecoded(lines: seq<string>, decode: string -> Option<SinfoLine>): nat {
    if |lines| == 0 then 0
    else Undecoded(lines[..|lines| - 1], decode) + if decode(lines[|lines| - 1]).None? then 1 else 0
  }

  /** What the verdict on a line says about its text. */
  lemma ClassifyMeaning(text: string, decode: string -> Option<SinfoLine>, parse: string -> Option<real>)
    ensures var v := Classify(text, decode, parse);
            && (v.Undecodable? <==> decode(text).None?)
            && (v.BadCpuState? <==> HasBadCpus(text, decode, parse))
            && (v.Good? ==> decode(text) == Some(v.entry.line))
  {
    if decode(text).Some? {
      var parts := Split(decode(text).value.cpuState, '/');
      if |parts| == 4 { assert parts == [parts[0], parts[1], parts[2], parts[3]]; }
    }
  }

  lemma {:induction false} CountUndecoded(lines: seq<string>, n: nat, decode: string -> Option<SinfoLine>,
                                          parse: string -> Option<real>)
    requires n <= |lines|
    ensures |Filter(Verdicts(lines, decode, parse)[..n], IsUndecodable)| == Undecoded(lines[..n], decode)
  {
    if n > 0 {
      var vs := Verdicts(lines, decode, parse);
      CountUndecoded(lines, n - 1, decode, parse);
      NextPrefix(vs, n - 1);
      FilterSnoc(vs[..n - 1], vs[n - 1], IsUndecodable);
      ClassifyMeaning(lines[n - 1], decode, parse);
      assert lines[..n][..n - 1] == lines[..n - 1];
    }
  }

  /** The lines of a text: put back together they are the text up to newlines at its ends, no line
      holds a newline, and the first and the last are not empty unless the text is all newlines. */
  lemma LinesOfText(text: string) returns (a: string, b: string)
    ensures text == a + Join(Lines(text), '\n') + b
    ensures (forall c :: c in a + b ==> c == '\n') && forall l :: l in Lines(text) ==> '\n' !in l
    ensures (exists c :: c in text && c != '\n') ==>
              Lines(text)[0] != "" && Lines(text)[|Lines(text)| - 1] != ""
  {
    var t := Trim(text, IsNewline);
    a, b := TrimCuts(text, IsNewline);
    JoinSplit(t, '\n');
    PartsHaveNoSeparator(t, '\n');
    SplitEnds(t, '\n');
    TrimBlank(text, IsNewline);
  }

  /** The entries are those of the lines with a good verdict, in line order. */
  lemma {:induction false} AcceptedInOrder(vs: seq<Verdict>, good: Verdict -> bool)
    requires forall v :: good(v) <==> v.Good?
    ensures |AcceptedLines(vs)| == |Filter(vs, good)|
    ensures forall k :: 0 <= k < |AcceptedLines(vs)| ==>
              Filter(vs, good)[k].Good? && AcceptedLines(vs)[k] == Filter(vs, good)[k].entry
  {
    if |vs| > 0 { AcceptedInOrder(vs[..|vs| - 1], good); }
  }

  function IsUndecodable(v: Verdict): bool { v.Undecodable? }

  function EntriesOf(v: Verdict): seq<Accepted> { if v.Good? then [v.entry] else [] }

  /** The lines that reach a record, in order. */
  function AcceptedLines(vs: seq<Verdict>): seq<Accepted> { Flat(vs, EntriesOf) }

  // ---------- one host ----------

  function HostOf(a: Accepted): string { a.line.hostname }
  function LinePartition(a: Accepted): string { a.line.partition }

  function PartitionsIn(mine: seq<Accepted>): seq<string> {
    seq(|mine|, i requires 0 <= i < |mine| => mine[i].line.partition)
  }

  function StatesIn(mine: seq<Accepted>): seq<string> {
    seq(|mine|, i requires 0 <= i < |mine| => mine[i].line.state)
  }

  /** What the loop does to the state string when a host shows up again. */
  function AddStateText(state: string, s: string): string {
    if s in Split(state, '&') then state else state + "&" + s
  }

  function MergedState(states: seq<string>): string
    requires |states| >= 1
  {
    if |states| == 1 then states[0] else AddStateText(MergedState(states[..|states| - 1]), states[|states| - 1])
  }

  function FirstRecord(a: Accepted): NodeMetric {
    var realMemory := a.line.realMemory * 1000000.0;
    var freeMemory := a.line.freeMemory * 1000000.0;
    NodeMetric(a.line.hostname, a.total, realMemory, freeMemory, [a.line.partition], a.line.state,
               realMemory - freeMemory, a.alloc, a.idle, a.line.weight, a.line.cpuLoad)
  }

  /** The record of a host from all its lines: numbers from the first line, every partition in
      order, the states merged. */
  function HostRecord(mine: seq<Accepted>): NodeMetric
  {
    if |mine| == 0 then NodeMetric("", 0.0, 0.0, 0.0, [], "", 0.0, 0.0, 0.0, 0.0, 0.0)
    else FirstRecord(mine[0]).(partitions := PartitionsIn(mine), state := MergedState(StatesIn(mine)))
  }

  /** One record per host. */
  ghost function HostTable(lines: seq<Accepted>): map<string, NodeMetric> { Group(lines, HostOf, HostRecord) }

  function MergeLine(t: map<string, NodeMetric>, a: Accepted): map<string, NodeMetric> {
    var host := a.line.hostname;
    if host in t then
      t[host := t[host].(partitions := t[host].partitions + [a.line.partition],
                         state := AddStateText(t[host].state, a.line.state))]
    else t[host := FirstRecord(a)]
  }

  /** The numbers of a host in terms of the text of its first good line: the four cpu counts in
      `sinfo`'s order allocated/idle/other/total, memory in bytes, what is not free allocated. */
  lemma FirstLineNumbers(mine: seq<Accepted>, text: string,
                         decode: string -> Option<SinfoLine>, parse: string -> Option<real>)
    requires |mine| >= 1 && Classify(text, decode, parse) == Good(mine[0])
    ensures decode(text).Some?
    ensures var line, n := decode(text).value, HostRecord(mine);
            && (exists a, i, o, t ::
                  && Split(line.cpuState, '/') == [a, i, o, t] && parse(o).Some?
                  && parse(a) == Some(n.allocCpus) && parse(i) == Some(n.idleCpus) && parse(t) == Some(n.cpus))
            && n.hostname == line.hostname && n.weight == line.weight && n.cpuLoad == line.cpuLoad
            && n.realMemory == 1000000.0 * line.realMemory && n.freeMemory == 1000000.0 * line.freeMemory
            && n.allocMemory + n.freeMemory == n.realMemory
            && |n.partitions| == |mine| && n.partitions[0] == line.partition
            && forall k :: 0 <= k < |mine| ==> n.partitions[k] == mine[k].line.partition
  {
    var parts := Split(decode(text).value.cpuState, '/');
    assert parts == [parts[0], parts[1], parts[2], parts[3]];
    assert HostRecord(mine) ==
           FirstRecord(mine[0]).(partitions := PartitionsIn(mine), state := MergedState(StatesIn(mine)));
  }

  lemma HostRecordSnoc(mine: seq<Accepted>, a: Accepted)
    requires |mine| >= 1
    ensures HostRecord(mine + [a]) ==
            HostRecord(mine).(partitions := HostRecord(mine).partitions + [a.line.partition],
                              state := AddStateText(HostRecord(mine).state, a.line.state))
  {
    assert PartitionsIn(mine + [a]) == PartitionsIn(mine) + [a.line.partition];
    assert StatesIn(mine + [a]) == StatesIn(mine) + [a.line.state];
    assert (StatesIn(mine) + [a.line.state])[..|mine|] == StatesIn(mine);
  }

  lemma HostRecordFirst(a: Accepted)
    ensures HostRecord([a]) == FirstRecord(a)
  {
    assert PartitionsIn([a]) == [a.line.partition];
    assert StatesIn([a]) == [a.line.state];
  }

  lemma HostPresent(lines: seq<Accepted>, h: string)
    ensures |Filter(lines, Having(HostOf, h))| >= 1 <==> h in KeySet(lines, HostOf)
  {
    if h in KeySet(lines, HostOf) {
      var a :| a in lines && HostOf(a) == h;
      FilterMember(lines, Having(HostOf, h), a);
    } else {
      FilterAbsent(lines, HostOf, h);
    }
  }

  lemma HostTableSnoc(lines: seq<Accepted>, a: Accepted)
    ensures HostTable(lines + [a]) == MergeLine(HostTable(lines), a)
  {
    var mine := Filter(lines, Having(HostOf, a.line.hostname));
    GroupSnoc(lines, a, HostOf, HostRecord);
    HostPresent(lines, a.line.hostname);
    if |mine| >= 1 {
      HostRecordSnoc(mine, a);
    } else {
      assert mine + [a] == [a];
      HostRecordFirst(a);
    }
  }

  /** `values` lists the entries of `t`, each once, in some order. */
  ghost predicate Lists(values: seq<NodeMetric>, t: map<string, NodeMetric>) {
    && |values| == |t|
    && (forall v :: v in values ==> v.hostname in t && t[v.hostname] == v)
    && (forall i, j :: 0 <= i < j < |values| ==> values[i].hostname != values[j].hostname)
  }

  /** `sinfo` lines are good until the first bad cpu state. */
  ghost predicate FirstBad(vs: seq<Verdict>, b: nat) {
    b < |vs| && vs[b].BadCpuState? && forall i :: 0 <= i < b ==> !vs[i].BadCpuState?
  }

  class NodeCliFallbackFetcher {
    var errorCounter: nat

    constructor ()
      ensures errorCounter == 0
    {
      errorCounter := 0;
    }

    /** `raw` is what the scraper answers, `None` for an error. */
    method Fetch(raw: Option<string>, decode: string -> Option<SinfoLine>, parse: string -> Option<real>)
      returns (result: Result<seq<NodeMetric>>)
      modifies this
      ensures raw.None? ==> result.Err? && errorCounter == old(errorCounter) + 1
      ensures raw.Some? ==>
                var vs := Verdicts(Lines(raw.value), decode, parse);
                && (result.Ok? <==> forall i :: 0 <= i < |vs| ==> !vs[i].BadCpuState?)
                && (result.Ok? ==>
                      && Lists(result.value, HostTable(AcceptedLines(vs)))
                      && errorCounter == old(errorCounter) + |Filter(vs, IsUndecodable)|)
                && (result.Err? ==>
                      exists b: nat :: FirstBad(vs, b)
                        && errorCounter == old(errorCounter) + |Filter(vs[..b], IsUndecodable)| + 1)
      ensures raw.Some? ==>
                var lines := Lines(raw.value);
                && (result.Ok? <==> forall i :: 0 <= i < |lines| ==> !HasBadCpus(lines[i], decode, parse))
                && (result.Ok? ==> errorCounter == old(errorCounter) + Undecoded(lines, decode))
                && (result.Err? ==>
                      exists b: nat ::
                        && b < |lines| && HasBadCpus(lines[b], decode, parse)
                        && (forall i :: 0 <= i < b ==> !HasBadCpus(lines[i], decode, parse))
                        && errorCounter == old(errorCounter) + Undecoded(lines[..b], decode) + 1)
    {
      if raw.None? {
        errorCounter := errorCounter + 1;
        return Err;
      }
      var nodeMetrics: map<string, NodeMetric> := map[];
      var lines := Lines(raw.value);
      ghost var vs := Verdicts(lines, decode, parse);
      forall i | 0 <= i < |lines| ensures vs[i].BadCpuState? <==> HasBadCpus(lines[i], decode, parse) {
        ClassifyMeaning(lines[i], decode, parse);
      }
      ProgressStart(vs);
      for i := 0 to |lines|
        invariant errorCounter >= old(errorCounter)
        invariant Progress(vs, i, nodeMetrics, errorCounter - old(errorCounter))
      {
        NextLine(vs, i, nodeMetrics, errorCounter - old(errorCounter));
        match Classify(lines[i], decode, parse) {
          case Undecodable =>
            errorCounter := errorCounter + 1;
          case BadCpuState =>
            errorCounter := errorCounter + 1;
            assert FirstBad(vs, i);
            CountUndecoded(lines, i, decode, parse);
            return Err;
          case Good(entry) =>
            nodeMetrics := MergeLine(nodeMetrics, entry);
        }
      }
      AllLines(vs, nodeMetrics, errorCounter - old(errorCounter));
      CountUndecoded(lines, |lines|, decode, parse);
      assert lines[..|lines|] == lines && vs[..|vs|] == vs;
      var values := ListValues(nodeMetrics);
      return Ok(values);
    }

    /** Go's map iteration: each entry once, in no particular order. */
    static method ListValues(t: map<string, NodeMetric>) returns (values: seq<NodeMetric>)
      requires forall h :: h in t ==> t[h].hostname == h
      ensures Lists(values, t)
    {
      values := [];
      var left := t.Keys;
      while left != {}
        invariant left <= t.Keys && |values| + |left| == |t|
        invariant forall v :: v in values ==> v.hostname in t && v.hostname !in left && t[v.hostname] == v
        invariant forall i, j :: 0 <= i < j < |values| ==> values[i].hostname != values[j].hostname
        decreases left
      {
        var h := Pick(left);
        left := left - {h};
        values := values + [t[h]];
      }
    }
  }

  lemma HostNames(lines: seq<Accepted>)
    ensures forall h :: h in HostTable(lines) ==> HostTable(lines)[h].hostname == h
  {
    forall h | h in HostTable(lines) ensures HostTable(lines)[h].hostname == h {
      var mine := Filter(lines, Having(HostOf, h));
      HostPresent(lines, h);
      FilterMember(lines, Having(HostOf, h), mine[0]);
    }
  }

  /** `t` and `errors` are what the loop has after the first `i` lines. */
  ghost predicate Progress(vs: seq<Verdict>, i: nat, t: map<string, NodeMetric>, errors: nat)
    requires i <= |vs|
  {
    && t == HostTable(AcceptedLines(vs[..i]))
    && errors == |Filter(vs[..i], IsUndecodable)|
    && forall k :: 0 <= k < i ==> !vs[k].BadCpuState?
  }

  lemma ProgressStart(vs: seq<Verdict>)
    ensures Progress(vs, 0, map[], 0)
  {}

  lemma NextLine(vs: seq<Verdict>, i: nat, t: map<string, NodeMetric>, errors: nat)
    requires i < |vs| && Progress(vs, i, t, errors)
    ensures vs[i].Good? ==> Progress(vs, i + 1, MergeLine(t, vs[i].entry), errors)
    ensures vs[i].Undecodable? ==> Progress(vs, i + 1, t, errors + 1)
  {
    assert vs[..i + 1] == vs[..i] + [vs[i]];
    FilterSnoc(vs[..i], vs[i], IsUndecodable);
    FlatSnoc(vs[..i], vs[i], EntriesOf);
    var lines := AcceptedLines(vs[..i]);
    if vs[i].Good? {
      HostTableSnoc(lines, vs[i].entry);
    } else {
      assert lines + [] == lines;
    }
  }

  lemma AllLines(vs: seq<Verdict>, t: map<string, NodeMetric>, errors: nat)
    requires Progress(vs, |vs|, t, errors)
    ensures t == HostTable(AcceptedLines(vs)) && errors == |Filter(vs, IsUndecodable)|
    ensures forall h :: h in t ==> t[h].hostname == h
  {
    assert vs[..|vs|] == vs;
    HostNames(AcceptedLines(vs));
  }

  // ---------- the state string as a set ----------

  /** Distinct elements in order of first appearance. */
  function Distinct(xs: seq<string>): seq<string> {
    if |xs| == 0 then []
    else
      var rest := Distinct(xs[..|xs| - 1]);
      if xs[|xs| - 1] in rest then rest else rest + [xs[|xs| - 1]]
  }

  lemma {:induction false} DistinctElements(xs: seq<string>)
    ensures forall x :: x in Distinct(xs) <==> x in xs
    ensures forall i, j :: 0 <= i < j < |Distinct(xs)| ==> Distinct(xs)[i] != Distinct(xs)[j]
    ensures |xs| > 0 ==> |Distinct(xs)| > 0 && Distinct(xs)[0] == xs[0]
  {
    if |xs| > 0 {
      DistinctElements(xs[..|xs| - 1]);
      assert xs == xs[..|xs| - 1] + [xs[|xs| - 1]];
    }
  }

  /** Splitting the merged string gives the distinct states in order of first appearance, after
      every line, exactly when no raw state contains `&`; then the string is their join. */
  lemma MergedStateIsJoin(states: seq<string>)
    requires |states| >= 1
    ensures Split(MergedState(states), '&') == Distinct(states) <==> forall s :: s in states ==> '&' !in s
    ensures (forall s :: s in states ==> '&' !in s) ==>
              |Distinct(states)| >= 1 && MergedState(states) == Join(Distinct(states), '&')
  {
    DistinctElements(states);
    if Split(MergedState(states), '&') == Distinct(states) { PartsHaveNoSeparator(MergedState(states), '&'); }
    if forall s :: s in states ==> '&' !in s { PlainStatesJoin(states); }
  }

  lemma {:induction false} PlainStatesJoin(states: seq<string>)
    requires |states| >= 1 && forall s :: s in states ==> '&' !in s
    ensures |Distinct(states)| >= 1
    ensures MergedState(states) == Join(Distinct(states), '&')
    ensures Split(MergedState(states), '&') == Distinct(states)
  {
    DistinctElements(states);
    if |states| == 1 {
      assert Distinct(states[..0]) == [];
      assert Distinct(states) == states;
      SplitWithoutSeparator(states[0], '&');
    } else {
      var init, s := states[..|states| - 1], states[|states| - 1];
      PlainStatesJoin(init);
      if s !in Distinct(init) { JoinSnoc(Distinct(init), s, '&'); }
      SplitJoin(Distinct(states), '&');
    }
  }

  /** The `&`-separated names in a state text. */
  ghost function NamesIn(text: string): set<string> { set n | n in Split(text, '&') }

  /** All the names in some raw states. */
  ghost function StateNames(states: seq<string>): set<string> { set s, n | s in states && n in NamesIn(s) :: n }

  lemma StateNamesSnoc(states: seq<string>, s: string)
    ensures StateNames(states + [s]) == StateNames(states) + NamesIn(s)
    ensures StateNames([s]) == NamesIn(s)
  {
    assert forall x :: x in states + [s] <==> x in states || x == s;
    assert s in states + [s] && s in [s];
  }

  /** Merging a raw state adds its names, whether or not it is appended. */
  lemma MergedNames(text: string, s: string)
    ensures NamesIn(AddStateText(text, s)) == NamesIn(text) + NamesIn(s)
  {
    if s in Split(text, '&') {
      PartsHaveNoSeparator(text, '&');
      SplitWithoutSeparator(s, '&');
    } else {
      SplitAtSeparator(text, s, '&');
      assert text + "&" + s == text + ['&'] + s;
    }
  }

  /** For arbitrary raw states, even ones containing `&`, splitting the merged string gives exactly
      the names that occurred. */
  lemma {:induction false} MergedStateNames(states: seq<string>)
    requires |states| >= 1
    ensures NamesIn(MergedState(states)) == StateNames(states)
  {
    var init, s := states[..|states| - 1], states[|states| - 1];
    assert states == init + [s];
    StateNamesSnoc(init, s);
    if |states| == 1 {
      assert states == [s];
    } else {
      MergedStateNames(init);
      MergedNames(MergedState(init), s);
    }
  }

  /** Order of first appearance: with every line the list of states stays as it is or gets one more
      state at its end, one that is new. */
  lemma DistinctNext(xs: seq<string>, k: nat)
    requires k < |xs|
    ensures Distinct(xs[..k + 1]) == Distinct(xs[..k]) + if xs[k] in xs[..k] then [] else [xs[k]]
  {
    assert xs[..k + 1][..k] == xs[..k];
    DistinctElements(xs[..k]);
  }

  /** The state of a host record in terms of the states on its lines. */
  lemma HostStates(mine: seq<Accepted>)
    requires |mine| >= 1
    ensures var states := seq(|mine|, i requires 0 <= i < |mine| => mine[i].line.state);
            && (Split(HostRecord(mine).state, '&') == Distinct(states) <==>
                  forall a :: a in mine ==> '&' !in a.line.state)
            && NamesIn(HostRecord(mine).state) == StateNames(states)
  {
    var states := StatesIn(mine);
    assert states == seq(|mine|, i requires 0 <= i < |mine| => mine[i].line.state);
    MergedStateIsJoin(states);
    MergedStateNames(states);
    if forall a :: a in mine ==> '&' !in a.line.state {
      forall s | s in states ensures '&' !in s {
        var i :| 0 <= i < |states| && states[i] == s;
        assert mine[i] in mine;
      }
    }
    if forall s :: s in states ==> '&' !in s {
      forall a | a in mine ensures '&' !in a.line.state {
        var i :| 0 <= i < |mine| && mine[i] == a;
        assert states[i] in states;
      }
    }
  }
}
