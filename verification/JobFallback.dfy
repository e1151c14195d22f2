/** The `squeue` fallback: text to lines, lines to job records, with the error counter.  Line
    decoding (`decode`) is a parameter; the memory string and the pending reason are parsed here. */
module JobFallback {
  import opened Prelude
  import opened Sums
  import opened Strings
  import opened MemUnits
  import opened JobMetrics

  /** A decoded line; `endTime` is in Unix seconds. */
  datatype SqueueLine = SqueueLine(
    account: string,
    jobId: real,
    endTime: real,
    jobState: string,
    partition: string,
    userName: string,
    cpu: int,
    mem: string,
    stateReason: string)

  datatype LineOutcome = Skipped | Emitted(job: JobMetric, badReason: bool)

  /** The text inside `(x)`; `None` unless the whole reason has that form. */
  function StripReason(s: string): Option<string> {
    if |s| >= 3 && s[0] == '(' && s[|s| - 1] == ')' && '\n' !in s[1..|s| - 1] then Some(s[1..|s| - 1]) else None
  }

  /** Exactly the reasons in parentheses are stripped, by exactly the parentheses. */
  lemma StripReasonExact(s: string, x: string)
    ensures StripReason(s) == Some(x) <==> s == "(" + x + ")" && x != "" && '\n' !in x
  {
    if s == "(" + x + ")" { assert s[1..|s| - 1] == x; }
    if StripReason(s) == Some(x) { assert s == "(" + x + ")"; }
  }

  function ToJob(line: SqueueLine, reason: string, mem: real): JobMetric {
    JobMetric(line.account, line.jobId, line.endTime, line.jobState, line.partition, line.userName, "",
              line.cpu as real, map["0" := mem], reason)
  }

  function Outcome(text: string, decode: string -> Option<SqueueLine>): LineOutcome {
    match decode(text)
    case None => Skipped
    case Some(line) =>
      match MemToFloat(line.mem)
      case Err => Skipped
      case Ok(mem) =>
        if line.jobState != PENDING then Emitted(ToJob(line, line.stateReason, mem), false)
        else
          match StripReason(line.stateReason)
          case Some(reason) => Emitted(ToJob(line, reason, mem), false)
          case None => Emitted(ToJob(line, line.stateReason, mem), true)
  }

  function Outcomes(lines: seq<string>, decode: string -> Option<SqueueLine>): seq<LineOutcome> {
    seq(|lines|, i requires 0 <= i < |lines| => Outcome(lines[i], decode))
  }

  predicate IsSkipped(o: LineOutcome) { o.Skipped? }
  predicate HasBadReason(o: LineOutcome) { o.Emitted? && o.badReason }
  function JobsIn(o: LineOutcome): seq<JobMetric> { if o.Emitted? then [o.job] else [] }

  function Lines(text: string): seq<string> { Split(Trim(Trim(text, IsSpace), IsNewline), '\n') }

  class JobCliFallbackFetcher {
    var errCounter: nat

    constructor ()
      ensures errCounter == 0
    {
      errCounter := 0;
    }

    /** `raw` is what the scraper answers, `None` for an error. */
    method Fetch(raw: Option<string>, decode: string -> Option<SqueueLine>) returns (result: Result<seq<JobMetric>>)
      modifies this
      ensures result.Err? <==> raw.None?
      ensures raw.None? ==> errCounter == old(errCounter)
      ensures raw.Some? && (forall c :: c in raw.value ==> IsSpace(c)) ==>
                result == Ok([]) && errCounter == old(errCounter)
      ensures raw.Some? && !(forall c :: c in raw.value ==> IsSpace(c)) ==>
                var outs := Outcomes(Lines(raw.value), decode);
                && result == Ok(Flat(outs, JobsIn))
                && errCounter == old(errCounter) + |Filter(outs, IsSkipped)| + |Filter(outs, HasBadReason)|
    {
      if raw.None? {
        return Err;
      }
      var squeue := Trim(raw.value, IsSpace);
      squeue := Trim(squeue, IsNewline);
      BlankText(raw.value);
      if |squeue| == 0 {
        return Ok([]);
      }
      var lines := Split(squeue, '\n');
      ghost var outs := Outcomes(lines, decode);
      var jobMetrics: seq<JobMetric> := [];
      for i := 0 to |lines|
        invariant jobMetrics == Flat(outs[..i], JobsIn)
        invariant errCounter == old(errCounter) + |Filter(outs[..i], IsSkipped)| + |Filter(outs[..i], HasBadReason)|
      {
        NextOutcome(outs, i);
        match decode(lines[i]) {
          case None =>
            errCounter := errCounter + 1;
          case Some(line) =>
            match MemToFloat(line.mem) {
              case Err =>
                errCounter := errCounter + 1;
              case Ok(mem) =>
                var reason := line.stateReason;
                if line.jobState == PENDING {
                  match StripReason(line.stateReason) {
                    case Some(inner) => reason := inner;
                    case None => errCounter := errCounter + 1;
                  }
                }
                jobMetrics := jobMetrics + [ToJob(line, reason, mem)];
            }
        }
      }
      assert outs[..|lines|] == outs;
      return Ok(jobMetrics);
    }
  }

  /** After both trims nothing is left exactly of an all-blank text. */
  lemma BlankText(text: string)
    ensures Trim(Trim(text, IsSpace), IsNewline) == "" <==> forall c :: c in text ==> IsSpace(c)
  {
    TrimBlank(text, IsSpace);
    TrimBlank(Trim(text, IsSpace), IsNewline);
  }

  lemma NextOutcome(outs: seq<LineOutcome>, i: nat)
    requires i < |outs|
    ensures Flat(outs[..i + 1], JobsIn) ==
            if outs[i].Emitted? then Flat(outs[..i], JobsIn) + [outs[i].job] else Flat(outs[..i], JobsIn)
    ensures |Filter(outs[..i + 1], IsSkipped)| == |Filter(outs[..i], IsSkipped)| + if outs[i].Skipped? then 1 else 0
    ensures |Filter(outs[..i + 1], HasBadReason)| ==
            |Filter(outs[..i], HasBadReason)| + if HasBadReason(outs[i]) then 1 else 0
  {
    NextPrefix(outs, i);
    FlatSnoc(outs[..i], outs[i], JobsIn);
    FilterSnoc(outs[..i], outs[i], IsSkipped);
    FilterSnoc(outs[..i], outs[i], HasBadReason);
  }

  /** The line numbers that yield a job. */
  function EmittedAt(outs: seq<LineOutcome>): seq<nat> {
    if |outs| == 0 then []
    else
      var rest := EmittedAt(outs[..|outs| - 1]);
      if outs[|outs| - 1].Emitted? then rest + [|outs| - 1] else rest
  }

  /** Every line is either emitted or skipped: the jobs are those of the emitted lines in line
      order, and the lines left over are exactly the skipped ones. */
  lemma {:induction false} LinesPartitioned(outs: seq<LineOutcome>)
    ensures var at, jobs := EmittedAt(outs), Flat(outs, JobsIn);
            && |at| == |jobs|
            && (forall k :: 0 <= k < |at| ==> at[k] < |outs| && outs[at[k]].Emitted? && jobs[k] == outs[at[k]].job)
            && (forall k, l :: 0 <= k < l < |at| ==> at[k] < at[l])
            && (forall i: nat :: i < |outs| && i !in at ==> outs[i].Skipped?)
            && |jobs| + |Filter(outs, IsSkipped)| == |outs|
  {
    if |outs| > 0 {
      LinesPartitioned(outs[..|outs| - 1]);
    }
  }

  /** The memory the summaries see of an emitted job is what its memory string denotes; a printed
      number with a unit comes out scaled. */
  lemma EmittedMemory(text: string, decode: string -> Option<SqueueLine>, n: nat, places: nat, unit: char)
    requires Outcome(text, decode).Emitted? && IsUnit(unit)
    ensures decode(text).Some?
    ensures var line, job := decode(text).value, Outcome(text, decode).job;
            && MemToFloat(line.mem) == Ok(MemOf(job))
            && (line.mem == Print(n, places, Some(unit)) ==> MemOf(job) == InUnit(Shifted(n, places), unit))
  {
    var mem := MemToFloat(decode(text).value.mem).value;
    SingleNode(mem);
    PrintRoundTrip(n, places, Some(unit));
  }

  lemma SingleNode(mem: real)
    ensures SumMap(map["0" := mem]) == mem
  {
    SumMapRemove(map["0" := mem], "0");
    assert map["0" := mem] - {"0"} == map[];
  }

  /** The counter's rise: a blank text costs nothing; otherwise it is one for each line that does
      not become a job and one for each PENDING job whose reason is not in parentheses. */
  lemma CounterMeaning(lines: seq<string>, decode: string -> Option<SqueueLine>, i: nat)
    requires i < |lines|
    ensures var o := Outcomes(lines, decode)[i];
            && (o.Skipped? <==> decode(lines[i]).None? || MemToFloat(decode(lines[i]).value.mem).Err?)
            && (HasBadReason(o) <==>
                  && o.Emitted? && decode(lines[i]).value.jobState == PENDING
                  && !exists x :: x != "" && '\n' !in x && decode(lines[i]).value.stateReason == "(" + x + ")")
  {
    var o := Outcomes(lines, decode)[i];
    if o.Emitted? {
      var s := decode(lines[i]).value.stateReason;
      forall x ensures StripReason(s) == Some(x) <==> s == "(" + x + ")" && x != "" && '\n' !in x {
        StripReasonExact(s, x);
      }
    }
  }

  // ---------- the emitted jobs ----------

  /** Every field of an emitted job from its line.  The reason loses its parentheses exactly when the
      job is PENDING and they enclose something on one line. */
  lemma EmittedFields(text: string, decode: string -> Option<SqueueLine>)
    requires Outcome(text, decode).Emitted?
    ensures decode(text).Some?
    ensures var line, job := decode(text).value, Outcome(text, decode).job;
            && job.account == line.account && job.jobId == line.jobId && job.endTime == line.endTime
            && job.jobState == line.jobState && job.partition == line.partition && job.userName == line.userName
            && job.allocCpus == line.cpu as real && job.features == "" && job.allocNodes.Keys == {"0"}
    ensures var line, job := decode(text).value, Outcome(text, decode).job;
            && (forall x :: line.jobState == "PENDING" && line.stateReason == "(" + x + ")" && x != "" && '\n' !in x ==>
                  job.stateReason == x)
            && (line.jobState != "PENDING"
                || (!exists x :: line.stateReason == "(" + x + ")" && x != "" && '\n' !in x) ==>
                  job.stateReason == line.stateReason)
  {
    var line := decode(text).value;
    forall x
      ensures StripReason(line.stateReason) == Some(x) <==>
              line.stateReason == "(" + x + ")" && x != "" && '\n' !in x
    {
      StripReasonExact(line.stateReason, x);
    }
  }

  /** The lines of a text: put back together they are the text up to white space at its ends, no line
      holds a newline, and the text that is left ends in something else. */
  lemma LinesOfText(text: string) returns (a: string, b: string)
    ensures text == a + Join(Lines(text), '\n') + b
    ensures (forall c :: c in a + b ==> IsSpace(c)) && forall l :: l in Lines(text) ==> '\n' !in l
    ensures (exists c :: c in text && !IsSpace(c)) ==>
              var t := Join(Lines(text), '\n'); t != "" && !IsSpace(t[0]) && !IsSpace(t[|t| - 1])
  {
    var s := Trim(text, IsSpace);
    var t := Trim(s, IsNewline);
    a, b := TrimCuts(text, IsSpace);
    TrimBlank(text, IsSpace);
    if s == "" {
      TrimBlank(s, IsNewline);
    } else {
      NothingToTrim(s, IsNewline);
    }
    JoinSplit(t, '\n');
    PartsHaveNoSeparator(t, '\n');
  }

  lemma NothingToTrim(s: string, cut: char -> bool)
    requires s != "" ==> !cut(s[0]) && !cut(s[|s| - 1])
    ensures Trim(s, cut) == s
  {}
}
