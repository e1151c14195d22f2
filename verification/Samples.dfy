/** What a collector sends to its channel: samples identified by a descriptor and a name tuple.
    Faithfulness to a table of expectations is uniqueness plus losslessness in both directions. */
module Samples {
  import opened Prelude

  datatype Sample<+D> = Sample(desc: D, labels: seq<string>, value: real)

  ghost predicate Has<D(!new)>(samples: seq<Sample<D>>, d: D, l: seq<string>) {
    exists i :: 0 <= i < |samples| && samples[i].desc == d && samples[i].labels == l
  }

  /** No two samples share descriptor and labels. */
  ghost predicate Unique<D(!new)>(samples: seq<Sample<D>>) {
    forall i, j :: 0 <= i < j < |samples| ==>
      samples[i].desc != samples[j].desc || samples[i].labels != samples[j].labels
  }

  /** The samples are exactly those `f` expects, each once. */
  ghost predicate Faithful<D(!new)>(samples: seq<Sample<D>>, f: (D, seq<string>) -> Option<real>) {
    && Unique(samples)
    && (forall i :: 0 <= i < |samples| ==> f(samples[i].desc, samples[i].labels) == Some(samples[i].value))
    && (forall d: D, l :: f(d, l).Some? ==> Has(samples, d, l))
  }

  lemma FaithfulSame<D(!new)>(samples: seq<Sample<D>>,
                              f: (D, seq<string>) -> Option<real>, g: (D, seq<string>) -> Option<real>)
    requires Faithful(samples, f)
    requires forall d: D, l :: f(d, l) == g(d, l)
    ensures Faithful(samples, g)
  {}

  /** Two faithful batches with nothing in common make a faithful batch. */
  lemma FaithfulUnion<D(!new)>(
    a: seq<Sample<D>>, f: (D, seq<string>) -> Option<real>,
    b: seq<Sample<D>>, g: (D, seq<string>) -> Option<real>,
    h: (D, seq<string>) -> Option<real>)
    requires Faithful(a, f) && Faithful(b, g)
    requires forall d: D, l :: f(d, l).Some? ==> g(d, l).None?
    requires forall d: D, l :: h(d, l) == if f(d, l).Some? then f(d, l) else g(d, l)
    ensures Faithful(a + b, h)
  {
    var both := a + b;
    forall i, j | 0 <= i < j < |both|
      ensures both[i].desc != both[j].desc || both[i].labels != both[j].labels
    {
      if i < |a| && j >= |a| {
        assert f(both[i].desc, both[i].labels).Some?;
        assert g(both[j].desc, both[j].labels).Some?;
      }
    }
    forall d: D, l | h(d, l).Some? ensures Has(both, d, l) {
      if f(d, l).Some? {
        var i :| 0 <= i < |a| && a[i].desc == d && a[i].labels == l;
        assert both[i] == a[i];
      } else {
        var i :| 0 <= i < |b| && b[i].desc == d && b[i].labels == l;
        assert both[|a| + i] == b[i];
      }
    }
  }

  /** Two maps without a common key, put together. */
  ghost predicate JoinedMaps<K, V>(a: map<K, V>, b: map<K, V>, both: map<K, V>) {
    || (b == map[] && both == a)
    || (a == map[] && both == b)
    || (a.Keys !! b.Keys && both == a + b)
  }

  lemma JoinedAtKey<K, V>(a: map<K, V>, b: map<K, V>, both: map<K, V>, k: K)
    requires JoinedMaps(a, b, both)
    ensures k in a ==> k !in b && k in both && both[k] == a[k]
    ensures k !in a ==> (k in both <==> k in b) && (k in b ==> both[k] == b[k])
  {}

  lemma FaithfulEmpty<D(!new)>(f: (D, seq<string>) -> Option<real>)
    requires forall d: D, l :: f(d, l).None?
    ensures Faithful([], f)
  {}

  lemma FaithfulOne<D(!new)>(d0: D, l0: seq<string>, v: real, f: (D, seq<string>) -> Option<real>)
    requires forall d: D, l :: f(d, l) == if d == d0 && l == l0 then Some(v) else None
    ensures Faithful([Sample(d0, l0, v)], f)
  {
    assert [Sample(d0, l0, v)][0].labels == l0;
  }

  /** What a scrape shows for a descriptor and labels, 0 when there is no such sample. */
  function Read<D(==)>(samples: seq<Sample<D>>, d: D, l: seq<string>): real {
    if |samples| == 0 then 0.0
    else if samples[|samples| - 1].desc == d && samples[|samples| - 1].labels == l then samples[|samples| - 1].value
    else Read(samples[..|samples| - 1], d, l)
  }

  lemma {:induction false} ReadFinds<D(!new)>(samples: seq<Sample<D>>, d: D, l: seq<string>)
    ensures Has(samples, d, l) ==>
              exists i :: 0 <= i < |samples| && samples[i].desc == d && samples[i].labels == l
                     && samples[i].value == Read(samples, d, l)
    ensures !Has(samples, d, l) ==> Read(samples, d, l) == 0.0
  {
    if |samples| > 0 {
      var init, s := samples[..|samples| - 1], samples[|samples| - 1];
      ReadFinds(init, d, l);
      if s.desc == d && s.labels == l {
      } else if Has(samples, d, l) {
        var i :| 0 <= i < |samples| && samples[i].desc == d && samples[i].labels == l;
        assert init[i] == samples[i];
        var j :| 0 <= j < |init| && init[j].desc == d && init[j].labels == l && init[j].value == Read(init, d, l);
        assert samples[j] == init[j];
      }
    }
  }

  /** Reading a faithful batch gives the expectation back. */
  lemma ReadFaithful<D(!new)>(samples: seq<Sample<D>>, f: (D, seq<string>) -> Option<real>, d: D, l: seq<string>)
    requires Faithful(samples, f)
    ensures Read(samples, d, l) == if f(d, l).Some? then f(d, l).value else 0.0
  {
    ReadFinds(samples, d, l);
  }

  /** The value of a map entry that the emission loops let through. */
  function Positive(m: map<string, real>, k: string): Option<real> {
    if k in m && m[k] > 0.0 then Some(m[k]) else None
  }

  /** A faithful batch has a sample exactly where one is expected. */
  lemma HasFaithful<D(!new)>(samples: seq<Sample<D>>, f: (D, seq<string>) -> Option<real>, d: D, l: seq<string>)
    requires Faithful(samples, f)
    ensures Has(samples, d, l) <==> f(d, l).Some?
  {}

  /** The value that `if v > 0` lets through. */
  function IfPositive(v: real): Option<real> { if v > 0.0 then Some(v) else None }

  /** The samples of one state map under one leading label. */
  function StateFamily<D(==)>(d0: D, name: string, m: map<string, real>): (D, seq<string>) -> Option<real> {
    (d: D, l: seq<string>) => StateFamilyAt(d0, name, m, d, l)
  }

  function StateFamilyAt<D(==)>(d0: D, name: string, m: map<string, real>, d: D, l: seq<string>): Option<real> {
    if d == d0 && |l| == 2 && l[0] == name then Positive(m, l[1]) else None
  }

  /** The closures `emitStateVal` and `emitNonZeroStateConstGuage`: the positive entries of a map,
      in no particular order. */
  method EmitPositive<D(!new, ==)>(desc: D, name: string, m: map<string, real>) returns (out: seq<Sample<D>>)
    ensures Faithful(out, StateFamily(desc, name, m))
  {
    out := [];
    var left := m.Keys;
    while left != {}
      invariant left <= m.Keys
      invariant forall i :: 0 <= i < |out| ==>
                  && out[i].desc == desc && |out[i].labels| == 2 && out[i].labels[0] == name
                  && out[i].labels[1] !in left && Positive(m, out[i].labels[1]) == Some(out[i].value)
      invariant Unique(out)
      invariant forall s :: s in m && s !in left && m[s] > 0.0 ==> Has(out, desc, [name, s])
      decreases left
    {
      var state := Pick(left);
      left := left - {state};
      if m[state] > 0.0 {
        ghost var before := out;
        out := out + [Sample(desc, [name, state], m[state])];
        assert out[|before|].labels == [name, state];
        forall s | s in m && s !in left && m[s] > 0.0 ensures Has(out, desc, [name, s]) {
          if s != state {
            var i :| 0 <= i < |before| && before[i].desc == desc && before[i].labels == [name, s];
            assert out[i] == before[i];
          }
        }
      }
    }
    forall d: D, l | StateFamily(desc, name, m)(d, l).Some? ensures Has(out, d, l) {
      assert l == [name, l[1]];
    }
  }
}
