/** Go's `strings.Split` and `strings.Join` for a one-character separator. */
module Strings {

  function Split(s: string, sep: char): (parts: seq<string>)
    ensures |parts| >= 1
  {
    if s == "" then [""]
    else if s[0] == sep then [""] + Split(s[1..], sep)
    else
      var rest := Split(s[1..], sep);
      [[s[0]] + rest[0]] + rest[1..]
  }

  function Join(parts: seq<string>, sep: char): string
    requires |parts| >= 1
  {
    if |parts| == 1 then parts[0] else parts[0] + [sep] + Join(parts[1..], sep)
  }

  /** `bytes.Trim` and `bytes.TrimSpace`: cut the characters of a class off both ends. */
  function Trim(s: string, cut: char -> bool): string { TrimEnd(TrimStart(s, cut), cut) }

  function TrimStart(s: string, cut: char -> bool): string {
    if s != "" && cut(s[0]) then TrimStart(s[1..], cut) else s
  }

  function TrimEnd(s: string, cut: char -> bool): string {
    if s != "" && cut(s[|s| - 1]) then TrimEnd(s[..|s| - 1], cut) else s
  }

  predicate IsNewline(c: char) { c == '\n' }

  /** Unicode white space, as `unicode.IsSpace` has it. */
  predicate IsSpace(c: char) {
    || '\t' <= c <= '\r' || c == ' ' || c == '\U{0085}' || c == '\U{00A0}' || c == '\U{1680}'
    || '\U{2000}' <= c <= '\U{200A}' || c == '\U{2028}' || c == '\U{2029}' || c == '\U{202F}'
    || c == '\U{205F}' || c == '\U{3000}'
  }

  ghost function Count(s: string, c: char): nat { multiset(s)[c] }

  /** Cutting on both sides of a separator. */
  lemma {:induction false} SplitAtSeparator(a: string, b: string, sep: char)
    ensures Split(a + [sep] + b, sep) == Split(a, sep) + Split(b, sep)
  {
    if a == "" {
      assert a + [sep] + b == [sep] + b;
      assert ([sep] + b)[1..] == b;
    } else {
      assert (a + [sep] + b)[1..] == a[1..] + [sep] + b;
      SplitAtSeparator(a[1..], b, sep);
    }
  }

  lemma {:induction false} SplitWithoutSeparator(s: string, sep: char)
    requires sep !in s
    ensures Split(s, sep) == [s]
  {
    if s != "" {
      SplitWithoutSeparator(s[1..], sep);
      assert s == [s[0]] + s[1..];
    }
  }

  lemma {:induction false} PartsHaveNoSeparator(s: string, sep: char)
    ensures forall p :: p in Split(s, sep) ==> sep !in p
  {
    if s != "" {
      PartsHaveNoSeparator(s[1..], sep);
      var rest := Split(s[1..], sep);
      assert rest[0] in rest;
    }
  }

  /** Splitting loses nothing. */
  lemma {:induction false} JoinSplit(s: string, sep: char)
    ensures Join(Split(s, sep), sep) == s
  {
    if s != "" {
      JoinSplit(s[1..], sep);
      var rest := Split(s[1..], sep);
      var parts := Split(s, sep);
      if s[0] == sep {
        assert parts[1..] == rest;
      } else if |rest| > 1 {
        assert parts[1..] == rest[1..];
        assert parts[0] + [sep] + Join(parts[1..], sep) == [s[0]] + (rest[0] + [sep] + Join(rest[1..], sep));
      }
    }
  }

  /** Splitting inverts joining exactly when no part contains the separator. */
  lemma {:induction false} SplitJoin(parts: seq<string>, sep: char)
    requires |parts| >= 1
    ensures Split(Join(parts, sep), sep) == parts <==> forall p :: p in parts ==> sep !in p
  {
    if Split(Join(parts, sep), sep) == parts {
      PartsHaveNoSeparator(Join(parts, sep), sep);
    }
    if forall p :: p in parts ==> sep !in p {
      SplitWithoutSeparator(parts[0], sep);
      if |parts| > 1 {
        SplitJoin(parts[1..], sep);
        SplitAtSeparator(parts[0], Join(parts[1..], sep), sep);
      }
    }
  }

  lemma {:induction false} JoinSnoc(parts: seq<string>, p: string, sep: char)
    requires |parts| >= 1
    ensures Join(parts + [p], sep) == Join(parts, sep) + [sep] + p
  {
    assert (parts + [p])[1..] == parts[1..] + [p];
    if |parts| > 1 { JoinSnoc(parts[1..], p, sep); }
  }

  /** A split has one part more than the string has separators. */
  lemma {:induction false} SplitLength(s: string, sep: char)
    ensures |Split(s, sep)| == Count(s, sep) + 1
  {
    if s != "" {
      SplitLength(s[1..], sep);
      assert s == [s[0]] + s[1..];
    }
  }

  lemma {:induction false} TrimStartBlank(s: string, cut: char -> bool)
    ensures TrimStart(s, cut) == "" <==> forall c :: c in s ==> cut(c)
    ensures TrimStart(s, cut) != "" ==> !cut(TrimStart(s, cut)[0])
  {
    if s != "" {
      TrimStartBlank(s[1..], cut);
      assert s == [s[0]] + s[1..];
    }
  }

  lemma {:induction false} TrimEndKeepsFirst(s: string, cut: char -> bool)
    requires s != "" && !cut(s[0])
    ensures TrimEnd(s, cut) != "" && TrimEnd(s, cut)[0] == s[0]
    ensures !cut(TrimEnd(s, cut)[|TrimEnd(s, cut)| - 1])
  {
    if cut(s[|s| - 1]) { TrimEndKeepsFirst(s[..|s| - 1], cut); }
  }

  /** Trimming leaves nothing exactly when there is nothing else; otherwise both ends are kept
      characters. */
  lemma TrimBlank(s: string, cut: char -> bool)
    ensures Trim(s, cut) == "" <==> forall c :: c in s ==> cut(c)
    ensures var t := Trim(s, cut); t != "" ==> !cut(t[0]) && !cut(t[|t| - 1])
  {
    TrimStartBlank(s, cut);
    if TrimStart(s, cut) != "" { TrimEndKeepsFirst(TrimStart(s, cut), cut); }
  }

  lemma {:induction false} TrimStartCuts(s: string, cut: char -> bool) returns (a: string)
    ensures s == a + TrimStart(s, cut) && forall c :: c in a ==> cut(c)
  {
    a := "";
    if s != "" && cut(s[0]) {
      a := TrimStartCuts(s[1..], cut);
      a := [s[0]] + a;
      assert s == [s[0]] + s[1..];
    }
  }

  lemma {:induction false} TrimEndCuts(s: string, cut: char -> bool) returns (b: string)
    ensures s == TrimEnd(s, cut) + b && forall c :: c in b ==> cut(c)
  {
    b := "";
    if s != "" && cut(s[|s| - 1]) {
      b := TrimEndCuts(s[..|s| - 1], cut);
      b := b + [s[|s| - 1]];
      assert s == s[..|s| - 1] + [s[|s| - 1]];
    }
  }

  /** Trimming cuts off a piece at either end, both of nothing but the class. */
  lemma TrimCuts(s: string, cut: char -> bool) returns (a: string, b: string)
    ensures s == a + Trim(s, cut) + b
    ensures (forall c :: c in a ==> cut(c)) && (forall c :: c in b ==> cut(c))
  {
    a := TrimStartCuts(s, cut);
    b := TrimEndCuts(TrimStart(s, cut), cut);
  }

  /** The first part is empty exactly when the text is or starts with the separator; likewise the
      last. */
  lemma {:induction false} SplitEnds(s: string, sep: char)
    ensures Split(s, sep)[0] == "" <==> s == "" || s[0] == sep
    ensures Split(s, sep)[|Split(s, sep)| - 1] == "" <==> s == "" || s[|s| - 1] == sep
  {
    if s != "" {
      SplitEnds(s[1..], sep);
      assert s == [s[0]] + s[1..];
    }
  }
}
