/** `MemToFloat`: Slurm memory strings as byte counts.  A memory string is either a decimal
    floating-point literal or an unsigned number followed by one of the units M, G and T.
    Values are exact reals: rounding is not modelled. */
module MemUnits {
  import opened Prelude

  // ---------- digits and powers of ten ----------

  predicate IsDigit(c: char) { '0' <= c <= '9' }

  predicate AllDigits(s: string) { forall i :: 0 <= i < |s| ==> IsDigit(s[i]) }

  function DigitValue(c: char): nat
    requires IsDigit(c)
  {
    (c as int) - ('0' as int)
  }

  function DigitChar(d: nat): char
    requires d < 10
  {
    (d + '0' as int) as char
  }

  /** The number a digit string denotes, most significant digit first. */
  function Numeral(ds: string): nat
    requires AllDigits(ds)
  {
    if ds == "" then 0 else 10 * Numeral(ds[..|ds| - 1]) + DigitValue(ds[|ds| - 1])
  }

  function Pow10(e: int): (r: real)
    ensures r > 0.0
    decreases if e < 0 then -e else e
  {
    if e == 0 then 1.0 else if e > 0 then 10.0 * Pow10(e - 1) else Pow10(e + 1) / 10.0
  }

  /** `n` with the point moved `places` to the left. */
  function Shifted(n: nat, places: nat): real { n as real * Pow10(0 - places) }

  // ---------- the decimal literals strconv.ParseFloat accepts ----------

  /** Digits with an optional point: `12`, `12.`, `.5`, `12.5`. */
  datatype Number = Number(whole: string, dot: bool, frac: string) {

    predicate IsDecimal() {
      AllDigits(whole) && AllDigits(frac) && (!dot ==> frac == "")
    }

    function Text(): string { whole + if dot then "." + frac else "" }

    function Value(): real
      requires IsDecimal()
    {
      Shifted(Numeral(whole + frac), |frac|)
    }
  }

  datatype Exponent = NoExponent | Exponent(mark: char, sign: Option<char>, digits: string) {

    ghost predicate WellFormed() {
      Exponent? ==>
        && IsMark(mark)
        && (sign.Some? ==> IsSign(sign.value))
        && digits != "" && AllDigits(digits)
    }

    function Text(): string { if NoExponent? then "" else [mark] + (SignText(sign) + digits) }

    function Value(): real
      requires Exponent? ==> AllDigits(digits)
    {
      if NoExponent? then 1.0
      else Pow10(if sign == Some('-') then 0 - Numeral(digits) else Numeral(digits) as int)
    }
  }

  datatype Literal = Literal(sign: Option<char>, number: Number, exp: Exponent) {

    ghost predicate WellFormed() {
      && (sign.Some? ==> IsSign(sign.value))
      && number.IsDecimal() && number.whole + number.frac != ""
      && exp.WellFormed()
    }

    function Text(): string { SignText(sign) + (number.Text() + exp.Text()) }

    function Value(): real
      requires number.IsDecimal()
      requires exp.Exponent? ==> AllDigits(exp.digits)
    {
      var magnitude := number.Value() * exp.Value();
      if sign == Some('-') then -magnitude else magnitude
    }
  }

  predicate IsSign(c: char) { c == '+' || c == '-' }

  predicate IsMark(c: char) { c == 'e' || c == 'E' }

  function SignText(sign: Option<char>): string {
    if sign.Some? then [sign.value] else ""
  }

  // ---------- the scanner ----------

  function TakeDigits(s: string): (ds: string)
    ensures AllDigits(ds) && ds <= s
  {
    if s == "" || !IsDigit(s[0]) then "" else [s[0]] + TakeDigits(s[1..])
  }

  function TakeSign(s: string): (r: (Option<char>, string))
    ensures s == SignText(r.0) + r.1
    ensures r.0.Some? ==> IsSign(r.0.value)
  {
    if s != "" && IsSign(s[0]) then (Some(s[0]), s[1..]) else (None, s)
  }

  /** The longest number at the front of `s`, possibly without any digit. */
  function TakeNumber(s: string): (n: Number)
    ensures n.IsDecimal() && n.Text() <= s
  {
    var whole := TakeDigits(s);
    var rest := s[|whole|..];
    if rest != "" && rest[0] == '.' then
      var frac := TakeDigits(rest[1..]);
      assert s == whole + ("." + rest[1..]);
      Number(whole, true, frac)
    else Number(whole, false, "")
  }

  /** The exponent suffix, `None` when the text is not one. */
  function ScanExponent(s: string): Option<Exponent> {
    if s == "" then Some(NoExponent)
    else if !IsMark(s[0]) then None
    else
      var (sign, digits) := TakeSign(s[1..]);
      if digits != "" && AllDigits(digits) then Some(Exponent(s[0], sign, digits)) else None
  }

  function ScanFloat(s: string): Option<Literal> {
    var (sign, rest) := TakeSign(s);
    var number := TakeNumber(rest);
    if number.whole + number.frac == "" then None
    else
      match ScanExponent(rest[|number.Text()|..])
      case None => None
      case Some(exp) => Some(Literal(sign, number, exp))
  }

  lemma ScanExponentSound(s: string)
    requires ScanExponent(s).Some?
    ensures ScanExponent(s).value.WellFormed() && ScanExponent(s).value.Text() == s
  {
    if s != "" { assert s == [s[0]] + s[1..]; }
  }

  lemma ScanFloatSound(s: string)
    requires ScanFloat(s).Some?
    ensures ScanFloat(s).value.WellFormed() && ScanFloat(s).value.Text() == s
  {
    var rest := TakeSign(s).1;
    var number := TakeNumber(rest);
    var tail := rest[|number.Text()|..];
    ScanExponentSound(tail);
    assert rest == number.Text() + tail;
  }

  lemma {:induction false} TakeDigitsStops(ds: string, rest: string)
    requires AllDigits(ds)
    requires rest != "" ==> !IsDigit(rest[0])
    ensures TakeDigits(ds + rest) == ds && (ds + rest)[|ds|..] == rest
  {
    if ds != "" {
      assert (ds + rest)[1..] == ds[1..] + rest;
      TakeDigitsStops(ds[1..], rest);
    } else {
      assert ds + rest == rest;
    }
  }

  lemma TakeSignStops(sign: Option<char>, rest: string)
    requires sign.Some? ==> IsSign(sign.value)
    requires rest != "" ==> !IsSign(rest[0])
    ensures TakeSign(SignText(sign) + rest) == (sign, rest)
  {
    if sign.Some? {
      assert ([sign.value] + rest)[1..] == rest;
    } else {
      assert SignText(sign) + rest == rest;
    }
  }

  lemma TakeNumberStops(n: Number, rest: string)
    requires n.IsDecimal()
    requires rest != "" ==> !IsDigit(rest[0]) && (rest[0] != '.' || n.dot)
    ensures TakeNumber(n.Text() + rest) == n
    ensures (n.Text() + rest)[|n.Text()|..] == rest
  {
    if n.dot {
      var tail := "." + (n.frac + rest);
      assert n.Text() + rest == n.whole + tail;
      TakeDigitsStops(n.whole, tail);
      assert tail[1..] == n.frac + rest;
      TakeDigitsStops(n.frac, rest);
    } else {
      assert n.Text() == n.whole;
      TakeDigitsStops(n.whole, rest);
    }
  }

  lemma ScanExponentComplete(e: Exponent)
    requires e.WellFormed()
    ensures ScanExponent(e.Text()) == Some(e)
  {
    if e.Exponent? {
      assert e.Text()[1..] == SignText(e.sign) + e.digits;
      assert IsDigit(e.digits[0]);
      TakeSignStops(e.sign, e.digits);
    }
  }

  lemma NumberStart(n: Number, rest: string)
    requires n.IsDecimal() && n.whole + n.frac != ""
    ensures n.Text() + rest != "" && !IsSign((n.Text() + rest)[0])
  {
    if n.whole != "" {
      assert (n.Text() + rest)[0] == n.whole[0];
      assert IsDigit(n.whole[0]);
    } else {
      assert n.frac != "";
      assert (n.Text() + rest)[0] == '.';
    }
  }

  /** Every well-formed literal is scanned back to itself, so the grammar is unambiguous. */
  lemma ScanFloatComplete(l: Literal)
    requires l.WellFormed()
    ensures ScanFloat(l.Text()) == Some(l)
  {
    var rest := l.number.Text() + l.exp.Text();
    NumberStart(l.number, l.exp.Text());
    TakeSignStops(l.sign, rest);
    TakeNumberStops(l.number, l.exp.Text());
    ScanExponentComplete(l.exp);
  }

  /** Single underscores may stand between two digits: `1_000`. */
  predicate Separated(s: string) {
    forall i :: 0 <= i < |s| && s[i] == '_' ==> 0 < i < |s| - 1 && IsDigit(s[i - 1]) && IsDigit(s[i + 1])
  }

  /** The text without its underscores. */
  function Unseparated(s: string): string {
    if s == "" then ""
    else Unseparated(s[..|s| - 1]) + if s[|s| - 1] == '_' then "" else [s[|s| - 1]]
  }

  lemma {:induction false} NothingToSeparate(s: string)
    requires '_' !in s
    ensures Unseparated(s) == s
  {
    if s != "" {
      var init, c := s[..|s| - 1], s[|s| - 1];
      assert s == init + [c];
      NothingToSeparate(init);
    }
  }

  /** The value of a decimal literal without underscores. */
  function ParseDigits(s: string): Option<real> {
    match ScanFloat(s)
    case None => None
    case Some(l) => ScanFloatSound(s); Some(l.Value())
  }

  /** The model of `strconv.ParseFloat` on decimal text. */
  function ParseFloat(s: string): Option<real> {
    if Separated(s) then ParseDigits(Unseparated(s)) else None
  }

  lemma PlainText(s: string)
    requires '_' !in s
    ensures ParseFloat(s) == ParseDigits(s)
  {
    NothingToSeparate(s);
    assert Separated(s);
  }

  lemma NumberIsPlain(n: Number)
    requires n.IsDecimal()
    ensures '_' !in n.Text()
  {}

  lemma LiteralIsPlain(l: Literal)
    requires l.WellFormed()
    ensures '_' !in l.Text()
  {
    NumberIsPlain(l.number);
    assert '_' !in SignText(l.sign) && '_' !in l.exp.Text();
  }

  // ---------- memory strings ----------

  predicate IsUnit(c: char) { c == 'M' || c == 'G' || c == 'T' }

  function Scale(unit: char): real
    requires IsUnit(unit)
  {
    match unit
    case 'M' => 1000000.0
    case 'G' => 1000000000.0
    case _ => 1000000000000.0
  }

  /** A number of megabytes, gigabytes or terabytes in bytes. */
  function InUnit(num: real, unit: char): real
    requires IsUnit(unit)
  {
    num * Scale(unit)
  }

  /** The number part of the unit pattern: optional digits and a point, then digits. */
  predicate MatchesNumber(s: string) {
    var n := TakeNumber(s);
    n.Text() == s && (if n.dot then n.frac != "" else n.whole != "")
  }

  /** `MemToFloat`: a float literal, else a number with a unit, else an error.  The second
      `ParseFloat` never fails on text that matches the pattern. */
  function MemToFloat(mem: string): Result<real> {
    match ParseFloat(mem)
    case Some(num) => Ok(num)
    case None =>
      if mem != "" && IsUnit(mem[|mem| - 1]) && MatchesNumber(mem[..|mem| - 1]) then
        match ParseFloat(mem[..|mem| - 1])
        case Some(num) => Ok(InUnit(num, mem[|mem| - 1]))
        case None => Err
      else Err
  }

  /** A memory string by its parts. */
  datatype MemText = Plain(lit: Literal) | Scaled(number: Number, unit: char) {

    ghost predicate WellFormed() {
      match this
      case Plain(l) => l.WellFormed()
      case Scaled(n, u) => n.IsDecimal() && (if n.dot then n.frac != "" else n.whole != "") && IsUnit(u)
    }

    /** The texts of a memory string; only a plain number may have its digits separated. */
    ghost predicate Spelled(s: string) {
      match this
      case Plain(l) => Separated(s) && Unseparated(s) == l.Text()
      case Scaled(n, u) => s == n.Text() + [u]
    }

    ghost function Value(): real
      requires WellFormed()
    {
      match this
      case Plain(l) => l.Value()
      case Scaled(n, u) => InUnit(n.Value(), u)
    }
  }

  lemma LastChar(a: string, b: string)
    requires b != ""
    ensures (a + b)[|a + b| - 1] == b[|b| - 1]
  {}

  lemma LiteralEnd(l: Literal)
    requires l.WellFormed()
    ensures l.Text() != "" && !IsUnit(l.Text()[|l.Text()| - 1])
  {
    var n, e := l.number, l.exp;
    var tail := n.Text() + e.Text();
    assert n.Text() != "";
    LastChar(SignText(l.sign), tail);
    if e.Exponent? {
      LastChar(n.Text(), e.Text());
      LastChar([e.mark] + SignText(e.sign), e.digits);
      assert e.Text() == [e.mark] + SignText(e.sign) + e.digits;
      assert IsDigit(e.digits[|e.digits| - 1]);
    } else {
      assert tail == n.Text();
      if n.dot {
        LastChar(n.whole, "." + n.frac);
        if n.frac != "" { assert IsDigit(n.frac[|n.frac| - 1]); }
      } else {
        assert n.Text() == n.whole;
        assert IsDigit(n.whole[|n.whole| - 1]);
      }
    }
  }

  lemma LastKept(s: string)
    requires s != "" && s[|s| - 1] != '_'
    ensures Unseparated(s) != "" && Unseparated(s)[|Unseparated(s)| - 1] == s[|s| - 1]
  {}

  lemma UnitsDoNotScan(s: string)
    requires s != "" && IsUnit(s[|s| - 1])
    ensures ParseDigits(s) == None
  {
    var l := ScanFloat(s);
    if l.Some? {
      ScanFloatSound(s);
      LiteralEnd(l.value);
    }
  }

  /** No float literal ends in a unit letter: the two branches accept disjoint strings. */
  lemma FloatsHaveNoUnit(s: string)
    requires s != "" && IsUnit(s[|s| - 1])
    ensures ParseFloat(s) == None
  {
    LastKept(s);
    UnitsDoNotScan(Unseparated(s));
  }

  lemma NumberParses(n: Number)
    requires n.IsDecimal() && if n.dot then n.frac != "" else n.whole != ""
    ensures MatchesNumber(n.Text()) && ParseFloat(n.Text()) == Some(n.Value())
  {
    assert n.Text() + "" == n.Text();
    TakeNumberStops(n, "");
    var l := Literal(None, n, NoExponent);
    assert l.Text() == n.Text();
    assert l.WellFormed() by { if n.dot { assert (n.whole + n.frac)[|n.whole|] == n.frac[0]; } }
    ScanFloatComplete(l);
    NumberIsPlain(n);
    PlainText(n.Text());
    assert l.Value() == n.Value();
  }

  lemma ScaledParses(s: string, unit: char, x: real)
    requires IsUnit(unit) && MatchesNumber(s) && ParseFloat(s) == Some(x)
    ensures MemToFloat(s + [unit]) == Ok(InUnit(x, unit))
  {
    var mem := s + [unit];
    assert mem[|mem| - 1] == unit && mem[..|mem| - 1] == s;
    FloatsHaveNoUnit(mem);
    assert ParseFloat(mem) == None;
  }

  /** Parsing inverts writing, for every way to write every memory string the grammar has. */
  lemma ParsePrinted(m: MemText, s: string)
    requires m.WellFormed() && m.Spelled(s)
    ensures MemToFloat(s) == Ok(m.Value())
  {
    match m {
      case Plain(l) => ScanFloatComplete(l);
      case Scaled(n, u) =>
        NumberParses(n);
        ScaledParses(n.Text(), u, n.Value());
    }
  }

  /** A literal's own text is one of its spellings. */
  lemma LiteralParses(l: Literal)
    requires l.WellFormed()
    ensures Plain(l).Spelled(l.Text()) && MemToFloat(l.Text()) == Ok(l.Value())
  {
    LiteralIsPlain(l);
    NothingToSeparate(l.Text());
    assert Separated(l.Text());
    ParsePrinted(Plain(l), l.Text());
  }

  lemma ScaledFrom(s: string) returns (m: MemText)
    requires s != "" && IsUnit(s[|s| - 1]) && MatchesNumber(s[..|s| - 1])
    ensures m.WellFormed() && m.Spelled(s)
  {
    var n := TakeNumber(s[..|s| - 1]);
    m := Scaled(n, s[|s| - 1]);
    assert s == s[..|s| - 1] + [s[|s| - 1]];
  }

  /** Only memory strings of the grammar parse; everything else is an error. */
  lemma ParsedIsPrinted(s: string) returns (m: MemText)
    requires MemToFloat(s).Ok?
    ensures m.WellFormed() && m.Spelled(s)
  {
    if ParseFloat(s).Some? {
      ScanFloatSound(Unseparated(s));
      m := Plain(ScanFloat(Unseparated(s)).value);
    } else {
      assert s != "" && IsUnit(s[|s| - 1]) && MatchesNumber(s[..|s| - 1]);
      m := ScaledFrom(s);
    }
  }

  /** `MemToFloat` succeeds exactly on the grammar and returns the value of the text; the plain
      and the unit form never share a string. */
  lemma MemToFloatExact(s: string)
    ensures MemToFloat(s).Ok? <==> exists m: MemText :: m.WellFormed() && m.Spelled(s)
    ensures forall m: MemText :: m.WellFormed() && m.Spelled(s) ==> MemToFloat(s) == Ok(m.Value())
    ensures forall m: MemText, n: MemText ::
              m.WellFormed() && n.WellFormed() && m.Spelled(s) && n.Spelled(s) ==> m.Plain? == n.Plain?
  {
    if MemToFloat(s).Ok? { var m := ParsedIsPrinted(s); }
    forall m: MemText | m.WellFormed() && m.Spelled(s)
      ensures MemToFloat(s) == Ok(m.Value())
      ensures m.Plain? <==> ParseFloat(s).Some?
    {
      ParsePrinted(m, s);
      if m.Plain? { ScanFloatComplete(m.lit); } else { FloatsHaveNoUnit(s); }
    }
  }

  // ---------- printing numbers ----------

  /** The decimal digits of `n`, padded on the left to at least `width` of them. */
  function Digits(n: nat, width: nat): string
    decreases n, width
  {
    if n < 10 && width <= 1 then [DigitChar(n)]
    else Digits(n / 10, if width > 0 then width - 1 else 0) + [DigitChar(n % 10)]
  }

  lemma {:induction false} DigitsValue(n: nat, width: nat)
    ensures AllDigits(Digits(n, width)) && |Digits(n, width)| >= 1 && |Digits(n, width)| >= width
    ensures Numeral(Digits(n, width)) == n
    decreases n, width
  {
    var ds := Digits(n, width);
    if n < 10 && width <= 1 {
      assert ds[..0] == "";
    } else {
      DigitsValue(n / 10, if width > 0 then width - 1 else 0);
      assert ds[..|ds| - 1] == Digits(n / 10, if width > 0 then width - 1 else 0);
    }
  }

  /** `n / 10^places` in fixed-point notation, with a unit when one is given. */
  function Print(n: nat, places: nat, unit: Option<char>): string {
    var ds := Digits(n, places + 1);
    DigitsValue(n, places + 1);
    var text := if places == 0 then ds else ds[..|ds| - places] + ("." + ds[|ds| - places..]);
    if unit.Some? then text + [unit.value] else text
  }

  lemma PrintedNumber(n: nat, places: nat) returns (num: Number)
    ensures num.IsDecimal() && if num.dot then num.frac != "" else num.whole != ""
    ensures num.Text() == Print(n, places, None)
    ensures num.Value() == Shifted(n, places)
  {
    DigitsValue(n, places + 1);
    var ds := Digits(n, places + 1);
    num := Number(ds[..|ds| - places], places > 0, ds[|ds| - places..]);
    assert num.whole + num.frac == ds;
    if places == 0 { assert num.whole == ds; }
  }

  /** Round trip on numbers: printing with `places` decimals and an optional unit, then parsing,
      gives the number back, scaled by the unit. */
  lemma PrintRoundTrip(n: nat, places: nat, unit: Option<char>)
    requires unit.Some? ==> IsUnit(unit.value)
    ensures MemToFloat(Print(n, places, unit)) ==
            Ok(var x := Shifted(n, places);
               if unit.Some? then InUnit(x, unit.value) else x)
  {
    var num := PrintedNumber(n, places);
    NumberParses(num);
    if unit.Some? { ScaledParses(num.Text(), unit.value, num.Value()); }
  }

  // ---------- sizes ----------

  /** `x` with its point moved `k` places to the right. */
  function TimesTen(x: real, k: nat): real {
    if k == 0 then x else 10.0 * TimesTen(x, k - 1)
  }

  lemma {:induction false} TimesTenPower(x: real, k: nat)
    ensures TimesTen(x, k) == x * Pow10(k)
  {
    if k > 0 {
      TimesTenPower(x, k - 1);
      TenInside(x, Pow10(k - 1));
    }
  }

  lemma TenInside(x: real, p: real)
    ensures 10.0 * (x * p) == x * (10.0 * p)
  {}

  lemma {:induction false} PowersCancel(k: nat)
    ensures Pow10(0 - k) * Pow10(k) == 1.0
  {
    if k > 0 {
      PowersCancel(k - 1);
      assert Pow10(0 - k) == Pow10(0 - (k - 1)) / 10.0;
      TenCancels(Pow10(0 - (k - 1)), Pow10(k - 1));
    }
  }

  lemma TenCancels(p: real, q: real)
    ensures (p / 10.0) * (10.0 * q) == p * q
  {}

  lemma Regroup(x: real, p: real, q: real, y: real)
    requires p * q == 1.0 && y == x * p
    ensures y * q == x
  {
    assert y * q == x * (p * q);
  }

  /** Moving the point to the right undoes moving it to the left. */
  lemma TimesTenUndoes(x: real, k: nat, y: real)
    requires y == x * Pow10(0 - k)
    ensures TimesTen(y, k) == x
  {
    PowersCancel(k);
    TimesTenPower(y, k);
    Regroup(x, Pow10(0 - k), Pow10(k), y);
  }

  /** Digits are decimal, the most significant first. */
  lemma NumeralNext(ds: string, c: char)
    requires AllDigits(ds) && '0' <= c <= '9'
    ensures Numeral("") == 0 && AllDigits(ds + [c])
    ensures Numeral(ds + [c]) == 10 * Numeral(ds) + (c as int - 48)
  {
    assert (ds + [c])[..|ds|] == ds;
  }

  lemma NoPlaces(n: nat)
    ensures Shifted(n, 0) == n as real
  {}

  /** The value of a printed number in terms of the number alone. */
  lemma PrintedValue(n: nat, places: nat, unit: Option<char>, x: real)
    requires unit.Some? ==> IsUnit(unit.value)
    requires x == Shifted(n, places)
    ensures MemToFloat(Print(n, places, unit)) == Ok(if unit.Some? then InUnit(x, unit.value) else x)
  {
    PrintRoundTrip(n, places, unit);
  }

  /** The three units in bytes, for every whole number. */
  lemma UnitSizes(n: nat, unit: char, size: real)
    requires || (unit == 'M' && size == 1000000.0)
             || (unit == 'G' && size == 1000000000.0)
             || (unit == 'T' && size == 1000000000000.0)
    ensures MemToFloat(Print(n, 0, Some(unit))) == Ok(size * n as real)
  {
    NoPlaces(n);
    SizeOfUnit(n as real, unit, size);
    PrintedValue(n, 0, Some(unit), n as real);
  }

  lemma SizeOfUnit(x: real, unit: char, size: real)
    requires || (unit == 'M' && size == 1000000.0)
             || (unit == 'G' && size == 1000000000.0)
             || (unit == 'T' && size == 1000000000000.0)
    ensures InUnit(x, unit) == size * x
  {}

  /** Without a unit the number is a count of bytes. */
  lemma PlainSize(n: nat)
    ensures MemToFloat(Print(n, 0, None)) == Ok(n as real)
  {
    NoPlaces(n);
    PrintedValue(n, 0, None, n as real);
  }

  lemma {:induction false} TimesTenScaled(x: real, k: nat, unit: real)
    ensures TimesTen(x * unit, k) == TimesTen(x, k) * unit
  {
    if k > 0 {
      TimesTenScaled(x, k - 1, unit);
      TenInside(unit, TimesTen(x, k - 1));
    }
  }

  lemma ShiftedBack(n: nat, places: nat)
    ensures TimesTen(Shifted(n, places), places) == n as real
  {
    TimesTenUndoes(n as real, places, Shifted(n, places));
  }

  lemma UnitShiftedBack(n: nat, places: nat, unit: char)
    requires IsUnit(unit)
    ensures TimesTen(InUnit(Shifted(n, places), unit), places) == InUnit(n as real, unit)
  {
    ShiftedBack(n, places);
    TimesTenScaled(Shifted(n, places), places, Scale(unit));
  }

  /** Every decimal printed makes the value ten times smaller. */
  lemma DecimalPlaces(n: nat, places: nat, unit: Option<char>)
    requires unit.Some? ==> unit.value == 'M' || unit.value == 'G' || unit.value == 'T'
    ensures MemToFloat(Print(n, places, unit)).Ok? && MemToFloat(Print(n, 0, unit)).Ok?
    ensures TimesTen(MemToFloat(Print(n, places, unit)).value, places) == MemToFloat(Print(n, 0, unit)).value
  {
    NoPlaces(n);
    PrintedValue(n, places, unit, Shifted(n, places));
    PrintedValue(n, 0, unit, n as real);
    ShiftedBack(n, places);
    if unit.Some? { UnitShiftedBack(n, places, unit.value); }
  }

  /** No other letter is a unit. */
  lemma OtherUnits(n: nat, c: char)
    requires !IsDigit(c) && c != '.'
    ensures MemToFloat(Print(n, 0, Some(c))).Ok? <==> c == 'M' || c == 'G' || c == 'T'
  {
    if c == 'M' || c == 'G' || c == 'T' { PrintRoundTrip(n, 0, Some(c)); }
    var ds, text := Print(n, 0, None), Print(n, 0, Some(c));
    assert text == ds + [c] && text[|text| - 1] == c;
    if ParseFloat(text).Some? {
      LastKept(text);
      var l := ScanFloat(Unseparated(text)).value;
      ScanFloatSound(Unseparated(text));
      LiteralLast(l);
    }
  }

  lemma LiteralLast(l: Literal)
    requires l.WellFormed()
    ensures l.Text() != "" && (IsDigit(l.Text()[|l.Text()| - 1]) || l.Text()[|l.Text()| - 1] == '.')
  {}

  lemma PlainValue(number: Number)
    requires number.IsDecimal() && number.whole + number.frac != ""
    ensures MemToFloat(number.Text()) == Ok(number.Value())
  {
    SpelledLiteral(number, None, NoExponent, number.Text(), number.Value());
  }

  /** A minus negates, a plus does nothing. */
  lemma SignedValue(number: Number, sign: char)
    requires number.IsDecimal() && number.whole + number.frac != "" && (sign == '+' || sign == '-')
    ensures MemToFloat([sign] + number.Text()) == Ok(if sign == '-' then -number.Value() else number.Value())
  {
    SpelledLiteral(number, Some(sign), NoExponent, [sign] + number.Text(),
                   if sign == '-' then -number.Value() else number.Value());
  }

  /** A number without its point is its value with the point moved behind the last digit. */
  lemma FractionValue(number: Number)
    requires number.IsDecimal()
    ensures TimesTen(number.Value(), |number.frac|) == Numeral(number.whole + number.frac) as real
  {
    ShiftedBack(Numeral(number.whole + number.frac), |number.frac|);
  }

  /** `y` is `x` with its point moved as an exponent says: `ek` and `e+k` move it to the right, `e-k`
      to the left. */
  ghost predicate Moved(x: real, exp: Exponent, y: real)
    requires exp.Exponent? && AllDigits(exp.digits)
  {
    if exp.sign == Some('-') then TimesTen(y, Numeral(exp.digits)) == x else y == TimesTen(x, Numeral(exp.digits))
  }

  /** An exponent moves the point of the number before it. */
  lemma ExponentValue(number: Number, exp: Exponent, y: real)
    requires number.IsDecimal() && number.whole + number.frac != "" && exp.WellFormed() && exp.Exponent?
    requires Moved(number.Value(), exp, y)
    ensures MemToFloat(number.Text() + ([exp.mark] + (SignText(exp.sign) + exp.digits))) == Ok(y)
  {
    MovedIsValue(number, exp, y);
    SpelledLiteral(number, None, exp, number.Text() + ([exp.mark] + (SignText(exp.sign) + exp.digits)), y);
  }

  lemma MovedIsValue(number: Number, exp: Exponent, y: real)
    requires number.IsDecimal() && exp.Exponent? && AllDigits(exp.digits) && Moved(number.Value(), exp, y)
    ensures y == Literal(None, number, exp).Value()
  {
    MovedFactor(number.Value(), exp, y);
  }

  lemma MovedFactor(x: real, exp: Exponent, y: real)
    requires exp.Exponent? && AllDigits(exp.digits) && Moved(x, exp, y)
    ensures y == x * exp.Value()
  {
    var k := Numeral(exp.digits);
    if exp.sign == Some('-') { MovedLeft(x, k, y); } else { TimesTenPower(x, k); }
  }

  lemma MovedLeft(x: real, k: nat, y: real)
    requires TimesTen(y, k) == x
    ensures y == x * Pow10(0 - k)
  {
    var z := x * Pow10(0 - k);
    TimesTenUndoes(x, k, z);
    TimesTenInjective(y, z, k);
  }

  lemma {:induction false} TimesTenInjective(x: real, y: real, k: nat)
    requires TimesTen(x, k) == TimesTen(y, k)
    ensures x == y
  {
    if k > 0 { TimesTenInjective(x, y, k - 1); }
  }

  lemma SpelledLiteral(number: Number, sign: Option<char>, exp: Exponent, s: string, x: real)
    requires Literal(sign, number, exp).WellFormed() && s == Literal(sign, number, exp).Text()
    requires x == Literal(sign, number, exp).Value()
    ensures MemToFloat(s) == Ok(x)
  {
    LiteralParses(Literal(sign, number, exp));
  }

  // ---------- shapes ----------

  /** Digits with an optional point are a number when there is any digit. */
  lemma PlainShapes(number: Number)
    requires number.IsDecimal()
    ensures MemToFloat(number.Text()).Ok? <==> number.whole != "" || number.frac != ""
  {
    if number.whole + number.frac != "" {
      PlainValue(number);
    } else {
      NoDigitsNoLiteral(number.Text());
    }
  }

  lemma NoDigitsNoLiteral(s: string)
    requires s == "" || s == "."
    ensures MemToFloat(s).Err?
  {
    NothingToSeparate(s);
    if ScanFloat(s).Some? {
      ScanFloatSound(s);
      LiteralHasDigit(ScanFloat(s).value);
    }
  }

  lemma LiteralHasDigit(l: Literal)
    requires l.WellFormed()
    ensures exists c :: c in l.Text() && IsDigit(c)
  {
    var c := if l.number.whole != "" then l.number.whole[0] else l.number.frac[0];
    assert c in l.number.Text() && IsDigit(c);
    assert c in l.Text();
  }

  /** Before a unit a point needs digits behind it: `4G`, `4.5G` and `.5G`, not `4.G` or `G`. */
  lemma ScaledShapes(number: Number, unit: char)
    requires number.IsDecimal() && (unit == 'M' || unit == 'G' || unit == 'T')
    ensures MemToFloat(number.Text() + [unit]).Ok? <==>
            if number.dot then number.frac != "" else number.whole != ""
  {
    var s := number.Text() + [unit];
    assert s[|s| - 1] == unit && s[..|s| - 1] == number.Text();
    FloatsHaveNoUnit(s);
    TakesItself(number);
    if if number.dot then number.frac != "" else number.whole != "" {
      NumberParses(number);
      ScaledParses(number.Text(), unit, number.Value());
    }
  }

  lemma TakesItself(number: Number)
    requires number.IsDecimal()
    ensures TakeNumber(number.Text()) == number
  {
    assert number.Text() + "" == number.Text();
    TakeNumberStops(number, "");
  }

  /** A signed number takes no unit. */
  lemma NoSignBeforeUnit(s: string, sign: char, unit: char)
    requires (sign == '+' || sign == '-') && (unit == 'M' || unit == 'G' || unit == 'T')
    ensures MemToFloat([sign] + s + [unit]).Err?
  {
    var text := [sign] + s + [unit];
    assert text[|text| - 1] == unit && text[..|text| - 1] == [sign] + s;
    FloatsHaveNoUnit(text);
    var n := TakeNumber([sign] + s);
    assert !IsDigit(([sign] + s)[0]);
  }

  /** Single underscores between digits do not change a number. */
  lemma UnderscoreIgnored(a: string, b: string)
    requires AllDigits(a) && AllDigits(b) && a != "" && b != ""
    ensures AllDigits(a + b) && MemToFloat(a + "_" + b) == Ok(Numeral(a + b) as real)
  {
    var l := Literal(None, Number(a + b, false, ""), NoExponent);
    WithoutUnderscore(a, b);
    UnderscoreSeparates(a, b);
    WholeLiteral(a + b);
    SpelledParses(l, a + "_" + b);
  }

  lemma SpelledParses(l: Literal, s: string)
    requires l.WellFormed() && Separated(s) && Unseparated(s) == l.Text()
    ensures MemToFloat(s) == Ok(l.Value())
  {
    ParsePrinted(Plain(l), s);
  }

  lemma WholeLiteral(ds: string)
    requires AllDigits(ds) && ds != ""
    ensures var l := Literal(None, Number(ds, false, ""), NoExponent);
            l.WellFormed() && l.Text() == ds && l.Value() == Numeral(ds) as real
  {
    assert ds + "" == ds;
  }

  lemma UnderscoreSeparates(a: string, b: string)
    requires AllDigits(a) && AllDigits(b) && a != "" && b != ""
    ensures Separated(a + "_" + b)
  {
    var s := a + "_" + b;
    assert forall i :: 0 <= i < |a| ==> s[i] == a[i];
    assert forall i :: |a| < i < |s| ==> s[i] == b[i - |a| - 1];
  }

  lemma {:induction false} WithoutUnderscore(a: string, b: string)
    requires AllDigits(a) && AllDigits(b)
    ensures Unseparated(a + "_" + b) == a + b
  {
    if b == "" {
      assert (a + "_" + b)[..|a + "_" + b| - 1] == a;
      NothingToSeparate(a);
      assert a + b == a;
    } else {
      var init := b[..|b| - 1];
      WithoutUnderscore(a, init);
      assert (a + "_" + b)[..|a + "_" + b| - 1] == a + "_" + init;
      assert a + b == a + init + [b[|b| - 1]];
    }
  }

  /** Any other underscore makes the text an error, and so does any underscore before a unit. */
  lemma MisplacedUnderscore(s: string, i: nat)
    requires i < |s| && s[i] == '_'
    requires || IsUnit(s[|s| - 1]) || i == 0 || i == |s| - 1 || !IsDigit(s[i - 1]) || !IsDigit(s[i + 1])
    ensures MemToFloat(s).Err?
  {
    if IsUnit(s[|s| - 1]) {
      FloatsHaveNoUnit(s);
      var n := TakeNumber(s[..|s| - 1]);
      NumberIsPlain(n);
      assert s[..|s| - 1][i] == '_';
    } else {
      assert !Separated(s);
    }
  }
}
