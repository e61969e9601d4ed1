/** Sizes with a unit symbol and numbers with commas (inc/nsEffector.h). */
module Effector {
  import opened Wrappers
  import opened Decimals
  import Division

  const LIMIT := 10000
  const TWO63 := 0x8000_0000_0000_0000
  const TWO64 := 0x1_0000_0000_0000_0000

  function Kilo(k: nat): int {
    if k == 0 then 1 else 1024 * Kilo(k - 1)
  }

  /** A shift to the right by ten bits, k times over. */
  function InvExp(m: int, k: nat): int {
    if k > 0 then InvExp(m, k - 1) / 1024 else m
  }

  lemma KiloPositive(k: nat)
    ensures Kilo(k) > 0
  {
  }

  lemma InvExpBounds(m: int, k: nat)
    ensures InvExp(m, k) * Kilo(k) <= m < (InvExp(m, k) + 1) * Kilo(k)
  {
    KiloPositive(k);
    if k > 0 {
      InvExpBounds(m, k - 1);
      InvExpStep(m, InvExp(m, k - 1), InvExp(m, k), Kilo(k - 1));
    }
  }

  lemma InvExpStep(m: int, q: int, p: int, unit: int)
    requires unit > 0 && q * unit <= m < (q + 1) * unit && p == q / 1024
    ensures p * (1024 * unit) <= m < (p + 1) * (1024 * unit)
  {
    Products(1024 * p, q, unit);
    Products(q + 1, 1024 * p + 1024, unit);
    Regroup(p, unit);
    Regroup(p + 1, unit);
  }

  lemma Products(a: int, b: int, unit: int)
    requires a <= b && unit > 0
    ensures a * unit <= b * unit
  {
  }

  lemma Regroup(p: int, unit: int)
    ensures p * (1024 * unit) == 1024 * p * unit
  {
  }

  lemma InvExpFalls(m: int, k: nat, l: nat)
    requires k <= l && m >= 0
    ensures 0 <= InvExp(m, l) <= InvExp(m, k)
  {
    if k < l {
      InvExpFalls(m, k, l - 1);
    } else if k > 0 {
      InvExpFalls(m, k - 1, k - 1);
    }
  }

  // Sizes.

  /** The first index from i on at which the shifted number is small enough. */
  function IndexFrom(m: int, i: nat): (k: nat)
    ensures i <= k && InvExp(m, k) <= LIMIT && forall j :: i <= j < k ==> InvExp(m, j) > LIMIT
    decreases if InvExp(m, i) > 0 then InvExp(m, i) else 0
  {
    if InvExp(m, i) > LIMIT then IndexFrom(m, i + 1) else i
  }

  /** An integer type: its width, and whether it has a sign. */
  datatype IntType = IntType(bits: nat, signed: bool)

  /** The number with the highest bit of the type only. */
  function Half(ty: IntType): (h: int)
    requires ty.bits > 0
    ensures h > 0
  {
    Division.Bits(ty.bits - 1)
  }

  predicate Has(ty: IntType, n: int) {
    ty.bits > 1 && if ty.signed then -Half(ty) <= n < Half(ty) else 0 <= n < 2 * Half(ty)
  }

  /** The number of the type that x becomes when it is stored. */
  function Wrap(ty: IntType, x: int): int
    requires ty.bits > 0
  {
    var r := x % (2 * Half(ty));
    if ty.signed && r >= Half(ty) then r - 2 * Half(ty) else r
  }

  /** iSign: a shift to the right that leaves the highest bit, and copies of it if the type has a sign. */
  function TopBit(ty: IntType, n: int): int
    requires ty.bits > 0
  {
    n / Half(ty)
  }

  /** The number, or its complement and one if the shift gave -1. */
  function Magnitude(ty: IntType, n: int): int
    requires ty.bits > 0
  {
    if TopBit(ty, n) == Wrap(ty, -1) then Wrap(ty, (-1 - n) + 1) else n
  }

  lemma TopBitIs(ty: IntType, n: int)
    requires Has(ty, n)
    ensures TopBit(ty, n) == if n < 0 then -1 else if n >= Half(ty) then 1 else 0
  {
    var h := Half(ty);
    if n < 0 {
      Division.ModOf(n, -1, n + h, h);
    } else if n >= h {
      Division.ModOf(n, 1, n - h, h);
    } else {
      Division.ModOf(n, 0, n, h);
    }
  }

  /** The absolute value, but for the least number of a signed type, which is its own. */
  lemma MagnitudeIs(ty: IntType, n: int)
    requires Has(ty, n)
    ensures Magnitude(ty, n) == if n < 0 && n != -Half(ty) then -n else n
  {
    var h := Half(ty);
    TopBitIs(ty, n);
    Division.ModOf(-1, -1, 2 * h - 1, 2 * h);
    if n < 0 {
      Division.ModOf(-n, 0, -n, 2 * h);
    }
  }

  function Index(ty: IntType, n: int): nat
    requires ty.bits > 0
  {
    IndexFrom(Magnitude(ty, n), 0)
  }

  /** The table of symbols, with the zero byte that ends it. */
  function Symbol(k: nat): char
    requires k <= 6
  {
    if k == 0 then '.' else if k == 1 then 'k' else if k == 2 then 'M' else if k == 3 then 'G' else if k == 4 then 'T'
    else if k == 5 then 'P' else 0 as char
  }

  function Signed(n: int): string {
    if n < 0 then "-" + Decimal(-n) else Decimal(n)
  }

  /** The number is one of a type of at most 64 bits. */
  predicate Fits(ty: IntType, n: int) {
    ty.bits <= 64 && Has(ty, n)
  }

  lemma FitsBounds(ty: IntType, n: int)
    requires Fits(ty, n)
    ensures if ty.signed then -TWO63 <= n < TWO63 else 0 <= n < TWO64
  {
    Division.BitsMonotone(ty.bits - 1, 63);
    Division.SixtyFourBits();
  }

  /** The search ends inside the table, or at its closing zero, and exactly the numbers up to 10000 P and
      their fractions stay inside. */
  lemma IndexIff(ty: IntType, n: int)
    requires Fits(ty, n)
    ensures Index(ty, n) <= 6
    ensures Index(ty, n) <= 5 <==> InvExp(Magnitude(ty, n), 5) <= LIMIT
    ensures ty.signed || ty.bits < 64 ==> Index(ty, n) <= 5
  {
    var m := Magnitude(ty, n);
    FitsBounds(ty, n);
    MagnitudeIs(ty, n);
    if ty.bits < 64 {
      Division.BitsMonotone(ty.bits, 63);
      Division.SixtyFourBits();
    }
    IndexOf(m);
  }

  lemma IndexOf(m: int)
    requires m < TWO64
    ensures IndexFrom(m, 0) <= 6
    ensures IndexFrom(m, 0) <= 5 <==> InvExp(m, 5) <= LIMIT
    ensures m <= TWO63 ==> IndexFrom(m, 0) <= 5
  {
    InvExpBounds(m, 5);
    InvExpBounds(m, 6);
    Kilos();
    if m >= 0 && IndexFrom(m, 0) < 5 {
      InvExpFalls(m, IndexFrom(m, 0), 5);
    }
  }

  lemma Kilos()
    ensures Kilo(5) == 0x4_0000_0000_0000 && Kilo(6) == 0x1000_0000_0000_0000
  {
    assert Kilo(1) == 1024;
    assert Kilo(2) == 0x10_0000;
    assert Kilo(3) == 0x4000_0000;
    assert Kilo(4) == 0x100_0000_0000;
  }

  /** A 64-bit unsigned number can be too large for the table: its symbol is a zero byte. */
  lemma LargestIsBeyondTable()
    ensures Fits(IntType(64, false), TWO64 - 1) && Index(IntType(64, false), TWO64 - 1) == 6
  {
    Division.SixtyFourBits();
    IndexIff(IntType(64, false), TWO64 - 1);
    MagnitudeIs(IntType(64, false), TWO64 - 1);
    InvExpBounds(TWO64 - 1, 5);
    Kilos();
  }

  function IntStr(ty: IntType, n: int, space: string): string
    requires Fits(ty, n)
  {
    IndexIff(ty, n);
    Signed(InvExp(n, Index(ty, n))) + space + [Symbol(Index(ty, n))]
  }

  method BinIntToIntStr(ty: IntType, n: int, space: string) returns (s: string)
    requires Fits(ty, n)
    ensures s == IntStr(ty, n, space)
  {
    var sign, mantissa := n / Half(ty), n;
    if sign == Wrap(ty, -1) {
      mantissa := Wrap(ty, (-1 - mantissa) + 1);
    }
    var index := 0;
    while InvExp(mantissa, index) > LIMIT
      invariant IndexFrom(mantissa, index) == IndexFrom(mantissa, 0)
      decreases InvExp(mantissa, index)
    {
      index := index + 1;
    }
    IndexIff(ty, n);
    s := Signed(InvExp(n, index)) + space + [Symbol(index)];
  }

  lemma InvExpIs(m: int, k: nat)
    ensures Kilo(k) > 0 && InvExp(m, k) == m / Kilo(k)
  {
    KiloPositive(k);
    InvExpBounds(m, k);
    Division.QuotientBounds(m, Kilo(k), InvExp(m, k));
  }

  lemma SymbolsAre(k: nat)
    requires k <= 5
    ensures Symbol(k) == ".kMGTP"[k]
  {
  }

  /** The unit is the least of which there are at most 10000. */
  lemma LeastUnit(ty: IntType, n: int, j: nat)
    requires Fits(ty, n) && n != -Half(ty)
    ensures var k, m := Index(ty, n), if n < 0 then -n else n;
            Kilo(k) > 0 && Kilo(j) > 0 && m / Kilo(k) <= 10000 && (j < k ==> m / Kilo(j) > 10000)
  {
    MagnitudeIs(ty, n);
    var k, m := Index(ty, n), if n < 0 then -n else n;
    InvExpIs(m, k);
    InvExpIs(m, j);
  }

  /** What is printed: the number of whole units, rounded down, the space, and the symbol of the unit. */
  lemma PrintsUnits(ty: IntType, n: int, space: string)
    requires Fits(ty, n) && Index(ty, n) <= 5
    ensures var k := Index(ty, n); Kilo(k) > 0 && IntStr(ty, n, space) == Signed(n / Kilo(k)) + space + [".kMGTP"[k]]
  {
    InvExpIs(n, Index(ty, n));
    SymbolsAre(Index(ty, n));
  }

  // The reader of sizes.

  function Unit(c: char): Option<nat> {
    if c == '.' then Some(0)
    else if c == 'K' || c == 'k' then Some(1)
    else if c == 'M' || c == 'm' then Some(2)
    else if c == 'G' || c == 'g' then Some(3)
    else if c == 'T' || c == 't' then Some(4)
    else if c == 'P' || c == 'p' then Some(5)
    else None
  }

  /** strpbrk with the unit symbols. */
  function FirstUnit(s: string): (r: Option<nat>)
    ensures r.Some? ==> exists c <- s :: Unit(c) == r
    ensures r.None? ==> forall c <- s :: Unit(c).None?
  {
    if s == "" then None else if Unit(s[0]).Some? then Unit(s[0]) else FirstUnit(s[1..])
  }

  /** One digit or more. */
  function Digits(s: string): Option<int> {
    if s != "" && forall c <- s :: IsDigit(c) then Some(DecimalValue(s)) else None
  }

  /** A decimal number: `digits` over ten to the number of places, with its sign. */
  datatype Number = Number(negative: bool, digits: int, places: nat)

  /** The first decimal point, or the end. */
  function Point(s: string): (i: nat)
    ensures i <= |s| && (i < |s| ==> s[i] == '.') && forall j :: 0 <= j < i ==> s[j] != '.'
  {
    if s == "" || s[0] == '.' then 0 else 1 + Point(s[1..])
  }

  /** Digits with an optional point, in front, between or behind them. */
  function Unsigned(s: string, negative: bool): Option<Number> {
    var i := Point(s);
    if i == |s| then
      match Digits(s) case None => None case Some(v) => Some(Number(negative, v, 0))
    else
      match Digits(s[..i] + s[i + 1..]) case None => None case Some(v) => Some(Number(negative, v, |s| - i - 1))
  }

  /** A number with an optional sign, as the conversion to double takes it. */
  function Decimalize(s: string): Option<Number> {
    if s != "" && (s[0] == '-' || s[0] == '+') then Unsigned(s[1..], s[0] == '-') else Unsigned(s, false)
  }

  /** The product with a unit, cut off towards zero. */
  function Truncated(n: Number, unit: int): int {
    var q := n.digits * unit / Pow10(n.places);
    if n.negative then -q else q
  }

  /** None stands for an exception.  Without a unit only digits are allowed; else the last character is left out. */
  function IntStrToBinInt(s: string): Option<int>
    requires s != ""
  {
    match FirstUnit(s)
    case None => Digits(s)
    case Some(k) => (match Decimalize(s[..|s| - 1]) case None => None case Some(v) => Some(Truncated(v, Kilo(k))))
  }

  lemma PointBehind(d: string, t: string)
    requires forall c <- d :: IsDigit(c)
    ensures Point(d + t) == |d| + Point(t)
  {
    if d == "" {
      assert d + t == t;
    } else {
      assert d[0] in d && (d + t)[1..] == d[1..] + t;
      PointBehind(d[1..], t);
    }
  }

  lemma DigitsRead(d: string)
    requires d != "" && forall c <- d :: IsDigit(c)
    ensures Decimalize(d) == Some(Number(false, DecimalValue(d), 0))
    ensures Decimalize("-" + d) == Some(Number(true, DecimalValue(d), 0))
    ensures forall c <- "-" + d :: Unit(c).None?
  {
    PointBehind(d, "");
    assert d + "" == d;
    assert d[0] in d;
    assert ("-" + d)[1..] == d;
  }

  lemma SignedReads(n: int)
    ensures Decimalize(Signed(n)) == Some(Number(n < 0, if n < 0 then -n else n, 0))
    ensures Signed(n) != "" && forall c <- Signed(n) :: Unit(c).None?
  {
    var m := if n < 0 then -n else n;
    DecimalDigits(m);
    DecimalReads(m);
    DigitsRead(Decimal(m));
  }

  lemma UnitBehind(s: string, t: string)
    requires (forall d <- s :: Unit(d).None?) && t != "" && Unit(t[0]).Some?
    ensures FirstUnit(s + t) == Unit(t[0])
  {
    if s == "" {
      assert s + t == t;
    } else {
      assert (s + t)[1..] == s[1..] + t;
      UnitBehind(s[1..], t);
    }
  }

  lemma ReadUnit(digits: string, c: char, k: nat, v: Option<Number>)
    requires (forall d <- digits :: Unit(d).None?) && Unit(c) == Some(k) && Decimalize(digits) == v
    ensures IntStrToBinInt(digits + [c]) == if v.Some? then Some(Truncated(v.value, Kilo(k))) else None
  {
    UnitBehind(digits, [c]);
    var s := digits + [c];
    assert s[..|s| - 1] == digits;
  }

  lemma WholeNumber(negative: bool, v: int, unit: int)
    ensures Truncated(Number(negative, v, 0), unit) == if negative then -(v * unit) else v * unit
  {
  }

  lemma DigitsBeforeUnit(d: string, c: char, k: nat)
    requires d != "" && (forall x <- d :: IsDigit(x)) && Unit(c) == Some(k)
    ensures IntStrToBinInt(d + [c]) == Some(DecimalValue(d) * Kilo(k))
    ensures IntStrToBinInt("-" + d + [c]) == Some(-(DecimalValue(d) * Kilo(k)))
  {
    hide Decimalize, Kilo, IntStrToBinInt, DecimalValue;
    DigitsRead(d);
    assert forall x <- d :: x in "-" + d;
    ReadUnit(d, c, k, Some(Number(false, DecimalValue(d), 0)));
    ReadUnit("-" + d, c, k, Some(Number(true, DecimalValue(d), 0)));
    WholeNumber(false, DecimalValue(d), Kilo(k));
    WholeNumber(true, DecimalValue(d), Kilo(k));
  }

  /** Digits are read as they stand; a minus sign is not read without a unit. */
  lemma WithoutUnit(d: string)
    requires d != "" && forall x <- d :: IsDigit(x)
    ensures IntStrToBinInt(d) == Some(DecimalValue(d)) && IntStrToBinInt("-" + d) == None
  {
    DigitsRead(d);
    assert forall x <- d :: x in "-" + d;
    NoUnit(d);
    NoUnit("-" + d);
    assert ("-" + d)[0] in "-" + d;
  }

  /** A letter of either case stands for a power of 1024. */
  lemma UnitsMean(d: string, c: char)
    requires d != "" && forall x <- d :: IsDigit(x)
    ensures c in ['k', 'K'] ==> IntStrToBinInt(d + [c]) == Some(DecimalValue(d) * 1024)
    ensures c in ['m', 'M'] ==> IntStrToBinInt(d + [c]) == Some(DecimalValue(d) * 0x10_0000)
    ensures c in ['g', 'G'] ==> IntStrToBinInt(d + [c]) == Some(DecimalValue(d) * 0x4000_0000)
    ensures c in ['t', 'T'] ==> IntStrToBinInt(d + [c]) == Some(DecimalValue(d) * 0x100_0000_0000)
    ensures c in ['p', 'P'] ==> IntStrToBinInt(d + [c]) == Some(DecimalValue(d) * 0x4_0000_0000_0000)
  {
    hide IntStrToBinInt, Kilo, DecimalValue;
    if Unit(c).Some? {
      KilosTo(Unit(c).value);
      DigitsBeforeUnit(d, c, Unit(c).value);
    }
  }

  lemma KilosTo(k: nat)
    requires k <= 5
    ensures Kilo(k) == if k == 0 then 1 else if k == 1 then 1024 else if k == 2 then 0x10_0000 else if k == 3 then 0x4000_0000
                       else if k == 4 then 0x100_0000_0000 else 0x4_0000_0000_0000
  {
    assert Kilo(0) == 1 && Kilo(1) == 1024;
    assert Kilo(2) == 0x10_0000;
    assert Kilo(3) == 0x4000_0000;
    assert Kilo(4) == 0x100_0000_0000;
    assert Kilo(5) == 0x4_0000_0000_0000;
  }

  lemma NoUnit(s: string)
    requires forall c <- s :: Unit(c).None?
    ensures FirstUnit(s) == None
  {
  }

  /** A decimal point is taken for the unit of one: whatever stands last is left out, and the number is cut off. */
  lemma FractionIgnoresUnit(ints: string, frac: string, c: char)
    requires ints != "" && (forall x <- ints :: IsDigit(x)) && forall x <- frac :: IsDigit(x)
    ensures IntStrToBinInt(ints + "." + frac + [c]) == Some(DecimalValue(ints))
  {
    var s, t := ints + "." + frac, ints + "." + frac + [c];
    assert t[..|t| - 1] == s && t == ints + ("." + frac + [c]);
    UnitBehind(ints, "." + frac + [c]);
    FractionReads(ints, frac, s);
    CutOff(ints, frac);
  }

  lemma FractionReads(ints: string, frac: string, s: string)
    requires ints != "" && (forall x <- ints :: IsDigit(x)) && (forall x <- frac :: IsDigit(x)) && s == ints + "." + frac
    ensures Decimalize(s) == Some(Number(false, DecimalValue(ints + frac), |frac|))
  {
    hide Unsigned;
    assert s[0] == ints[0] && ints[0] in ints;
    UnsignedReads(ints, frac, s);
  }

  lemma UnsignedReads(ints: string, frac: string, s: string)
    requires ints != "" && (forall x <- ints :: IsDigit(x)) && (forall x <- frac :: IsDigit(x)) && s == ints + "." + frac
    ensures Unsigned(s, false) == Some(Number(false, DecimalValue(ints + frac), |frac|))
  {
    hide DecimalValue, Point;
    var i := |ints|;
    assert s == ints + ("." + frac);
    assert Point(s) == i by {
      PointBehind(ints, "." + frac);
      PointFirst("." + frac);
    }
    assert s[..i] + s[i + 1..] == ints + frac;
    AllDigits(ints, frac);
  }

  lemma PointFirst(t: string)
    requires t != "" && t[0] == '.'
    ensures Point(t) == 0
  {
  }

  lemma AllDigits(a: string, b: string)
    requires a != "" && (forall x <- a :: IsDigit(x)) && forall x <- b :: IsDigit(x)
    ensures Digits(a + b) == Some(DecimalValue(a + b))
  {
    assert forall x <- a + b :: x in a || x in b;
  }

  lemma CutOff(ints: string, frac: string)
    requires forall x <- frac :: IsDigit(x)
    ensures Truncated(Number(false, DecimalValue(ints + frac), |frac|), 1) == DecimalValue(ints)
  {
    ValueConcat(ints, frac);
    ValueBounds(frac);
    Division.ModOf(DecimalValue(ints + frac), DecimalValue(ints), DecimalValue(frac), Pow10(|frac|));
  }

  lemma NoSpace(s: string, t: string)
    ensures s + "" + t == s + t
  {
  }

  /** What is printed without a space reads back as the number, short of less than one unit. */
  lemma SizeRoundTrip(ty: IntType, n: int)
    requires Fits(ty, n) && Index(ty, n) <= 5
    ensures var v := IntStrToBinInt(IntStr(ty, n, "")); v.Some? && 0 <= n - v.value < Kilo(Index(ty, n))
  {
    var k := Index(ty, n);
    SignedUnit(InvExp(n, k), Symbol(k), k);
    NoSpace(Signed(InvExp(n, k)), [Symbol(k)]);
    InvExpBounds(n, k);
    Less(n, InvExp(n, k), Kilo(k));
  }

  lemma SignedUnit(v: int, c: char, k: nat)
    requires Unit(c) == Some(k)
    ensures IntStrToBinInt(Signed(v) + [c]) == Some(v * Kilo(k))
  {
    hide Signed, Decimalize, Kilo, IntStrToBinInt;
    SignedReads(v);
    ReadUnit(Signed(v), c, k, Some(Number(v < 0, if v < 0 then -v else v, 0)));
    WholeNumber(v < 0, if v < 0 then -v else v, Kilo(k));
  }

  lemma Less(n: int, v: int, unit: int)
    requires v * unit <= n < (v + 1) * unit
    ensures 0 <= n - v * unit < unit
  {
  }

  lemma BlankIsNoDigit(s: string)
    requires s != ""
    ensures Decimalize(s + " ") == None
  {
    var t := s + " ";
    BlankStays(t, false);
    if |t| > 1 {
      BlankStays(t[1..], t[0] == '-');
    }
  }

  lemma BlankStays(t: string, negative: bool)
    requires t != "" && t[|t| - 1] == ' '
    ensures Unsigned(t, negative) == None
  {
    var i := Point(t);
    assert t[|t| - 1] in t;
    if i < |t| {
      var all := t[..i] + t[i + 1..];
      assert all[|all| - 1] == ' ' && all[|all| - 1] in all;
    }
  }

  /** What is printed with the default space cannot be read. */
  lemma SpaceIsNotRead(ty: IntType, n: int)
    requires Fits(ty, n) && Index(ty, n) <= 5
    ensures IntStrToBinInt(IntStr(ty, n, " ")) == None
  {
    var k := Index(ty, n);
    var digits := Signed(InvExp(n, k));
    SignedReads(InvExp(n, k));
    BlankIsNoDigit(digits);
    ReadUnit(digits + " ", Symbol(k), k, None);
  }

  // Numbers with commas.

  /** What the loop appends for the digits of n from the i-th on, lowest first. */
  function Inverted(n: nat, i: nat, interval: int): string
    decreases n
  {
    if n == 0 then "" else
      (if interval > 0 && i > 0 && i % interval == 0 then "," else "") + [Digit(n % 10)] + Inverted(n / 10, i + 1, interval)
  }

  function Reversed(s: string): (r: string)
    ensures |r| == |s|
  {
    if s == "" then "" else Reversed(s[1..]) + [s[0]]
  }

  function Sign(ty: IntType, n: int): char
    requires ty.bits > 0
  {
    if TopBit(ty, n) == 0 then ' ' else '-'
  }

  /** What is printed behind the sign. */
  function Body(ty: IntType, n: int, interval: int): string
    requires ty.bits > 0
  {
    var m := Magnitude(ty, n);
    if m <= 0 then "0" else Reversed(Inverted(m, 0, interval))
  }

  function Text(ty: IntType, n: int, interval: int): string
    requires ty.bits > 0
  {
    [Sign(ty, n)] + Body(ty, n, interval)
  }

  method IntToa(ty: IntType, n: int, interval: int) returns (s: string)
    requires Has(ty, n)
    ensures s == Text(ty, n, interval)
  {
    var sign, m := n / Half(ty), n;
    if sign == Wrap(ty, -1) {
      m := Wrap(ty, (-1 - m) + 1);
    }
    var inv := "";
    if m > 0 {
      inv := InvertDigits(m, interval);
    } else {
      inv := "0";
      assert Reversed("0") == "0" by {
        assert "0"[1..] == "";
      }
    }
    var c := if sign == 0 then ' ' else '-';
    ReversedSnoc(inv, c);
    s := Reversed(inv + [c]);
  }

  /** The loop. */
  method InvertDigits(n: nat, interval: int) returns (inv: string)
    requires n > 0
    ensures inv == Inverted(n, 0, interval)
  {
    var i, rest := 0, n;
    inv := "";
    while rest > 0
      invariant inv + Inverted(rest, i, interval) == Inverted(n, 0, interval)
    {
      AddDigit(inv, rest, i, interval);
      if interval > 0 && i > 0 && i % interval == 0 {
        inv := inv + ",";
      }
      inv := inv + [Digit(rest % 10)];
      rest := rest / 10;
      i := i + 1;
    }
    assert inv + "" == inv;
  }

  lemma AddDigit(inv: string, n: nat, i: nat, interval: int)
    requires n > 0
    ensures var comma := interval > 0 && i > 0 && i % interval == 0;
            (if comma then inv + "," else inv) + [Digit(n % 10)] + Inverted(n / 10, i + 1, interval) ==
            inv + Inverted(n, i, interval)
  {
  }

  lemma ReversedSnoc(s: string, c: char)
    ensures Reversed(s + [c]) == [c] + Reversed(s)
  {
    var t := s + [c];
    if s == "" {
      assert t[1..] == "";
    } else {
      assert t[1..] == s[1..] + [c];
      ReversedSnoc(s[1..], c);
    }
  }

  lemma ReversedAt(s: string, k: nat)
    requires k < |s|
    ensures Reversed(s)[|s| - 1 - k] == s[k]
  {
    var rest := s[1..];
    if k > 0 {
      ReversedAt(rest, k - 1);
      assert rest[k - 1] == s[k];
    }
  }

  function NoCommas(s: string): string {
    if s == "" then "" else (if s[0] == ',' then "" else [s[0]]) + NoCommas(s[1..])
  }

  lemma NoCommasConcat(s: string, t: string)
    ensures NoCommas(s + t) == NoCommas(s) + NoCommas(t)
  {
    if s == "" {
      assert s + t == t;
    } else {
      assert (s + t)[1..] == s[1..] + t;
      NoCommasConcat(s[1..], t);
    }
  }

  lemma InvertedReads(n: nat, i: nat, interval: int)
    requires n > 0
    ensures NoCommas(Reversed(Inverted(n, i, interval))) == Decimal(n)
    decreases n
  {
    var more := Inverted(n / 10, i + 1, interval);
    var comma := interval > 0 && i > 0 && i % interval == 0;
    var d := [Digit(n % 10)];
    InvertedSplit(d[0], comma, more);
    NoCommasConcat(Reversed(more), d + if comma then "," else "");
    assert NoCommas(d + if comma then "," else "") == d by {
      NoCommasConcat(d, if comma then "," else "");
      assert d[1..] == "" && ","[1..] == "";
    }
    if n < 10 {
      assert more == "" && NoCommas("") + d == d;
    } else {
      InvertedReads(n / 10, i + 1, interval);
    }
  }

  lemma InvertedSplit(d: char, comma: bool, more: string)
    ensures Reversed((if comma then "," else "") + [d] + more) == Reversed(more) + ([d] + if comma then "," else "")
  {
    var s := (if comma then "," else "") + [d] + more;
    if comma {
      assert s[1..] == [d] + more && s[1..][1..] == more;
    } else {
      assert s[1..] == more;
    }
  }

  lemma BodyReads(ty: IntType, n: int, interval: int)
    requires Has(ty, n)
    ensures NoCommas(Body(ty, n, interval)) == Decimal(if n == -Half(ty) then 0 else if n < 0 then -n else n)
    ensures n == -Half(ty) ==> Body(ty, n, interval) == "0"
  {
    MagnitudeIs(ty, n);
    var m := Magnitude(ty, n);
    if m > 0 {
      InvertedReads(m, 0, interval);
    } else {
      assert NoCommas("0") == "0" by {
        assert "0"[1..] == "";
      }
      assert Decimal(0) == "0";
    }
  }

  /** What a reader expects: a blank or a minus sign, and the digits. */
  function Expected(n: int): string {
    [if n < 0 then '-' else ' '] + Decimal(if n < 0 then -n else n)
  }

  lemma TextReads(ty: IntType, n: int, interval: int)
    requires Has(ty, n)
    ensures NoCommas(Text(ty, n, interval)) == [Sign(ty, n)] + NoCommas(Body(ty, n, interval))
    ensures Sign(ty, n) == if n < 0 || n >= Half(ty) then '-' else ' '
  {
    TopBitIs(ty, n);
    SignStays(Sign(ty, n), Body(ty, n, interval));
  }

  lemma SignStays(c: char, s: string)
    requires c != ','
    ensures NoCommas([c] + s) == [c] + NoCommas(s)
  {
    assert ([c] + s)[1..] == s;
  }

  /** Different signs or different magnitudes make different texts. */
  lemma TextsDiffer(c: char, m: nat, d: char, n: nat)
    ensures [c] + Decimal(m) == [d] + Decimal(n) <==> c == d && m == n
  {
    DecimalReads(m);
    DecimalReads(n);
    if [c] + Decimal(m) == [d] + Decimal(n) {
      assert ([c] + Decimal(m))[0] == c && ([c] + Decimal(m))[1..] == Decimal(m);
      assert ([d] + Decimal(n))[0] == d && ([d] + Decimal(n))[1..] == Decimal(n);
    }
  }

  /** Without its commas the printed text is sign and magnitude if and only if the number is not the least of a
      signed type and does not have the highest bit of an unsigned one. */
  lemma Reads(ty: IntType, n: int, interval: int)
    requires Has(ty, n)
    ensures NoCommas(Text(ty, n, interval)) == Expected(n) <==> if ty.signed then n != -Half(ty) else n < Half(ty)
  {
    TextReads(ty, n, interval);
    BodyReads(ty, n, interval);
    var m := if n < 0 then -n else n;
    TextsDiffer(Sign(ty, n), if n == -Half(ty) then 0 else m, if n < 0 then '-' else ' ', m);
  }

  /** The least number of a signed type prints as -0, and an unsigned number with the highest bit as if it were
      negative. */
  lemma Misprints(ty: IntType, n: int, interval: int)
    requires Has(ty, n)
    ensures n == -Half(ty) ==> Text(ty, n, interval) == "-0"
    ensures n >= Half(ty) ==> NoCommas(Text(ty, n, interval)) == "-" + Decimal(n)
  {
    TextReads(ty, n, interval);
    BodyReads(ty, n, interval);
  }

  lemma DecimalSnoc(n: nat, front: string)
    requires n >= 10 && Decimal(n / 10) == front
    ensures Decimal(n) == front + [Digit(n % 10)]
  {
  }

  lemma DecimalOfHalf()
    ensures Decimal(2147483648) == "2147483648"
  {
    DecimalSnoc(21, "2");
    DecimalSnoc(214, "21");
    DecimalSnoc(2147, "214");
    DecimalSnoc(21474, "2147");
    DecimalSnoc(214748, "21474");
    DecimalSnoc(2147483, "214748");
    DecimalSnoc(21474836, "2147483");
    DecimalSnoc(214748364, "21474836");
    DecimalSnoc(2147483648, "214748364");
  }

  lemma HalfOf32(ty: IntType)
    requires ty == IntType(32, false)
    ensures Half(ty) == 2147483648
  {
    Division.ThirtyTwoBits();
    assert Division.Bits(32) == 2 * Half(ty);
  }

  /** A count of 2147483648 in 32 bits without a sign, as rows are counted, prints as a negative number. */
  lemma RowCountPrintsNegative(ty: IntType, n: int, interval: int)
    requires ty == IntType(32, false) && n == 2147483648
    ensures Has(ty, n) && NoCommas(Text(ty, n, interval)) == "-" + "2147483648"
  {
    HalfOf32(ty);
    DecimalOfHalf();
    Misprints(ty, n, interval);
  }

  // Where the commas stand.

  /** Place p is where the i-th digit, or the comma before it, stands. */
  predicate At(p: nat, i: nat, interval: nat)
    requires interval > 0
  {
    p % (interval + 1) == if i > 0 && i % interval == 0 then interval else i % interval
  }

  lemma AtNext(p: nat, i: nat, interval: nat)
    requires interval > 0 && At(p, i, interval)
    ensures var comma := i > 0 && i % interval == 0; var q := if comma then p + 1 else p;
            && (comma ==> p % (interval + 1) == interval)
            && q % (interval + 1) != interval
            && At(q + 1, i + 1, interval)
  {
    Division.ModNext(p, interval + 1);
    Division.ModNext(p + 1, interval + 1);
    Division.ModNext(i, interval);
  }

  /** From place p on the commas stand at the places that are one short of a multiple of m. */
  predicate CommasAt(s: string, p: nat, m: nat)
    requires m > 0
  {
    forall k :: 0 <= k < |s| ==> (s[k] == ',' <==> (p + k) % m == m - 1)
  }

  lemma CommasJoin(a: string, b: string, p: nat, m: nat)
    requires m > 0 && CommasAt(a, p, m) && CommasAt(b, p + |a|, m)
    ensures CommasAt(a + b, p, m)
  {
    forall k | 0 <= k < |a + b| ensures (a + b)[k] == ',' <==> (p + k) % m == m - 1 {
      if k >= |a| {
        assert (a + b)[k] == b[k - |a|] && p + k == p + |a| + (k - |a|);
      }
    }
  }

  /** The comma, if one is due, and the i-th digit. */
  function Group(n: nat, i: nat, interval: nat): string
    requires interval > 0
  {
    if i > 0 && i % interval == 0 then [',', Digit(n % 10)] else [Digit(n % 10)]
  }

  lemma GroupCommas(n: nat, i: nat, interval: nat, p: nat)
    requires interval > 0 && At(p, i, interval)
    ensures CommasAt(Group(n, i, interval), p, interval + 1) && At(p + |Group(n, i, interval)|, i + 1, interval)
  {
    AtNext(p, i, interval);
  }

  lemma {:induction false} InvertedCommas(n: nat, i: nat, interval: nat, p: nat)
    requires interval > 0 && At(p, i, interval)
    ensures CommasAt(Inverted(n, i, interval), p, interval + 1)
    ensures n > 0 ==> Inverted(n, i, interval) != "" && Inverted(n, i, interval)[|Inverted(n, i, interval)| - 1] != ','
    decreases n
  {
    if n > 0 {
      var head, more := Group(n, i, interval), Inverted(n / 10, i + 1, interval);
      GroupCommas(n, i, interval, p);
      InvertedCommas(n / 10, i + 1, interval, p + |head|);
      CommasJoin(head, more, p, interval + 1);
      assert Inverted(n, i, interval) == head + more;
    }
  }

  /** Counted from the right every group but the first has exactly `interval` digits. */
  lemma FullGroups(ty: IntType, n: int, interval: nat, d: nat)
    requires Has(ty, n) && interval > 0 && d < |Body(ty, n, interval)|
    ensures var b := Body(ty, n, interval);
            (b[|b| - 1 - d] == ',' <==> d % (interval + 1) == interval) && b[0] != ','
  {
    var m := Magnitude(ty, n);
    if m > 0 {
      FullGroupsOf(m, interval, d);
    }
  }

  lemma FullGroupsOf(m: nat, interval: nat, d: nat)
    requires m > 0 && interval > 0 && d < |Inverted(m, 0, interval)|
    ensures var b := Reversed(Inverted(m, 0, interval));
            (b[|b| - 1 - d] == ',' <==> d % (interval + 1) == interval) && b[0] != ','
  {
    var inv := Inverted(m, 0, interval);
    InvertedCommas(m, 0, interval, 0);
    ReversedAt(inv, d);
    ReversedAt(inv, |inv| - 1);
  }
}
