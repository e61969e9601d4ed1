/** Delimiters as they are configured, as they stand in a data file and as they are written in a
    control file (lib/cDelimiter.cpp). */
module Delimiters {
  import opened Wrappers
  import Base16

  datatype Notation = Escaped | Hexadecimal

  datatype Form = Data | Ctrl

  function Width(n: Notation): nat {
    match n case Escaped => 2 case Hexadecimal => 4
  }

  function ToUpper(c: char): char {
    if 'a' <= c <= 'z' then (c as int - 'a' as int + 'A' as int) as char else c
  }

  /** A token of the notation stands at the front of t. */
  predicate TokenAt(n: Notation, t: string) {
    match n
    case Escaped => |t| >= 2 && t[0] == '\\' && (t[1] == 'n' || t[1] == 'r' || t[1] == 't' || t[1] == '0')
    case Hexadecimal => |t| >= 4 && t[0] == '0' && t[1] == 'x' && Base16.DigitValue(t[2]) >= 0 && Base16.DigitValue(t[3]) >= 0
  }

  predicate HasToken(n: Notation, t: string) {
    exists i :: 0 <= i <= |t| && TokenAt(n, t[i..])
  }

  /** What the token at the front of t is replaced by. */
  function Replacement(n: Notation, form: Form, t: string): string
    requires TokenAt(n, t)
  {
    match (n, form)
    case (Escaped, Data) => if t[1] == 'n' then "\n" else if t[1] == 'r' then "\r" else if t[1] == 't' then "\t" else ""
    case (Escaped, Ctrl) => if t[1] == 'n' then "0A" else if t[1] == 'r' then "0D" else if t[1] == 't' then "09" else ""
    case (Hexadecimal, Data) => [(16 * Base16.DigitValue(t[2]) + Base16.DigitValue(t[3])) as char]
    case (Hexadecimal, Ctrl) => [ToUpper(t[2]), ToUpper(t[3])]
  }

  /** All tokens replaced, from left to right, and everything else kept. */
  function Scan(n: Notation, form: Form, t: string): string
    decreases |t|
  {
    if t == "" then ""
    else if TokenAt(n, t) then Replacement(n, form, t) + Scan(n, form, t[Width(n)..])
    else [t[0]] + Scan(n, form, t[1..])
  }

  /** The first position from `at` on where a token stands, or the end. */
  method Search(n: Notation, src: string, at: nat) returns (i: nat)
    requires at <= |src|
    ensures at <= i <= |src| && (i < |src| ==> TokenAt(n, src[i..]))
    ensures forall j :: at <= j < i ==> !TokenAt(n, src[j..])
  {
    i := at;
    while i < |src| && !TokenAt(n, src[i..])
      invariant at <= i <= |src|
      invariant forall j :: at <= j < i ==> !TokenAt(n, src[j..])
    {
      i := i + 1;
    }
  }

  lemma ScanPlain(n: Notation, form: Form, src: string, at: nat, i: nat)
    requires at <= i <= |src| && forall j :: at <= j < i ==> !TokenAt(n, src[j..])
    ensures Scan(n, form, src[at..]) == src[at..i] + Scan(n, form, src[i..])
    decreases i - at
  {
    if at < i {
      ScanPlain(n, form, src, at + 1, i);
      assert src[at..][1..] == src[at + 1..];
      assert src[at..i] == [src[at]] + src[at + 1..i];
    } else {
      assert src[at..i] + Scan(n, form, src[i..]) == Scan(n, form, src[i..]);
    }
  }

  /** sCliteralScanner: text between tokens is copied, each token replaced. */
  method ScanLiteral(n: Notation, form: Form, src: string) returns (dst: string)
    ensures dst == Scan(n, form, src)
  {
    dst := "";
    var it := 0;
    assert src[0..] == src;
    while it != |src|
      invariant 0 <= it <= |src| && dst + Scan(n, form, src[it..]) == Scan(n, form, src)
      decreases |src| - it
    {
      var i := Search(n, src, it);
      ScanPlain(n, form, src, it, i);
      if i == |src| {
        break;
      }
      ScanToken(n, form, src, it, i, dst);
      dst := dst + src[it..i] + Replacement(n, form, src[i..]);
      it := i + Width(n);
    }
    if it != |src| {
      dst := dst + src[it..];
      assert src[it..] + Scan(n, form, src[|src|..]) == src[it..];
    } else {
      assert dst + Scan(n, form, src[it..]) == dst;
    }
  }

  lemma ScanToken(n: Notation, form: Form, src: string, it: nat, i: nat, dst: string)
    requires it <= i < |src| && TokenAt(n, src[i..])
    ensures dst + (src[it..i] + Scan(n, form, src[i..]))
         == (dst + src[it..i] + Replacement(n, form, src[i..])) + Scan(n, form, src[i + Width(n)..])
  {
    assert src[i..][Width(n)..] == src[i + Width(n)..];
  }

  /** sConvLiteral */
  function Conv(form: Form, src: string): string {
    if HasToken(Escaped, src) then Wrap(form, Scan(Escaped, form, src))
    else if HasToken(Hexadecimal, src) then Wrap(form, Scan(Hexadecimal, form, src))
    else if form == Data then src else "'" + src + "'"
  }

  function Wrap(form: Form, t: string): string {
    if form == Data then t else "X'" + t + "'"
  }

  method ConvLiteral(form: Form, src: string) returns (r: string)
    ensures r == Conv(form, src)
  {
    if HasToken(Escaped, src) {
      var t := ScanLiteral(Escaped, form, src);
      r := if form == Data then t else "X'" + t + "'";
    } else if HasToken(Hexadecimal, src) {
      var t := ScanLiteral(Hexadecimal, form, src);
      r := if form == Data then t else "X'" + t + "'";
    } else {
      r := if form == Data then src else "'" + src + "'";
    }
  }

  // What a control-file literal denotes.

  /** Bytes from pairs of hexadecimal digits. */
  function Pairs(h: string): Option<string>
    decreases |h|
  {
    if h == "" then Some("")
    else if |h| == 1 || Base16.DigitValue(h[0]) < 0 || Base16.DigitValue(h[1]) < 0 then None
    else match Pairs(h[2..])
      case None => None
      case Some(rest) => Some([(16 * Base16.DigitValue(h[0]) + Base16.DigitValue(h[1])) as char] + rest)
  }

  /** What a literal stands for.  Nothing tells a quotation mark inside it from its end, so it has none. */
  function Denoted(literal: string): Option<string> {
    if |literal| >= 3 && literal[..2] == "X'" && literal[|literal| - 1] == '\'' then Pairs(literal[2..|literal| - 1])
    else if |literal| >= 2 && literal[0] == '\'' && literal[|literal| - 1] == '\'' && '\'' !in literal[1..|literal| - 1] then
      Some(literal[1..|literal| - 1])
    else None
  }

  /** t is a sequence of tokens and nothing else. */
  predicate OnlyTokens(n: Notation, t: string)
    decreases |t|
  {
    t == "" || (TokenAt(n, t) && OnlyTokens(n, t[Width(n)..]))
  }

  lemma PairsCons(a: string, b: string)
    requires |a| == 2 && Base16.DigitValue(a[0]) >= 0 && Base16.DigitValue(a[1]) >= 0 && Pairs(b).Some?
    ensures Pairs(a + b) == Some([(16 * Base16.DigitValue(a[0]) + Base16.DigitValue(a[1])) as char] + Pairs(b).value)
  {
    assert (a + b)[2..] == b;
  }

  lemma ReplacementDigits(n: Notation, t: string)
    requires TokenAt(n, t)
    ensures var h, d := Replacement(n, Ctrl, t), Replacement(n, Data, t);
            if h == "" then d == "" else
              |h| == 2 && Base16.DigitValue(h[0]) >= 0 && Base16.DigitValue(h[1]) >= 0 &&
              d == [(16 * Base16.DigitValue(h[0]) + Base16.DigitValue(h[1])) as char]
  {
  }

  lemma ReplacementPairs(n: Notation, t: string, b: string)
    requires TokenAt(n, t) && Pairs(b).Some?
    ensures Pairs(Replacement(n, Ctrl, t) + b) == Some(Replacement(n, Data, t) + Pairs(b).value)
  {
    ReplacementDigits(n, t);
    JoinPairs(Replacement(n, Ctrl, t), Replacement(n, Data, t), b);
  }

  lemma JoinPairs(h: string, d: string, b: string)
    requires Pairs(b).Some?
    requires if h == "" then d == "" else
               |h| == 2 && Base16.DigitValue(h[0]) >= 0 && Base16.DigitValue(h[1]) >= 0 &&
               d == [(16 * Base16.DigitValue(h[0]) + Base16.DigitValue(h[1])) as char]
    ensures Pairs(h + b) == Some(d + Pairs(b).value)
  {
    if h == "" {
      assert h + b == b && d + Pairs(b).value == Pairs(b).value;
    } else {
      PairsCons(h, b);
    }
  }

  lemma PairsSize(h: string)
    requires Pairs(h).Some?
    ensures |h| == 2 * |Pairs(h).value|
    decreases |h|
  {
    if h != "" {
      PairsSize(h[2..]);
    }
  }

  /** The hexadecimal form is never longer than two digits for each byte, and shorter if the text has
      a character outside its tokens. */
  lemma {:induction false} ScanSizes(n: Notation, t: string)
    ensures |Scan(n, Ctrl, t)| <= 2 * |Scan(n, Data, t)|
    ensures |Scan(n, Ctrl, t)| == 2 * |Scan(n, Data, t)| ==> OnlyTokens(n, t)
    decreases |t|
  {
    if t != "" {
      if TokenAt(n, t) {
        ScanSizes(n, t[Width(n)..]);
      } else {
        ScanSizes(n, t[1..]);
      }
    }
  }

  lemma OnlyTokensPairs(n: Notation, t: string)
    requires OnlyTokens(n, t)
    ensures Pairs(Scan(n, Ctrl, t)) == Some(Scan(n, Data, t))
    decreases |t|
  {
    if t != "" {
      OnlyTokensPairs(n, t[Width(n)..]);
      ReplacementPairs(n, t, Scan(n, Ctrl, t[Width(n)..]));
    }
  }

  lemma PairsIff(n: Notation, t: string)
    ensures Pairs(Scan(n, Ctrl, t)) == Some(Scan(n, Data, t)) <==> OnlyTokens(n, t)
  {
    if OnlyTokens(n, t) {
      OnlyTokensPairs(n, t);
    } else {
      ScanSizes(n, t);
      if Pairs(Scan(n, Ctrl, t)).Some? {
        PairsSize(Scan(n, Ctrl, t));
      }
    }
  }

  /** The control file denotes the delimiter that the data file holds if and only if the configured
      text is tokens of one notation throughout, or has no token and no quotation mark. */
  lemma ControlDenotesData(src: string)
    ensures Denoted(Conv(Ctrl, src)) == Some(Conv(Data, src)) <==>
            if HasToken(Escaped, src) then OnlyTokens(Escaped, src)
            else if HasToken(Hexadecimal, src) then OnlyTokens(Hexadecimal, src)
            else '\'' !in src
  {
    var n := if HasToken(Escaped, src) then Escaped else Hexadecimal;
    if HasToken(n, src) {
      var h, literal := Scan(n, Ctrl, src), Conv(Ctrl, src);
      assert literal == "X'" + h + "'" && literal[2..|literal| - 1] == h;
      PairsIff(n, src);
    } else {
      var literal := Conv(Ctrl, src);
      assert literal[1..|literal| - 1] == src;
    }
  }

  /** A quotation mark as a delimiter gives a literal that nobody can read. */
  lemma QuotationMarkIsLost(src: string)
    requires src == "'"
    ensures Conv(Data, src) == "'" && Conv(Ctrl, src) == "'" + src + "'" && Denoted(Conv(Ctrl, src)) == None
  {
    NoTokenIn(Escaped, src);
    NoTokenIn(Hexadecimal, src);
    var literal := "'" + src + "'";
    assert literal[1..|literal| - 1] == src;
  }

  lemma NoTokenIn(n: Notation, src: string)
    requires |src| < 2
    ensures !HasToken(n, src)
  {
  }

  // What tokens stand for.

  /** A token is one of four escapes. */
  lemma EscapeIff(t: string)
    ensures TokenAt(Escaped, t) <==> exists c <- ['n', 'r', 't', '0'] :: ['\\', c] <= t
  {
    if TokenAt(Escaped, t) {
      assert ['\\', t[1]] <= t && t[1] in ['n', 'r', 't', '0'];
    }
  }

  /** Or 0x and two hexadecimal digits. */
  lemma HexIff(t: string)
    ensures TokenAt(Hexadecimal, t) <==> |t| >= 4 && t[..2] == "0x" && IsHexDigit(t[2]) && IsHexDigit(t[3])
  {
    if |t| >= 4 {
      assert t[..2] == "0x" <==> t[0] == '0' && t[1] == 'x';
    }
  }

  predicate IsHexDigit(c: char) {
    c in "0123456789abcdefABCDEF"
  }

  lemma DigitValueMeans(c: char, d: int)
    requires 0 <= d < 16
    ensures Base16.DigitValue(c) == d <==> c == "0123456789abcdef"[d] || c == "0123456789ABCDEF"[d]
  {
  }

  /** In a data file an escape stands for a line feed, a carriage return, a tab or nothing, and a hexadecimal token for
      the byte with its value. */
  lemma TokenMeans(t: string)
    ensures "\\n" <= t ==> TokenAt(Escaped, t) && Replacement(Escaped, Data, t) == [10 as char]
    ensures "\\r" <= t ==> TokenAt(Escaped, t) && Replacement(Escaped, Data, t) == [13 as char]
    ensures "\\t" <= t ==> TokenAt(Escaped, t) && Replacement(Escaped, Data, t) == [9 as char]
    ensures "\\0" <= t ==> TokenAt(Escaped, t) && Replacement(Escaped, Data, t) == ""
    ensures TokenAt(Hexadecimal, t) ==>
              |Replacement(Hexadecimal, Data, t)| == 1 &&
              Replacement(Hexadecimal, Data, t)[0] as int == 16 * Base16.DigitValue(t[2]) + Base16.DigitValue(t[3])
  {
  }

  /** The hexadecimal form is written in capitals. */
  lemma CapitalsOnly(n: Notation, t: string)
    requires TokenAt(n, t)
    ensures forall c <- Replacement(n, Ctrl, t) :: c in "0123456789ABCDEF"
  {
  }

  lemma LineFeed()
    ensures Conv(Data, "\\n") == "\n" && Conv(Ctrl, "\\n") == "X'0A'"
  {
    var t := "\\n";
    assert TokenAt(Escaped, t[0..]) && t[2..] == "";
  }

  lemma NulStandsForNothing()
    ensures Conv(Data, "\\0") == "" && Conv(Ctrl, "\\0") == "X''"
  {
    var t := "\\0";
    assert TokenAt(Escaped, t[0..]) && t[2..] == "";
  }

  lemma OneCharacter(t: string)
    requires |t| < 2
    ensures Conv(Data, t) == t && Conv(Ctrl, t) == "'" + t + "'"
  {
    NoTokenIn(Escaped, t);
    NoTokenIn(Hexadecimal, t);
  }
}
