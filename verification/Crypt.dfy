/** How mkcrd turns a credential into text and back (app/mkcrd/cCryptOpenSSL.cpp): a frame of count,
    padding and two-byte characters, 8-bit cipher feedback over 16-byte pieces (section 6.3 of
    NIST SP 800-38A) and a dump in hexadecimal.  The block cipher is any function. */
module Crypt {
  import opened Wrappers
  import Base16
  import opened Division
  import Sequences

  type Byte = x: int | 0 <= x < 0x100

  const BLOCK := 16
  const WIDTH_NUM_CHARS := 4
  const BYTES_PER_CHAR := 2
  const TWO32 := 0x1_0000_0000

  /** The first byte of the enciphered register. */
  type KeyStream = seq<Byte> -> Byte

  // Cipher feedback.

  /** Exclusive or of the k low bits. */
  function XorBits(k: nat, a: nat, b: nat): (r: nat)
    ensures r < Bits(k)
  {
    if k == 0 then 0 else (a + b) % 2 + 2 * XorBits(k - 1, a / 2, b / 2)
  }

  lemma {:induction false} XorBitsTwice(k: nat, a: nat, b: nat)
    requires a < Bits(k)
    ensures XorBits(k, XorBits(k, a, b), b) == a
  {
    if k > 0 {
      var high := XorBits(k - 1, a / 2, b / 2);
      LowBit(a, b, high);
      XorBitsTwice(k - 1, a / 2, b / 2);
    }
  }

  lemma LowBit(a: nat, b: nat, high: nat)
    ensures ((a + b) % 2 + 2 * high) / 2 == high
    ensures ((a + b) % 2 + 2 * high + b) % 2 == a % 2
  {
  }

  function Xor(a: Byte, b: Byte): Byte {
    EightBits();
    XorBits(8, a, b)
  }

  /** Bit i of the result is the sum without carry of the bits i. */
  lemma {:induction false} XorBitsAt(k: nat, a: nat, b: nat, i: nat)
    requires i < k
    ensures XorBits(k, a, b) / Bits(i) % 2 == (a / Bits(i) + b / Bits(i)) % 2
  {
    LowBit(a, b, XorBits(k - 1, a / 2, b / 2));
    if i > 0 {
      XorBitsAt(k - 1, a / 2, b / 2, i - 1);
      HalfThenQuotient(XorBits(k, a, b), Bits(i - 1));
      HalfThenQuotient(a, Bits(i - 1));
      HalfThenQuotient(b, Bits(i - 1));
    }
  }

  lemma HalfThenQuotient(x: nat, m: nat)
    requires m > 0
    ensures x / (2 * m) == x / 2 / m
  {
    var q := x / 2 / m;
    assert q * m <= x / 2 < q * m + m;
    assert q * (2 * m) == 2 * (q * m);
    ModOf(x, q, x - 2 * (q * m), 2 * m);
  }

  /** Each of the eight bits is one if and only if one of the two is. */
  lemma XorMeans(a: Byte, b: Byte, i: nat)
    requires i < 8
    ensures Xor(a, b) / Bits(i) % 2 == 1 <==> a / Bits(i) % 2 != b / Bits(i) % 2
  {
    hide XorBits, Bits;
    XorBitsAt(8, a, b, i);
    OddSum(a / Bits(i), b / Bits(i));
  }

  lemma OddSum(x: nat, y: nat)
    ensures (x + y) % 2 == 1 <==> x % 2 != y % 2
  {
  }

  lemma XorTwice(a: Byte, b: Byte)
    ensures Xor(Xor(a, b), b) == a
  {
    EightBits();
    XorBitsTwice(8, a, b);
  }

  function Shifted(reg: seq<Byte>, c: Byte): seq<Byte>
    requires reg != []
  {
    reg[1..] + [c]
  }

  function Encipher(e: KeyStream, reg: seq<Byte>, ps: seq<Byte>): (cs: seq<Byte>)
    requires reg != []
    ensures |cs| == |ps|
    decreases |ps|
  {
    if ps == [] then [] else
      var c := Xor(ps[0], e(reg));
      [c] + Encipher(e, Shifted(reg, c), ps[1..])
  }

  function Decipher(e: KeyStream, reg: seq<Byte>, cs: seq<Byte>): (ps: seq<Byte>)
    requires reg != []
    ensures |ps| == |cs|
    decreases |cs|
  {
    if cs == [] then [] else [Xor(cs[0], e(reg))] + Decipher(e, Shifted(reg, cs[0]), cs[1..])
  }

  /** The register behind the ciphertext cs: the last bytes seen. */
  function Register(reg: seq<Byte>, cs: seq<Byte>): (r: seq<Byte>)
    ensures |r| == |reg|
  {
    (reg + cs)[|cs|..]
  }

  lemma {:induction false} DecipherInverts(e: KeyStream, reg: seq<Byte>, ps: seq<Byte>)
    requires reg != []
    ensures Decipher(e, reg, Encipher(e, reg, ps)) == ps
    decreases |ps|
  {
    if ps != [] {
      var c := Xor(ps[0], e(reg));
      XorTwice(ps[0], e(reg));
      DecipherInverts(e, Shifted(reg, c), ps[1..]);
      assert Encipher(e, reg, ps)[1..] == Encipher(e, Shifted(reg, c), ps[1..]);
    }
  }

  lemma RegisterStep(reg: seq<Byte>, c: Byte, cs: seq<Byte>)
    requires reg != []
    ensures Register(Shifted(reg, c), cs) == Register(reg, [c] + cs)
  {
    assert (Shifted(reg, c) + cs) == (reg + ([c] + cs))[1..];
  }

  lemma Window(reg: seq<Byte>, cs: seq<Byte>, i: nat)
    requires reg != [] && 0 < i < |cs|
    ensures (Shifted(reg, cs[0]) + cs[1..])[i - 1..i - 1 + |reg|] == (reg + cs)[i..i + |reg|]
  {
    assert Shifted(reg, cs[0]) + cs[1..] == (reg + cs)[1..];
  }

  /** Byte i of the ciphertext is byte i of the plaintext under the key stream of the |reg| bytes in front of it, in the
      register and the ciphertext behind it. */
  lemma {:induction false} EncipherAt(e: KeyStream, reg: seq<Byte>, ps: seq<Byte>, i: nat)
    requires reg != [] && i < |ps|
    ensures var cs := Encipher(e, reg, ps); cs[i] == Xor(ps[i], e((reg + cs)[i..i + |reg|]))
    decreases i
  {
    var cs := Encipher(e, reg, ps);
    if i == 0 {
      assert (reg + cs)[..|reg|] == reg;
    } else {
      var rest := cs[1..];
      EncipherAt(e, Shifted(reg, cs[0]), ps[1..], i - 1);
      assert rest == Encipher(e, Shifted(reg, cs[0]), ps[1..]);
      Window(reg, cs, i);
    }
  }

  lemma {:induction false} DecipherAt(e: KeyStream, reg: seq<Byte>, cs: seq<Byte>, i: nat)
    requires reg != [] && i < |cs|
    ensures Decipher(e, reg, cs)[i] == Xor(cs[i], e((reg + cs)[i..i + |reg|]))
    decreases i
  {
    if i == 0 {
      assert (reg + cs)[..|reg|] == reg;
    } else {
      var rest := cs[1..];
      DecipherAt(e, Shifted(reg, cs[0]), rest, i - 1);
      Window(reg, cs, i);
    }
  }

  /** Enciphering in pieces, with the register carried over, is enciphering the whole. */
  lemma {:induction false} EncipherPieces(e: KeyStream, reg: seq<Byte>, a: seq<Byte>, b: seq<Byte>)
    requires reg != []
    ensures Encipher(e, reg, a + b) == Encipher(e, reg, a) + Encipher(e, Register(reg, Encipher(e, reg, a)), b)
    decreases |a|
  {
    if a == [] {
      assert a + b == b && Register(reg, []) == reg;
    } else {
      var c := Xor(a[0], e(reg));
      var rest := Encipher(e, Shifted(reg, c), a[1..]);
      assert (a + b)[1..] == a[1..] + b;
      EncipherPieces(e, Shifted(reg, c), a[1..], b);
      RegisterStep(reg, c, rest);
    }
  }

  lemma {:induction false} DecipherPieces(e: KeyStream, reg: seq<Byte>, a: seq<Byte>, b: seq<Byte>)
    requires reg != []
    ensures Decipher(e, reg, a + b) == Decipher(e, reg, a) + Decipher(e, Register(reg, a), b)
    decreases |a|
  {
    if a == [] {
      assert a + b == b && Register(reg, []) == reg;
    } else {
      assert (a + b)[1..] == a[1..] + b;
      DecipherPieces(e, Shifted(reg, a[0]), a[1..], b);
      RegisterStep(reg, a[0], a[1..]);
      assert [a[0]] + a[1..] == a;
    }
  }

  /** The cipher context: EVP_CipherUpdate moves the register on, EVP_CipherFinal_ex does nothing. */
  class Context {
    const e: KeyStream
    var reg: seq<Byte>

    constructor (e: KeyStream)
      ensures this.e == e && reg == IV()
    {
      this.e := e;
      reg := IV();
    }

    method Encrypt(ps: seq<Byte>) returns (cs: seq<Byte>)
      requires reg != []
      modifies `reg
      ensures cs == Encipher(e, old(reg), ps) && reg == Register(old(reg), cs)
    {
      cs := [];
      var i := 0;
      assert ps[..0] == [] && Register(reg, []) == reg;
      while i < |ps|
        invariant 0 <= i <= |ps| && reg != []
        invariant cs == Encipher(e, old(reg), ps[..i]) && reg == Register(old(reg), cs)
      {
        var c := Xor(ps[i], e(reg));
        assert ps[..i + 1] == ps[..i] + [ps[i]];
        EncipherPieces(e, old(reg), ps[..i], [ps[i]]);
        assert Encipher(e, reg, [ps[i]]) == [c];
        assert Shifted(reg, c) == Register(old(reg), cs + [c]);
        reg := Shifted(reg, c);
        cs := cs + [c];
        i := i + 1;
      }
      assert ps[..i] == ps;
    }

    method Decrypt(cs: seq<Byte>) returns (ps: seq<Byte>)
      requires reg != []
      modifies `reg
      ensures ps == Decipher(e, old(reg), cs) && reg == Register(old(reg), cs)
    {
      ps := [];
      var i := 0;
      assert cs[..0] == [] && Register(reg, []) == reg;
      while i < |cs|
        invariant 0 <= i <= |cs| && reg != []
        invariant ps == Decipher(e, old(reg), cs[..i]) && reg == Register(old(reg), cs[..i])
      {
        var p := Xor(cs[i], e(reg));
        assert cs[..i + 1] == cs[..i] + [cs[i]];
        DecipherPieces(e, old(reg), cs[..i], [cs[i]]);
        assert Decipher(e, reg, [cs[i]]) == [p];
        assert Shifted(reg, cs[i]) == Register(old(reg), cs[..i] + [cs[i]]);
        reg := Shifted(reg, cs[i]);
        ps := ps + [p];
        i := i + 1;
      }
      assert cs[..i] == cs;
    }
  }

  function IV(): seq<Byte> {
    seq(BLOCK, i => 0xff)
  }

  // The frame.

  /** A 32-bit count, low byte first. */
  function Count(n: int): seq<Byte>
    requires 0 <= n < TWO32
  {
    [n % 0x100, n / 0x100 % 0x100, n / 0x1_0000 % 0x100, n / 0x100_0000]
  }

  function ReadCount(bytes: seq<Byte>): int
    requires |bytes| >= WIDTH_NUM_CHARS
  {
    bytes[0] as int + 0x100 * bytes[1] as int + 0x1_0000 * bytes[2] as int + 0x100_0000 * bytes[3] as int
  }

  /** Each character followed by a zero byte. */
  function Wide(s: seq<Byte>): (w: seq<Byte>)
    ensures |w| == BYTES_PER_CHAR * |s|
  {
    seq(BYTES_PER_CHAR * |s|, i requires 0 <= i < BYTES_PER_CHAR * |s| => if i % BYTES_PER_CHAR == 0 then s[i / BYTES_PER_CHAR] else 0)
  }

  function Frame(s: seq<Byte>, padding: seq<Byte>): seq<Byte>
    requires |s| < TWO32
  {
    Count(|s|) + padding + Wide(s)
  }

  /** Bitwise and of the k low bits. */
  function AndBits(k: nat, a: nat, b: nat): nat {
    if k == 0 then 0 else (a % 2) * (b % 2) + 2 * AndBits(k - 1, a / 2, b / 2)
  }

  /** iCeil on unsigned integers of w bits: the complement of b - 1 is 2^w - b. */
  function Ceil(w: nat, a: nat, b: nat, c: nat): nat
    requires c < b <= Bits(w)
  {
    AndBits(w, (a + (b - c)) % Bits(w), Bits(w) - b)
  }

  lemma {:induction false} AndAll(k: nat, x: nat)
    requires x < Bits(k)
    ensures AndBits(k, x, Bits(k) - 1) == x
  {
    if k > 0 {
      assert (Bits(k) - 1) / 2 == Bits(k - 1) - 1 && (Bits(k) - 1) % 2 == 1;
      AndAll(k - 1, x / 2);
    }
  }

  lemma HalfQuotient(x: nat, b: nat)
    requires b > 0
    ensures 2 * (x / 2 / b * b) == x / (2 * b) * (2 * b)
  {
    var q := x / 2 / b;
    assert q * b <= x / 2 < q * b + b;
    assert q * (2 * b) == 2 * (q * b);
    ModOf(x, q, x - 2 * (q * b), 2 * b);
  }

  lemma AndEven(k: nat, x: nat, half: nat)
    requires k > 0
    ensures AndBits(k, x, 2 * half) == 2 * AndBits(k - 1, x / 2, half)
  {
    assert 2 * half / 2 == half && 2 * half % 2 == 0;
  }

  /** Clearing the m low bits rounds down to a multiple of 2^m. */
  lemma {:induction false} AndRoundsDown(k: nat, m: nat, x: nat)
    requires x < Bits(k) && m <= k
    ensures Bits(m) <= Bits(k) && AndBits(k, x, Bits(k) - Bits(m)) == x / Bits(m) * Bits(m)
    decreases k
  {
    if m == 0 {
      AndAll(k, x);
    } else {
      var unit, mask := Bits(m - 1), Bits(k - 1) - Bits(m - 1);
      AndRoundsDown(k - 1, m - 1, x / 2);
      AndEven(k, x, mask);
      HalfQuotient(x, unit);
      assert Bits(m) == 2 * unit && Bits(k) - Bits(m) == 2 * mask;
    }
  }

  lemma Rounded(x: nat, b: nat)
    requires b > 0
    ensures x / b * b % b == 0 && x - b < x / b * b <= x
  {
    ModOf(x / b * b, x / b, 0, b);
    assert x == x / b * b + x % b;
  }

  /** Unless the sum wraps round: with c 0 the next multiple of 2^m above a, with c 1 the least that is
      not below a. */
  lemma CeilMeans(w: nat, m: nat, a: nat, c: nat)
    requires m <= w && c < 2 && c < Bits(m) && a + Bits(m) < Bits(w)
    ensures Bits(m) <= Bits(w)
    ensures Ceil(w, a, Bits(m), c) % Bits(m) == 0 && a <= Ceil(w, a, Bits(m), c) + c - 1 < a + Bits(m)
  {
    var x := a + (Bits(m) - c);
    ModOf(x, 0, x, Bits(w));
    AndRoundsDown(w, m, x);
    Rounded(x, Bits(m));
  }

  /** The length of the buffer, on unsigned 32-bit integers. */
  function BufSize(n: nat): nat {
    (WIDTH_NUM_CHARS + BYTES_PER_CHAR * n) % TWO32
  }

  /** The length of the buffer, rounded. */
  function NewSize(n: nat): nat {
    (BufSize(n) + BLOCK) % TWO32 / BLOCK * BLOCK
  }

  /** It is what iCeil makes of the length. */
  lemma NewSizeIsCeil(n: nat)
    ensures BLOCK <= Bits(32) && NewSize(n) == Ceil(32, BufSize(n), BLOCK, 0)
  {
    ThirtyTwoBits();
    assert Bits(2) == 4 && Bits(4) == BLOCK;
    AndRoundsDown(32, 4, (BufSize(n) + BLOCK) % TWO32);
  }

  /** Neither the buffer length nor its rounding wraps round. */
  predicate Fits(n: nat) {
    WIDTH_NUM_CHARS + BYTES_PER_CHAR * n + BLOCK < TWO32
  }

  /** Where character lp of n goes: the offset of the first is a 32-bit number. */
  function WriteIndex(n: nat, lp: nat): nat {
    (WIDTH_NUM_CHARS + (NewSize(n) - BufSize(n)) % TWO32) % TWO32 + BYTES_PER_CHAR * lp
  }

  predicate Overruns(n: nat) {
    exists lp :: 0 <= lp < n && WriteIndex(n, lp) >= NewSize(n)
  }

  /** A character is written behind the buffer if and only if a length wraps round. */
  lemma OverrunIff(n: nat)
    ensures Overruns(n) <==> !Fits(n)
  {
    if Fits(n) {
      PaddingFills(n);
    } else {
      assert WriteIndex(n, n - 1) >= NewSize(n);
    }
  }

  function Padding(n: nat): int {
    NewSize(n) - BufSize(n)
  }

  /** The padding is 1 to 16 bytes and fills the last block. */
  lemma PaddingFills(n: nat)
    requires Fits(n)
    ensures 1 <= Padding(n) <= BLOCK
    ensures WIDTH_NUM_CHARS + Padding(n) + BYTES_PER_CHAR * n == NewSize(n) && NewSize(n) % BLOCK == 0
  {
  }

  /** The characters that the count at the front announces, taken from the end. */
  function Unframe(bytes: seq<Byte>): seq<Byte>
    requires Framed(bytes)
  {
    var n := ReadCount(bytes);
    seq(n, i requires 0 <= i < n => bytes[|bytes| - BYTES_PER_CHAR * n + BYTES_PER_CHAR * i])
  }

  predicate Framed(bytes: seq<Byte>) {
    |bytes| >= WIDTH_NUM_CHARS && BYTES_PER_CHAR * ReadCount(bytes) <= |bytes|
  }

  lemma CountRead(n: int, rest: seq<Byte>)
    requires 0 <= n < TWO32
    ensures ReadCount(Count(n) + rest) == n
  {
    var a, b, c := n / 0x100, n / 0x1_0000, n / 0x100_0000;
    assert a / 0x100 == b && b / 0x100 == c;
    assert n == n % 0x100 + 0x100 * a && a == a % 0x100 + 0x100 * b && b == b % 0x100 + 0x100 * c;
  }

  lemma UnframeFrame(s: seq<Byte>, padding: seq<Byte>)
    requires |s| < TWO32
    ensures Framed(Frame(s, padding)) && Unframe(Frame(s, padding)) == s
  {
    var bytes := Frame(s, padding);
    assert bytes == Count(|s|) + (padding + Wide(s));
    CountRead(|s|, padding + Wide(s));
    var n := |s|;
    forall i | 0 <= i < n ensures bytes[|bytes| - BYTES_PER_CHAR * n + BYTES_PER_CHAR * i] == s[i] {
      assert bytes[|bytes| - BYTES_PER_CHAR * n + BYTES_PER_CHAR * i] == Wide(s)[BYTES_PER_CHAR * i];
    }
  }

  // The dump.

  function Hex(b: Byte): string {
    if b < 16 then [Base16.Digit(b)] else [Base16.Digit(b / 16), Base16.Digit(b % 16)]
  }

  /** Byte number k of the dump, with its space and, at the end of a line, its newline. */
  function Item(b: Byte, k: nat): string {
    Hex(b) + if k % BLOCK == BLOCK - 1 then " \n" else " "
  }

  function Dump(bytes: seq<Byte>): string {
    if bytes == [] then "" else Dump(bytes[..|bytes| - 1]) + Item(bytes[|bytes| - 1], |bytes| - 1)
  }

  /** The text of a byte is its digits without a zero in front. */
  lemma HexMeans(b: Byte)
    ensures Hex(b) == if b < 16 then ["0123456789abcdef"[b]] else ["0123456789abcdef"[b / 16], "0123456789abcdef"[b % 16]]
  {
    DigitMeans(b % 16);
    DigitMeans(b / 16);
  }

  lemma DigitMeans(d: int)
    requires 0 <= d < 16
    ensures Base16.Digit(d) == "0123456789abcdef"[d]
  {
  }

  /** Behind each byte stands a space, and behind each sixteenth a line break too. */
  lemma DumpEnd(bytes: seq<Byte>)
    requires bytes != []
    ensures var init, last := bytes[..|bytes| - 1], bytes[|bytes| - 1];
            Dump(bytes) == Dump(init) + Hex(last) + if |bytes| % 16 == 0 then " \n" else " "
  {
    var init, last := bytes[..|bytes| - 1], bytes[|bytes| - 1];
    ModNext(|init|, 16);
    Sequences.Assoc(Dump(init), Hex(last), if |bytes| % 16 == 0 then " \n" else " ");
  }

  /** Lines of sixteen bytes are dumped one by one. */
  lemma {:induction false} DumpLines(a: seq<Byte>, b: seq<Byte>)
    requires |a| % 16 == 0
    ensures Dump(a + b) == Dump(a) + Dump(b)
  {
    if b == [] {
      assert a + b == a && Dump(a) + "" == Dump(a);
    } else {
      var init, last := b[..|b| - 1], b[|b| - 1];
      assert a + b == a + init + [last] && b == init + [last];
      DumpLines(a, init);
      SamePlace(last, |init|, |a + init|);
      DumpSnoc(a + init, last);
      DumpSnoc(init, last);
      Sequences.Assoc(Dump(a), Dump(init), Item(last, |init|));
    }
  }

  lemma SamePlace(b: Byte, k: nat, m: nat)
    requires k <= m && (m - k) % 16 == 0
    ensures Item(b, k) == Item(b, m)
  {
  }

  predicate Space(c: char) {
    c == ' ' || c == '\n' || c == '\t' || c == '\r'
  }

  /** The extraction of one hexadecimal number: the digits at the front. */
  function Digits(t: string): (n: nat)
    ensures n <= |t|
  {
    if t == "" || Base16.DigitValue(t[0]) < 0 then 0 else 1 + Digits(t[1..])
  }

  function Value(t: string): int {
    if t == "" then 0 else 16 * Value(t[..|t| - 1]) + Base16.DigitValue(t[|t| - 1])
  }

  /** Repeated extraction of 16-bit numbers, each cut to a byte, until one fails. */
  function Parse(t: string): seq<Byte>
    decreases |t|
  {
    if t == "" then []
    else if Space(t[0]) then Parse(t[1..])
    else
      var n := Digits(t);
      if n == 0 || !(0 <= Value(t[..n]) <= 0xffff) then [] else [Value(t[..n]) % 0x100] + Parse(t[n..])
  }

  predicate AllDigits(h: string) {
    forall i :: 0 <= i < |h| ==> Base16.DigitValue(h[i]) >= 0
  }

  lemma DigitsOf(h: string, t: string)
    requires AllDigits(h) && t != "" && Base16.DigitValue(t[0]) < 0
    ensures Digits(h + t) == |h|
  {
    if h == "" {
      assert h + t == t;
    } else {
      assert (h + t)[1..] == h[1..] + t;
      DigitsOf(h[1..], t);
    }
  }

  lemma HexValue(b: Byte)
    ensures AllDigits(Hex(b)) && Value(Hex(b)) == b && Hex(b) != "" && !Space(Hex(b)[0])
  {
    OneDigit(b % 16);
    if b >= 16 {
      OneDigit(b / 16);
      assert Hex(b)[..1] == [Base16.Digit(b / 16)];
    }
  }

  lemma OneDigit(d: int)
    requires 0 <= d < 16
    ensures Base16.DigitValue(Base16.Digit(d)) == d && Value([Base16.Digit(d)]) == d && !Space(Base16.Digit(d))
  {
    assert [Base16.Digit(d)][..0] == "" && Value("") == 0;
  }

  lemma ParseUnfold(u: string, h: string, t: string)
    requires u == h + t && h != "" && !Space(h[0]) && Digits(u) == |h| && 0 <= Value(h) <= 0xffff
    ensures Parse(u) == [Value(h) % 0x100] + Parse(t)
  {
    assert u[..|h|] == h && u[|h|..] == t;
  }

  /** A number in front of something that is no digit is extracted as it was written. */
  lemma ParseNumber(u: string, b: Byte, t: string)
    requires u == Hex(b) + t && t != "" && Base16.DigitValue(t[0]) < 0
    ensures Parse(u) == [b] + Parse(t)
  {
    HexValue(b);
    ParseDigits(u, Hex(b), t);
  }

  lemma ParseDigits(u: string, h: string, t: string)
    requires u == h + t && t != "" && Base16.DigitValue(t[0]) < 0
    requires AllDigits(h) && h != "" && !Space(h[0]) && 0 <= Value(h) < 0x100
    ensures Parse(u) == [Value(h)] + Parse(t)
  {
    DigitsOf(h, t);
    ParseUnfold(u, h, t);
  }

  /** White space is skipped; digits, as many as there are, make one number, of which a byte is kept if it has at most 16
      bits; anything else ends the input. */
  lemma ParseMeans(h: string, t: string)
    requires AllDigits(h) && (t != "" ==> Base16.DigitValue(t[0]) < 0)
    ensures h != "" ==> Parse(h + t) == if Value(h) <= 0xffff then [Value(h) % 0x100] + Parse(t) else []
    ensures h == "" && t != "" ==> Parse(t) == if Space(t[0]) then Parse(t[1..]) else []
  {
    AllDigitsCount(h, t);
    ValueNatural(h);
    if h != "" {
      var u := h + t;
      assert u[0] == h[0] && !Space(h[0]) && u[..|h|] == h && u[|h|..] == t;
    }
  }

  lemma AllDigitsCount(h: string, t: string)
    requires AllDigits(h) && (t != "" ==> Base16.DigitValue(t[0]) < 0)
    ensures Digits(h + t) == |h|
  {
    if t == "" {
      assert h + t == h;
      if h != "" {
        AllDigitsCount(h[1..], t);
        assert h[1..] + t == h[1..];
      }
    } else {
      DigitsOf(h, t);
    }
  }

  lemma ValueNatural(h: string)
    requires AllDigits(h)
    ensures Value(h) >= 0
  {
    if h != "" {
      ValueNatural(h[..|h| - 1]);
    }
  }

  lemma ParseSpace(u: string, c: char, t: string)
    requires Space(c) && u == [c] + t
    ensures Parse(u) == Parse(t)
  {
    assert u[1..] == t;
  }

  lemma ParseItem(b: Byte, k: nat, t: string, rest: seq<Byte>)
    requires Parse(t) == rest
    ensures Parse(Item(b, k) + t) == [b] + rest
  {
    if k % BLOCK == BLOCK - 1 {
      var newline, tail := "\n" + t, " \n" + t;
      ParseSpace(newline, '\n', t);
      ParseSpace(tail, ' ', newline);
      Sequences.Assoc(Hex(b), " \n", t);
      ParseNumber(Item(b, k) + t, b, tail);
    } else {
      var tail := " " + t;
      ParseSpace(tail, ' ', t);
      Sequences.Assoc(Hex(b), " ", t);
      ParseNumber(Item(b, k) + t, b, tail);
    }
  }

  lemma DumpSnoc(init: seq<Byte>, b: Byte)
    ensures Dump(init + [b]) == Dump(init) + Item(b, |init|)
  {
    assert (init + [b])[..|init|] == init;
  }

  lemma DumpSplit(init: seq<Byte>, b: Byte, item: string, t: string, rest: seq<Byte>)
    requires item == Item(b, |init|)
    ensures Dump(init + [b]) + t == Dump(init) + (item + t)
    ensures (init + [b]) + rest == init + ([b] + rest)
  {
    DumpSnoc(init, b);
    Sequences.Assoc(Dump(init), item, t);
    Sequences.Assoc(init, [b], rest);
  }

  lemma {:induction false} ParseDump(bytes: seq<Byte>, t: string, rest: seq<Byte>)
    requires Parse(t) == rest
    ensures Parse(Dump(bytes) + t) == bytes + rest
    decreases |bytes|
  {
    if bytes == [] {
      assert Dump(bytes) + t == t && bytes + rest == rest;
    } else {
      var init, b := bytes[..|bytes| - 1], bytes[|bytes| - 1];
      var item := Item(b, |init|);
      assert bytes == init + [b];
      assert Parse(Dump(init) + (item + t)) == init + ([b] + rest) by {
        ParseItem(b, |init|, t, rest);
        ParseDump(init, item + t, [b] + rest);
      }
      DumpSplit(init, b, item, t, rest);
    }
  }

  /** The dump, line breaks and all, parses back. */
  lemma DumpParses(bytes: seq<Byte>)
    ensures Parse(Dump(bytes)) == bytes
  {
    ParseDump(bytes, "", []);
    assert Dump(bytes) + "" == Dump(bytes) && bytes + [] == bytes;
  }

  // The whole.

  function Encrypted(e: KeyStream, s: seq<Byte>, padding: seq<Byte>): string
    requires |s| < TWO32
  {
    Dump(Encipher(e, IV(), Frame(s, padding)))
  }

  function Plain(e: KeyStream, text: string): seq<Byte> {
    Decipher(e, IV(), Parse(text))
  }

  /** What the frame holds: its length in characters, low byte first; the padding; and the characters, with a zero byte
      behind each. */
  lemma FrameHolds(s: seq<Byte>, padding: seq<Byte>)
    requires |s| < TWO32
    ensures var f, at := Frame(s, padding), 4 + |padding|;
            && |f| == at + 2 * |s|
            && f[0] as int + 0x100 * f[1] as int + 0x1_0000 * f[2] as int + 0x100_0000 * f[3] as int == |s|
            && f[4..at] == padding
            && forall i :: 0 <= i < |s| ==> f[at + 2 * i] == s[i] && f[at + 2 * i + 1] == 0
  {
    var f, at := Frame(s, padding), 4 + |padding|;
    CountRead(|s|, padding + Wide(s));
    assert f == Count(|s|) + (padding + Wide(s));
    forall i | 0 <= i < |s| ensures f[at + 2 * i] == s[i] && f[at + 2 * i + 1] == 0 {
      assert f[at + 2 * i] == Wide(s)[2 * i] && f[at + 2 * i + 1] == Wide(s)[2 * i + 1];
    }
  }

  /** The bytes that the text stands for: each is the frame's byte at its place, under the key stream of the 16 bytes in
      front of it, where 16 bytes 0xff stand in front of the first. */
  lemma EncryptedBytes(e: KeyStream, s: seq<Byte>, padding: seq<Byte>)
    requires |s| < TWO32
    ensures var f, cs := Frame(s, padding), Parse(Encrypted(e, s, padding));
            && |cs| == |f|
            && forall i :: 0 <= i < |f| ==> cs[i] == Xor(f[i], e((seq(16, _ => 0xff) + cs)[i..i + 16]))
  {
    var f := Frame(s, padding);
    var cs := Encipher(e, IV(), f);
    DumpParses(cs);
    assert IV() == seq(16, _ => 0xff);
    forall i | 0 <= i < |f| ensures cs[i] == Xor(f[i], e((seq(16, _ => 0xff) + cs)[i..i + 16])) {
      EncipherAt(e, IV(), f, i);
    }
  }

  /** Whatever the block cipher and the padding, decrypting the encrypted text gives the string. */
  lemma RoundTrip(e: KeyStream, s: seq<Byte>, padding: seq<Byte>)
    requires |s| < TWO32
    ensures Framed(Plain(e, Encrypted(e, s, padding))) && Unframe(Plain(e, Encrypted(e, s, padding))) == s
  {
    DumpParses(Encipher(e, IV(), Frame(s, padding)));
    DecipherInverts(e, IV(), Frame(s, padding));
    UnframeFrame(s, padding);
  }

  /** The characters, one in two bytes, into a zeroed buffer. */
  method PutChars(buf: array<Byte>, head: nat, s: seq<Byte>)
    requires buf.Length == head + BYTES_PER_CHAR * |s|
    requires forall i :: head <= i < buf.Length ==> buf[i] == 0
    modifies buf
    ensures (forall i :: 0 <= i < head ==> buf[i] == old(buf[i])) && buf[head..] == Wide(s)
  {
    var lp := 0;
    while lp < |s|
      invariant 0 <= lp <= |s|
      invariant forall i :: 0 <= i < head ==> buf[i] == old(buf[i])
      invariant forall i :: 0 <= i < |s| ==> buf[head + i * BYTES_PER_CHAR] == if i < lp then s[i] else 0
      invariant forall i :: 0 <= i < |s| ==> buf[head + i * BYTES_PER_CHAR + 1] == 0
    {
      buf[head + lp * BYTES_PER_CHAR] := s[lp];
      lp := lp + 1;
    }
    IsWide(buf[head..], s);
  }

  /** Random bytes between the count and the characters. */
  method PutPadding(buf: array<Byte>, from: nat, to: nat)
    requires from <= to <= buf.Length
    modifies buf
    ensures forall i :: 0 <= i < from || to <= i < buf.Length ==> buf[i] == old(buf[i])
  {
    var i := from;
    while i < to
      invariant from <= i <= to
      invariant forall i :: 0 <= i < from || to <= i < buf.Length ==> buf[i] == old(buf[i])
    {
      var random: Byte := *;
      buf[i] := random;
      i := i + 1;
    }
  }

  /** The blob, or None if the source writes behind its buffer. */
  method MakeBlob(s: seq<Byte>) returns (blob: Option<seq<Byte>>)
    ensures blob == None <==> Overruns(|s|)
    ensures blob.Some? ==> |blob.value| % BLOCK == 0
    ensures blob.Some? ==> |s| < TWO32 && exists padding :: |padding| == Padding(|s|) && blob.value == Frame(s, padding)
  {
    hide Wide, Overruns;
    OverrunIff(|s|);
    if !Fits(|s|) {
      return None;
    }
    PaddingFills(|s|);
    var head := WIDTH_NUM_CHARS + (NewSize(|s|) - BufSize(|s|));
    var buf := new Byte[NewSize(|s|)](_ => 0);
    var count := Count(|s|);
    buf[0], buf[1], buf[2], buf[3] := count[0], count[1], count[2], count[3];
    PutChars(buf, head, s);
    ghost var chars := buf[head..];
    PutPadding(buf, WIDTH_NUM_CHARS, head);
    assert buf[..WIDTH_NUM_CHARS] == count && buf[head..] == chars;
    ghost var padding := buf[WIDTH_NUM_CHARS..head];
    assert buf[..] == buf[..WIDTH_NUM_CHARS] + padding + buf[head..];
    assert buf[..] == Frame(s, padding);
    blob := Some(buf[..]);
  }

  lemma IsWide(w: seq<Byte>, s: seq<Byte>)
    requires |w| == BYTES_PER_CHAR * |s|
    requires forall i :: 0 <= i < |s| ==> w[i * BYTES_PER_CHAR] == s[i]
    requires forall i :: 0 <= i < |s| ==> w[i * BYTES_PER_CHAR + 1] == 0
    ensures w == Wide(s)
  {
    forall j | 0 <= j < |w| ensures w[j] == Wide(s)[j] {
      var i := j / BYTES_PER_CHAR;
      assert j == i * BYTES_PER_CHAR || j == i * BYTES_PER_CHAR + 1;
    }
  }

  lemma EncipherAhead(e: KeyStream, reg: seq<Byte>, blob: seq<Byte>, i: nat, j: nat, done: seq<Byte>)
    requires reg != [] && i <= j <= |blob|
    ensures var out := Encipher(e, reg, blob[i..j]);
            (done + out) + Encipher(e, Register(reg, out), blob[j..]) == done + Encipher(e, reg, blob[i..])
  {
    assert blob[i..] == blob[i..j] + blob[j..];
    EncipherPieces(e, reg, blob[i..j], blob[j..]);
    var out := Encipher(e, reg, blob[i..j]);
    Sequences.Assoc(done, out, Encipher(e, Register(reg, out), blob[j..]));
  }

  lemma DecipherAhead(e: KeyStream, reg: seq<Byte>, blob: seq<Byte>, i: nat, j: nat, done: seq<Byte>)
    requires reg != [] && i <= j <= |blob|
    ensures (done + Decipher(e, reg, blob[i..j])) + Decipher(e, Register(reg, blob[i..j]), blob[j..])
         == done + Decipher(e, reg, blob[i..])
  {
    assert blob[i..] == blob[i..j] + blob[j..];
    DecipherPieces(e, reg, blob[i..j], blob[j..]);
    Sequences.Assoc(done, Decipher(e, reg, blob[i..j]), Decipher(e, Register(reg, blob[i..j]), blob[j..]));
  }

  lemma NothingLeft(e: KeyStream, reg: seq<Byte>, blob: seq<Byte>, from: nat, done: seq<Byte>)
    requires reg != [] && from == |blob|
    ensures done + Encipher(e, reg, blob[from..]) == done && done + Decipher(e, reg, blob[from..]) == done
  {
    assert blob[from..] == [];
  }

  method EncryptBlob(ctx: Context, blob: seq<Byte>) returns (cs: seq<Byte>)
    requires ctx.reg == IV()
    modifies ctx
    ensures cs == Encipher(ctx.e, IV(), blob)
  {
    var div, mod := |blob| / BLOCK, |blob| % BLOCK;
    cs := [];
    var j := 0;
    while j < div
      invariant 0 <= j <= div && ctx.reg != []
      invariant cs + Encipher(ctx.e, ctx.reg, blob[j * BLOCK..]) == Encipher(ctx.e, IV(), blob)
    {
      EncipherAhead(ctx.e, ctx.reg, blob, j * BLOCK, (j + 1) * BLOCK, cs);
      var out := ctx.Encrypt(blob[j * BLOCK..(j + 1) * BLOCK]);
      cs := cs + out;
      j := j + 1;
    }
    if mod != 0 {
      var out := ctx.Encrypt(blob[div * BLOCK..]);
      cs := cs + out;
    } else {
      NothingLeft(ctx.e, ctx.reg, blob, div * BLOCK, cs);
    }
  }

  /** None if there is no whole block, and the source reads behind the blob. */
  method DecryptBlob(ctx: Context, blob: seq<Byte>) returns (r: Option<seq<Byte>>)
    requires ctx.reg == IV()
    modifies ctx
    ensures r == if |blob| < BLOCK then None else Some(Decipher(ctx.e, IV(), blob))
  {
    if |blob| < BLOCK {
      return None;
    }
    var ps := DecryptBlocks(ctx, blob);
    r := Some(ps);
  }

  /** The loop takes one block before it looks whether there is another. */
  method DecryptBlocks(ctx: Context, blob: seq<Byte>) returns (ps: seq<Byte>)
    requires ctx.reg == IV() && |blob| >= BLOCK
    modifies ctx
    ensures ps == Decipher(ctx.e, IV(), blob)
  {
    var div, mod := |blob| / BLOCK, |blob| % BLOCK;
    ps := [];
    var count := 0;
    while true
      invariant 0 <= count < div && ctx.reg != []
      invariant ps + Decipher(ctx.e, ctx.reg, blob[count * BLOCK..]) == Decipher(ctx.e, IV(), blob)
      decreases div - count
    {
      DecipherAhead(ctx.e, ctx.reg, blob, count * BLOCK, (count + 1) * BLOCK, ps);
      var out := ctx.Decrypt(blob[count * BLOCK..(count + 1) * BLOCK]);
      ps := ps + out;
      count := count + 1;
      if count >= div {
        break;
      }
    }
    if mod != 0 {
      var out := ctx.Decrypt(blob[div * BLOCK..]);
      ps := ps + out;
    } else {
      NothingLeft(ctx.e, ctx.reg, blob, div * BLOCK, ps);
    }
  }

  method WriteDump(bytes: seq<Byte>) returns (text: string)
    ensures text == Dump(bytes)
  {
    text := "";
    for k := 0 to |bytes|
      invariant text == Dump(bytes[..k])
    {
      assert bytes[..k + 1][..k] == bytes[..k];
      text := text + Hex(bytes[k]) + " ";
      if k % BLOCK == BLOCK - 1 {
        text := text + "\n";
      }
      assert text == Dump(bytes[..k]) + Item(bytes[k], k);
    }
    assert bytes[..|bytes|] == bytes;
  }

  method ReadDump(text: string) returns (blob: seq<Byte>)
    ensures blob == Parse(text)
  {
    blob := [];
    var rest := text;
    while rest != ""
      invariant blob + Parse(rest) == Parse(text)
      decreases |rest|
    {
      if Space(rest[0]) {
        rest := rest[1..];
        continue;
      }
      var n := Digits(rest);
      if n == 0 || !(0 <= Value(rest[..n]) <= 0xffff) {
        break;
      }
      blob := blob + [Value(rest[..n]) % 0x100];
      rest := rest[n..];
    }
    assert blob + [] == blob;
  }

  /** The text, or None if the source writes behind its buffer. */
  method EncryptStr(e: KeyStream, s: seq<Byte>) returns (text: Option<string>)
    ensures text == None <==> Overruns(|s|)
    ensures text.Some? ==> |s| < TWO32 && exists padding :: |padding| == Padding(|s|) && text.value == Encrypted(e, s, padding)
  {
    var ctx := new Context(e);
    var blob := MakeBlob(s);
    if blob == None {
      return None;
    }
    OverrunIff(|s|);
    var cs := EncryptBlob(ctx, blob.value);
    var hex := WriteDump(cs);
    ghost var padding :| |padding| == Padding(|s|) && blob.value == Frame(s, padding);
    assert hex == Encrypted(e, s, padding);
    text := Some(hex);
  }

  /** The source reads behind none of its buffers. */
  predicate Sane(e: KeyStream, text: string) {
    |Parse(text)| >= BLOCK && Framed(Plain(e, text))
  }

  /** The string, or None if the source reads behind a buffer. */
  method DecryptStr(e: KeyStream, text: string) returns (r: Option<seq<Byte>>)
    ensures r == if Sane(e, text) then Some(Unframe(Plain(e, text))) else None
  {
    var ctx := new Context(e);
    var blob := ReadDump(text);
    var ps := DecryptBlob(ctx, blob);
    if ps == None || !Framed(ps.value) {
      return None;
    }
    var s := TakeChars(ps.value);
    r := Some(s);
  }

  /** Every second byte of the characters. */
  method TakeChars(ps: seq<Byte>) returns (s: seq<Byte>)
    requires Framed(ps)
    ensures s == Unframe(ps)
  {
    var n := ReadCount(ps);
    s := [];
    for lp := 0 to n
      invariant |s| == lp
      invariant forall i :: 0 <= i < lp ==> s[i] == ps[|ps| - BYTES_PER_CHAR * n + BYTES_PER_CHAR * i]
    {
      s := s + [ps[|ps| - BYTES_PER_CHAR * n + BYTES_PER_CHAR * lp]];
    }
  }

  lemma WholeBlocks(e: KeyStream, s: seq<Byte>, padding: seq<Byte>)
    requires Fits(|s|) && |padding| == Padding(|s|)
    ensures |Parse(Encrypted(e, s, padding))| == NewSize(|s|) >= BLOCK
  {
    PaddingFills(|s|);
    DumpParses(Encipher(e, IV(), Frame(s, padding)));
  }

  /** Encrypting a string and decrypting the text, as the program does it, gives the string back. */
  method EncryptThenDecrypt(e: KeyStream, s: seq<Byte>) returns (r: Option<seq<Byte>>)
    ensures r == if Overruns(|s|) then None else Some(s)
  {
    var text := EncryptStr(e, s);
    if text == None {
      return None;
    }
    OverrunIff(|s|);
    ghost var padding :| |padding| == Padding(|s|) && text.value == Encrypted(e, s, padding);
    WholeBlocks(e, s, padding);
    RoundTrip(e, s, padding);
    r := DecryptStr(e, text.value);
  }
}
