/** The query that cuts one unpartitioned segment into ROWID ranges
    (app/xtru/copydd/cRowidRanges.cpp), over the segment's extents in (file, block) order. */
module RowidRanges {
  import opened Wrappers
  import Division

  datatype Extent = Extent(fid: int, bid: int, blocks: int)

  datatype Block = Block(fid: int, bid: int)

  datatype Rowid = Rowid(block: Block, slot: int)

  /** A row of the result: range number, first and last rowid. */
  datatype RangeRow = RangeRow(rn: int, predb: Rowid, prede: Rowid)

  predicate Before(a: Extent, b: Extent) {
    a.fid < b.fid || (a.fid == b.fid && a.bid + a.blocks <= b.bid)
  }

  /** Extents hold blocks, are disjoint, and are listed in (file, block) order. */
  predicate ValidSegment(es: seq<Extent>) {
    && (forall i :: 0 <= i < |es| ==> es[i].blocks > 0)
    && (forall i, j :: 0 <= i < j < |es| ==> Before(es[i], es[j]))
  }

  // The query.

  /** sum(blocks) over the first k extents. */
  function Sum(es: seq<Extent>, k: nat): int
    requires k <= |es|
  {
    if k == 0 then 0 else Sum(es, k - 1) + es[k - 1].blocks
  }

  function Total(es: seq<Extent>): int {
    Sum(es, |es|)
  }

  /** SQL trunc: towards zero. */
  function Trunc(x: real): int {
    if x >= 0.0 then x.Floor else -(-x).Floor
  }

  function Chunk(es: seq<Extent>, n: nat): int
    requires n > 0
  {
    Trunc(Total(es) as real / n as real)
  }

  function Range1(es: seq<Extent>, i: nat, chunk: int): int
    requires i < |es| && chunk != 0
  {
    Trunc((Sum(es, i + 1) as real - es[i].blocks as real + 1.0 - 0.1) / chunk as real)
  }

  function Range2(es: seq<Extent>, i: nat, chunk: int): int
    requires i < |es| && chunk != 0
  {
    Trunc((Sum(es, i + 1) as real - 0.1) / chunk as real)
  }

  /** b.rn between a.range1 and a.range2 */
  predicate Joins(es: seq<Extent>, i: nat, chunk: int, rn: int)
    requires i < |es| && chunk != 0
  {
    Range1(es, i, chunk) <= rn <= Range2(es, i, chunk)
  }

  /** The first extent at i or behind that joins range rn. */
  function FirstJoined(es: seq<Extent>, chunk: int, rn: int, i: nat): (f: Option<nat>)
    requires i <= |es| && chunk != 0
    ensures f.Some? ==> i <= f.value < |es| && Joins(es, f.value, chunk, rn)
    decreases |es| - i
  {
    if i == |es| then None else if Joins(es, i, chunk, rn) then Some(i) else FirstJoined(es, chunk, rn, i + 1)
  }

  /** The last extent before i that joins range rn. */
  function LastJoined(es: seq<Extent>, chunk: int, rn: int, i: nat): (l: Option<nat>)
    requires i <= |es| && chunk != 0
    ensures l.Some? ==> l.value < i && Joins(es, l.value, chunk, rn)
  {
    if i == 0 then None else if Joins(es, i - 1, chunk, rn) then Some(i - 1) else LastJoined(es, chunk, rn, i - 1)
  }

  function FirstBid(es: seq<Extent>, i: nat, chunk: int, rn: int): int
    requires i < |es| && chunk != 0
  {
    var range1, range2 := Range1(es, i, chunk), Range2(es, i, chunk);
    if range2 > range1 then es[i].bid + (rn - range1) * chunk else es[i].bid
  }

  function LastBid(es: seq<Extent>, i: nat, chunk: int, rn: int): int
    requires i < |es| && chunk != 0
  {
    var range1, range2 := Range1(es, i, chunk), Range2(es, i, chunk);
    if range2 > range1 then es[i].bid + (rn - range1 + 1) * chunk - 1 else es[i].bid + es[i].blocks - 1
  }

  /** The distinct row of range rn, if any extent joins it. */
  function RangeOf(es: seq<Extent>, chunk: int, rn: int): Option<RangeRow>
    requires chunk != 0
  {
    var f, l := FirstJoined(es, chunk, rn, 0), LastJoined(es, chunk, rn, |es|);
    if f.None? || l.None? then None else
      Some(RangeRow(rn + 1,
                    Rowid(Block(es[f.value].fid, FirstBid(es, f.value, chunk, rn)), 0),
                    Rowid(Block(es[l.value].fid, LastBid(es, l.value, chunk, rn)), 9999)))
  }

  function Collect(es: seq<Extent>, chunk: int, k: nat): seq<RangeRow>
    requires chunk != 0
  {
    if k == 0 then [] else
      var rows := Collect(es, chunk, k - 1);
      match RangeOf(es, chunk, k - 1) case Some(r) => rows + [r] case None => rows
  }

  /** The whole query for one segment; `sum1` is the number of blocks of all segments it looks at. */
  function Query(es: seq<Extent>, n: nat, sum1: int): seq<RangeRow>
    requires n > 0
  {
    if sum1 > n && Chunk(es, n) > 0 then Collect(es, Chunk(es, n), n) else []
  }

  // Rowids.

  predicate BlockLe(a: Block, b: Block) {
    a.fid < b.fid || (a.fid == b.fid && a.bid <= b.bid)
  }

  predicate RowidLe(a: Rowid, b: Rowid) {
    if a.block == b.block then a.slot <= b.slot else BlockLe(a.block, b.block)
  }

  /** ROWID BETWEEN predb AND prede */
  predicate Selects(r: RangeRow, x: Rowid) {
    RowidLe(r.predb, x) && RowidLe(x, r.prede)
  }

  // The segment's blocks, numbered 0, 1, ... in (file, block) order.

  function Locate(es: seq<Extent>, k: nat, p: int): (i: nat)
    requires k <= |es| && 0 <= p < Sum(es, k)
    ensures i < k && Sum(es, i) <= p < Sum(es, i + 1)
  {
    if p >= Sum(es, k - 1) then k - 1 else Locate(es, k - 1, p)
  }

  function BlockAt(es: seq<Extent>, p: int): Block
    requires 0 <= p < Total(es)
  {
    var i := Locate(es, |es|, p);
    Block(es[i].fid, es[i].bid + p - Sum(es, i))
  }

  // Arithmetic.

  lemma CastProduct(q: nat, d: int)
    ensures (q * d) as real == q as real * d as real
  {
    if q > 0 {
      CastProduct(q - 1, d);
      assert q * d == (q - 1) * d + d;
      assert q as real == (q - 1) as real + 1.0;
    }
  }

  lemma SignOfProduct(e: real, d: real)
    requires d > 0.0
    ensures e * d >= 0.0 <==> e >= 0.0
  {
  }

  lemma FloorOfQuotient(num: real, d: real, q: int, low: real)
    requires d > 0.0 && low == q as real * d && low <= num < low + d
    ensures q as real <= num / d && (num / d).Floor == q
  {
    var v := num / d;
    var e := v - q as real;
    assert v * d == num;
    assert e * d == num - low;
    assert (e - 1.0) * d == num - low - d;
    SignOfProduct(e, d);
    SignOfProduct(e - 1.0, d);
    FloorBetween(v, q);
  }

  lemma FloorBetween(v: real, q: int)
    requires q as real <= v < q as real + 1.0
    ensures v.Floor == q
  {
    assert v.Floor as real < (q + 1) as real;
  }

  lemma FloorDiv(x: int, d: int, frac: real)
    requires x >= 0 && d > 0 && 0.0 <= frac < 1.0
    ensures Trunc((x as real + frac) / d as real) == x / d
  {
    var q := x / d;
    CastProduct(q, d);
    assert q * d <= x && x + 1 <= q * d + d;
    FloorOfQuotient(x as real + frac, d as real, q, (q * d) as real);
  }

  /** The truncations by which the query avoids boundary cases are exact integer divisions. */
  lemma TruncIsDivision(es: seq<Extent>, n: nat, i: nat, chunk: int)
    requires ValidSegment(es) && n > 0 && i < |es| && chunk > 0
    ensures Chunk(es, n) == Total(es) / n
    ensures Range1(es, i, chunk) == Sum(es, i) / chunk
    ensures Range2(es, i, chunk) == (Sum(es, i + 1) - 1) / chunk
  {
    SumMonotone(es, 0, i);
    SumMonotone(es, 0, |es|);
    FloorDiv(Total(es), n, 0.0);
    FloorDiv(Sum(es, i), chunk, 0.9);
    FloorDiv(Sum(es, i + 1) - 1, chunk, 0.9);
    assert Sum(es, i + 1) as real - es[i].blocks as real + 1.0 - 0.1 == Sum(es, i) as real + 0.9;
    assert Sum(es, i + 1) as real - 0.1 == (Sum(es, i + 1) - 1) as real + 0.9;
  }

  lemma SumMonotone(es: seq<Extent>, i: nat, j: nat)
    requires ValidSegment(es) && i <= j <= |es|
    ensures Sum(es, i) + (j - i) <= Sum(es, j)
  {
    if i < j {
      SumMonotone(es, i, j - 1);
    }
  }

  // Geometry.

  /** Blocks that follow each other in the numbering stand at least as far apart in a file. */
  lemma Spread(es: seq<Extent>, i: nat, j: nat)
    requires ValidSegment(es) && i <= j < |es|
    ensures es[i].fid <= es[j].fid
    ensures es[i].fid == es[j].fid ==> Sum(es, j) - Sum(es, i) <= es[j].bid - es[i].bid
  {
    if i < j {
      Spread(es, i, j - 1);
    }
  }

  /** The extent that holds block p of the segment is the only one. */
  lemma LocateUnique(es: seq<Extent>, i: nat, p: int)
    requires ValidSegment(es) && i < |es| && Sum(es, i) <= p < Sum(es, i + 1)
    ensures 0 <= p < Total(es) && Locate(es, |es|, p) == i
  {
    SumMonotone(es, 0, i);
    SumMonotone(es, i + 1, |es|);
    var j := Locate(es, |es|, p);
    if j < i {
      SumMonotone(es, j + 1, i);
    } else if i < j {
      SumMonotone(es, i + 1, j);
    }
  }

  lemma LocateMonotone(es: seq<Extent>, p: int, q: int)
    requires ValidSegment(es) && 0 <= p <= q < Total(es)
    ensures Locate(es, |es|, p) <= Locate(es, |es|, q)
  {
    var i, j := Locate(es, |es|, p), Locate(es, |es|, q);
    if j < i {
      SumMonotone(es, j + 1, i);
    }
  }

  lemma BlocksSpread(es: seq<Extent>, p: int, q: int)
    requires ValidSegment(es) && 0 <= p <= q < Total(es)
    ensures BlockAt(es, p).fid <= BlockAt(es, q).fid
    ensures BlockAt(es, p).fid == BlockAt(es, q).fid ==> q - p <= BlockAt(es, q).bid - BlockAt(es, p).bid
  {
    LocateMonotone(es, p, q);
    Spread(es, Locate(es, |es|, p), Locate(es, |es|, q));
  }

  // The joined extents.

  lemma JoinsIff(es: seq<Extent>, i: nat, c: int, k: int)
    requires ValidSegment(es) && i < |es| && c > 0
    ensures Joins(es, i, c, k) <==> Sum(es, i) < (k + 1) * c && k * c < Sum(es, i + 1)
  {
    TruncIsDivision(es, 1, i, c);
    Division.QuotientBounds(Sum(es, i), c, k);
    Division.QuotientBounds(Sum(es, i + 1) - 1, c, k);
  }

  lemma FirstIsFirst(es: seq<Extent>, c: int, k: int, from: nat, i: nat)
    requires from <= i < |es| && c != 0 && Joins(es, i, c, k)
    ensures FirstJoined(es, c, k, from).Some? && FirstJoined(es, c, k, from).value <= i
    decreases i - from
  {
    if from < i && !Joins(es, from, c, k) {
      FirstIsFirst(es, c, k, from + 1, i);
    }
  }

  lemma LastIsLast(es: seq<Extent>, c: int, k: int, to: nat, i: nat)
    requires i < to <= |es| && c != 0 && Joins(es, i, c, k)
    ensures LastJoined(es, c, k, to).Some? && i <= LastJoined(es, c, k, to).value
  {
    if i < to - 1 && !Joins(es, to - 1, c, k) {
      LastIsLast(es, c, k, to - 1, i);
    }
  }

  /** The first extent of range k holds the first block of chunk k. */
  lemma FirstExtent(es: seq<Extent>, c: int, k: nat)
    requires ValidSegment(es) && c > 0 && k * c < Total(es)
    ensures 0 <= k * c
    ensures FirstJoined(es, c, k, 0) == Some(Locate(es, |es|, k * c))
  {
    Division.ProductMonotone(0, k, c);
    assert (k + 1) * c == k * c + c;
    var i := Locate(es, |es|, k * c);
    JoinsIff(es, i, c, k);
    FirstIsFirst(es, c, k, 0, i);
    var f := FirstJoined(es, c, k, 0).value;
    JoinsIff(es, f, c, k);
    if f < i {
      SumMonotone(es, f + 1, i);
    }
  }

  /** The last extent of range k holds the last block of chunk k. */
  lemma LastExtent(es: seq<Extent>, c: int, k: nat)
    requires ValidSegment(es) && c > 0 && (k + 1) * c <= Total(es)
    ensures 0 <= (k + 1) * c - 1
    ensures LastJoined(es, c, k, |es|) == Some(Locate(es, |es|, (k + 1) * c - 1))
  {
    Division.ProductMonotone(1, k + 1, c);
    assert (k + 1) * c == k * c + c;
    var i := Locate(es, |es|, (k + 1) * c - 1);
    JoinsIff(es, i, c, k);
    LastIsLast(es, c, k, |es|, i);
    var l := LastJoined(es, c, k, |es|).value;
    JoinsIff(es, l, c, k);
    if i < l {
      SumMonotone(es, i + 1, l);
    }
  }

  // The rows.

  /** An extent with blocks of several chunks. */
  predicate Spans(es: seq<Extent>, i: nat, c: int)
    requires i < |es| && c > 0
  {
    Sum(es, i) / c < (Sum(es, i + 1) - 1) / c
  }

  /** How far into its file range k begins behind the first block of chunk k, or ends behind its last:
      the offset of the extent's first block in its own chunk, if that extent is cut. */
  function Shift(es: seq<Extent>, i: nat, c: int): int
    requires i < |es| && c > 0
  {
    if Spans(es, i, c) then Sum(es, i) % c else 0
  }

  function Beyond(b: Block, k: int): Block {
    Block(b.fid, b.bid + k)
  }

  lemma RowShape(es: seq<Extent>, c: int, k: nat)
    requires ValidSegment(es) && c > 0 && (k + 1) * c <= Total(es)
    ensures 0 <= k * c < (k + 1) * c
    ensures RangeOf(es, c, k) ==
            Some(RangeRow(k + 1,
                          Rowid(Beyond(BlockAt(es, k * c), Shift(es, Locate(es, |es|, k * c), c)), 0),
                          Rowid(Beyond(BlockAt(es, (k + 1) * c - 1), Shift(es, Locate(es, |es|, (k + 1) * c - 1), c)), 9999)))
  {
    Division.ProductMonotone(0, k, c);
    assert (k + 1) * c == k * c + c;
    FirstExtent(es, c, k);
    LastExtent(es, c, k);
    FirstBidShape(es, c, k);
    LastBidShape(es, c, k);
  }

  lemma ShiftArithmetic(s: int, c: int, k: int)
    requires c > 0
    ensures (k - s / c) * c == k * c - s + s % c
  {
    assert s == s / c * c + s % c;
    assert (k - s / c) * c == k * c - s / c * c;
  }

  lemma FirstBidShape(es: seq<Extent>, c: int, k: nat)
    requires ValidSegment(es) && c > 0 && 0 <= k * c < Total(es)
    ensures FirstBid(es, Locate(es, |es|, k * c), c, k) ==
            BlockAt(es, k * c).bid + Shift(es, Locate(es, |es|, k * c), c)
  {
    var f := Locate(es, |es|, k * c);
    TruncIsDivision(es, 1, f, c);
    ShiftArithmetic(Sum(es, f), c, k);
    SingleFirst(Sum(es, f), Sum(es, f + 1), c, k);
  }

  lemma SingleFirst(s: int, t: int, c: int, k: int)
    requires c > 0 && s <= k * c < t
    ensures s / c >= (t - 1) / c ==> s == k * c
  {
    Division.QuotientBounds(s, c, k);
    Division.QuotientBounds(t - 1, c, k);
  }

  lemma LastBidShape(es: seq<Extent>, c: int, k: nat)
    requires ValidSegment(es) && c > 0 && 0 <= k * c < (k + 1) * c <= Total(es)
    ensures LastBid(es, Locate(es, |es|, (k + 1) * c - 1), c, k) ==
            BlockAt(es, (k + 1) * c - 1).bid + Shift(es, Locate(es, |es|, (k + 1) * c - 1), c)
  {
    var l := Locate(es, |es|, (k + 1) * c - 1);
    TruncIsDivision(es, 1, l, c);
    ShiftArithmetic(Sum(es, l), c, k + 1);
    SingleLast(Sum(es, l), Sum(es, l + 1), c, k);
  }

  lemma SingleLast(s: int, t: int, c: int, k: int)
    requires c > 0 && s < (k + 1) * c <= t
    ensures s / c >= (t - 1) / c ==> t == (k + 1) * c
  {
    assert (k + 1) * c == k * c + c;
    Division.QuotientBounds(s, c, k);
    Division.QuotientBounds(t - 1, c, k);
  }
}
