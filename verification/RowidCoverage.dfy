/** What the ROWID ranges of a segment cover, and when they are disjoint. */
module RowidCoverage {
  import opened Wrappers
  import Division
  import opened RowidRanges

  /** The query yields rows for the segment: it is well formed, not filtered out by its size, and large
      enough for n chunks. */
  predicate Splits(es: seq<Extent>, n: nat, sum1: int) {
    ValidSegment(es) && 0 < n < sum1 && Total(es) / n > 0
  }

  function Size(es: seq<Extent>, n: nat): int
    requires n > 0
  {
    Total(es) / n
  }

  lemma Chunks(es: seq<Extent>, n: nat, sum1: int)
    requires Splits(es, n, sum1)
    ensures n * Size(es, n) + Total(es) % n == Total(es)
    ensures forall k :: 0 <= k <= n ==> 0 <= k * Size(es, n) <= n * Size(es, n)
    ensures forall k :: 0 <= k < n ==> (k + 1) * Size(es, n) == k * Size(es, n) + Size(es, n)
  {
    var c := Size(es, n);
    SumMonotone(es, 0, |es|);
    forall k | 0 <= k <= n ensures 0 <= k * c <= n * c {
      Division.ProductMonotone(0, k, c);
      Division.ProductMonotone(k, n, c);
    }
  }

  lemma CollectAll(es: seq<Extent>, c: int, k: nat)
    requires c != 0 && forall j :: 0 <= j < k ==> RangeOf(es, c, j).Some?
    ensures |Collect(es, c, k)| == k
    ensures forall j :: 0 <= j < k ==> Collect(es, c, k)[j] == RangeOf(es, c, j).value
  {
    if k > 0 {
      CollectAll(es, c, k - 1);
    }
  }

  /** The query gives exactly the ranges 1 to n, in order. */
  lemma QueryRows(es: seq<Extent>, n: nat, sum1: int)
    requires Splits(es, n, sum1)
    ensures |Query(es, n, sum1)| == n
    ensures forall k :: 0 <= k < n ==> Some(Query(es, n, sum1)[k]) == RangeOf(es, Size(es, n), k)
    ensures forall k :: 0 <= k < n ==> Query(es, n, sum1)[k].rn == k + 1
  {
    var c := Size(es, n);
    Chunks(es, n, sum1);
    SumMonotone(es, 0, |es|);
    FloorDiv(Total(es), n, 0.0);
    forall k | 0 <= k < n ensures RangeOf(es, c, k).Some? && RangeOf(es, c, k).value.rn == k + 1 {
      assert 0 <= (k + 1) * c <= n * c;
      RowShape(es, c, k);
    }
    CollectAll(es, c, n);
  }

  /** The query gives rows, and then n, exactly if both this segment has enough blocks for n chunks and all segments
      together have more than n blocks. */
  lemma QueryIff(es: seq<Extent>, n: nat, sum1: int)
    requires ValidSegment(es) && n > 0
    ensures Query(es, n, sum1) != [] <==> n < sum1 && n <= Total(es)
    ensures |Query(es, n, sum1)| == if n < sum1 && n <= Total(es) then n else 0
  {
    SumMonotone(es, 0, |es|);
    FloorDiv(Total(es), n, 0.0);
    Division.QuotientBounds(Total(es), n, 1);
    if Splits(es, n, sum1) {
      QueryRows(es, n, sum1);
    }
  }

  /** Range k + 1 holds block b: it selects every row of it, and otherwise none. */
  predicate Holds(r: RangeRow, b: Block) {
    BlockLe(r.predb.block, b) && BlockLe(b, r.prede.block)
  }

  lemma HoldsAllRows(es: seq<Extent>, n: nat, sum1: int, k: nat, b: Block, slot: int)
    requires Splits(es, n, sum1) && k < n && 0 <= slot <= 9999
    ensures |Query(es, n, sum1)| == n
    ensures Selects(Query(es, n, sum1)[k], Rowid(b, slot)) <==> Holds(Query(es, n, sum1)[k], b)
  {
    QueryRows(es, n, sum1);
  }

  // The ends of a range.

  lemma BeginsAt(es: seq<Extent>, n: nat, sum1: int, k: nat, a: int)
    requires Splits(es, n, sum1) && k < n && a == k * Size(es, n)
    ensures 0 <= a && a + Size(es, n) <= Total(es) && |Query(es, n, sum1)| == n
    ensures Query(es, n, sum1)[k].predb.block == Beyond(BlockAt(es, a), Shift(es, Locate(es, |es|, a), Size(es, n)))
  {
    Chunks(es, n, sum1);
    QueryRows(es, n, sum1);
    assert 0 <= (k + 1) * Size(es, n) <= n * Size(es, n);
    RowShape(es, Size(es, n), k);
  }

  lemma EndsAt(es: seq<Extent>, n: nat, sum1: int, k: nat, z: int)
    requires Splits(es, n, sum1) && k < n && z == (k + 1) * Size(es, n)
    ensures 0 < z <= Total(es) && |Query(es, n, sum1)| == n
    ensures Query(es, n, sum1)[k].prede.block == Beyond(BlockAt(es, z - 1), Shift(es, Locate(es, |es|, z - 1), Size(es, n)))
  {
    Chunks(es, n, sum1);
    QueryRows(es, n, sum1);
    assert 0 <= (k + 1) * Size(es, n) <= n * Size(es, n);
    RowShape(es, Size(es, n), k);
  }

  /** A range begins before every block of a later chunk. */
  lemma BeginsBefore(es: seq<Extent>, n: nat, sum1: int, k: nat, p: int)
    requires Splits(es, n, sum1) && k < n && (k + 1) * Size(es, n) <= p < Total(es)
    ensures |Query(es, n, sum1)| == n && BlockLe(Query(es, n, sum1)[k].predb.block, BlockAt(es, p))
  {
    var a := k * Size(es, n);
    assert (k + 1) * Size(es, n) == a + Size(es, n);
    BeginsAt(es, n, sum1, k, a);
    BlocksSpread(es, a, p);
  }

  /** A range ends behind every block of its own and of earlier chunks. */
  lemma EndsBehind(es: seq<Extent>, n: nat, sum1: int, k: nat, p: int)
    requires Splits(es, n, sum1) && k < n && 0 <= p < (k + 1) * Size(es, n)
    ensures p < Total(es) && |Query(es, n, sum1)| == n && BlockLe(BlockAt(es, p), Query(es, n, sum1)[k].prede.block)
  {
    var z := (k + 1) * Size(es, n);
    EndsAt(es, n, sum1, k, z);
    BlocksSpread(es, p, z - 1);
  }

  /** A cut in the middle of extent i, at block `cut` of the segment. */
  lemma CutSpans(es: seq<Extent>, c: int, i: nat, k: int, cut: int)
    requires ValidSegment(es) && i < |es| && c > 0 && cut == k * c && Sum(es, i) < cut < Sum(es, i + 1)
    ensures 0 < cut < Total(es) && Locate(es, |es|, cut - 1) == i == Locate(es, |es|, cut)
    ensures Shift(es, i, c) == Sum(es, i) % c
  {
    LocateUnique(es, i, cut - 1);
    LocateUnique(es, i, cut);
    Division.QuotientBounds(Sum(es, i), c, k - 1);
    Division.QuotientBounds(Sum(es, i + 1) - 1, c, k);
  }

  /** Ranges cut inside one extent meet exactly. */
  lemma CutsMeet(es: seq<Extent>, n: nat, sum1: int, i: nat, k: nat, cut: int)
    requires Splits(es, n, sum1) && i < |es| && 0 < k < n
    requires cut == k * Size(es, n) && Sum(es, i) < cut < Sum(es, i + 1)
    ensures |Query(es, n, sum1)| == n
    ensures Query(es, n, sum1)[k].predb.block == Beyond(Query(es, n, sum1)[k - 1].prede.block, 1)
    ensures Query(es, n, sum1)[k].predb.block == Block(es[i].fid, es[i].bid + cut - Sum(es, i) + Sum(es, i) % Size(es, n))
  {
    CutSpans(es, Size(es, n), i, k, cut);
    BeginsAt(es, n, sum1, k, cut);
    EndsAt(es, n, sum1, k - 1, cut);
  }

  lemma MultipleMod(k: int, c: int)
    requires c > 0
    ensures k * c % c == 0
  {
    var q, r := k * c / c, k * c % c;
    assert k * c == q * c + r;
    assert (k - q) * c == r;
    if k - q >= 1 { Division.ProductMonotone(1, k - q, c); } else if k - q <= -1 { Division.ProductMonotone(k - q, -1, c); }
  }

  // Coverage.

  lemma FirstRangeBegins(es: seq<Extent>, n: nat, sum1: int)
    requires Splits(es, n, sum1)
    ensures |Query(es, n, sum1)| == n && 0 < Total(es) && Query(es, n, sum1)[0].predb.block == BlockAt(es, 0)
  {
    BeginsAt(es, n, sum1, 0, 0);
    FirstBlock(es, Size(es, n));
  }

  lemma FirstBlock(es: seq<Extent>, c: int)
    requires ValidSegment(es) && c > 0 && 0 < Total(es)
    ensures Locate(es, |es|, 0) == 0 && Shift(es, 0, c) == 0
  {
    assert Sum(es, 0) == 0 && |es| > 0;
    assert Sum(es, 1) == Sum(es, 0) + es[0].blocks;
    LocateUnique(es, 0, 0);
  }

  lemma ChunkOf(p: int, c: int, n: int)
    requires c > 0 && 0 <= p < n * c
    ensures 0 <= p / c < n && p / c * c <= p < (p / c + 1) * c
  {
    Division.QuotientBounds(p, c, p / c);
    Division.QuotientBounds(p, c, n - 1);
  }

  /** A block of the chunk of range q + 1 that this range misses is held by the one before. */
  lemma ReachedFromBefore(es: seq<Extent>, n: nat, sum1: int, q: nat, p: int)
    requires Splits(es, n, sum1) && 0 < q < n && q * Size(es, n) <= p < Total(es)
    requires |Query(es, n, sum1)| == n && !BlockLe(Query(es, n, sum1)[q].predb.block, BlockAt(es, p))
    ensures Holds(Query(es, n, sum1)[q - 1], BlockAt(es, p))
  {
    var a := q * Size(es, n);
    BeginsAt(es, n, sum1, q, a);
    BlocksSpread(es, a, p);
    var f := Locate(es, |es|, a);
    MultipleMod(q, Size(es, n));
    CutsMeet(es, n, sum1, f, q, a);
    BeginsBefore(es, n, sum1, q - 1, p);
  }

  /** Every block of the first n chunks is held by some range. */
  lemma BlockHeld(es: seq<Extent>, n: nat, sum1: int, p: int) returns (k: nat)
    requires Splits(es, n, sum1) && 0 <= p < n * Size(es, n)
    ensures k < n && p < Total(es) && |Query(es, n, sum1)| == n && Holds(Query(es, n, sum1)[k], BlockAt(es, p))
  {
    var c := Size(es, n);
    Chunks(es, n, sum1);
    k := p / c;
    ChunkOf(p, c, n);
    EndsBehind(es, n, sum1, k, p);
    if !BlockLe(Query(es, n, sum1)[k].predb.block, BlockAt(es, p)) {
      if k == 0 {
        FirstRangeBegins(es, n, sum1);
        BlocksSpread(es, 0, p);
      }
      ReachedFromBefore(es, n, sum1, k, p);
      k := k - 1;
    }
  }

  /** Every row of every block of the first n chunks is selected by some range. */
  lemma RowsSelected(es: seq<Extent>, n: nat, sum1: int, p: int, slot: int)
    requires Splits(es, n, sum1) && 0 <= p < n * Size(es, n) && 0 <= slot <= 9999
    ensures p < Total(es) && exists r <- Query(es, n, sum1) :: Selects(r, Rowid(BlockAt(es, p), slot))
  {
    var k := BlockHeld(es, n, sum1, p);
    HoldsAllRows(es, n, sum1, k, BlockAt(es, p), slot);
    assert Query(es, n, sum1)[k] in Query(es, n, sum1);
  }

  predicate Covered(es: seq<Extent>, n: nat, sum1: int, p: int)
    requires n > 0 && 0 <= p < Total(es)
  {
    exists r <- Query(es, n, sum1) :: Holds(r, BlockAt(es, p))
  }

  lemma CoveredBelow(es: seq<Extent>, n: nat, sum1: int, p: int)
    requires Splits(es, n, sum1) && 0 <= p < Total(es)
    ensures p < n * Size(es, n) ==> Covered(es, n, sum1, p)
  {
    if p < n * Size(es, n) {
      var k := BlockHeld(es, n, sum1, p);
      assert Query(es, n, sum1)[k] in Query(es, n, sum1);
    }
  }

  /** At most total mod n blocks are in no range, and none if n divides the total. */
  lemma Uncovered(es: seq<Extent>, n: nat, sum1: int)
    requires Splits(es, n, sum1)
    ensures |(set p | 0 <= p < Total(es) && !Covered(es, n, sum1, p))| <= Total(es) % n
  {
    var lost := set p | 0 <= p < Total(es) && !Covered(es, n, sum1, p);
    Chunks(es, n, sum1);
    forall p <- lost ensures n * Size(es, n) <= p < Total(es) {
      CoveredBelow(es, n, sum1, p);
    }
    IntervalSize(lost, n * Size(es, n), Total(es));
  }

  /** The last block that the last range holds, if it is one of the segment: the end of the last chunk, moved by
      the offset of a cut extent. */
  function LastHeld(es: seq<Extent>, n: nat): Block
    requires ValidSegment(es) && n > 0 && 0 < n * Size(es, n) <= Total(es) && Size(es, n) > 0
  {
    var z := n * Size(es, n);
    Beyond(BlockAt(es, z - 1), Shift(es, Locate(es, |es|, z - 1), Size(es, n)))
  }

  lemma LastHeldIs(es: seq<Extent>, n: nat, sum1: int)
    requires Splits(es, n, sum1)
    ensures 0 < n * Size(es, n) <= Total(es) && |Query(es, n, sum1)| == n
    ensures Query(es, n, sum1)[n - 1].prede.block == LastHeld(es, n)
  {
    EndsAt(es, n, sum1, n - 1, n * Size(es, n));
  }

  /** How far behind its own chunk a range reaches. */
  lemma Reach(es: seq<Extent>, n: nat, sum1: int, k: nat, z: int, p: int)
    requires Splits(es, n, sum1) && k < n == |Query(es, n, sum1)| && z == (k + 1) * Size(es, n)
    requires 0 < z <= p < Total(es) && BlockLe(BlockAt(es, p), Query(es, n, sum1)[k].prede.block)
    ensures p < z - 1 + Size(es, n)
  {
    EndsAt(es, n, sum1, k, z);
    BlocksSpread(es, z - 1, p);
    assert Shift(es, Locate(es, |es|, z - 1), Size(es, n)) < Size(es, n);
  }

  lemma ChunkBefore(c: int, n: int, k: int, p: int)
    requires c > 0 && 0 <= k < n && n * c <= p
    ensures (k + 1) * c <= p && (p < (k + 1) * c - 1 + c ==> k == n - 1)
  {
    Division.ProductMonotone(k + 1, n, c);
    if k + 2 <= n {
      Division.ProductMonotone(k + 2, n, c);
    }
    assert (k + 2) * c == (k + 1) * c + c;
  }

  /** Only the last range can hold blocks behind the last chunk. */
  lemma TailByLast(es: seq<Extent>, n: nat, sum1: int, k: nat, p: int)
    requires Splits(es, n, sum1) && k < n == |Query(es, n, sum1)| && n * Size(es, n) <= p < Total(es) && 0 <= p
    requires Holds(Query(es, n, sum1)[k], BlockAt(es, p))
    ensures k == n - 1
  {
    EndsAt(es, n, sum1, k, (k + 1) * Size(es, n));
    ChunkBefore(Size(es, n), n, k, p);
    Reach(es, n, sum1, k, (k + 1) * Size(es, n), p);
  }

  /** A block is in some range if and only if it is one of the first n chunks or not behind the last held one. */
  lemma CoveredIff(es: seq<Extent>, n: nat, sum1: int, p: int)
    requires Splits(es, n, sum1) && 0 <= p < Total(es)
    ensures 0 < n * Size(es, n) <= Total(es)
    ensures Covered(es, n, sum1, p) <==> p < n * Size(es, n) || BlockLe(BlockAt(es, p), LastHeld(es, n))
  {
    var rows := Query(es, n, sum1);
    LastHeldIs(es, n, sum1);
    CoveredBelow(es, n, sum1, p);
    if n * Size(es, n) <= p {
      BeginsBefore(es, n, sum1, n - 1, p);
      assert rows[n - 1] in rows;
      if Covered(es, n, sum1, p) {
        var k :| 0 <= k < n && Holds(rows[k], BlockAt(es, p));
        TailByLast(es, n, sum1, k, p);
      }
    }
  }

  /** n divides the number of blocks, or the last range happens to reach the last block. */
  predicate EndReached(es: seq<Extent>, n: nat)
    requires ValidSegment(es) && n > 0 && 0 < n * Size(es, n) <= Total(es) && Size(es, n) > 0
  {
    Total(es) % n == 0 || BlockLe(BlockAt(es, Total(es) - 1), LastHeld(es, n))
  }

  /** Some range selects the row. */
  predicate Selected(es: seq<Extent>, n: nat, sum1: int, x: Rowid)
    requires n > 0
  {
    exists r <- Query(es, n, sum1) :: Selects(r, x)
  }

  /** No row of the segment is lost if and only if the last block is reached. */
  lemma NothingLostIff(es: seq<Extent>, n: nat, sum1: int)
    requires Splits(es, n, sum1)
    ensures 0 < n * Size(es, n) <= Total(es)
    ensures (forall p, slot :: 0 <= p < Total(es) && 0 <= slot <= 9999 ==> Selected(es, n, sum1, Rowid(BlockAt(es, p), slot))) <==>
            EndReached(es, n)
  {
    LastHeldIs(es, n, sum1);
    var last := Total(es) - 1;
    if EndReached(es, n) {
      forall p, slot | 0 <= p < Total(es) && 0 <= slot <= 9999 ensures Selected(es, n, sum1, Rowid(BlockAt(es, p), slot)) {
        ReachedRows(es, n, sum1, p, slot);
      }
    } else {
      Chunks(es, n, sum1);
      CoveredIff(es, n, sum1, last);
      CoveredRows(es, n, sum1, last, 0);
      assert !Selected(es, n, sum1, Rowid(BlockAt(es, last), 0));
    }
  }

  lemma ReachedRows(es: seq<Extent>, n: nat, sum1: int, p: int, slot: int)
    requires Splits(es, n, sum1) && 0 <= p < Total(es) && 0 <= slot <= 9999
    requires 0 < n * Size(es, n) <= Total(es) && EndReached(es, n)
    ensures Selected(es, n, sum1, Rowid(BlockAt(es, p), slot))
  {
    Chunks(es, n, sum1);
    CoveredIff(es, n, sum1, p);
    BlocksSpread(es, p, Total(es) - 1);
    CoveredRows(es, n, sum1, p, slot);
  }

  lemma CoveredRows(es: seq<Extent>, n: nat, sum1: int, p: int, slot: int)
    requires Splits(es, n, sum1) && 0 <= p < Total(es) && 0 <= slot <= 9999
    ensures Selected(es, n, sum1, Rowid(BlockAt(es, p), slot)) <==> Covered(es, n, sum1, p)
  {
    var rows := Query(es, n, sum1);
    QueryRows(es, n, sum1);
    forall k: nat | k < n ensures Selects(rows[k], Rowid(BlockAt(es, p), slot)) <==> Holds(rows[k], BlockAt(es, p)) {
      HoldsAllRows(es, n, sum1, k, BlockAt(es, p), slot);
    }
    assert forall r <- rows :: exists k :: 0 <= k < n && rows[k] == r;
  }

  /** One extent of ten blocks, cut in three: its last block is in no range. */
  lemma LostExample() returns (es: seq<Extent>)
    ensures Splits(es, 3, 10) && Total(es) == 10 && !Covered(es, 3, 10, 9)
  {
    es := [Extent(1, 0, 10)];
    assert Sum(es, 0) == 0 && Sum(es, 1) == 10;
    assert Size(es, 3) == 3;
    LocateUnique(es, 0, 8);
    LocateUnique(es, 0, 9);
    CoveredIff(es, 3, 10, 9);
  }

  lemma IntervalSize(s: set<int>, lo: int, hi: int)
    requires lo <= hi && forall x <- s :: lo <= x < hi
    ensures |s| <= hi - lo
    decreases hi - lo
  {
    if lo < hi {
      IntervalSize(s - {lo}, lo + 1, hi);
    } else {
      assert s == {};
    }
  }

  // Exactness.

  /** Each range holds exactly the blocks of its own chunk. */
  predicate Exact(es: seq<Extent>, n: nat, sum1: int)
    requires Splits(es, n, sum1) && |Query(es, n, sum1)| == n
  {
    forall k, p :: 0 <= k < n && 0 <= p < Total(es) ==>
      (Holds(Query(es, n, sum1)[k], BlockAt(es, p)) <==> p / Size(es, n) == k)
  }

  /** Every extent that is cut begins with the first block of a chunk. */
  predicate Aligned(es: seq<Extent>, n: nat)
    requires n > 0 && Size(es, n) > 0
  {
    forall i :: 0 <= i < |es| && Spans(es, i, Size(es, n)) && Sum(es, i) / Size(es, n) < n ==>
      Sum(es, i) % Size(es, n) == 0
  }

  lemma BlockLeIff(es: seq<Extent>, p: int, q: int)
    requires ValidSegment(es) && 0 <= p < Total(es) && 0 <= q < Total(es)
    ensures BlockLe(BlockAt(es, p), BlockAt(es, q)) <==> p <= q
  {
    if p <= q {
      BlocksSpread(es, p, q);
    } else {
      BlocksSpread(es, q, p);
    }
  }

  lemma NoShift(es: seq<Extent>, n: nat, p: int, k: int)
    requires ValidSegment(es) && n > 0 && Size(es, n) > 0 && Aligned(es, n)
    requires 0 <= p < Total(es) && p / Size(es, n) == k < n
    ensures Shift(es, Locate(es, |es|, p), Size(es, n)) == 0
  {
    var i, c := Locate(es, |es|, p), Size(es, n);
    Division.QuotientBounds(Sum(es, i), c, k);
    Division.QuotientBounds(p, c, k);
  }

  lemma AlignedEnds(es: seq<Extent>, n: nat, sum1: int, k: nat, a: int, z: int)
    requires Splits(es, n, sum1) && Aligned(es, n) && k < n && a == k * Size(es, n) && z == a + Size(es, n)
    ensures 0 <= a < z <= Total(es) && |Query(es, n, sum1)| == n
    ensures Query(es, n, sum1)[k].predb.block == BlockAt(es, a)
    ensures Query(es, n, sum1)[k].prede.block == BlockAt(es, z - 1)
  {
    var c := Size(es, n);
    assert (k + 1) * c == z;
    BeginsAt(es, n, sum1, k, a);
    EndsAt(es, n, sum1, k, z);
    Division.QuotientBounds(a, c, k);
    Division.QuotientBounds(z - 1, c, k);
    NoShift(es, n, a, k);
    NoShift(es, n, z - 1, k);
  }

  lemma AlignedHolds(es: seq<Extent>, n: nat, sum1: int, k: nat, p: int)
    requires Splits(es, n, sum1) && Aligned(es, n) && k < n && 0 <= p < Total(es)
    ensures |Query(es, n, sum1)| == n
    ensures Holds(Query(es, n, sum1)[k], BlockAt(es, p)) <==> p / Size(es, n) == k
  {
    var a := k * Size(es, n);
    var z := a + Size(es, n);
    AlignedEnds(es, n, sum1, k, a, z);
    BlockLeIff(es, a, p);
    BlockLeIff(es, p, z - 1);
    Between(p, Size(es, n), k, a, z);
  }

  lemma Between(p: int, c: int, k: int, a: int, z: int)
    requires c > 0 && a == k * c && z == a + c
    ensures p / c == k <==> a <= p <= z - 1
  {
    assert (k + 1) * c == z;
    Division.QuotientBounds(p, c, k);
  }

  /** A cut extent that begins inside a chunk makes the range of that chunk reach into the next. */
  lemma MisalignedHolds(es: seq<Extent>, n: nat, sum1: int, i: nat) returns (k: nat, p: int)
    requires Splits(es, n, sum1) && i < |es| && Spans(es, i, Size(es, n))
    requires Sum(es, i) / Size(es, n) < n && Sum(es, i) % Size(es, n) != 0
    ensures k < n && 0 <= p < Total(es) && p / Size(es, n) == k + 1
    ensures |Query(es, n, sum1)| == n && Holds(Query(es, n, sum1)[k], BlockAt(es, p))
  {
    var c := Size(es, n);
    SumMonotone(es, 0, i);
    k, p := Sum(es, i) / c, (Sum(es, i) / c + 1) * c;
    Division.QuotientBounds(Sum(es, i), c, k);
    Division.QuotientBounds(Sum(es, i + 1) - 1, c, k + 1);
    CutSpans(es, c, i, k + 1, p);
    EndsAt(es, n, sum1, k, p);
    BeginsBefore(es, n, sum1, k, p);
    assert (k + 2) * c == p + c;
    Division.QuotientBounds(p, c, k + 1);
  }

  /** The ranges are exactly the chunks if and only if every cut extent is aligned with them. */
  lemma ExactIffAligned(es: seq<Extent>, n: nat, sum1: int)
    requires Splits(es, n, sum1)
    ensures |Query(es, n, sum1)| == n && (Exact(es, n, sum1) <==> Aligned(es, n))
  {
    QueryRows(es, n, sum1);
    if Aligned(es, n) {
      forall k, p | 0 <= k < n && 0 <= p < Total(es)
        ensures Holds(Query(es, n, sum1)[k], BlockAt(es, p)) <==> p / Size(es, n) == k
      {
        AlignedHolds(es, n, sum1, k, p);
      }
    } else {
      var i :| 0 <= i < |es| && Spans(es, i, Size(es, n)) && Sum(es, i) / Size(es, n) < n && Sum(es, i) % Size(es, n) != 0;
      var k, p := MisalignedHolds(es, n, sum1, i);
    }
  }

  /** Then the ranges are pairwise disjoint on the segment. */
  lemma AlignedDisjoint(es: seq<Extent>, n: nat, sum1: int, j: nat, k: nat, p: int)
    requires Splits(es, n, sum1) && Aligned(es, n) && j < k < n && 0 <= p < Total(es)
    ensures |Query(es, n, sum1)| == n
    ensures !(Holds(Query(es, n, sum1)[j], BlockAt(es, p)) && Holds(Query(es, n, sum1)[k], BlockAt(es, p)))
  {
    AlignedHolds(es, n, sum1, j, p);
    AlignedHolds(es, n, sum1, k, p);
  }

  /** Without alignment ranges may overlap: three contiguous extents of 8, 12 and 10 blocks, cut in
      three. */
  lemma OverlapExample() returns (es: seq<Extent>, b: Block)
    ensures Splits(es, 3, 30) && Total(es) == 30 && |Query(es, 3, 30)| == 3
    ensures b == BlockAt(es, 20) && Holds(Query(es, 3, 30)[1], b) && Holds(Query(es, 3, 30)[2], b)
  {
    es := [Extent(1, 0, 8), Extent(1, 8, 12), Extent(1, 20, 10)];
    assert Sum(es, 0) == 0 && Sum(es, 1) == 8 && Sum(es, 2) == 20 && Sum(es, 3) == 30;
    assert Size(es, 3) == 10;
    LocateUnique(es, 1, 10);
    LocateUnique(es, 1, 19);
    LocateUnique(es, 2, 20);
    LocateUnique(es, 2, 29);
    BeginsAt(es, 3, 30, 1, 10);
    EndsAt(es, 3, 30, 1, 20);
    BeginsAt(es, 3, 30, 2, 20);
    EndsAt(es, 3, 30, 2, 30);
    b := BlockAt(es, 20);
  }
}
