/** When the ROWID ranges of a segment overlap: exactly when some range runs on behind the end of a cut
    extent and the next extent follows too closely in the same file. */
module RowidOverlap {
  import Division
  import opened RowidRanges
  import opened RowidCoverage

  /** Extent i is cut, begins inside a chunk and ends with one that is not the last, and the next extent
      begins in the same file before the range of that chunk ends. */
  predicate Spills(es: seq<Extent>, n: nat, i: nat)
    requires n > 0 && Size(es, n) > 0 && i < |es|
  {
    var c, end := Size(es, n), Sum(es, i + 1);
    && i + 1 < |es| && end % c == 0 && end < n * c
    && es[i + 1].fid == es[i].fid
    && es[i + 1].bid < es[i].bid + es[i].blocks + Shift(es, i, c)
  }

  predicate Twice(es: seq<Extent>, n: nat, sum1: int, j: nat, k: nat, p: int)
    requires 0 < n && j < k < |Query(es, n, sum1)| && 0 <= p < Total(es)
  {
    Holds(Query(es, n, sum1)[j], BlockAt(es, p)) && Holds(Query(es, n, sum1)[k], BlockAt(es, p))
  }

  lemma BlockLeTrans(a: Block, b: Block, d: Block)
    requires BlockLe(a, b) && BlockLe(b, d)
    ensures BlockLe(a, d)
  {
  }

  /** A range begins nowhere before its chunk. */
  lemma BeginsNotBefore(es: seq<Extent>, n: nat, sum1: int, k: nat, p: int)
    requires Splits(es, n, sum1) && k < n == |Query(es, n, sum1)| && 0 <= p < Total(es)
    requires BlockLe(Query(es, n, sum1)[k].predb.block, BlockAt(es, p))
    ensures k * Size(es, n) <= p
  {
    var a := k * Size(es, n);
    BeginsAt(es, n, sum1, k, a);
    BlockLeIff(es, a, p);
  }

  /** Ranges that share a block are neighbours. */
  lemma Neighbours(es: seq<Extent>, n: nat, sum1: int, j: nat, k: nat, p: int)
    requires Splits(es, n, sum1) && j < k < n && |Query(es, n, sum1)| == n && 0 <= p < Total(es)
    requires Twice(es, n, sum1, j, k, p)
    ensures k == j + 1
  {
    var c := Size(es, n);
    BeginsNotBefore(es, n, sum1, k, p);
    ChunkBefore(c, k, j, p);
    EndsAt(es, n, sum1, j, (j + 1) * c);
    Reach(es, n, sum1, j, (j + 1) * c, p);
  }

  /** Where the cut between two neighbours falls on the end of extent i. */
  lemma CutAtEnd(es: seq<Extent>, n: nat, sum1: int, i: nat, k: nat, cut: int)
    requires Splits(es, n, sum1) && i < |es| && 0 < k < n && cut == k * Size(es, n) == Sum(es, i + 1)
    ensures i + 1 < |es| && |Query(es, n, sum1)| == n && 0 <= cut < Total(es) && cut % Size(es, n) == 0 && cut < n * Size(es, n)
    ensures Query(es, n, sum1)[k].predb.block == BlockAt(es, cut) == Block(es[i + 1].fid, es[i + 1].bid)
    ensures Query(es, n, sum1)[k - 1].prede.block ==
            Block(es[i].fid, es[i].bid + es[i].blocks - 1 + Shift(es, i, Size(es, n)))
  {
    var c := Size(es, n);
    BeginsAt(es, n, sum1, k, cut);
    EndsAt(es, n, sum1, k - 1, cut);
    Chunks(es, n, sum1);
    assert (k + 1) * c <= n * c;
    MultipleMod(k, c);
    assert i + 1 < |es|;
    SumMonotone(es, 0, i);
    assert Sum(es, i + 2) == Sum(es, i + 1) + es[i + 1].blocks;
    LocateUnique(es, i, cut - 1);
    LocateUnique(es, i + 1, cut);
  }

  lemma NeighboursSpill(es: seq<Extent>, n: nat, sum1: int, k: nat, p: int) returns (i: nat)
    requires Splits(es, n, sum1) && 0 < k < n && |Query(es, n, sum1)| == n && 0 <= p < Total(es)
    requires Twice(es, n, sum1, k - 1, k, p)
    ensures i < |es| && Spills(es, n, i)
  {
    var c := Size(es, n);
    var cut := k * c;
    BeginsAt(es, n, sum1, k, cut);
    Division.ProductMonotone(1, k, c);
    i := Locate(es, |es|, cut - 1);
    BlockLeTrans(Query(es, n, sum1)[k].predb.block, BlockAt(es, p), Query(es, n, sum1)[k - 1].prede.block);
    if cut < Sum(es, i + 1) && Sum(es, i) < cut {
      CutsMeet(es, n, sum1, i, k, cut);
    }
    assert cut == Sum(es, i + 1);
    CutAtEnd(es, n, sum1, i, k, cut);
  }

  lemma ChunkNumber(cut: int, c: int, n: nat) returns (k: nat)
    requires c > 0 && 0 < cut < n * c && cut % c == 0
    ensures 0 < k < n && cut == k * c && (k + 1) * c == cut + c && (k - 1 + 1) * c == cut
  {
    k := cut / c;
    Division.QuotientBounds(cut, c, n - 1);
  }

  lemma SpillTwice(es: seq<Extent>, n: nat, sum1: int, i: nat) returns (k: nat)
    requires Splits(es, n, sum1) && i < |es| && Spills(es, n, i)
    ensures 0 < k < n == |Query(es, n, sum1)| && 0 <= Sum(es, i + 1) < Total(es)
    ensures Twice(es, n, sum1, k - 1, k, Sum(es, i + 1))
  {
    var c, cut := Size(es, n), Sum(es, i + 1);
    SumMonotone(es, 0, i + 1);
    k := ChunkNumber(cut, c, n);
    CutAtEnd(es, n, sum1, i, k, cut);
    EndsBehind(es, n, sum1, k, cut);
    BeginsBefore(es, n, sum1, k - 1, cut);
    SpillReaches(es, n, sum1, i, k, cut);
  }

  lemma SpillReaches(es: seq<Extent>, n: nat, sum1: int, i: nat, k: nat, cut: int)
    requires Splits(es, n, sum1) && i < |es| && Spills(es, n, i) && 0 < k < n && cut == k * Size(es, n) == Sum(es, i + 1)
    ensures |Query(es, n, sum1)| == n && 0 <= cut < Total(es)
    ensures BlockLe(Query(es, n, sum1)[k].predb.block, BlockAt(es, cut))
    ensures BlockLe(BlockAt(es, cut), Query(es, n, sum1)[k - 1].prede.block)
  {
    CutAtEnd(es, n, sum1, i, k, cut);
  }

  /** No two ranges share a block of the segment, if and only if no extent spills. */
  lemma DisjointIff(es: seq<Extent>, n: nat, sum1: int)
    requires Splits(es, n, sum1)
    ensures |Query(es, n, sum1)| == n
    ensures (forall j: nat, k: nat, p :: j < k < n && 0 <= p < Total(es) ==> !Twice(es, n, sum1, j, k, p)) <==>
            (forall i :: 0 <= i < |es| ==> !Spills(es, n, i))
  {
    QueryRows(es, n, sum1);
    if forall i :: 0 <= i < |es| ==> !Spills(es, n, i) {
      forall j: nat, k: nat, p | j < k < n && 0 <= p < Total(es) ensures !Twice(es, n, sum1, j, k, p) {
        if Twice(es, n, sum1, j, k, p) {
          Neighbours(es, n, sum1, j, k, p);
          var i := NeighboursSpill(es, n, sum1, k, p);
        }
      }
    } else {
      var i :| 0 <= i < |es| && Spills(es, n, i);
      var k := SpillTwice(es, n, sum1, i);
    }
  }

  /** Exactly one range selects the row. */
  predicate Once(es: seq<Extent>, n: nat, sum1: int, x: Rowid)
    requires n > 0
  {
    var rows := Query(es, n, sum1);
    exists k :: 0 <= k < |rows| && Selects(rows[k], x) && forall j :: 0 <= j < |rows| && Selects(rows[j], x) ==> j == k
  }

  lemma BlockOnce(es: seq<Extent>, n: nat, sum1: int, p: int, slot: int)
    requires Splits(es, n, sum1) && 0 <= p < n * Size(es, n) && 0 <= slot <= 9999
    requires forall i :: 0 <= i < |es| ==> !Spills(es, n, i)
    ensures p < Total(es) && Once(es, n, sum1, Rowid(BlockAt(es, p), slot))
  {
    var rows := Query(es, n, sum1);
    var k := BlockHeld(es, n, sum1, p);
    HoldsAllRows(es, n, sum1, k, BlockAt(es, p), slot);
    DisjointIff(es, n, sum1);
    forall j: nat | j < n && Selects(rows[j], Rowid(BlockAt(es, p), slot)) ensures j == k {
      HoldsAllRows(es, n, sum1, j, BlockAt(es, p), slot);
      assert j < k ==> !Twice(es, n, sum1, j, k, p);
      assert k < j ==> !Twice(es, n, sum1, k, j, p);
    }
  }

  lemma NotOnce(es: seq<Extent>, n: nat, sum1: int, j: nat, k: nat, p: int, slot: int)
    requires Splits(es, n, sum1) && j < k < n == |Query(es, n, sum1)| && 0 <= p < Total(es) && 0 <= slot <= 9999
    requires Twice(es, n, sum1, j, k, p)
    ensures !Once(es, n, sum1, Rowid(BlockAt(es, p), slot))
  {
    HoldsAllRows(es, n, sum1, j, BlockAt(es, p), slot);
    HoldsAllRows(es, n, sum1, k, BlockAt(es, p), slot);
  }

  predicate NothingSpills(es: seq<Extent>, n: nat)
    requires n > 0 && Size(es, n) > 0
  {
    forall i :: 0 <= i < |es| ==> !Spills(es, n, i)
  }

  /** Every row of the blocks lo to hi - 1 is selected exactly once. */
  ghost predicate AllOnce(es: seq<Extent>, n: nat, sum1: int, lo: int, hi: int)
    requires n > 0 && 0 <= lo <= hi <= Total(es)
  {
    forall p, slot :: lo <= p < hi && 0 <= slot <= 9999 ==> Once(es, n, sum1, Rowid(BlockAt(es, p), slot))
  }

  /** Every row of the first n chunks is unloaded exactly once if and only if no extent spills. */
  lemma OnceIff(es: seq<Extent>, n: nat, sum1: int)
    requires Splits(es, n, sum1)
    ensures 0 <= n * Size(es, n) <= Total(es)
    ensures AllOnce(es, n, sum1, 0, n * Size(es, n)) <==> NothingSpills(es, n)
  {
    Chunks(es, n, sum1);
    if NothingSpills(es, n) {
      forall p, slot | 0 <= p < n * Size(es, n) && 0 <= slot <= 9999 ensures Once(es, n, sum1, Rowid(BlockAt(es, p), slot)) {
        BlockOnce(es, n, sum1, p, slot);
      }
    } else {
      var i :| 0 <= i < |es| && Spills(es, n, i);
      var k := SpillTwice(es, n, sum1, i);
      NotOnce(es, n, sum1, k - 1, k, Sum(es, i + 1), 0);
      assert !Once(es, n, sum1, Rowid(BlockAt(es, Sum(es, i + 1)), 0));
    }
  }

  lemma TailOnce(es: seq<Extent>, n: nat, sum1: int, p: int, slot: int)
    requires Splits(es, n, sum1) && 0 <= p && n * Size(es, n) <= p < Total(es) && 0 <= slot <= 9999
    ensures Once(es, n, sum1, Rowid(BlockAt(es, p), slot)) <==> Selected(es, n, sum1, Rowid(BlockAt(es, p), slot))
  {
    var rows := Query(es, n, sum1);
    QueryRows(es, n, sum1);
    forall j: nat | j < n && Selects(rows[j], Rowid(BlockAt(es, p), slot)) ensures j == n - 1 {
      HoldsAllRows(es, n, sum1, j, BlockAt(es, p), slot);
      TailByLast(es, n, sum1, j, p);
    }
  }

  lemma ReachedOnce(es: seq<Extent>, n: nat, sum1: int)
    requires Splits(es, n, sum1) && 0 < n * Size(es, n) <= Total(es) && EndReached(es, n)
    requires AllOnce(es, n, sum1, 0, n * Size(es, n))
    ensures AllOnce(es, n, sum1, 0, Total(es))
  {
    forall p, slot | 0 <= p < Total(es) && 0 <= slot <= 9999 ensures Once(es, n, sum1, Rowid(BlockAt(es, p), slot)) {
      if n * Size(es, n) <= p {
        ReachedRows(es, n, sum1, p, slot);
        TailOnce(es, n, sum1, p, slot);
      }
    }
  }

  lemma NotReached(es: seq<Extent>, n: nat, sum1: int)
    requires Splits(es, n, sum1) && 0 < n * Size(es, n) <= Total(es) && !EndReached(es, n)
    ensures !AllOnce(es, n, sum1, 0, Total(es))
  {
    NothingLostIff(es, n, sum1);
    var p, slot :| 0 <= p < Total(es) && 0 <= slot <= 9999 && !Selected(es, n, sum1, Rowid(BlockAt(es, p), slot));
    assert !Once(es, n, sum1, Rowid(BlockAt(es, p), slot));
  }

  /** Every row of the segment is unloaded exactly once if and only if no extent spills and the last range
      reaches the last block. */
  lemma EveryRowOnceIff(es: seq<Extent>, n: nat, sum1: int)
    requires Splits(es, n, sum1)
    ensures 0 < n * Size(es, n) <= Total(es)
    ensures AllOnce(es, n, sum1, 0, Total(es)) <==> NothingSpills(es, n) && EndReached(es, n)
  {
    LastHeldIs(es, n, sum1);
    OnceIff(es, n, sum1);
    if EndReached(es, n) {
      if NothingSpills(es, n) {
        ReachedOnce(es, n, sum1);
      }
    } else {
      NotReached(es, n, sum1);
    }
  }
}
