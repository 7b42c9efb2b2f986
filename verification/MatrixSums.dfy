/** The check sum of a result matrix (software/coremark_app/cmark.c:1453-1481): what matrix_sum counts. */
module MatrixSums {
  import opened Words

  // The words of the code, for short.
  function Wrap16(x: int): S16 { ToS16(x) }
  function Wrap32(x: int): S32 { ToS32(x) }

  datatype SumState = SumState(tmp: S32, prev: S32, ret: S16)

  // One cell on.
  function Rated(s: SumState, cur: S32, clipval: S16): SumState {
    if Wrap32(s.tmp + cur) > clipval then SumState(0, cur, Wrap16(s.ret + 10))
    else SumState(Wrap32(s.tmp + cur), cur, Wrap16(s.ret + if cur > s.prev then 1 else 0))
  }

  function SumOf(c: seq<S32>, k: nat, clipval: S16): SumState
    requires k <= |c|
  {
    if k == 0 then SumState(0, 0, 0) else Rated(SumOf(c, k - 1, clipval), c[k - 1], clipval)
  }

  lemma SumNone(c: seq<S32>, clipval: S16)
    ensures SumOf(c, 0, clipval) == SumState(0, 0, 0)
  {
  }

  lemma SumStep(c: seq<S32>, k: nat, clipval: S16)
    requires 0 < k <= |c|
    ensures SumOf(c, k, clipval) == Rated(SumOf(c, k - 1, clipval), c[k - 1], clipval)
  {
  }

  // ---------- what it means ----------

  // Cells are added up in segments. The one that cell i belongs to starts behind the last cell before i at which the
  // sum of a segment went over clipval.
  function SegmentStart(c: seq<S32>, clipval: S16, i: nat): (s: nat)
    requires i <= |c|
    ensures s <= i && (s > 0 ==> Clips(c, clipval, s - 1)) && forall j | s <= j < i :: !Clips(c, clipval, j)
    decreases i, 0
  {
    if i == 0 then 0 else if Clips(c, clipval, i - 1) then i else SegmentStart(c, clipval, i - 1)
  }

  // The sum of the segment goes over clipval at cell i.
  predicate Clips(c: seq<S32>, clipval: S16, i: nat)
    requires i < |c|
    decreases i, 1
  {
    Wrap32(Total(c, SegmentStart(c, clipval, i), i + 1)) > clipval
  }

  function Total(c: seq<S32>, lo: nat, hi: nat): int
    requires lo <= hi <= |c|
    decreases hi
  {
    if hi <= lo then 0 else Total(c, lo, hi - 1) + c[hi - 1]
  }

  function Before(c: seq<S32>, i: nat): S32
    requires i <= |c|
  {
    if i == 0 then 0 else c[i - 1]
  }

  // Greater than the cell before it, the first one than zero.
  predicate Rises(c: seq<S32>, i: nat)
    requires i < |c|
  {
    c[i] > Before(c, i)
  }

  function Clipped(c: seq<S32>, clipval: S16, k: nat): set<nat>
    requires k <= |c|
  {
    set i: nat | i < k && Clips(c, clipval, i)
  }

  function Risen(c: seq<S32>, clipval: S16, k: nat): set<nat>
    requires k <= |c|
  {
    set i: nat | i < k && !Clips(c, clipval, i) && Rises(c, i)
  }

  function Count(c: seq<S32>, clipval: S16, k: nat): nat
    requires k <= |c|
  {
    10 * |Clipped(c, clipval, k)| + |Risen(c, clipval, k)|
  }

  lemma NoneCounted(c: seq<S32>, clipval: S16)
    ensures |Clipped(c, clipval, 0)| == |Risen(c, clipval, 0)| == 0
  {
    assert Clipped(c, clipval, 0) == {} && Risen(c, clipval, 0) == {};
  }

  lemma OneMoreClipped(c: seq<S32>, clipval: S16, k: nat)
    requires 0 < k <= |c|
    ensures |Clipped(c, clipval, k)| == |Clipped(c, clipval, k - 1)| + if Clips(c, clipval, k - 1) then 1 else 0
  {
    hide Clips;
    var clipped := Clipped(c, clipval, k - 1);
    assert Clipped(c, clipval, k) == if Clips(c, clipval, k - 1) then clipped + {k - 1} else clipped;
  }

  lemma OneMoreRisen(c: seq<S32>, clipval: S16, k: nat)
    requires 0 < k <= |c|
    ensures |Risen(c, clipval, k)| == |Risen(c, clipval, k - 1)| +
                                      if !Clips(c, clipval, k - 1) && Rises(c, k - 1) then 1 else 0
  {
    hide Clips, Rises;
    var risen := Risen(c, clipval, k - 1);
    assert Risen(c, clipval, k) == if !Clips(c, clipval, k - 1) && Rises(c, k - 1) then risen + {k - 1} else risen;
  }

  lemma OneMoreCounted(c: seq<S32>, clipval: S16, k: nat)
    requires 0 < k <= |c|
    ensures Count(c, clipval, k) == Count(c, clipval, k - 1) +
                                    if Clips(c, clipval, k - 1) then 10 else if Rises(c, k - 1) then 1 else 0
  {
    hide Clipped, Risen, Clips, Rises;
    OneMoreClipped(c, clipval, k);
    OneMoreRisen(c, clipval, k);
  }

  lemma AddedToWrapped(x: int, y: int)
    ensures Wrap32(Wrap32(x) + y) == Wrap32(x + y)
  {
    assert (x - ToS32(x)) % 0x1_0000_0000 == 0;
  }

  lemma RatedToWrapped(x: int, y: int)
    ensures Wrap16(Wrap16(x) + y) == Wrap16(x + y)
  {
    assert (x - ToS16(x)) % 0x1_0000 == 0;
  }

  function Expected(c: seq<S32>, k: nat, clipval: S16): SumState
    requires k <= |c|
  {
    SumState(Wrap32(Total(c, SegmentStart(c, clipval, k), k)), Before(c, k), Wrap16(Count(c, clipval, k)))
  }

  // The accumulator holds the sum of the segment under way; the result is ten for every cell at which a segment is
  // clipped and one for every other cell that rises, in 16 bits.
  lemma {:induction false} SumCounts(c: seq<S32>, k: nat, clipval: S16)
    requires k <= |c|
    ensures SumOf(c, k, clipval) == Expected(c, k, clipval)
    ensures SumOf(c, k, clipval).ret == Wrap16(10 * |Clipped(c, clipval, k)| + |Risen(c, clipval, k)|)
    decreases k
  {
    hide Clipped, Risen, Wrap16, Clips;
    if k == 0 {
      NoneCounted(c, clipval);
      ZeroSums(c, clipval);
    } else {
      hide SumOf, Rated;
      SumCounts(c, k - 1, clipval);
      SumStep(c, k, clipval);
      ExpectedStep(c, k, clipval);
    }
  }

  lemma WrapZero()
    ensures Wrap32(0) == 0
  {
  }

  lemma ZeroSums(c: seq<S32>, clipval: S16)
    ensures Wrap16(0) == 0 == Wrap32(Total(c, SegmentStart(c, clipval, 0), 0))
  {
  }

  lemma ExpectedStep(c: seq<S32>, k: nat, clipval: S16)
    requires 0 < k <= |c|
    ensures Rated(Expected(c, k - 1, clipval), c[k - 1], clipval) == Expected(c, k, clipval)
  {
    hide *;
    var count, cur, prev := Count(c, clipval, k - 1), c[k - 1], Before(c, k - 1);
    var tmp := Wrap32(Total(c, SegmentStart(c, clipval, k - 1), k - 1));
    SegmentSum(c, k, clipval);
    OneMoreCounted(c, clipval, k);
    RatedIs(tmp, prev, count, cur, clipval);
    ExpectedIs(c, k - 1, clipval);
    ExpectedIs(c, k, clipval);
    Neighbours(c, k);
  }

  lemma RatedIs(tmp: S32, prev: S32, count: int, cur: S32, clipval: S16)
    ensures Rated(SumState(tmp, prev, Wrap16(count)), cur, clipval) ==
            if Wrap32(tmp + cur) > clipval then SumState(0, cur, Wrap16(count + 10))
            else SumState(Wrap32(tmp + cur), cur, Wrap16(count + if cur > prev then 1 else 0))
  {
    RatedToWrapped(count, 10);
    RatedToWrapped(count, 1);
    RatedToWrapped(count, 0);
    hide Wrap16, Wrap32;
  }

  lemma ExpectedIs(c: seq<S32>, k: nat, clipval: S16)
    requires k <= |c|
    ensures Expected(c, k, clipval) ==
            SumState(Wrap32(Total(c, SegmentStart(c, clipval, k), k)), Before(c, k), Wrap16(Count(c, clipval, k)))
  {
  }

  lemma Neighbours(c: seq<S32>, k: nat)
    requires 0 < k <= |c|
    ensures Before(c, k) == c[k - 1] && (Rises(c, k - 1) <==> c[k - 1] > Before(c, k - 1))
  {
  }

  lemma SegmentSum(c: seq<S32>, k: nat, clipval: S16)
    requires 0 < k <= |c|
    ensures var sum := Wrap32(Wrap32(Total(c, SegmentStart(c, clipval, k - 1), k - 1)) + c[k - 1]);
            (Clips(c, clipval, k - 1) <==> sum > clipval) &&
            Wrap32(Total(c, SegmentStart(c, clipval, k), k)) == if Clips(c, clipval, k - 1) then 0 else sum
  {
    hide Wrap32;
    var start := SegmentStart(c, clipval, k - 1);
    WrapZero();
    AddedToWrapped(Total(c, start, k - 1), c[k - 1]);
    assert Total(c, start, k) == Total(c, start, k - 1) + c[k - 1];
    assert SegmentStart(c, clipval, k) == if Clips(c, clipval, k - 1) then k else start;
  }

  // So up to 3276 cells the result is that number itself, at most ten a cell.
  lemma SumBounded(c: seq<S32>, k: nat, clipval: S16)
    requires k <= |c| && k <= 3276
    ensures SumOf(c, k, clipval).ret == 10 * |Clipped(c, clipval, k)| + |Risen(c, clipval, k)| <= 10 * k
  {
    hide Clipped, Risen, SumOf;
    SumCounts(c, k, clipval);
    RatedAtMost(c, clipval, k);
  }

  lemma {:induction false} RatedAtMost(c: seq<S32>, clipval: S16, k: nat)
    requires k <= |c|
    ensures |Clipped(c, clipval, k)| + |Risen(c, clipval, k)| <= k
    decreases k
  {
    hide Clipped, Risen, Clips, Rises;
    if k == 0 {
      NoneCounted(c, clipval);
    } else {
      RatedAtMost(c, clipval, k - 1);
      OneMoreClipped(c, clipval, k);
      OneMoreRisen(c, clipval, k);
    }
  }
}
