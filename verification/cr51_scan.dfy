/** Finding the next aligned magic value. */
module Cr51Scan {
  import opened Bytes
  import opened Options
  import opened BitMask
  import opened Cr51Format
  import opened Cr51Context

  /** `((x - 1) & ~(alignment - 1)) + alignment` on 32-bit words. */
  function RoundUp(x: u32, alignment: u32): u32
    requires alignment > 0
  {
    Wrap32(And(Sub32(x, 1), TWO32 - alignment) + alignment)
  }

  predicate PowerOfTwo(x: u32) { x != 0 && And(x, x - 1) == 0 }

  lemma WordIsPow2()
    ensures TWO32 == Pow2(32)
  {
    assert Pow2(8) == 0x100;
    assert Pow2(12) == 0x1000;
    assert Pow2(16) == 0x1_0000;
    assert Pow2(20) == 0x10_0000;
    assert Pow2(24) == 0x100_0000;
    assert Pow2(28) == 0x1000_0000;
  }

  lemma {:induction false} Pow2Monotone(j: nat, k: nat)
    requires j <= k
    ensures Pow2(j) <= Pow2(k)
    ensures Pow2(k) % Pow2(j) == 0
    decreases k - j
  {
    if j < k {
      Pow2Monotone(j, k - 1);
      var q := Pow2(k - 1) / Pow2(j);
      ModUnique(Pow2(k), Pow2(j), 2 * q, 0);
    }
  }

  /** The width of an alignment: a 32-bit power of two divides 2^32. */
  lemma AlignmentWidth(alignment: u32) returns (k: nat)
    requires PowerOfTwo(alignment)
    ensures alignment == Pow2(k) && k < 32
    ensures TWO32 % alignment == 0
  {
    PowerOfTwoTest(alignment);
    k :| alignment == Pow2(k);
    WordIsPow2();
    if k >= 32 {
      Pow2Monotone(32, k);
      assert false;
    }
    Pow2Monotone(k, 32);
  }

  lemma MultipleBelow(x: nat, m: nat, n: nat)
    requires n > 0 && x % n == 0 && m % n == 0 && x < m
    ensures x + n <= m
  {
    var a, b := x / n, m / n;
    assert (b - a) * n > 0;
    assert b - a >= 1 ==> (b - a) * n >= n;
    assert b - a <= 0 ==> (b - a) * n <= 0;
  }

  /** The block of the address space that `y` lies in. */
  lemma BlockOf(y: u32, alignment: u32) returns (down: nat)
    requires alignment > 0 && TWO32 % alignment == 0
    ensures down == y - y % alignment && down <= y < down + alignment
    ensures (down + alignment) % alignment == 0
    ensures down + alignment <= TWO32
    ensures y >= TWO32 - alignment ==> down + alignment == TWO32
  {
    var q := y / alignment;
    down := y - y % alignment;
    ModUnique(down, alignment, q, 0);
    ModUnique(down + alignment, alignment, q + 1, 0);
    MultipleBelow(down, TWO32, alignment);
    if down + alignment < TWO32 {
      MultipleBelow(down + alignment, TWO32, alignment);
    }
  }

  lemma MaskClears(y: u32, alignment: u32)
    requires PowerOfTwo(alignment)
    ensures And(y, TWO32 - alignment) == y - y % alignment
  {
    var k := AlignmentWidth(alignment);
    WordIsPow2();
    AndMask(y, 32, k);
  }

  lemma WrapOnce(v: nat)
    requires v <= TWO32
    ensures Wrap32(v) == if v < TWO32 then v else 0
  {
  }

  lemma NextBlock(y: u32, alignment: u32, masked: nat) returns (next: u32)
    requires alignment > 0 && TWO32 % alignment == 0 && masked == y - y % alignment
    ensures next == Wrap32(masked + alignment) && next % alignment == 0
    ensures if y < TWO32 - alignment then y < next <= y + alignment else next == 0
  {
    var down := BlockOf(y, alignment);
    WrapOnce(down + alignment);
    next := if down + alignment < TWO32 then down + alignment else 0;
  }

  /** Rounding up yields the least multiple that is not below, also for 0; in the last block of
      the address space it wraps to 0. */
  lemma RoundUpMeans(x: u32, alignment: u32)
    requires PowerOfTwo(alignment)
    ensures RoundUp(x, alignment) % alignment == 0
    ensures x <= TWO32 - alignment ==> x <= RoundUp(x, alignment) < x + alignment
    ensures x > TWO32 - alignment ==> RoundUp(x, alignment) == 0
  {
    hide And;
    var k := AlignmentWidth(alignment);
    MaskClears(Sub32(x, 1), alignment);
    var next := NextBlock(Sub32(x, 1), alignment, And(Sub32(x, 1), TWO32 - alignment));
  }

  predicate Holds(f: Flash, magic: u64, offset: nat) {
    offset + 8 <= |f.data| && Le64(f.data, offset) == magic
  }

  /** The search from an aligned offset on. */
  function ScanFrom(f: Flash, magic: u64, offset: u32, limit: u32, alignment: u32): Result<u32>
    requires alignment > 0 && limit - 8 <= TWO32 - alignment
    decreases limit - offset
  {
    if offset >= limit - 8 then Err(FailedToLocateMagic)
    else if !CanRead(f, offset, 8) then Err(ReadFailed)
    else if Holds(f, magic, offset) then Ok(offset)
    else ScanFrom(f, magic, offset + alignment, limit, alignment)
  }

  predicate BadArguments(start: u32, limit: u32, end: u32, alignment: u32) {
    limit <= start || limit > end || limit < 8 || !PowerOfTwo(alignment)
  }

  function Scan(f: Flash, magic: u64, start: u32, limit: u32, end: u32, alignment: u32): Result<u32>
    requires limit - 8 <= TWO32 - alignment
  {
    if BadArguments(start, limit, end, alignment) then Err(InvalidArgument)
    else ScanFrom(f, magic, RoundUp(start, alignment), limit, alignment)
  }

  lemma ReadHolds(f: Flash, magic: u64, offset: nat)
    requires CanRead(f, offset, 8)
    ensures Le64(Read(f, offset, 8).value, 0) == magic <==> Holds(f, magic, offset)
  {
    Le64OfSlice(f.data, offset, 8, 0);
  }

  // ----- The loop, for every call that returns -----

  /** The k-th offset the loop would look at. */
  function ProbeAt(start: u32, alignment: u32, k: nat): u32 {
    Wrap32(start + k * alignment)
  }

  lemma NextProbe(start: u32, alignment: u32, k: nat)
    ensures ProbeAt(start, alignment, k + 1) == Add32(ProbeAt(start, alignment, k), alignment)
  {
    var q, x := (start + k * alignment) / TWO32, ProbeAt(start, alignment, k);
    assert start + (k + 1) * alignment == q * TWO32 + x + alignment;
    if x + alignment < TWO32 {
      ModUnique(start + (k + 1) * alignment, TWO32, q, x + alignment);
    } else {
      ModUnique(start + (k + 1) * alignment, TWO32, q + 1, x + alignment - TWO32);
    }
  }

  lemma FirstProbe(start: u32, alignment: u32)
    ensures ProbeAt(start, alignment, 0) == start
  {
  }

  /** The loop is over at its k-th offset: behind the limit, unreadable, or holding the magic. */
  predicate Stops(f: Flash, magic: u64, first: u32, limit: u32, alignment: u32, k: nat) {
    var x := ProbeAt(first, alignment, k);
    x >= limit - 8 || !CanRead(f, x, 8) || Holds(f, magic, x)
  }

  ghost predicate Ends(f: Flash, magic: u64, first: u32, limit: u32, alignment: u32) {
    exists k: nat :: Stops(f, magic, first, limit, alignment, k)
  }

  function StopStatus(f: Flash, x: u32, limit: u32): Result<u32> {
    if x >= limit - 8 then Err(FailedToLocateMagic) else if !CanRead(f, x, 8) then Err(ReadFailed) else Ok(x)
  }

  ghost predicate StopsFirst(f: Flash, magic: u64, first: u32, limit: u32, alignment: u32, k: nat) {
    && Stops(f, magic, first, limit, alignment, k)
    && forall j: nat :: j < k ==> !Stops(f, magic, first, limit, alignment, j)
  }

  /** The loop ends with `r`: what its first such offset says. */
  ghost predicate EndsWith(f: Flash, magic: u64, first: u32, limit: u32, alignment: u32, r: Result<u32>) {
    exists k: nat :: StopsFirst(f, magic, first, limit, alignment, k) && r == StopStatus(f, ProbeAt(first, alignment, k), limit)
  }

  method ScanAligned(ctx: Context, magic: u64, first: u32, limit: u32, alignment: u32) returns (r: Result<u32>)
    requires Ends(ctx.flash, magic, first, limit, alignment)
    ensures EndsWith(ctx.flash, magic, first, limit, alignment, r)
  {
    hide ProbeAt, Holds;
    FirstProbe(first, alignment);
    ghost var last: nat :| Stops(ctx.flash, magic, first, limit, alignment, last);
    ghost var k: nat := 0;
    var offset: u32 := first;
    while offset < limit - 8
      invariant offset == ProbeAt(first, alignment, k) && k <= last
      invariant forall j: nat :: j < k ==> !Stops(ctx.flash, magic, first, limit, alignment, j)
      decreases last - k
    {
      var read := Read(ctx.flash, offset, 8);
      if read.None? {
        assert StopsFirst(ctx.flash, magic, first, limit, alignment, k);
        return Err(ReadFailed);
      }
      ReadHolds(ctx.flash, magic, offset);
      if Le64(read.value, 0) == magic {
        assert StopsFirst(ctx.flash, magic, first, limit, alignment, k);
        return Ok(offset);
      }
      NextProbe(first, alignment, k);
      assert !Stops(ctx.flash, magic, first, limit, alignment, k);
      offset, k := Add32(offset, alignment), k + 1;
    }
    assert StopsFirst(ctx.flash, magic, first, limit, alignment, k);
    return Err(FailedToLocateMagic);
  }

  method ScanForMagic8(ctx: Context, magic: u64, start: u32, limit: u32, alignment: u32) returns (r: Result<u32>)
    requires !BadArguments(start, limit, ctx.endOffset, alignment) ==>
               Ends(ctx.flash, magic, RoundUp(start, alignment), limit, alignment)
    ensures if BadArguments(start, limit, ctx.endOffset, alignment) then r == Err(InvalidArgument)
            else EndsWith(ctx.flash, magic, RoundUp(start, alignment), limit, alignment, r)
  {
    if limit <= start || limit > ctx.endOffset || limit < 8 || !PowerOfTwo(alignment) {
      return Err(InvalidArgument);
    }
    r := ScanAligned(ctx, magic, RoundUp(start, alignment), limit, alignment);
  }

  lemma {:induction false} BoundedFrom(f: Flash, magic: u64, first: u32, limit: u32, alignment: u32, k: nat)
    requires alignment > 0 && limit - 8 <= TWO32 - alignment
    requires forall j: nat :: j < k ==> !Stops(f, magic, first, limit, alignment, j)
    ensures EndsWith(f, magic, first, limit, alignment, ScanFrom(f, magic, ProbeAt(first, alignment, k), limit, alignment))
    decreases limit - ProbeAt(first, alignment, k)
  {
    hide ProbeAt, Holds;
    var x := ProbeAt(first, alignment, k);
    if Stops(f, magic, first, limit, alignment, k) {
      assert StopsFirst(f, magic, first, limit, alignment, k);
    } else {
      NextProbe(first, alignment, k);
      BoundedFrom(f, magic, first, limit, alignment, k + 1);
    }
  }

  lemma EndsIfItEndsWith(f: Flash, magic: u64, first: u32, limit: u32, alignment: u32, r: Result<u32>)
    requires EndsWith(f, magic, first, limit, alignment, r)
    ensures Ends(f, magic, first, limit, alignment)
  {
    hide Stops, ProbeAt;
  }

  lemma EndsOnce(f: Flash, magic: u64, first: u32, limit: u32, alignment: u32, r: Result<u32>, s: Result<u32>)
    requires EndsWith(f, magic, first, limit, alignment, r) && EndsWith(f, magic, first, limit, alignment, s)
    ensures r == s
  {
    hide Stops, ProbeAt;
    var i: nat :| StopsFirst(f, magic, first, limit, alignment, i) && r == StopStatus(f, ProbeAt(first, alignment, i), limit);
    var k: nat :| StopsFirst(f, magic, first, limit, alignment, k) && s == StopStatus(f, ProbeAt(first, alignment, k), limit);
    assert i >= k && k >= i;
  }

  /** For limits that leave room for one more step the loop ends, with the result of the search. */
  lemma BoundedScanEnds(f: Flash, magic: u64, first: u32, limit: u32, alignment: u32, r: Result<u32>)
    requires alignment > 0 && limit - 8 <= TWO32 - alignment
    ensures Ends(f, magic, first, limit, alignment)
    ensures EndsWith(f, magic, first, limit, alignment, r) <==> r == ScanFrom(f, magic, first, limit, alignment)
  {
    hide Stops, ProbeAt;
    FirstProbe(first, alignment);
    BoundedFrom(f, magic, first, limit, alignment, 0);
    if EndsWith(f, magic, first, limit, alignment, r) {
      EndsOnce(f, magic, first, limit, alignment, r, ScanFrom(f, magic, first, limit, alignment));
    }
  }

  /** A multiple of the alignment the search is to look at. */
  predicate Probed(x: nat, start: nat, limit: u32, alignment: u32)
    requires alignment > 0
  {
    start <= x < limit - 8 && x % alignment == 0
  }

  /** Everything up to `bound` could be read and none of it held the magic. */
  ghost predicate PassedOver(f: Flash, magic: u64, start: nat, bound: nat, limit: u32, alignment: u32)
    requires alignment > 0
  {
    forall x: nat :: Probed(x, start, limit, alignment) && x < bound ==> CanRead(f, x, 8) && !Holds(f, magic, x)
  }

  /** What a search has to report: the least multiple of the alignment at or after the start and
      below `limit - 8` that holds the magic; the read error if a multiple before any such cannot
      be read; otherwise that there is none. */
  ghost predicate Located(f: Flash, magic: u64, start: nat, limit: u32, alignment: u32, r: Result<u32>)
    requires alignment > 0
  {
    match r
    case Ok(x) =>
      && Probed(x, start, limit, alignment) && CanRead(f, x, 8) && Holds(f, magic, x)
      && PassedOver(f, magic, start, x, limit, alignment)
    case Err(e) =>
      if e == ReadFailed
      then exists x: nat :: Probed(x, start, limit, alignment) && !CanRead(f, x, 8)
                            && PassedOver(f, magic, start, x, limit, alignment)
      else e == FailedToLocateMagic && PassedOver(f, magic, start, limit, limit, alignment)
  }

  lemma {:induction false} ScanFromFinds(f: Flash, magic: u64, offset: u32, limit: u32, alignment: u32)
    requires alignment > 0 && limit - 8 <= TWO32 - alignment && offset % alignment == 0
    ensures Located(f, magic, offset, limit, alignment, ScanFrom(f, magic, offset, limit, alignment))
    decreases limit - offset
  {
    if offset < limit - 8 {
      assert Probed(offset, offset, limit, alignment);
      if CanRead(f, offset, 8) && !Holds(f, magic, offset) {
        ModUnique(offset + alignment, alignment, offset / alignment + 1, 0);
        ScanFromFinds(f, magic, offset + alignment, limit, alignment);
        forall x: nat | Probed(x, offset, limit, alignment) && x != offset
          ensures Probed(x, offset + alignment, limit, alignment)
        {
          MultipleBelow(offset, x, alignment);
        }
      }
    }
  }

  lemma LocatedIsUnique(f: Flash, magic: u64, start: nat, limit: u32, alignment: u32, r: Result<u32>, s: Result<u32>)
    requires alignment > 0 && Located(f, magic, start, limit, alignment, r) && Located(f, magic, start, limit, alignment, s)
    ensures r == s
  {
    match (r, s)
    case (Ok(x), Ok(y)) => assert x >= y && y >= x;
    case _ =>
  }

  lemma LocatedFromFirst(f: Flash, magic: u64, start: nat, first: nat, limit: u32, alignment: u32, r: Result<u32>)
    requires alignment > 0 && first % alignment == 0 && start <= first < start + alignment
    requires Located(f, magic, first, limit, alignment, r)
    ensures Located(f, magic, start, limit, alignment, r)
  {
    forall x: nat
      ensures Probed(x, start, limit, alignment) <==> Probed(x, first, limit, alignment)
    {
      if Probed(x, start, limit, alignment) && x < first {
        MultipleBelow(x, first, alignment);
      }
    }
  }

  /** What the scan finds, both ways. */
  lemma ScanFinds(f: Flash, magic: u64, start: u32, limit: u32, end: u32, alignment: u32, r: Result<u32>)
    requires !BadArguments(start, limit, end, alignment)
    requires limit - 8 <= TWO32 - alignment && start <= TWO32 - alignment
    ensures r == Scan(f, magic, start, limit, end, alignment) <==> Located(f, magic, start, limit, alignment, r)
  {
    var first := RoundUp(start, alignment);
    RoundUpMeans(start, alignment);
    ScanFromFinds(f, magic, first, limit, alignment);
    var found := ScanFrom(f, magic, first, limit, alignment);
    LocatedFromFirst(f, magic, start, first, limit, alignment, found);
    if Located(f, magic, start, limit, alignment, r) {
      LocatedIsUnique(f, magic, start, limit, alignment, r, found);
    }
  }

  lemma ProbeIsAligned(start: u32, alignment: u32, k: nat)
    requires alignment > 0 && start % alignment == 0 && TWO32 % alignment == 0
    ensures ProbeAt(start, alignment, k) % alignment == 0
  {
    var q := (start + k * alignment) / TWO32;
    var m, s := TWO32 / alignment, start / alignment;
    assert q * TWO32 == (q * m) * alignment;
    ModUnique(ProbeAt(start, alignment, k), alignment, s + k - q * m, 0) by {
      assert ProbeAt(start, alignment, k) == (s + k - q * m) * alignment;
      assert s + k - q * m < 0 ==> (s + k - q * m) * alignment < 0;
    }
  }

  lemma ProbesBelow(start: u32, alignment: u32, k: nat)
    requires PowerOfTwo(alignment) && start % alignment == 0
    ensures ProbeAt(start, alignment, k) <= TWO32 - alignment
  {
    var width := AlignmentWidth(alignment);
    ProbeIsAligned(start, alignment, k);
    MultipleBelow(ProbeAt(start, alignment, k), TWO32, alignment);
  }

  lemma {:induction false} ZerosAreZero(n: nat)
    ensures LeValue(Zeros(n)) == 0
  {
    if n > 0 {
      ZerosAreZero(n - 1);
      assert Zeros(n)[1..] == Zeros(n - 1);
    }
  }

  function Filled(x: byte, n: nat): (s: seq<byte>)
    ensures |s| == n && forall i :: 0 <= i < n ==> s[i] == x
  {
    seq(n, i => x)
  }

  /** A flash that can be read and searched for `magic` in vain, round and round. */
  function Without(magic: u64): Flash {
    Chip(Filled(if magic == 0 then 1 else 0, TWO32 - 1), (offset, count) => true)
  }

  lemma NoMagicWithout(magic: u64, x: u32)
    requires x + 8 < TWO32
    ensures CanRead(Without(magic), x, 8) && !Holds(Without(magic), magic, x)
  {
    hide Filled;
    var s := Without(magic).data[x..x + 8];
    if magic == 0 {
      assert s[0] == 1;
    } else {
      assert s == Zeros(8);
      ZerosAreZero(8);
    }
  }

  lemma NeverStops(magic: u64, start: u32, limit: u32, alignment: u32)
    requires PowerOfTwo(alignment) && start % alignment == 0 && limit - 8 > TWO32 - alignment
    ensures !Ends(Without(magic), magic, start, limit, alignment)
  {
    hide PowerOfTwo, Holds, ProbeAt, Without;
    forall k: nat ensures !Stops(Without(magic), magic, start, limit, alignment, k) {
      ProbesBelow(start, alignment, k);
      NoMagicWithout(magic, ProbeAt(start, alignment, k));
    }
  }

  /** The loop is sure to end, whatever the flash holds, exactly for limits that leave room for
      one more step; beyond that the 32-bit offset wraps and every probe stays below the limit. */
  lemma ScanEnds(magic: u64, start: u32, limit: u32, alignment: u32)
    requires PowerOfTwo(alignment) && start % alignment == 0
    ensures (forall f: Flash :: Ends(f, magic, start, limit, alignment)) <==> limit - 8 <= TWO32 - alignment
  {
    hide PowerOfTwo, Ends, Without;
    if limit - 8 <= TWO32 - alignment {
      PowerIsPositive(alignment);
      forall f: Flash ensures Ends(f, magic, start, limit, alignment) {
        BoundedScanEnds(f, magic, start, limit, alignment, Err(FailedToLocateMagic));
      }
    } else {
      NeverStops(magic, start, limit, alignment);
    }
  }

  lemma PowerIsPositive(x: u32)
    requires PowerOfTwo(x)
    ensures x > 0
  {
  }
}
