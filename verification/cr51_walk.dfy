/** The walk over an image's blob list: what it finds, and when it ends. */
module Cr51Walk {
  import opened Bytes
  import opened Options
  import opened Cr51Format
  import opened Cr51Context
  import opened Cr51Scan

  datatype Found = Found(at: nat, size: nat)

  /** `start + size - sizeof(struct blob_data)`: the sum wraps at 32 bits, the difference at 64. */
  function LastHeader(start: u32, size: u32): u64 {
    var end := Add32(start, size);
    if end >= BLOB_DATA_SIZE then end - BLOB_DATA_SIZE else end - BLOB_DATA_SIZE + 0x1_0000_0000_0000_0000
  }

  /** What is missing to the next multiple of 4. */
  function Padding(x: nat): (n: nat)
    ensures n < 4
  {
    if x == 0 then 0 else if x < 4 then 4 - x else Padding(x - 4)
  }

  predicate Aligned(x: nat) { Padding(x) == 0 }

  lemma {:induction false} PaddingMeans(x: nat)
    ensures (x + Padding(x)) % BLOB_DATA_ALIGNMENT == 0
    ensures Aligned(x) <==> x % BLOB_DATA_ALIGNMENT == 0
  {
    if x >= 4 {
      PaddingMeans(x - 4);
    }
  }

  lemma {:induction false} PaddingIsRelative(at: nat, n: nat)
    requires Aligned(at)
    ensures Padding(at + n) == Padding(n)
  {
    if at > 0 {
      PaddingIsRelative(at - 4, n);
    }
  }

  lemma {:induction false} PaddedIsAligned(x: nat)
    ensures Aligned(x + Padding(x))
  {
    if x >= 4 {
      PaddedIsAligned(x - 4);
    }
  }

  /** The mask arithmetic of the walk pads an address. */
  lemma PaddingRoundsUp(x: u32)
    ensures RoundUp(x, BLOB_DATA_ALIGNMENT) == Add32(x, Padding(x))
  {
    PaddingMeans(x);
    RoundUpMeans(x, BLOB_DATA_ALIGNMENT);
  }

  /** The header after the blob at `current`: behind its payload, rounded up. */
  function NextHeader(current: u32, payload: nat): (next: u32)
    requires BLOB_DATA_SIZE + payload < TWO32
  {
    var after := Add32(current, BLOB_DATA_SIZE + payload);
    Add32(after, Padding(after))
  }

  /** Rounding up the absolute address of a blob's end pads its payload. */
  lemma NextHeaderIs(at: u32, payload: nat)
    requires Aligned(at) && at + BLOB_DATA_SIZE + payload + Padding(payload) < TWO32
    ensures NextHeader(at, payload) == at + BLOB_DATA_SIZE + payload + Padding(payload)
  {
    PaddingIsRelative(at, BLOB_DATA_SIZE + payload);
  }

  lemma RoundsUpToNext(current: u32, payload: nat)
    requires BLOB_DATA_SIZE + payload < TWO32
    ensures RoundUp(Add32(current, BLOB_DATA_SIZE + payload), BLOB_DATA_ALIGNMENT) == NextHeader(current, payload)
  {
    PaddingRoundsUp(Add32(current, BLOB_DATA_SIZE + payload));
  }

  // ----- The walk, for every call that returns -----

  /** Where the walk is: at a header, with the MAUV it has found so far; or over. */
  datatype Walker = At(current: u32, found: Option<Found>) | Over(result: Result<Option<Found>>)

  /** One round of the walk from the header at `current`. */
  function WalkRound(f: Flash, start: u32, size: u32, current: u32, found: Option<Found>): (w: Walker)
    ensures w.Over? && w.result.Err? ==> w.result.status in {RuntimeFailure, InvalidDescriptor}
  {
    if current > LastHeader(start, size) then Over(Ok(found))
    else
      match Read(f, current, BLOB_DATA_SIZE)
      case None => Over(Err(RuntimeFailure))
      case Some(header) =>
        var payload := Le32(header, 4);
        if Sub32(current, start) + BLOB_DATA_SIZE + payload > size then Over(Err(InvalidDescriptor))
        else if Le32(header, 0) != BLOB_TYPE_MAUV then At(NextHeader(current, payload), found)
        else if found.Some? then Over(Err(InvalidDescriptor))
        else At(NextHeader(current, payload), Some(Found(Add32(current, BLOB_DATA_SIZE), payload)))
  }

  /** The walk after k rounds. */
  function WalkerAfter(f: Flash, start: u32, size: u32, k: nat): (w: Walker)
    ensures w.Over? && w.result.Err? ==> w.result.status in {RuntimeFailure, InvalidDescriptor}
  {
    if k == 0 then At(start, None)
    else
      match WalkerAfter(f, start, size, k - 1)
      case Over(r) => Over(r)
      case At(current, found) => WalkRound(f, start, size, current, found)
  }

  ghost predicate WalkEnds(f: Flash, start: u32, size: u32) {
    exists k: nat :: WalkerAfter(f, start, size, k).Over?
  }

  /** What the walk comes to. */
  ghost function Walk(f: Flash, start: u32, size: u32): (r: Result<Option<Found>>)
    requires WalkEnds(f, start, size)
    ensures r.Err? ==> r.status in {RuntimeFailure, InvalidDescriptor}
  {
    var k: nat :| WalkerAfter(f, start, size, k).Over?;
    WalkerAfter(f, start, size, k).result
  }

  lemma {:induction false} OverStays(f: Flash, start: u32, size: u32, j: nat, k: nat)
    requires j <= k && WalkerAfter(f, start, size, j).Over?
    ensures WalkerAfter(f, start, size, k) == WalkerAfter(f, start, size, j)
    decreases k - j
  {
    if j < k {
      OverStays(f, start, size, j, k - 1);
    }
  }

  lemma WalkIs(f: Flash, start: u32, size: u32, k: nat)
    requires WalkerAfter(f, start, size, k).Over?
    ensures WalkEnds(f, start, size) && Walk(f, start, size) == WalkerAfter(f, start, size, k).result
  {
    hide WalkerAfter;
    forall j: nat | WalkerAfter(f, start, size, j).Over?
      ensures WalkerAfter(f, start, size, j) == WalkerAfter(f, start, size, k)
    {
      if j <= k {
        OverStays(f, start, size, j, k);
      } else {
        OverStays(f, start, size, k, j);
      }
    }
  }

  /** A walk that is not over after k rounds is over later. */
  lemma StillWalking(f: Flash, start: u32, size: u32, k: nat, end: nat)
    requires WalkerAfter(f, start, size, k).At? && WalkerAfter(f, start, size, end).Over?
    ensures k < end
  {
    if end <= k {
      OverStays(f, start, size, end, k);
    }
  }

  method FindMauv(ctx: Context, start: u32, size: u32) returns (r: Result<Option<Found>>)
    requires WalkEnds(ctx.flash, start, size)
    ensures r == Walk(ctx.flash, start, size)
  {
    hide LastHeader, NextHeader, RoundUp, Walk;
    var found: Option<Found>, current: u32 := None, start;
    var last := LastHeader(start, size);
    ghost var end: nat :| WalkerAfter(ctx.flash, start, size, end).Over?;
    ghost var k: nat := 0;
    StillWalking(ctx.flash, start, size, k, end);
    while current <= last
      invariant WalkerAfter(ctx.flash, start, size, k) == At(current, found) && k < end
      decreases end - k
    {
      k := k + 1;
      var header := Read(ctx.flash, current, BLOB_DATA_SIZE);
      if header.None? {
        WalkIs(ctx.flash, start, size, k);
        return Err(RuntimeFailure);
      }
      var payload := Le32(header.value, 4);
      if Sub32(current, start) + BLOB_DATA_SIZE + payload > size {
        WalkIs(ctx.flash, start, size, k);
        return Err(InvalidDescriptor);
      }
      if Le32(header.value, 0) == BLOB_TYPE_MAUV {
        if found.Some? {
          WalkIs(ctx.flash, start, size, k);
          return Err(InvalidDescriptor);
        }
        found := Some(Found(Add32(current, BLOB_DATA_SIZE), payload));
      }
      RoundsUpToNext(current, payload);
      current := RoundUp(Add32(current, BLOB_DATA_SIZE + payload), BLOB_DATA_ALIGNMENT);
      StillWalking(ctx.flash, start, size, k, end);
    }
    WalkIs(ctx.flash, start, size, k + 1);
    return Ok(found);
  }

  // ----- When it returns -----

  /** The walk starts behind the last header, or every round takes it further from the start. */
  predicate Walkable(start: u32, size: u32) {
    start > LastHeader(start, size) || size + 3 < TWO32 + Padding(start)
  }

  lemma PaddingSum(start: nat, first: nat, r: nat, pad: nat)
    requires (start + first) % 4 == 0 && first < 4 && (start + r + pad) % 4 == 0
    ensures (r + pad) % 4 == first
  {
    var a, b := (start + first) / 4, (start + r + pad) / 4;
    assert r + pad == 4 * (b - a) + first;
  }

  lemma WrapKeepsPadding(x: nat)
    requires x % 4 == 0
    ensures (x + TWO32) % 4 == 0
  {
    assert x + TWO32 == 4 * (x / 4 + 0x4000_0000);
  }

  /** What the padding of a header behind `start` comes to, counted from `start`. */
  lemma PaddingFromStart(start: u32, r: u32)
    ensures var after := Add32(start, r);
            (r + Padding(after)) % BLOB_DATA_ALIGNMENT == Padding(start)
  {
    hide Padding;
    var after := Add32(start, r);
    PaddingMeans(start);
    PaddingMeans(after);
    if start + r >= TWO32 {
      WrapKeepsPadding(after + Padding(after));
    }
    PaddingSum(start, Padding(start), r, Padding(after));
  }

  lemma NextIsFurther(start: u32, size: u32, current: u32, payload: u32)
    requires size + 3 < TWO32 + Padding(start) && Sub32(current, start) + BLOB_DATA_SIZE + payload <= size
    ensures Sub32(current, start) < Sub32(NextHeader(current, payload), start) <= size + 3
  {
    var r := Sub32(current, start) + BLOB_DATA_SIZE + payload;
    PaddingFromStart(start, r);
    RisesBelow(r, size, Padding(Add32(start, r)), Padding(start));
  }

  lemma RisesBelow(r: nat, size: u32, pad: nat, first: nat)
    requires r <= size && pad < 4 && first < 4 && size + 3 < TWO32 + first && (r + pad) % 4 == first
    ensures r + pad < TWO32
  {
  }

  /** A round takes the walk further from the start, and not beyond the padded end. */
  lemma RoundIsFurther(f: Flash, start: u32, size: u32, current: u32, found: Option<Found>)
    requires size + 3 < TWO32 + Padding(start) && WalkRound(f, start, size, current, found).At?
    ensures Sub32(current, start) < Sub32(WalkRound(f, start, size, current, found).current, start) <= size + 3
  {
    hide NextHeader, LastHeader;
    NextIsFurther(start, size, current, Le32(Read(f, current, BLOB_DATA_SIZE).value, 4));
  }

  /** The walk as a recursion, for lists it gets through on every flash. */
  function WalkFrom(f: Flash, start: u32, size: u32, current: u32, found: Option<Found>): (r: Result<Option<Found>>)
    requires size + 3 < TWO32 + Padding(start) && Sub32(current, start) <= size + 3
    ensures r.Err? ==> r.status == RuntimeFailure || r.status == InvalidDescriptor
    decreases size + 3 - Sub32(current, start)
  {
    match WalkRound(f, start, size, current, found)
    case Over(r) => r
    case At(next, now) =>
      RoundIsFurther(f, start, size, current, found);
      WalkFrom(f, start, size, next, now)
  }

  lemma {:induction false} WalkGoesOn(f: Flash, start: u32, size: u32, k: nat, current: u32, found: Option<Found>)
    requires size + 3 < TWO32 + Padding(start) && Sub32(current, start) <= size + 3
    requires WalkerAfter(f, start, size, k) == At(current, found)
    ensures WalkEnds(f, start, size) && Walk(f, start, size) == WalkFrom(f, start, size, current, found)
    decreases size + 3 - Sub32(current, start)
  {
    hide WalkRound, Walk, WalkEnds;
    match WalkRound(f, start, size, current, found)
    case Over(r) => WalkIs(f, start, size, k + 1);
    case At(next, now) =>
      RoundIsFurther(f, start, size, current, found);
      WalkGoesOn(f, start, size, k + 1, next, now);
  }

  lemma WalkIsFrom(f: Flash, start: u32, size: u32)
    requires size + 3 < TWO32 + Padding(start)
    ensures WalkEnds(f, start, size) && Walk(f, start, size) == WalkFrom(f, start, size, start, None)
  {
    hide WalkRound, WalkFrom, Walk, WalkEnds, Padding;
    WalkGoesOn(f, start, size, 0, start, None);
  }

  lemma WalkableEnds(f: Flash, start: u32, size: u32)
    requires Walkable(start, size)
    ensures WalkEnds(f, start, size)
    ensures start > LastHeader(start, size) ==> Walk(f, start, size) == Ok(None)
  {
    hide Walk, WalkEnds, Padding, LastHeader;
    if start > LastHeader(start, size) {
      assert WalkerAfter(f, start, size, 0) == At(start, None);
      WalkIs(f, start, size, 1);
    } else {
      WalkIsFrom(f, start, size);
    }
  }

  // ----- When it need not -----

  /** A round at a header of no particular type. */
  lemma RoundPasses(f: Flash, start: u32, size: u32, current: u32, payload: u32)
    requires CanRead(f, current, BLOB_DATA_SIZE) && Le32(f.data, current) == 0 && Le32(f.data, current + 4) == payload
    requires current <= LastHeader(start, size) && Sub32(current, start) + BLOB_DATA_SIZE + payload <= size
    ensures WalkRound(f, start, size, current, None) == At(NextHeader(current, payload), None)
  {
    hide LastHeader, NextHeader, LeValue;
    Le32OfSlice(f.data, current, BLOB_DATA_SIZE, 0);
    Le32OfSlice(f.data, current, BLOB_DATA_SIZE, 4);
  }

  /** Zeros, and at the very end the payload size of a header at `at`. */
  function LastPayload(at: u32, payload: u32): Flash
    requires at < 100
  {
    Chip(Zeros(at + 4) + Word(payload), (offset, count) => true)
  }

  lemma ZeroWords(at: u32, payload: u32, x: nat)
    requires at < 100
    ensures x <= at ==> CanRead(LastPayload(at, payload), x, 8) && Le32(LastPayload(at, payload).data, x) == 0
    ensures x + 4 <= at ==> Le32(LastPayload(at, payload).data, x + 4) == 0
    ensures Le32(LastPayload(at, payload).data, at + 4) == payload
  {
    hide LeValue;
    ZerosAreZero(4);
    var s := LastPayload(at, payload).data;
    assert s[at + 4..at + 8] == Word(payload);
    if x <= at {
      assert s[x..x + 4] == Zeros(4);
    }
    if x + 4 <= at {
      assert s[x + 4..x + 8] == Zeros(4);
    }
  }

  /** Such lists begin in one of the first bytes of the flash. */
  lemma EndlessStart(start: u32, size: u32)
    requires !Walkable(start, size)
    ensures Padding(start) <= 2 && start <= 8 && size >= TWO32 - 3 + Padding(start)
    ensures Padding(start) > 0 ==> LastHeader(start, size) >= TWO32
    ensures LastHeader(start, size) >= start
  {
    EndlessStarts(start);
  }

  lemma EndlessStarts(start: u32)
    requires start <= 10
    ensures Padding(start) == if start % 4 == 0 then 0 else 4 - start % 4
  {
    PaddingMeans(start);
  }

  /** The next header is the first multiple of 4 behind the payload, on the circle of addresses. */
  lemma NextHeaderAt(current: u32, payload: nat, next: u32)
    requires BLOB_DATA_SIZE + payload < TWO32 && next % BLOB_DATA_ALIGNMENT == 0
    requires var end := current + BLOB_DATA_SIZE + payload; end <= next <= end + 3 || end <= next + TWO32 <= end + 3
    ensures NextHeader(current, payload) == next
  {
    PaddingMeans(Add32(current, BLOB_DATA_SIZE + payload));
  }

  /** From an aligned start: a payload that leads back to its own header. */
  lemma StandsStill(start: u32, size: u32)
    requires !Walkable(start, size) && Padding(start) == 0
    ensures start <= 8 && WalkRound(LastPayload(start, TWO32 - 11), start, size, start, None) == At(start, None)
  {
    hide LastHeader, LastPayload, NextHeader;
    EndlessStart(start, size);
    PaddingMeans(start);
    ZeroWords(start, TWO32 - 11, start);
    RoundPasses(LastPayload(start, TWO32 - 11), start, size, start, TWO32 - 11);
    NextHeaderAt(start, TWO32 - 11, start);
  }

  /** From any other: two headers that lead to each other, behind an empty payload at the start. */
  lemma GoesRound(start: u32, size: u32, a: u32, f: Flash)
    requires a % BLOB_DATA_ALIGNMENT == 0 && start <= a <= start + 2 && start <= 8 && f == LastPayload(a + 8, TWO32 - 19)
    requires LastHeader(start, size) >= TWO32 && size >= TWO32 - 3 + (a - start)
    ensures WalkRound(f, start, size, start, None) == At(a + 8, None)
    ensures WalkRound(f, start, size, a, None) == At(a + 8, None)
    ensures WalkRound(f, start, size, a + 8, None) == At(a, None)
  {
    hide LastHeader, LastPayload, NextHeader, Padding, WalkRound;
    ZeroWords(a + 8, TWO32 - 19, start);
    ZeroWords(a + 8, TWO32 - 19, a);
    ZeroWords(a + 8, TWO32 - 19, a + 8);
    NextHeaderAt(start, 0, a + 8);
    RoundPasses(f, start, size, start, 0);
    NextHeaderAt(a, 0, a + 8);
    RoundPasses(f, start, size, a, 0);
    NextHeaderAt(a + 8, TWO32 - 19, a);
    RoundPasses(f, start, size, a + 8, TWO32 - 19);
  }

  /** The places of a walk that goes round. */
  predicate GoingRound(start: u32, w: Walker) {
    var a := start + Padding(start);
    w.At? && w.found == None && w.current in {start, a, a + 8}
  }

  function Endless(start: u32): Flash
    requires start <= 8
  {
    if Padding(start) == 0 then LastPayload(start, TWO32 - 11) else LastPayload(start + Padding(start) + 8, TWO32 - 19)
  }

  lemma {:induction false} NeverOver(start: u32, size: u32, k: nat)
    requires !Walkable(start, size) && start <= 8
    ensures var w := WalkerAfter(Endless(start), start, size, k);
            GoingRound(start, w) && (Padding(start) == 0 ==> w.current == start)
  {
    hide WalkRound, Walkable, LastPayload;
    if k > 0 {
      NeverOver(start, size, k - 1);
      if Padding(start) == 0 {
        StandsStill(start, size);
      } else {
        EndlessStart(start, size);
        PaddingMeans(start);
        GoesRound(start, size, start + Padding(start), Endless(start));
      }
    }
  }

  /** The walk ends on every flash exactly if it does not start, or the list is too short for a
      padded payload to wrap around to its start. */
  lemma WalkEndsExactly(start: u32, size: u32)
    ensures (forall f: Flash :: WalkEnds(f, start, size)) <==> Walkable(start, size)
    ensures !Walkable(start, size) ==> start <= 8 && !WalkEnds(Endless(start), start, size)
  {
    hide Walkable, WalkerAfter, Endless, GoingRound;
    if Walkable(start, size) {
      forall f: Flash ensures WalkEnds(f, start, size) { WalkableEnds(f, start, size); }
    } else {
      EndlessStart(start, size);
      forall k: nat ensures WalkerAfter(Endless(start), start, size, k).At? {
        NeverOver(start, size, k);
        RoundIsAt(start, WalkerAfter(Endless(start), start, size, k));
      }
      assert !WalkEnds(Endless(start), start, size);
    }
  }

  lemma RoundIsAt(start: u32, w: Walker)
    requires GoingRound(start, w)
    ensures w.At?
  {
  }
}
