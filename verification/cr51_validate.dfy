/** The validation of an image: the search for a descriptor that checks out, with everything it
    covers, and for production images the check of the MAUV. */
module Cr51Validate {
  import opened Bytes
  import opened BitMask
  import opened Options
  import opened Cr51Format
  import opened Cr51Context
  import opened Cr51Scan
  import opened Cr51Hashing
  import opened Cr51Descriptor
  import opened Cr51Regions
  import opened Cr51Mauv
  import opened Cr51Walk

  /** Where the image is claimed to be, the family it is wanted for, and the platform. */
  datatype Job = Job(f: Flash, intf: Intf, store: Store, start: u32, end: u32, family: u32) {
    /** The search ends on every flash for such images. */
    predicate Bounded() { end - 8 <= TWO32 - DESCRIPTOR_ALIGNMENT }
    function MaxSize(): u32 { Sub32(end, start) }
  }

  /** What a validation comes to; `place` is where the accepted image's descriptor stands. */
  datatype Verdict = Verdict(status: Status, state: ValidationState, desc: Descriptor, stored: Option<seq<byte>>,
                             place: Option<u32>)

  /** The next multiple of the descriptor alignment, 0 after the last one. */
  function NextBoundary(x: u32): u32 {
    var blocks := (x + DESCRIPTOR_ALIGNMENT - 1) / DESCRIPTOR_ALIGNMENT;
    if blocks < DESCRIPTOR_ALIGNMENT then blocks * DESCRIPTOR_ALIGNMENT else 0
  }

  function NextCandidate(job: Job, from: u32): Result<u32>
    requires job.Bounded()
  {
    if job.end <= from || job.end < 8 then Err(InvalidArgument)
    else ScanFrom(job.f, DESCRIPTOR_MAGIC, NextBoundary(from), job.end, DESCRIPTOR_ALIGNMENT)
  }

  lemma AlignmentIsPowerOfTwo()
    ensures PowerOfTwo(DESCRIPTOR_ALIGNMENT)
  {
    assert Pow2(8) == 0x100 && Pow2(12) == 0x1000 && Pow2(16) == DESCRIPTOR_ALIGNMENT;
    PowerOfTwoTest(DESCRIPTOR_ALIGNMENT);
  }

  lemma BoundaryIsRoundUp(x: u32)
    ensures NextBoundary(x) == RoundUp(x, DESCRIPTOR_ALIGNMENT)
  {
    hide RoundUp, PowerOfTwo;
    AlignmentIsPowerOfTwo();
    RoundUpMeans(x, DESCRIPTOR_ALIGNMENT);
  }

  lemma NextIsScan(job: Job, from: u32)
    requires job.Bounded()
    ensures NextCandidate(job, from) == Scan(job.f, DESCRIPTOR_MAGIC, from, job.end, job.end, DESCRIPTOR_ALIGNMENT)
  {
    AlignmentIsPowerOfTwo();
    BoundaryIsRoundUp(from);
  }

  function CheckCandidate(job: Job, was: Descriptor, at: u32, blobOffset: u32): Checked {
    CheckDescriptor(job.f, job.intf, job.family, was, at, Sub32(at, job.start), job.MaxSize(), blobOffset)
  }

  /** The descriptor checks and, if they pass, the region checks. */
  ghost function CandidateStatus(job: Job, c: Checked, at: u32): Status {
    if c.status == Success then RegionsVerdict(job.f, job.intf, c.desc, at) else c.status
  }

  /** The blob offset stands for no blob, or lies behind a descriptor, where the walk ends. */
  predicate BlobBehind(blobOffset: u32) { blobOffset == 0 || blobOffset >= DESCRIPTOR_SIZE }

  /** What an image with an accepted descriptor and accepted regions at `at` comes to. */
  ghost function Conclude(job: Job, at: u32, desc: Descriptor, blobOffset: u32, stored: Option<seq<byte>>): Verdict
    requires BlobBehind(blobOffset)
  {
    if desc.imageType != IMAGE_PROD then Verdict(Success, Valid, desc, stored, Some(at))
    else
      var m := CheckMauv(job.f, job.store, stored, blobOffset, desc.blobSize);
      Verdict(if m.status == StoringNewMauv then ValidButMauvNotStored else m.status, Valid, desc, m.stored, Some(at))
  }

  /** A candidate of the scan lies in front of the last 8 bytes. */
  predicate Candidate(job: Job, found: Result<u32>) { found.Ok? ==> found.value < job.end - 8 }

  function Left(job: Job, found: Result<u32>): nat
    requires Candidate(job, found)
  {
    if found.Ok? then job.end - found.value else 0
  }

  /** The search from what the last scan came up with. */
  ghost function Search(job: Job, found: Result<u32>, was: Descriptor, blobOffset: u32, stored: Option<seq<byte>>,
                        first: Status): Verdict
    requires job.Bounded() && Candidate(job, found) && BlobBehind(blobOffset)
    decreases Left(job, found)
  {
    match found
    case Err(e) => Verdict(if first != Success then first else e, Invalid, was, stored, None)
    case Ok(at) =>
      var c := CheckCandidate(job, was, at, blobOffset);
      BlobStaysBehind(job, was, at, blobOffset);
      var r := CandidateStatus(job, c, at);
      if r == Success then Conclude(job, at, c.desc, c.blobOffset, stored)
      else
        NextIsBehind(job, at + 1);
        Search(job, NextCandidate(job, at + 1), c.desc, c.blobOffset, stored, if first == Success then r else first)
  }

  lemma BlobStaysBehind(job: Job, was: Descriptor, at: u32, blobOffset: u32)
    requires at <= TWO32 - DESCRIPTOR_ALIGNMENT && BlobBehind(blobOffset)
    ensures BlobBehind(CheckCandidate(job, was, at, blobOffset).blobOffset)
  {
  }

  lemma {:induction false} ScanStaysBehind(f: Flash, offset: u32, limit: u32)
    requires limit - 8 <= TWO32 - DESCRIPTOR_ALIGNMENT
    ensures var r := ScanFrom(f, DESCRIPTOR_MAGIC, offset, limit, DESCRIPTOR_ALIGNMENT);
            r.Ok? ==> offset <= r.value < limit - 8
    decreases limit - offset
  {
    if offset < limit - 8 {
      ScanStaysBehind(f, offset + DESCRIPTOR_ALIGNMENT, limit);
    }
  }

  lemma NextIsBehind(job: Job, from: u32)
    requires job.Bounded()
    ensures var found := NextCandidate(job, from);
            Candidate(job, found) && (found.Ok? && from <= TWO32 - DESCRIPTOR_ALIGNMENT ==> from <= found.value)
  {
    ScanStaysBehind(job.f, NextBoundary(from), job.end);
  }

  ghost function Validate(job: Job, was: Descriptor, stored: Option<seq<byte>>): Verdict
    requires job.Bounded()
  {
    NextIsBehind(job, job.start);
    Search(job, NextCandidate(job, job.start), was, 0, stored, Success)
  }

  // ----- The search, for every call that returns -----

  /** The scan for the next candidate ends with `r`. */
  ghost predicate ScanReturns(job: Job, from: u32, r: Result<u32>) {
    if job.end <= from || job.end < 8 then r == Err(InvalidArgument)
    else EndsWith(job.f, DESCRIPTOR_MAGIC, NextBoundary(from), job.end, DESCRIPTOR_ALIGNMENT, r)
  }

  ghost predicate SomeScanReturns(job: Job, from: u32) { exists r: Result<u32> :: ScanReturns(job, from, r) }

  /** A candidate lies at a boundary, at the last one at most, as every result of the scan does. */
  predicate OnBoundary(found: Result<u32>) { found.Ok? ==> found.value <= TWO32 - DESCRIPTOR_ALIGNMENT }

  /** The search from what a scan came up with ends with `v`, in `rounds` more candidates at most. */
  ghost predicate SearchReturns(job: Job, found: Result<u32>, was: Descriptor, blobOffset: u32, stored: Option<seq<byte>>,
                                first: Status, rounds: nat, v: Verdict)
    requires OnBoundary(found) && BlobBehind(blobOffset)
    decreases rounds
  {
    match found
    case Err(e) => v == Verdict(if first != Success then first else e, Invalid, was, stored, None)
    case Ok(at) =>
      var c := CheckCandidate(job, was, at, blobOffset);
      BlobStaysBehind(job, was, at, blobOffset);
      var r := CandidateStatus(job, c, at);
      if r == Success then v == Conclude(job, at, c.desc, c.blobOffset, stored)
      else
        && rounds > 0
        && exists next: Result<u32> ::
             && ScanReturns(job, at + 1, next) && OnBoundary(next)
             && SearchReturns(job, next, c.desc, c.blobOffset, stored, if first == Success then r else first, rounds - 1, v)
  }

  ghost predicate ValidateReturns(job: Job, was: Descriptor, stored: Option<seq<byte>>, v: Verdict) {
    exists found: Result<u32>, rounds: nat ::
      ScanReturns(job, job.start, found) && OnBoundary(found) && SearchReturns(job, found, was, 0, stored, Success, rounds, v)
  }

  ghost predicate Returns(job: Job, was: Descriptor, stored: Option<seq<byte>>) {
    exists v: Verdict :: ValidateReturns(job, was, stored, v)
  }

  lemma BoundaryIsAligned(x: u32)
    ensures NextBoundary(x) % DESCRIPTOR_ALIGNMENT == 0
  {
  }

  lemma ScanStaysOnBoundary(job: Job, from: u32, r: Result<u32>)
    requires ScanReturns(job, from, r)
    ensures OnBoundary(r)
  {
    hide PowerOfTwo, ProbeAt, NextBoundary, StopsFirst;
    if r.Ok? {
      var first := NextBoundary(from);
      BoundaryIsAligned(from);
      AlignmentIsPowerOfTwo();
      var k: nat :| StopsFirst(job.f, DESCRIPTOR_MAGIC, first, job.end, DESCRIPTOR_ALIGNMENT, k)
                    && r == StopStatus(job.f, ProbeAt(first, DESCRIPTOR_ALIGNMENT, k), job.end);
      ProbesBelow(first, DESCRIPTOR_ALIGNMENT, k);
    }
  }

  lemma ScanReturnsOnce(job: Job, from: u32, r: Result<u32>, s: Result<u32>)
    requires ScanReturns(job, from, r) && ScanReturns(job, from, s)
    ensures r == s
  {
    hide EndsWith;
    if job.end > from && job.end >= 8 {
      EndsOnce(job.f, DESCRIPTOR_MAGIC, NextBoundary(from), job.end, DESCRIPTOR_ALIGNMENT, r, s);
    }
  }

  lemma BoundedScanReturns(job: Job, from: u32, r: Result<u32>)
    requires job.Bounded()
    ensures ScanReturns(job, from, r) <==> r == NextCandidate(job, from)
  {
    hide EndsWith, Ends;
    BoundedScanEnds(job.f, DESCRIPTOR_MAGIC, NextBoundary(from), job.end, DESCRIPTOR_ALIGNMENT, r);
  }

  lemma {:induction false} BoundedSearchReturns(job: Job, found: Result<u32>, was: Descriptor, blobOffset: u32,
                                                stored: Option<seq<byte>>, first: Status) returns (rounds: nat)
    requires job.Bounded() && Candidate(job, found) && BlobBehind(blobOffset)
    ensures OnBoundary(found)
    ensures SearchReturns(job, found, was, blobOffset, stored, first, rounds, Search(job, found, was, blobOffset, stored, first))
    decreases Left(job, found)
  {
    hide CheckCandidate, CandidateStatus, Conclude, NextCandidate, ScanReturns;
    rounds := 0;
    if found.Ok? {
      var at := found.value;
      var c := CheckCandidate(job, was, at, blobOffset);
      BlobStaysBehind(job, was, at, blobOffset);
      var r := CandidateStatus(job, c, at);
      if r != Success {
        NextIsBehind(job, at + 1);
        var next := NextCandidate(job, at + 1);
        BoundedScanReturns(job, at + 1, next);
        var more := BoundedSearchReturns(job, next, c.desc, c.blobOffset, stored, if first == Success then r else first);
        rounds := more + 1;
      }
    }
  }

  /** What a search that returns goes on with after a candidate it refuses. */
  lemma NextInSearch(job: Job, at: u32, was: Descriptor, blobOffset: u32, stored: Option<seq<byte>>, first: Status,
                     rounds: nat, v: Verdict) returns (next: Result<u32>)
    requires at <= TWO32 - DESCRIPTOR_ALIGNMENT && BlobBehind(blobOffset)
    requires SearchReturns(job, Ok(at), was, blobOffset, stored, first, rounds, v)
    requires CandidateStatus(job, CheckCandidate(job, was, at, blobOffset), at) != Success
    ensures rounds > 0 && ScanReturns(job, at + 1, next) && OnBoundary(next)
    ensures var c := CheckCandidate(job, was, at, blobOffset);
            && BlobBehind(c.blobOffset)
            && SearchReturns(job, next, c.desc, c.blobOffset, stored,
                             if first == Success then CandidateStatus(job, c, at) else first, rounds - 1, v)
  {
    hide CheckCandidate, CandidateStatus, ScanReturns, Conclude;
    var c := CheckCandidate(job, was, at, blobOffset);
    BlobStaysBehind(job, was, at, blobOffset);
    var now := if first == Success then CandidateStatus(job, c, at) else first;
    next :| ScanReturns(job, at + 1, next) && OnBoundary(next)
            && SearchReturns(job, next, c.desc, c.blobOffset, stored, now, rounds - 1, v);
  }

  lemma {:induction false} SearchReturnsOnce(job: Job, found: Result<u32>, was: Descriptor, blobOffset: u32, stored: Option<seq<byte>>,
                                             first: Status, n: nat, v: Verdict, m: nat, w: Verdict)
    requires OnBoundary(found) && BlobBehind(blobOffset)
    requires SearchReturns(job, found, was, blobOffset, stored, first, n, v)
    requires SearchReturns(job, found, was, blobOffset, stored, first, m, w)
    ensures v == w
    decreases n
  {
    hide CheckCandidate, CandidateStatus, Conclude, ScanReturns;
    if found.Ok? {
      var at := found.value;
      var c := CheckCandidate(job, was, at, blobOffset);
      var r := CandidateStatus(job, c, at);
      if r != Success {
        var next := NextInSearch(job, at, was, blobOffset, stored, first, n, v);
        var again := NextInSearch(job, at, was, blobOffset, stored, first, m, w);
        ScanReturnsOnce(job, at + 1, next, again);
        SearchReturnsOnce(job, next, c.desc, c.blobOffset, stored, if first == Success then r else first, n - 1, v, m - 1, w);
      }
    }
  }

  /** A validation returns with one verdict. */
  lemma ValidateReturnsOnce(job: Job, was: Descriptor, stored: Option<seq<byte>>, v: Verdict, w: Verdict)
    requires ValidateReturns(job, was, stored, v) && ValidateReturns(job, was, stored, w)
    ensures v == w
  {
    hide SearchReturns, ScanReturns;
    var found: Result<u32>, n: nat :| ScanReturns(job, job.start, found) && OnBoundary(found)
                                      && SearchReturns(job, found, was, 0, stored, Success, n, v);
    var again: Result<u32>, m: nat :| ScanReturns(job, job.start, again) && OnBoundary(again)
                                      && SearchReturns(job, again, was, 0, stored, Success, m, w);
    ScanReturnsOnce(job, job.start, found, again);
    SearchReturnsOnce(job, found, was, 0, stored, Success, n, v, m, w);
  }

  /** For end offsets up to 0xFFFF0008 the validation returns, with the verdict of the search. */
  lemma BoundedValidateReturns(job: Job, was: Descriptor, stored: Option<seq<byte>>, v: Verdict)
    requires job.Bounded()
    ensures ValidateReturns(job, was, stored, v) <==> v == Validate(job, was, stored)
  {
    hide Search, SearchReturns, ScanReturns, NextCandidate;
    NextIsBehind(job, job.start);
    var found := NextCandidate(job, job.start);
    BoundedScanReturns(job, job.start, found);
    var rounds := BoundedSearchReturns(job, found, was, 0, stored, Success);
    assert ValidateReturns(job, was, stored, Validate(job, was, stored));
    if ValidateReturns(job, was, stored, v) {
      ValidateReturnsOnce(job, was, stored, v, Validate(job, was, stored));
    }
  }

  /** The validation returns on every flash exactly for end offsets up to 0xFFFF0008, or without a
      range to search. */
  lemma ValidationEnds(job: Job, was: Descriptor, stored: Option<seq<byte>>)
    ensures (forall f: Flash :: Returns(job.(f := f), was, stored))
            <==> job.Bounded() || job.end <= job.start || job.end < 8
  {
    hide Search, SearchReturns, NextBoundary, Ends, PowerOfTwo, Without;
    if job.Bounded() {
      forall f: Flash ensures Returns(job.(f := f), was, stored) {
        var v := Validate(job.(f := f), was, stored);
        BoundedValidateReturns(job.(f := f), was, stored, v);
      }
    } else if job.end <= job.start {
      forall f: Flash ensures Returns(job.(f := f), was, stored) {
        NoRangeReturns(job.(f := f), was, stored);
      }
    } else {
      var f := Without(DESCRIPTOR_MAGIC);
      BoundaryIsAligned(job.start);
      AlignmentIsPowerOfTwo();
      NeverStops(DESCRIPTOR_MAGIC, NextBoundary(job.start), job.end, DESCRIPTOR_ALIGNMENT);
      forall r: Result<u32> ensures !ScanReturns(job.(f := f), job.start, r) {
        if ScanReturns(job.(f := f), job.start, r) {
          EndsIfItEndsWith(f, DESCRIPTOR_MAGIC, NextBoundary(job.start), job.end, DESCRIPTOR_ALIGNMENT, r);
        }
      }
      assert !Returns(job.(f := f), was, stored);
    }
  }

  lemma NoRangeReturns(job: Job, was: Descriptor, stored: Option<seq<byte>>)
    requires job.end <= job.start
    ensures Returns(job, was, stored)
  {
    var e: Result<u32> := Err(InvalidArgument);
    var v := Verdict(InvalidArgument, Invalid, was, stored, None);
    assert SearchReturns(job, e, was, 0, stored, Success, 0, v);
    assert ScanReturns(job, job.start, e);
    assert ValidateReturns(job, was, stored, v);
  }

  // ----- The library's functions -----

  method FindCandidate(ctx: Context, ghost job: Job, from: u32) returns (found: Result<u32>)
    requires job.f == ctx.flash && job.end == ctx.endOffset && SomeScanReturns(job, from)
    ensures ScanReturns(job, from, found) && OnBoundary(found)
  {
    hide PowerOfTwo, RoundUp, EndsWith, Ends, NextBoundary;
    AlignmentIsPowerOfTwo();
    BoundaryIsRoundUp(from);
    ghost var r: Result<u32> :| ScanReturns(job, from, r);
    if from < ctx.endOffset && ctx.endOffset >= 8 {
      EndsIfItEndsWith(ctx.flash, DESCRIPTOR_MAGIC, NextBoundary(from), ctx.endOffset, DESCRIPTOR_ALIGNMENT, r);
    }
    found := ScanForMagic8(ctx, DESCRIPTOR_MAGIC, from, ctx.endOffset, DESCRIPTOR_ALIGNMENT);
    ScanStaysOnBoundary(job, from, found);
  }

  method TryCandidate(ctx: Context, ghost job: Job, at: u32, blobWas: u32)
    returns (r: Status, blobOffset: u32, regions: seq<Region>)
    requires job.f == ctx.flash && job.intf == ctx.intf && job.family == ctx.family
    requires job.start == ctx.startOffset && job.end == ctx.endOffset
    modifies ctx`descriptor, ctx`hashType, ctx`hashed
    ensures var c := CheckCandidate(job, old(ctx.descriptor), at, blobWas);
            ctx.descriptor == c.desc && blobOffset == c.blobOffset && r == CandidateStatus(job, c, at)
    ensures r == Success ==> TableAt(ctx.flash, ctx.descriptor, at) == Some(regions)
  {
    regions := [];
    r, blobOffset := ValidateDescriptor(ctx, at, Sub32(at, ctx.startOffset), Sub32(ctx.endOffset, ctx.startOffset), blobWas);
    if r == Success {
      r, regions := ValidatePayloadRegions(ctx, at);
    }
  }

  method ConcludeImage(ctx: Context, ghost job: Job, store: Store, ghost at: u32, blobOffset: u32) returns (r: Status)
    requires job.f == ctx.flash && job.store == store && BlobBehind(blobOffset)
    modifies ctx`state, ctx`stored
    ensures Verdict(r, ctx.state, ctx.descriptor, ctx.stored, Some(at))
         == Conclude(job, at, ctx.descriptor, blobOffset, old(ctx.stored))
  {
    ctx.state := Valid;
    if ctx.descriptor.imageType != IMAGE_PROD {
      return Success;
    }
    r := ValidatePayloadMauv(ctx, store, blobOffset, ctx.descriptor.blobSize);
    if r == StoringNewMauv {
      r := ValidButMauvNotStored;
    }
  }

  /** One round of the search: the candidate is accepted, or the next one is looked for. */
  method TryAndGoOn(ctx: Context, ghost job: Job, store: Store, at: u32, blobWas: u32, firstWas: Status)
    returns (done: bool, r: Status, regions: seq<Region>, found: Result<u32>, blobOffset: u32, first: Status)
    requires job == Job(ctx.flash, ctx.intf, store, ctx.startOffset, ctx.endOffset, ctx.family)
    requires at <= TWO32 - DESCRIPTOR_ALIGNMENT && BlobBehind(blobWas)
    requires CandidateStatus(job, CheckCandidate(job, ctx.descriptor, at, blobWas), at) != Success ==>
               SomeScanReturns(job, at + 1)
    modifies ctx`descriptor, ctx`state, ctx`hashType, ctx`hashed, ctx`stored
    ensures var c := CheckCandidate(job, old(ctx.descriptor), at, blobWas);
            && done == (CandidateStatus(job, c, at) == Success)
            && BlobBehind(c.blobOffset)
            && (done ==>
                  Verdict(r, ctx.state, ctx.descriptor, ctx.stored, Some(at)) == Conclude(job, at, c.desc, c.blobOffset, old(ctx.stored)))
            && (!done ==> ctx.descriptor == c.desc && blobOffset == c.blobOffset && ScanReturns(job, at + 1, found)
                          && first == (if firstWas == Success then CandidateStatus(job, c, at) else firstWas))
    ensures done ==> TableAt(ctx.flash, ctx.descriptor, at) == Some(regions)
    ensures !done ==> ctx.state == old(ctx.state) && ctx.stored == old(ctx.stored)
  {
    BlobStaysBehind(job, ctx.descriptor, at, blobWas);
    first := firstWas;
    r, blobOffset, regions := TryCandidate(ctx, job, at, blobWas);
    if r == Success {
      r := ConcludeImage(ctx, job, store, at, blobOffset);
      return true, r, regions, Err(r), blobOffset, first;
    }
    if first == Success {
      first := r;
    }
    found := FindCandidate(ctx, job, at + 1);
    done := false;
  }

  /** Where validation returns, it is with the verdict of the search, and hands out the region table
      of the image it accepts. */
  method ValidateImage(ctx: Context, store: Store) returns (r: Status, regions: seq<Region>, ghost place: Option<u32>)
    requires Returns(Job(ctx.flash, ctx.intf, store, ctx.startOffset, ctx.endOffset, ctx.family), ctx.descriptor, ctx.stored)
    modifies ctx`descriptor, ctx`state, ctx`hashType, ctx`hashed, ctx`stored
    ensures ValidateReturns(Job(ctx.flash, ctx.intf, store, ctx.startOffset, ctx.endOffset, ctx.family),
                            old(ctx.descriptor), old(ctx.stored), Verdict(r, ctx.state, ctx.descriptor, ctx.stored, place))
    ensures ctx.state == Valid ==> place.Some? && TableAt(ctx.flash, ctx.descriptor, place.value) == Some(regions)
  {
    hide CheckCandidate, CandidateStatus, ScanReturns, CheckMauv, TableAt;
    ghost var job := Job(ctx.flash, ctx.intf, store, ctx.startOffset, ctx.endOffset, ctx.family);
    ghost var verdict: Verdict :| ValidateReturns(job, ctx.descriptor, ctx.stored, verdict);
    ghost var expected: Result<u32>, rounds: nat :|
      ScanReturns(job, job.start, expected) && OnBoundary(expected)
      && SearchReturns(job, expected, ctx.descriptor, 0, ctx.stored, Success, rounds, verdict);
    var done, first, blobOffset: u32 := false, Success, 0;
    regions, place := [], None;
    ctx.state := Invalid;
    var found := FindCandidate(ctx, job, ctx.startOffset);
    ScanReturnsOnce(job, job.start, found, expected);
    while found.Ok?
      invariant ctx.state == Invalid && BlobBehind(blobOffset) && OnBoundary(found)
      invariant SearchReturns(job, found, ctx.descriptor, blobOffset, ctx.stored, first, rounds, verdict)
      decreases rounds
    {
      ghost var at, was, blobWas, firstWas := found.value, ctx.descriptor, blobOffset, first;
      done, r, regions, found, blobOffset, first := TryAndGoOn(ctx, job, store, found.value, blobOffset, first);
      if done {
        place := Some(at);
        return;
      }
      ghost var next := NextInSearch(job, at, was, blobWas, ctx.stored, firstWas, rounds, verdict);
      ScanReturnsOnce(job, at + 1, found, next);
      rounds := rounds - 1;
    }
    r := if first != Success then first else found.status;
  }
}
