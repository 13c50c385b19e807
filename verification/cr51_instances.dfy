/** Small images written out byte for byte: that they are accepted, and what that shows. */
module Cr51Instances {
  import opened Bytes
  import opened Options
  import opened Cr51Format
  import opened Cr51Context
  import opened Cr51Scan
  import opened Cr51Hashing
  import opened Cr51Descriptor
  import opened Cr51SignedPrefix
  import opened Cr51Layout
  import opened Cr51Regions
  import opened Cr51Coverage
  import opened Cr51Mauv
  import opened Cr51Walk
  import opened Cr51Validate
  import opened Cr51SearchTheorems

  /** A production image with one static region [0, imageSize), SHA-256 and RSA-2048; `tag` is
      what stands in place of the signature magic. */
  datatype Head = Head(offset: u32, area: u32, imageSize: u32, blobSize: u32, tag: u32)

  const HEAD_SIZE := 188

  function Desc(h: Head): Descriptor {
    Descriptor(DESCRIPTOR_MAGIC, 1, h.offset, h.area, 0, IMAGE_PROD, 0, 2, 1, 1, h.imageSize, h.blobSize)
  }

  function FieldsOf(h: Head): (d: Fields)
    ensures d.Valid() && d.Meaning() == Desc(h)
  {
    Fields(1, 0, [0, 0], h.offset, h.area, Zeros(32), 0, Zeros(16), Zeros(8), IMAGE_PROD, 0, 2, 1, 1, [0, 0, 0], h.imageSize, h.blobSize)
  }

  function DescBytes(h: Head): (s: seq<byte>)
    ensures |s| == DESCRIPTOR_SIZE
  {
    WriteDescriptor(FieldsOf(h))
  }

  lemma DescIsParsed(h: Head)
    ensures ParseDescriptor(DescBytes(h)) == Desc(h)
  {
    hide ParseDescriptor, WriteDescriptor;
    DescriptorRoundTrip(FieldsOf(h));
  }

  function RegionBytes(h: Head): (s: seq<byte>)
    ensures |s| == REGION_SIZE
  {
    WriteRow(Row(Zeros(32), 0, h.imageSize, 0, 1))
  }

  function TheRegion(h: Head): Region { Region(0, h.imageSize, 1) }

  lemma RegionIsParsed(h: Head)
    ensures ParseRegions(RegionBytes(h), 1) == [TheRegion(h)]
  {
    hide WriteRow, ParseRegion;
    var s := RegionBytes(h);
    assert s[0..REGION_SIZE] == s;
    RowIsRead(s, 0, Row(Zeros(32), 0, h.imageSize, 0, 1));
  }

  /** A hash record with a digest of zeros. */
  function RecordBytes(): (s: seq<byte>)
    ensures |s| == 36
  {
    Tag('H', 'A', 'S', 'H') + Zeros(32)
  }

  function HeadBytes(h: Head): (s: seq<byte>)
    ensures |s| == HEAD_SIZE
  {
    DescBytes(h) + RegionBytes(h) + RecordBytes() + (Word(h.tag) + Zeros(8))
  }

  lemma Parts(a: seq<byte>, b: seq<byte>, c: seq<byte>, d: seq<byte>)
    ensures var s := a + b + c + d;
            && s[0..|a|] == a && s[|a|..|a| + |b|] == b
            && s[|a| + |b|..|a| + |b| + |c|] == c && s[|a| + |b| + |c|..] == d
  {
  }

  /** A chip that can be read everywhere. */
  ghost predicate Open(f: Flash) { forall offset: nat, count: nat :: f.readable(offset, count) }

  /** The head stands in the flash at `at`, with room behind it. */
  predicate Stands(f: Flash, at: nat, h: Head) {
    at + 0x1000 <= |f.data| && f.data[at..at + HEAD_SIZE] == HeadBytes(h)
  }

  lemma StandsInParts(f: Flash, at: nat, h: Head)
    requires Stands(f, at, h)
    ensures f.data[at..at + 96] == DescBytes(h) && f.data[at + 96..at + 140] == RegionBytes(h)
    ensures f.data[at + 140..at + 176] == RecordBytes() && f.data[at + 176..at + 180] == Word(h.tag)
  {
    hide DescBytes, RegionBytes, RecordBytes, Word, Zeros;
    Parts(DescBytes(h), RegionBytes(h), RecordBytes(), Word(h.tag) + Zeros(8));
    SliceOfSlice(f.data, at, HEAD_SIZE, 0, 96);
    SliceOfSlice(f.data, at, HEAD_SIZE, 96, 140);
    SliceOfSlice(f.data, at, HEAD_SIZE, 140, 176);
    SliceOfSlice(f.data, at, HEAD_SIZE, 176, 180);
    assert HeadBytes(h)[176..180] == HeadBytes(h)[176..][0..4] == Word(h.tag);
  }

  /** Callbacks that trust every digest and take every digest to be zero. */
  function Trusting(imageSizeValid: Option<u32 -> bool>): Intf {
    Intf((hashType, bytes) => Some(Zeros(64)), false, false, imageSizeValid, digest => true,
         (scheme, own) => false, (scheme, key, exponent, signature, digest) => false, (scheme, raw, digest) => false)
  }

  /** Checking such a flash from `start` to its end for an image of any family. */
  function TrustingJob(f: Flash, start: u32, imageSizeValid: Option<u32 -> bool>): Job {
    Job(f, Trusting(imageSizeValid), Store(true, true, true), start, |f.data|, IMAGE_FAMILY_ALL)
  }

  lemma {:induction false} OpenReads(f: Flash, offset: nat, size: nat)
    requires Open(f) && offset + size <= |f.data|
    ensures ReadRange(f, offset, size).Some?
    decreases size
  {
    if size > MAX_READ_SIZE {
      OpenReads(f, offset + MAX_READ_SIZE, size - MAX_READ_SIZE);
    }
  }

  /** The head is the right one for its place. */
  ghost predicate Placed(job: Job, at: u32, h: Head) {
    && job.start <= at && at % DESCRIPTOR_ALIGNMENT == 0 && at + 0x1000 <= job.end == |job.f.data|
    && h.offset == at - job.start && h.area <= job.end - at && h.imageSize <= job.end - job.start
    && (job.intf.imageSizeValid == None ==> h.imageSize == job.end - job.start)
    && (job.intf.imageSizeValid.Some? ==> job.intf.imageSizeValid.value(h.imageSize))
    && Open(job.f) && job == TrustingJob(job.f, job.start, job.intf.imageSizeValid)
  }

  lemma HeaderPasses(job: Job, at: u32, h: Head)
    requires Placed(job, at, h) && Stands(job.f, at, h)
    ensures job.f.data[at..at + DESCRIPTOR_SIZE] == DescBytes(h) && DescAt(job, at) == Desc(h)
    ensures CheckCandidate(job, BLANK, at, 0)
         == Checked(CheckSigned(job.f, job.intf, job.family, Desc(h), at), Desc(h), BlobOffset(Desc(h), at, 0))
  {
    hide DescBytes, CheckSigned, Zeros, HeadBytes;
    StandsInParts(job.f, at, h);
    DescIsParsed(h);
  }

  /** Without a blob the layout check looks for the signature structure at 176, and there it has to
      fit an area of 700 bytes; or one of less than 176. */
  lemma LayoutPasses(h: Head)
    requires h.blobSize == 0 && (h.area < 176 || h.area >= 700)
    ensures PlaceSignature(Desc(h)) == Ok(176) && Needed(Desc(h)) == 700
  {
  }

  lemma SealPasses(job: Job, at: u32, h: Head)
    requires Placed(job, at, h) && Stands(job.f, at, h) && h.tag == SIGNATURE_MAGIC
    requires h.blobSize == 0 && (h.area < 176 || h.area >= 700)
    ensures CheckSigned(job.f, job.intf, job.family, Desc(h), at) == Success
  {
    hide HeadBytes, DescBytes, RegionBytes, RecordBytes, PlaceSignature, Authentic;
    LayoutPasses(h);
    StandsInParts(job.f, at, h);
    assert Le32(job.f.data, at + 176) == SIGNATURE_MAGIC;
    TransitionIsAllowed(job.f, job.intf, Desc(h), job.family, at + 176);
    OpenReads(job.f, at, 444);
  }

  /** The region table suits the head: whole pages, and the descriptor area in the region, or the
      descriptor just behind it. */
  predicate Suits(at: u32, h: Head) {
    && h.imageSize > 0 && h.imageSize % IMAGE_REGION_ALIGNMENT == 0
    && (at + h.area <= h.imageSize || at == h.imageSize)
  }

  lemma TableIsTiled(at: u32, h: Head)
    requires Suits(at, h)
    ensures Tiled([TheRegion(h)], h.imageSize, at, h.area) && Holder([TheRegion(h)], at) == 0
  {
    var rs := [TheRegion(h)];
    assert RegionFits(rs, 0, h.imageSize, at, h.area);
    assert HolderAmong(rs, at, 0) == 0;
  }

  lemma RegionIsRead(f: Flash, at: u32, h: Head)
    requires Open(f) && Suits(at, h) && h.imageSize <= |f.data|
    ensures ReadAll(f, StretchesOf(TheRegion(h), true, at, h.area)).Some?
  {
    var end, next := h.imageSize, at + h.area;
    if at == 0 {
      assert StretchesOf(TheRegion(h), true, at, h.area) == [Stretch(next, end - next)];
      ReadOne(f, Stretch(next, end - next));
      OpenReads(f, next, end - next);
    } else if at == end {
      assert StretchesOf(TheRegion(h), true, at, h.area) == [Stretch(0, at)];
      ReadOne(f, Stretch(0, at));
      OpenReads(f, 0, at);
    } else {
      assert StretchesOf(TheRegion(h), true, at, h.area) == [Stretch(0, at), Stretch(next, end - next)];
      ReadTwo(f, Stretch(0, at), Stretch(next, end - next));
      OpenReads(f, 0, at);
      OpenReads(f, next, end - next);
    }
  }

  lemma TableIsRead(job: Job, at: u32, h: Head)
    requires Placed(job, at, h) && Stands(job.f, at, h)
    ensures TableAt(job.f, Desc(h), at) == Some([TheRegion(h)])
    ensures RecordAt(job.f, Desc(h), at) == Some(RecordBytes())
  {
    hide HeadBytes, DescBytes, RegionBytes, RecordBytes, ParseRegions;
    StandsInParts(job.f, at, h);
    RegionIsParsed(h);
  }

  lemma DigestPasses(job: Job, bytes: seq<byte>)
    requires job.intf == Trusting(job.intf.imageSizeValid)
    ensures Le32(RecordBytes(), 0) == HASH_MAGIC && RecordBytes()[4..] == Zeros(32)
    ensures CompareDigest(job.intf, 2, bytes, RecordBytes()[4..]) == Success
  {
    hide LeValue;
    TagsSpell();
    assert RecordBytes()[0..4] == Tag('H', 'A', 'S', 'H');
    assert Zeros(64)[..32] == Zeros(32);
  }

  lemma RegionsPass(job: Job, at: u32, h: Head)
    requires Placed(job, at, h) && Stands(job.f, at, h) && Suits(at, h)
    ensures RegionsVerdict(job.f, job.intf, Desc(h), at) == Success
  {
    hide HeadBytes, RecordBytes, Tiled, Holder, StretchesOf, ReadAll, TableAt, RecordAt, CompareDigest, Stands, Suits;
    TableIsRead(job, at, h);
    TableIsTiled(at, h);
    var rs := [TheRegion(h)];
    RegionIsRead(job.f, at, h);
    var bytes := Fed(job.f, [], rs, 0, at, h.area, 1);
    assert Fed(job.f, [], rs, 0, at, h.area, 0) == Some([]);
    assert bytes.Some?;
    DigestPasses(job, bytes.value);
  }

  /** Every image of this kind is accepted: what is written is read back as meant. */
  lemma HeadIsAccepted(job: Job, at: u32, h: Head)
    requires Placed(job, at, h) && Stands(job.f, at, h) && Suits(at, h)
    requires h.tag == SIGNATURE_MAGIC && h.blobSize == 0 && (h.area < 176 || h.area >= 700)
    ensures StatusAt(job, at) == Success && DescAt(job, at) == Desc(h)
  {
    hide CheckSigned, RegionsVerdict, Stands, CheckCandidate;
    HeaderPasses(job, at, h);
    SealPasses(job, at, h);
    RegionsPass(job, at, h);
  }

  lemma MagicStands(f: Flash, at: nat, h: Head)
    requires Stands(f, at, h)
    ensures Holds(f, DESCRIPTOR_MAGIC, at)
  {
    hide HeadBytes, DescBytes, RegionBytes, RecordBytes, LeValue;
    StandsInParts(f, at, h);
    DescIsParsed(h);
    Le64OfSlice(f.data, at, 96, 0);
  }

  // ----- The search on flashes of one or two 64 KiB slots -----

  lemma FirstIsTaken(job: Job, at: u32, was: Descriptor, stored: Option<seq<byte>>)
    requires job.Bounded() && NextCandidate(job, job.start) == Ok(at) && StatusAt(job, at) == Success
    ensures HashSupported(DescAt(job, at).hashType) && BlobBehind(BlobOffset(DescAt(job, at), at, 0))
    ensures Validate(job, was, stored) == Conclude(job, at, DescAt(job, at), BlobOffset(DescAt(job, at), at, 0), stored)
  {
    hide CheckCandidate, CandidateStatus, StatusAt, DescAt, BlobLeft, Conclude, NextCandidate, BlobOffset;
    NextIsBehind(job, job.start);
    VerdictIsOwn(job, was, at, 0);
    BlobStaysBehind(job, was, at, 0);
  }

  lemma SecondIsTaken(job: Job, at: u32, later: u32, was: Descriptor, stored: Option<seq<byte>>)
    requires job.Bounded() && NextCandidate(job, job.start) == Ok(at) && StatusAt(job, at) != Success
    requires at < TWO32 - 1 && NextCandidate(job, at + 1) == Ok(later) && StatusAt(job, later) == Success
    ensures HashSupported(DescAt(job, later).hashType) && BlobBehind(BlobOffset(DescAt(job, later), later, BlobLeft(job, at)))
    ensures Validate(job, was, stored)
         == Conclude(job, later, DescAt(job, later), BlobOffset(DescAt(job, later), later, BlobLeft(job, at)), stored)
  {
    hide CheckCandidate, CandidateStatus, StatusAt, DescAt, BlobLeft, Conclude, NextCandidate, BlobOffset;
    NextIsBehind(job, job.start);
    VerdictIsOwn(job, was, at, 0);
    BlobStaysBehind(job, was, at, 0);
    var c := CheckCandidate(job, was, at, 0);
    NextIsBehind(job, at + 1);
    VerdictIsOwn(job, c.desc, later, c.blobOffset);
    BlobStaysBehind(job, c.desc, later, c.blobOffset);
    var first := StatusAt(job, at);
    assert c.blobOffset == BlobLeft(job, at);
    assert Search(job, Ok(later), c.desc, c.blobOffset, stored, first)
        == Conclude(job, later, DescAt(job, later), BlobOffset(DescAt(job, later), later, c.blobOffset), stored);
  }

  const SLOT := 0x1_0000

  function Slot(h: Head): (s: seq<byte>)
    ensures |s| == SLOT
  {
    HeadBytes(h) + Zeros(SLOT - HEAD_SIZE)
  }

  function OneSlot(h: Head): Flash { Chip(Slot(h), (offset, count) => true) }

  function TwoSlots(first: seq<byte>, h: Head): Flash
    requires |first| == SLOT
  {
    Chip(first + Slot(h), (offset, count) => true)
  }

  lemma StandsInSlots(f: Flash, first: seq<byte>, h: Head, rest: seq<byte>)
    requires f.data == first + Slot(h) + rest
    ensures Stands(f, |first|, h)
  {
    hide HeadBytes;
    var s := first + HeadBytes(h) + (Zeros(SLOT - HEAD_SIZE) + rest);
    assert f.data == s;
    assert s[|first|..|first| + HEAD_SIZE] == HeadBytes(h);
  }

  /** In a flash of one or two slots the scan looks at their starts. */
  predicate Slotted(job: Job) {
    job.end == |job.f.data| && job.end in {SLOT, 2 * SLOT}
  }

  lemma ScanHits(job: Job, from: u32)
    requires Slotted(job) && Open(job.f) && from in {0, 1, SLOT}
    requires var next := if from == 0 then 0 else SLOT; next < job.end && Holds(job.f, DESCRIPTOR_MAGIC, next)
    ensures job.Bounded() && NextCandidate(job, from) == Ok(if from == 0 then 0 else SLOT)
  {
    hide Holds;
  }

  lemma ScanGoesOn(job: Job)
    requires Slotted(job) && Open(job.f) && job.end == 2 * SLOT
    requires !Holds(job.f, DESCRIPTOR_MAGIC, 0) && Holds(job.f, DESCRIPTOR_MAGIC, SLOT)
    ensures job.Bounded() && NextCandidate(job, 0) == Ok(SLOT)
  {
    hide Holds;
    var next := ScanFrom(job.f, DESCRIPTOR_MAGIC, SLOT, job.end, DESCRIPTOR_ALIGNMENT);
    assert next == Ok(SLOT) && ScanFrom(job.f, DESCRIPTOR_MAGIC, 0, job.end, DESCRIPTOR_ALIGNMENT) == next;
  }

  /** A production image with a descriptor area of size 0 is accepted, though the structures up to
      its signature need 700 bytes. */
  lemma EmptyAreaIsAccepted() returns (job: Job)
    ensures job.Bounded() && job.start == 0
    ensures forall was :: var v := Validate(job, was, None);
                          && v.status == Success && v.state == Valid && v.place == Some(0)
                          && v.desc.area == 0 && HashSupported(v.desc.hashType) && SchemeSupported(v.desc.scheme)
                          && Needed(v.desc) > v.desc.area
  {
    hide HeadBytes, Slot, CheckCandidate, StatusAt, Stands, NextCandidate, Search, Holds;
    var h := Head(0, 0, SLOT, 0, SIGNATURE_MAGIC);
    job := TrustingJob(OneSlot(h), 0, None);
    StandsInSlots(job.f, [], h, []);
    HeadIsAccepted(job, 0, h);
    MagicStands(job.f, 0, h);
    ScanHits(job, 0);
    LayoutPasses(h);
    forall was ensures Validate(job, was, None) == Verdict(Success, Valid, Desc(h), None, Some(0)) {
      FirstIsTaken(job, 0, was, None);
    }
  }

  /** What a job with its image at `SLOT` shows about images and addresses: the image is accepted
      although no region holds its descriptor, and if it starts there none of the bytes that were
      hashed is one of its own. */
  lemma ImageElsewhereIsAccepted(start: u32) returns (job: Job)
    requires start == 0 || start == SLOT
    ensures job.Bounded() && job.start == start
    ensures forall was :: var v := Validate(job, was, None);
                          && v.status == Success && v.state == Valid && v.place == Some(SLOT) && v.desc.regions == 1
                          && TableAt(job.f, v.desc, SLOT) == Some([Region(0, SLOT, 1)])
                          && v.desc.imageSize <= SLOT && !Holding(Region(0, SLOT, 1), SLOT)
                          && forall a: nat :: Covered([Region(0, SLOT, 1)], SLOT, v.desc.area, a) <==> a < SLOT
  {
    hide HeadBytes, Slot, CheckCandidate, StatusAt, Stands, NextCandidate, Search, Holds;
    var h := Head(SLOT - start, 0x1000, SLOT, 0, SIGNATURE_MAGIC);
    job := TrustingJob(TwoSlots(Zeros(SLOT), h), start, if start == 0 then Some((size: u32) => true) else None);
    StandsInSlots(job.f, Zeros(SLOT), h, []);
    HeadIsAccepted(job, SLOT, h);
    MagicStands(job.f, SLOT, h);
    if start == 0 {
      NoMagicInZeros(job.f);
      ScanGoesOn(job);
    } else {
      ScanHits(job, SLOT);
    }
    TableIsRead(job, SLOT, h);
    OneRegionCovers(0x1000);
    forall was ensures Validate(job, was, None) == Verdict(Success, Valid, Desc(h), None, Some(SLOT)) {
      FirstIsTaken(job, SLOT, was, None);
    }
  }

  lemma NoMagicInZeros(f: Flash)
    requires |f.data| >= SLOT && f.data[..SLOT] == Zeros(SLOT)
    ensures !Holds(f, DESCRIPTOR_MAGIC, 0)
  {
    assert f.data[0..8] == f.data[..SLOT][0..8] == Zeros(8);
    ZerosAreZero(8);
  }

  lemma OneRegionCovers(area: nat)
    ensures forall a: nat :: Covered([Region(0, SLOT, 1)], SLOT, area, a) <==> a < SLOT
  {
    var rs := [Region(0, SLOT, 1)];
    forall a: nat ensures Covered(rs, SLOT, area, a) <==> a < SLOT {
      if a < SLOT {
        assert rs[0].Static() && Holding(rs[0], a);
      }
    }
  }

  /** The first of two images, with an area too small for its structures, and a blob or none. */
  function TooSmall(blobSize: u32): Head { Head(0, 200, 2 * SLOT, blobSize, 0) }

  lemma TooSmallIsMeasured(blobSize: u32)
    requires blobSize == 0 || blobSize == 8
    ensures var desc := Desc(TooSmall(blobSize));
            PlaceSignature(desc) == Err(InvalidDescriptor) && BlobOffset(desc, 0, 0) == if blobSize == 0 then 0 else 176
  {
  }

  lemma TooSmallIsRefused(job: Job, blobSize: u32)
    requires blobSize == 0 || blobSize == 8
    requires Placed(job, 0, TooSmall(blobSize)) && Stands(job.f, 0, TooSmall(blobSize))
    ensures StatusAt(job, 0) == InvalidDescriptor && BlobLeft(job, 0) == if blobSize == 0 then 0 else 176
    ensures !BlobMagicAt(job.f, 176)
  {
    hide HeadBytes, DescBytes, RegionBytes, RecordBytes, PlaceSignature, BlobOffset, LeValue, CheckCandidate, RegionsVerdict;
    TooSmallIsMeasured(blobSize);
    HeaderPasses(job, 0, TooSmall(blobSize));
    StandsInParts(job.f, 0, TooSmall(blobSize));
    assert Le32(job.f.data, 176) == 0;
  }

  function StaleJob(blobSize: u32): Job {
    TrustingJob(TwoSlots(Slot(TooSmall(blobSize)), Head(SLOT, SLOT, 2 * SLOT, 0, SIGNATURE_MAGIC)), 0, None)
  }

  /** With the same second image, without a blob, the verdict depends on the first one's blob. */
  lemma StaleVerdict(blobSize: u32, was: Descriptor)
    requires blobSize == 0 || blobSize == 8
    ensures var job := StaleJob(blobSize);
            && job.Bounded() && StatusAt(job, 0) == InvalidDescriptor && StatusAt(job, SLOT) == Success
            && Validate(job, was, None)
            == Verdict(if blobSize == 0 then Success else InvalidDescriptor, Valid,
                       Desc(Head(SLOT, SLOT, 2 * SLOT, 0, SIGNATURE_MAGIC)), None, Some(SLOT))
  {
    hide HeadBytes, Slot, CheckCandidate, StatusAt, BlobLeft, Stands, NextCandidate, Search, Holds;
    var job, h := StaleJob(blobSize), Head(SLOT, SLOT, 2 * SLOT, 0, SIGNATURE_MAGIC);
    assert [] + Slot(TooSmall(blobSize)) + Slot(h) == job.f.data == Slot(TooSmall(blobSize)) + Slot(h) + [];
    StandsInSlots(job.f, [], TooSmall(blobSize), Slot(h));
    StandsInSlots(job.f, Slot(TooSmall(blobSize)), h, []);
    TooSmallIsRefused(job, blobSize);
    HeadIsAccepted(job, SLOT, h);
    MagicStands(job.f, 0, TooSmall(blobSize));
    MagicStands(job.f, SLOT, h);
    ScanHits(job, 0);
    ScanHits(job, 1);
    SecondIsTaken(job, 0, SLOT, was, None);
  }

  lemma Regroup(front: seq<byte>, word: seq<byte>, s: seq<byte>, t: seq<byte>, u: seq<byte>, v: seq<byte>, w: seq<byte>)
    ensures front + word + s + t + u + v + w == front + word + (s + t + u + v + w)
  {
  }

  /** What the two flashes have in common in front of the blob size, and behind it. */
  function BeforeBlobSize(): (s: seq<byte>)
    ensures |s| == 92
  {
    DescBytes(TooSmall(0))[..92]
  }

  function AfterBlobSize(): seq<byte> {
    RegionBytes(TooSmall(0)) + RecordBytes() + (Word(0) + Zeros(8)) + Zeros(SLOT - HEAD_SIZE)
    + Slot(Head(SLOT, SLOT, 2 * SLOT, 0, SIGNATURE_MAGIC))
  }

  lemma DescEnds(blobSize: u32)
    ensures DescBytes(TooSmall(blobSize)) == BeforeBlobSize() + Word(blobSize)
  {
    hide Word, Tag, Zeros;
    var d, e := FieldsOf(TooSmall(blobSize)), FieldsOf(TooSmall(0));
    assert WriteEnd(d)[..12] == WriteEnd(e)[..12] && WriteEnd(d)[12..] == Word(blobSize);
    assert WriteFront(d) == WriteFront(e) && WriteMiddle(d) == WriteMiddle(e);
    hide WriteFront, WriteMiddle, WriteEnd;
    assert WriteDescriptor(d) == WriteFront(d) + WriteMiddle(d) + WriteEnd(d)[..12] + WriteEnd(d)[12..];
    assert WriteDescriptor(e)[..92] == WriteFront(e) + WriteMiddle(e) + WriteEnd(e)[..12];
  }

  lemma BlobSizeStands(blobSize: u32)
    ensures StaleJob(blobSize).f.data == BeforeBlobSize() + Word(blobSize) + AfterBlobSize()
  {
    var h := TooSmall(blobSize);
    assert RegionBytes(h) == RegionBytes(TooSmall(0));
    hide DescBytes, RegionBytes, RecordBytes, Zeros, Word, BeforeBlobSize;
    DescEnds(blobSize);
    var second := Slot(Head(SLOT, SLOT, 2 * SLOT, 0, SIGNATURE_MAGIC));
    Regroup(BeforeBlobSize(), Word(blobSize), RegionBytes(h), RecordBytes(), Word(0) + Zeros(8), Zeros(SLOT - HEAD_SIZE), second);
  }

  lemma SmallWords()
    ensures Word(8) == [8, 0, 0, 0] && Word(0) == [0, 0, 0, 0]
  {
    assert LeBytes(0, 0) == [] && LeBytes(0, 1) == [0] && LeBytes(0, 2) == [0, 0] && LeBytes(0, 3) == [0, 0, 0];
  }

  /** The two flashes differ in one byte of the first descriptor. */
  lemma StaleFlashes()
    ensures StaleJob(0) == StaleJob(8).(f := StaleJob(0).f)
    ensures StaleJob(0).f.data == StaleJob(8).f.data[92 := 0]
  {
    hide HeadBytes, BeforeBlobSize, AfterBlobSize, Zeros, Slot, Word;
    SmallWords();
    BlobSizeStands(8);
    BlobSizeStands(0);
    OneByteDiffers(BeforeBlobSize(), AfterBlobSize());
  }

  lemma OneByteDiffers(before: seq<byte>, after: seq<byte>)
    requires |before| == 92
    ensures (before + [8, 0, 0, 0] + after)[92 := 0] == before + [0, 0, 0, 0] + after
  {
  }

  /** Two flashes that differ in one byte of a descriptor that is refused in both, its blob size:
      the image behind it, which has no blob, is accepted with the one and refused with the other. */
  lemma StaleBlobRefuses(was: Descriptor) returns (job: Job, twin: Job)
    ensures job.Bounded() && twin == job.(f := twin.f) && |job.f.data| > 92 && twin.f.data == job.f.data[92 := 0]
    ensures StatusAt(job, 0) == StatusAt(twin, 0) == InvalidDescriptor
    ensures var v, w := Validate(job, was, None), Validate(twin, was, None);
            && v.status == InvalidDescriptor && w.status == Success
            && v.place == w.place == Some(SLOT) && v.desc == w.desc && v.desc.blobSize == 0
  {
    hide StatusAt, Search, HeadBytes, Slot;
    job, twin := StaleJob(8), StaleJob(0);
    StaleVerdict(8, was);
    StaleVerdict(0, was);
    StaleFlashes();
  }
}
