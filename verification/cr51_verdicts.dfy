/** The answers of the checks on one image, errors included, in terms of the flash and the callbacks. */
module Cr51Verdicts {
  import opened Bytes
  import opened Options
  import opened Cr51Format
  import opened Cr51Context
  import opened Cr51Hashing
  import opened Cr51Descriptor
  import opened Cr51SignedPrefix
  import opened Cr51Regions
  import opened Cr51Coverage
  import opened Cr51Walk
  import opened Cr51Mauv

  // ----- The header -----

  /** The descriptor belongs here: it states its own place, and a size that is wanted. */
  predicate Placed(intf: Intf, desc: Descriptor, relative: nat, maxSize: nat) {
    && desc.magic == 0x5F43_5344_474D_495F && desc.offset == relative && desc.regions > 0
    && relative + desc.area <= maxSize && desc.imageSize <= maxSize && desc.imageType <= 4
    && (if intf.imageSizeValid.Some? then intf.imageSizeValid.value(desc.imageSize) else desc.imageSize == maxSize)
  }

  lemma HeaderAnswers(intf: Intf, desc: Descriptor, relative: u32, maxSize: u32)
    requires relative <= maxSize
    ensures var r, schemes, hashes := CheckHeader(intf, desc, relative, maxSize), {1, 2, 3, 4}, {2, 4};
            && (r == InvalidDescriptor <==> !Placed(intf, desc, relative, maxSize))
            && (r == InvalidSigScheme <==> Placed(intf, desc, relative, maxSize) && desc.scheme !in schemes)
            && (r == InvalidHashType <==> Placed(intf, desc, relative, maxSize) && desc.scheme in schemes && desc.hashType !in hashes)
            && (r in {Success, UnsupportedDescriptor}
                <==> Placed(intf, desc, relative, maxSize) && desc.scheme in schemes && desc.hashType in hashes)
            && (r == UnsupportedDescriptor ==> desc.major > 1 || desc.regions > 16)
            && (r == Success ==> desc.major <= 1 && desc.regions <= 16)
  {
  }

  /** Why an image that is tagged and well placed may be refused here: the family first, then the type. */
  lemma TransitionAnswers(f: Flash, intf: Intf, desc: Descriptor, family: u32, signature: u32)
    ensures var r := CheckTransition(f, intf, desc, family, signature);
            if !CanRead(f, signature, 12) then r == RuntimeFailure
            else if Le32(f.data, signature) != 0x4E47_4953 then r == InvalidDescriptor
            else if family != 0 && desc.family != 0 && desc.family != family then r == InvalidImageFamily
            else r == if intf.production && desc.imageType == 0 && !intf.downgradeAllowed then DevDowngradeDisallowed else Success
  {
    hide LeValue;
    if CanRead(f, signature, 12) { Le32OfSlice(f.data, signature, 12, 0); }
  }

  /** The answer on a descriptor: room for it, a readable one, its header, its layout, the transition and
      the signature over everything up to the raw signature, which follows 12 bytes and the modulus. */
  lemma DescriptorAnswers(f: Flash, intf: Intf, family: u32, was: Descriptor, offset: u32, relative: u32, maxSize: u32, blobOffset: u32)
    ensures var c := CheckDescriptor(f, intf, family, was, offset, relative, maxSize, blobOffset);
            if relative + 96 > maxSize then c == Checked(InvalidDescriptor, was, blobOffset)
            else if !CanRead(f, offset, 96) then c == Checked(RuntimeFailure, was, blobOffset)
            else
              && c.desc == ParseDescriptor(f.data[offset..offset + 96])
              && var header := CheckHeader(intf, c.desc, relative, maxSize);
                 if header != Success then c.status == header && c.blobOffset == blobOffset
                 else c.desc.scheme in {1, 2, 3, 4} && c.desc.hashType in {2, 4} && SignedAnswer(c.status, f, intf, family, c.desc, offset)
  {
    hide LeValue, ParseDescriptor, FixedPrefix, BlobOffset, CheckTransition, CheckSignature;
  }

  predicate SignedAnswer(r: Status, f: Flash, intf: Intf, family: u32, desc: Descriptor, offset: u32)
    requires desc.scheme in {1, 2, 3, 4} && desc.hashType in {2, 4}
  {
    match PlaceSignature(desc)
    case Err(e) => r == e == InvalidDescriptor
    case Ok(sign) =>
      var transition := CheckTransition(f, intf, desc, family, Add32(offset, sign));
      var size := Add32(sign, 12 + KeyBytes(desc.scheme));
      r == if transition != Success then transition else CheckSignature(f, intf, offset, size, desc.scheme, Add32(offset, size))
  }

  // ----- The region table -----

  /** The sizes of the first k regions together. */
  function SizeOf(rs: seq<Region>, k: nat): nat
    requires k <= |rs|
  {
    if k == 0 then 0 else SizeOf(rs, k - 1) + rs[k - 1].size
  }

  /** A row that starts where the sizes before it end, with a size in 4096-byte sectors; if the
      descriptor is in it, so is its whole area, and it is static. */
  predicate RowInPlace(rs: seq<Region>, i: nat, d: nat, area: nat)
    requires i < |rs|
  {
    var r := rs[i];
    && r.offset == SizeOf(rs, i) && r.size % 4096 == 0
    && (r.offset <= d < r.offset + r.size ==> d + area <= r.offset + r.size && r.attributes % 2 == 1)
  }

  ghost predicate RowsInPlace(rs: seq<Region>, d: nat, area: nat, k: nat)
    requires k <= |rs|
  {
    forall i :: 0 <= i < k ==> RowInPlace(rs, i, d, area)
  }

  lemma {:induction false} SizesAreBoundaries(rs: seq<Region>, imageSize: nat, d: nat, area: nat, k: nat)
    requires k <= |rs| && forall i :: 0 <= i < k ==> RegionFits(rs, i, imageSize, d, area)
    ensures SizeOf(rs, k) == Boundary(rs, k) && RowsInPlace(rs, d, area, k)
  {
    if k > 0 {
      SizesAreBoundaries(rs, imageSize, d, area, k - 1);
      assert RegionFits(rs, k - 1, imageSize, d, area);
    }
  }

  lemma {:induction false} SizesGrow(rs: seq<Region>, k: nat, n: nat)
    requires k <= n <= |rs|
    ensures SizeOf(rs, k) <= SizeOf(rs, n)
  {
    if k < n {
      SizesGrow(rs, k, n - 1);
    }
  }

  lemma {:induction false} BoundariesAreSizes(rs: seq<Region>, d: nat, area: nat, k: nat)
    requires k <= |rs| && RowsInPlace(rs, d, area, k)
    ensures SizeOf(rs, k) == Boundary(rs, k) && SizeOf(rs, k) % 4096 == 0
    ensures forall i :: 0 <= i < k ==> RegionFits(rs, i, SizeOf(rs, k), d, area)
  {
    if k > 0 {
      BoundariesAreSizes(rs, d, area, k - 1);
      assert RowInPlace(rs, k - 1, d, area);
      forall i | 0 <= i < k ensures RegionFits(rs, i, SizeOf(rs, k), d, area) {
        if i < k - 1 { FitsMore(rs, i, SizeOf(rs, k - 1), SizeOf(rs, k), d, area); }
      }
    }
  }

  lemma FitsMore(rs: seq<Region>, i: nat, n: nat, m: nat, d: nat, area: nat)
    requires i < |rs| && n <= m && RegionFits(rs, i, n, d, area)
    ensures RegionFits(rs, i, m, d, area)
  {
  }

  /** What the table check accepts: sectors one after the other, from 0 to exactly the image size, with
      the descriptor's area inside one static region if its start is in one. */
  lemma TiledMeans(rs: seq<Region>, imageSize: nat, d: nat, area: nat)
    ensures Tiled(rs, imageSize, d, area) <==> RowsInPlace(rs, d, area, |rs|) && SizeOf(rs, |rs|) == imageSize
  {
    if Tiled(rs, imageSize, d, area) {
      SizesAreBoundaries(rs, imageSize, d, area, |rs|);
    }
    if RowsInPlace(rs, d, area, |rs|) && SizeOf(rs, |rs|) == imageSize {
      BoundariesAreSizes(rs, d, area, |rs|);
    }
  }

  /** The answer of the payload check: what is looked at, in this order, and the error for each. */
  ghost predicate RegionsAnswer(r: Status, f: Flash, intf: Intf, desc: Descriptor, d: u32) {
    var table: nat, record: nat := d + 96, d + 96 + 44 * desc.regions;
    if desc.regions > 16 then r == InvalidRegionSize
    else if !CanRead(f, table, 44 * desc.regions) then r == RuntimeFailure
    else DigestAnswer(r, f, intf, desc, d, record, ParseRegions(f.data[table..record], desc.regions))
  }

  ghost predicate DigestAnswer(r: Status, f: Flash, intf: Intf, desc: Descriptor, d: u32, record: nat, rs: seq<Region>) {
    var n := if desc.hashType == 2 then 32 else 64;
    if !(RowsInPlace(rs, d, desc.area, |rs|) && SizeOf(rs, |rs|) == desc.imageSize) then r == InvalidDescriptor
    else if desc.hashType !in {2, 4} then r == InvalidHashType
    else if !CanRead(f, record, 4 + n) then r == RuntimeFailure
    else if Le32(f.data, record) != 0x4853_4148 then r == InvalidDescriptor
    else if exists i :: 0 <= i < |rs| && !RegionReadable(f, rs, d, desc.area, i) then r == RuntimeFailure
    else
      match intf.digest(desc.hashType, Gather(f.data, rs, d, desc.area, desc.imageSize))
      case None => r == RuntimeFailure
      case Some(digest) => r == if digest[..n] == f.data[record + 4..record + 4 + n] then Success else InvalidHash
  }

  lemma DigestAnswers(f: Flash, intf: Intf, desc: Descriptor, d: u32, rs: seq<Region>)
    requires d + desc.area < TWO32 && d + 0x1_0000 <= TWO32 && desc.regions <= 16 && |rs| == desc.regions
    requires TableAt(f, desc, d) == Some(rs)
    ensures DigestAnswer(RegionsVerdict(f, intf, desc, d), f, intf, desc, d, d + 96 + 44 * desc.regions, rs)
  {
    hide LeValue, Gather, Tiled, RowsInPlace, SizeOf, RegionReadable, Fed, TableAt, ParseRegions, RecordAt, Holder, InStatic;
    TiledMeans(rs, desc.imageSize, d, desc.area);
    var record: nat := d + 96 + 44 * desc.regions;
    if Tiled(rs, desc.imageSize, d, desc.area) && HashSupported(desc.hashType) {
      var n := DigestSize(desc.hashType);
      RecordIsAt(f, desc, d);
      if CanRead(f, record, 4 + n) {
        Le32OfSlice(f.data, record, 4 + n, 0);
        SliceOfSlice(f.data, record, 4 + n, 4, 4 + n);
        FedSucceeds(f, rs, d, desc.area, |rs|);
        StreamIsGather(f, rs, desc.imageSize, d, desc.area);
      }
    }
  }

  lemma RecordIsAt(f: Flash, desc: Descriptor, d: u32)
    requires d + 0x1_0000 <= TWO32 && desc.regions <= 16 && HashSupported(desc.hashType)
    ensures RecordAt(f, desc, d) == Read(f, d + 96 + 44 * desc.regions, 4 + DigestSize(desc.hashType))
  {
  }

  /** Every answer of the payload check, for a descriptor that the 64 KiB scan can find. */
  lemma RegionsAnswers(f: Flash, intf: Intf, desc: Descriptor, d: u32)
    requires d + desc.area < TWO32 && d + 0x1_0000 <= TWO32
    ensures RegionsAnswer(RegionsVerdict(f, intf, desc, d), f, intf, desc, d)
  {
    hide DigestVerdict, DigestAnswer, Tiled;
    if desc.regions <= 16 && CanRead(f, d + 96, 44 * desc.regions) {
      hide ParseRegions, Holder;
      DigestAnswers(f, intf, desc, d, ParseRegions(f.data[d + 96..d + 96 + 44 * desc.regions], desc.regions));
    }
  }

  // ----- The blob list -----

  /** A round of the walk at a header in front of the last place for one: the header is readable, its
      payload ends in the list, and it is not a second MAUV; each with its error. */
  lemma WalkAnswers(f: Flash, start: u32, size: u32, current: u32, found: Option<Found>)
    requires current <= LastHeader(start, size)
    ensures var w := WalkRound(f, start, size, current, found);
            if !CanRead(f, current, 8) then w == Over(Err(RuntimeFailure))
            else
              var kind, payload := Le32(f.data, current), Le32(f.data, current + 4);
              if Sub32(current, start) + 8 + payload > size || (kind == 0x5655_414D && found.Some?) then w == Over(Err(InvalidDescriptor))
              else w == At(NextHeader(current, payload), if kind == 0x5655_414D then Some(Found(Add32(current, 8), payload)) else found)
  {
    hide LeValue, LastHeader, NextHeader;
    if CanRead(f, current, 8) {
      Le32OfSlice(f.data, current, 8, 0);
      Le32OfSlice(f.data, current, 8, 4);
    }
  }

  /** The answer of the search for the MAUV, given what the walk comes to. */
  predicate MauvAnswer(r: Result<Option<seq<byte>>>, f: Flash, walked: Result<Option<Found>>) {
    match walked
    case Err(e) => r == Err(e)
    case Ok(None) => r == Ok(None)
    case Ok(Some(p)) =>
      if p.at == 0 then r == Ok(None)
      else if p.size > 128 then r == Err(InvalidMauv)
      else if !CanRead(f, p.at, p.size) then r == Err(RuntimeFailure)
      else r == if Sane(f.data[p.at..p.at + p.size]) then Ok(Some(f.data[p.at..p.at + p.size])) else Err(InvalidMauv)
  }

  /** Every answer of the search for the MAUV. */
  lemma MauvAnswers(f: Flash, blobOffset: u32, blobSize: u32)
    requires blobOffset != 0 && BlobInReach(f, blobOffset, blobSize)
    ensures var r := MauvOf(f, blobOffset, blobSize);
            if !CanRead(f, blobOffset, 4) then r == Err(RuntimeFailure)
            else if Le32(f.data, blobOffset) != 0x424F_4C42 then r == Err(InvalidDescriptor)
            else WalkEnds(f, blobOffset + 4, blobSize) && MauvAnswer(r, f, Walk(f, blobOffset + 4, blobSize))
  {
    hide LeValue, Sane, Walk, WalkEnds;
    if BlobMagicAt(f, blobOffset) {
      InReachEnds(f, blobOffset, blobSize);
    }
  }
}
