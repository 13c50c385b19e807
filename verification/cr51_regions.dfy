/** The region table: it tiles the image, and the static regions without the descriptor area
    hash to the recorded digest. */
module Cr51Regions {
  import opened Bytes
  import opened Options
  import opened Cr51Format
  import opened Cr51Context
  import opened Cr51Hashing

  // ----- The table -----

  function Boundary(rs: seq<Region>, i: nat): nat
    requires i <= |rs|
  {
    if i == 0 then 0 else rs[i - 1].End()
  }

  predicate Holding(r: Region, d: nat) { r.offset <= d < r.End() }

  predicate RegionFits(rs: seq<Region>, i: nat, imageSize: nat, d: nat, area: nat)
    requires i < |rs|
  {
    && rs[i].offset % IMAGE_REGION_ALIGNMENT == 0 && rs[i].size % IMAGE_REGION_ALIGNMENT == 0
    && rs[i].offset == Boundary(rs, i) && rs[i].End() <= imageSize
    && (Holding(rs[i], d) ==> area <= rs[i].End() - d && rs[i].Static())
  }

  /** The regions are aligned, start where the one before ends, and add up to the image; the
      region that holds the descriptor is static and holds its whole area. */
  ghost predicate Tiled(rs: seq<Region>, imageSize: nat, d: nat, area: nat) {
    && (forall i :: 0 <= i < |rs| ==> RegionFits(rs, i, imageSize, d, area))
    && Boundary(rs, |rs|) == imageSize
  }

  /** The last region that holds the descriptor, region 0 if none does. */
  function HolderAmong(rs: seq<Region>, d: nat, n: nat): (i: nat)
    requires n <= |rs|
    ensures i < n || i == 0
  {
    if n == 0 then 0 else if Holding(rs[n - 1], d) then n - 1 else HolderAmong(rs, d, n - 1)
  }

  function Holder(rs: seq<Region>, d: nat): nat { HolderAmong(rs, d, |rs|) }

  method CheckRegions(rs: seq<Region>, imageSize: u32, d: u32, area: u32) returns (r: Option<nat>)
    ensures r == if Tiled(rs, imageSize, d, area) then Some(Holder(rs, d)) else None
  {
    var byteCount: u32, holder := 0, 0;
    for i := 0 to |rs|
      invariant byteCount == Boundary(rs, i) <= imageSize && holder == HolderAmong(rs, d, i)
      invariant forall k :: 0 <= k < i ==> RegionFits(rs, k, imageSize, d, area)
    {
      var region := rs[i];
      if region.offset % IMAGE_REGION_ALIGNMENT != 0 || region.size % IMAGE_REGION_ALIGNMENT != 0 {
        assert !RegionFits(rs, i, imageSize, d, area);
        return None;
      }
      if region.offset != byteCount || region.size > imageSize - byteCount {
        assert !RegionFits(rs, i, imageSize, d, area);
        return None;
      }
      byteCount := byteCount + region.size;
      if d >= region.offset && d < byteCount {
        holder := i;
        if area > byteCount - d || !region.Static() {
          assert !RegionFits(rs, i, imageSize, d, area);
          return None;
        }
      }
    }
    if byteCount != imageSize {
      return None;
    }
    return Some(holder);
  }

  // ----- What is hashed -----

  /** The stretches of a static region still to be read from `start` on: all of it, or what is
      left around the descriptor area, with the wrap-around of 32-bit offsets. */
  function StretchesFrom(r: Region, holder: bool, d: u32, area: u32, start: u32): seq<Stretch> {
    var end, next := Add32(r.offset, r.size), Add32(d, area);
    var rest := Stretch(next, Sub32(end, next));
    if !holder then [Stretch(start, r.size)]
    else if d == start then [rest]
    else if d == end then [Stretch(start, Sub32(d, start))]
    else [Stretch(start, Sub32(d, start)), rest]
  }

  function StretchesOf(r: Region, holder: bool, d: u32, area: u32): seq<Stretch> {
    if r.Static() then StretchesFrom(r, holder, d, area, r.offset) else []
  }

  lemma NextStretch(r: Region, holder: bool, d: u32, area: u32, start: u32, now: u32, size: u32)
    requires holder || start == r.offset
    requires now == if holder && start == d then Add32(start, area) else start
    requires size == if !holder then r.size else if start == d then Sub32(Add32(r.offset, r.size), now) else Sub32(d, start)
    ensures var parts, next, end := StretchesFrom(r, holder, d, area, start), Add32(now, size), Add32(r.offset, r.size);
            && parts[0] == Stretch(now, size)
            && parts[1..] == (if next == end then [] else StretchesFrom(r, holder, d, area, next))
            && (next != end ==> holder)
  {
  }

  /** One static region goes to the hash engine, around the descriptor area if it is there; two
      rounds of the loop are always enough. */
  method HashRegion(ctx: Context, region: Region, holder: bool, d: u32, area: u32) returns (r: Status)
    requires region.Static()
    modifies ctx`hashed
    ensures r == Success || r == RuntimeFailure
    ensures After(old(ctx.hashed), ReadAll(ctx.flash, StretchesOf(region, holder, d, area)))
         == if r == Success then Some(ctx.hashed) else None
  {
    var start: u32, size: u32 := region.offset, region.size;
    ghost var fed := After(ctx.hashed, ReadAll(ctx.flash, StretchesOf(region, holder, d, area)));
    while true
      invariant fed == After(ctx.hashed, ReadAll(ctx.flash, StretchesFrom(region, holder, d, area, start)))
      invariant holder || (start == region.offset && size == region.size)
      decreases |StretchesFrom(region, holder, d, area, start)|
    {
      ghost var parts, from := StretchesFrom(region, holder, d, area, start), start;
      if holder {
        size := Sub32(d, start);
        if size == 0 {
          start := Add32(start, area);
          size := Sub32(Add32(region.offset, region.size), start);
        }
      }
      NextStretch(region, holder, d, area, from, start, size);
      FeedNext(ctx.flash, ctx.hashed, parts);
      r := ReadAndHashUpdate(ctx, start, size);
      if r != Success {
        return;
      }
      start := Add32(start, size);
      if start == Add32(region.offset, region.size) {
        FeedNone(ctx.flash, ctx.hashed);
        return;
      }
    }
  }

  /** What the hash engine holds once the first n regions have been fed to it, None if a read
      failed. */
  function Fed(f: Flash, start: seq<byte>, rs: seq<Region>, holder: nat, d: u32, area: u32, n: nat): Option<seq<byte>>
    requires n <= |rs|
  {
    if n == 0 then Some(start)
    else Both(Fed(f, start, rs, holder, d, area, n - 1), ReadAll(f, StretchesOf(rs[n - 1], n - 1 == holder, d, area)))
  }

  lemma {:induction false} FedStops(f: Flash, start: seq<byte>, rs: seq<Region>, holder: nat, d: u32, area: u32, i: nat, n: nat)
    requires i <= n <= |rs| && Fed(f, start, rs, holder, d, area, i) == None
    ensures Fed(f, start, rs, holder, d, area, n) == None
    decreases n - i
  {
    if i < n {
      FedStops(f, start, rs, holder, d, area, i + 1, n);
    }
  }

  lemma NothingToFeed(f: Flash, fed: seq<byte>, region: Region, holder: bool, d: u32, area: u32)
    requires !region.Static()
    ensures After(fed, ReadAll(f, StretchesOf(region, holder, d, area))) == Some(fed)
  {
    FeedNone(f, fed);
  }

  method HashRegions(ctx: Context, rs: seq<Region>, holder: nat, d: u32, area: u32) returns (r: Status)
    modifies ctx`hashed
    ensures r == Success || r == RuntimeFailure
    ensures Fed(ctx.flash, old(ctx.hashed), rs, holder, d, area, |rs|) == if r == Success then Some(ctx.hashed) else None
  {
    hide StretchesOf, ReadAll;
    ghost var start := ctx.hashed;
    for i := 0 to |rs|
      invariant Fed(ctx.flash, start, rs, holder, d, area, i) == Some(ctx.hashed)
    {
      if !rs[i].Static() {
        NothingToFeed(ctx.flash, ctx.hashed, rs[i], i == holder, d, area);
        continue;
      }
      r := HashRegion(ctx, rs[i], i == holder, d, area);
      if r != Success {
        FedStops(ctx.flash, start, rs, holder, d, area, i + 1, |rs|);
        return;
      }
    }
    return Success;
  }

  // ----- The verdict -----

  function TableAt(f: Flash, desc: Descriptor, d: u32): Option<seq<Region>> {
    match Read(f, Add32(d, DESCRIPTOR_SIZE), desc.regions * REGION_SIZE)
    case None => None
    case Some(bytes) => Some(ParseRegions(bytes, desc.regions))
  }

  function RecordAt(f: Flash, desc: Descriptor, d: u32): Option<seq<byte>>
    requires HashSupported(desc.hashType)
  {
    Read(f, Wrap32(d + DESCRIPTOR_SIZE + desc.regions * REGION_SIZE), 4 + DigestSize(desc.hashType))
  }

  ghost function RegionsVerdict(f: Flash, intf: Intf, desc: Descriptor, d: u32): Status {
    if desc.regions > MAX_REGION_COUNT then InvalidRegionSize
    else
      match TableAt(f, desc, d)
      case None => RuntimeFailure
      case Some(rs) =>
        if !Tiled(rs, desc.imageSize, d, desc.area) then InvalidDescriptor
        else if !HashSupported(desc.hashType) then InvalidHashType
        else DigestVerdict(f, intf, desc, d, rs, Holder(rs, d))
  }

  function DigestVerdict(f: Flash, intf: Intf, desc: Descriptor, d: u32, rs: seq<Region>, holder: nat): Status
    requires HashSupported(desc.hashType)
  {
    match RecordAt(f, desc, d)
    case None => RuntimeFailure
    case Some(record) =>
      if Le32(record, 0) != HASH_MAGIC then InvalidDescriptor
      else
        match Fed(f, [], rs, holder, d, desc.area, |rs|)
        case None => RuntimeFailure
        case Some(bytes) => CompareDigest(intf, desc.hashType, bytes, record[4..])
  }

  function CompareDigest(intf: Intf, hashType: byte, bytes: seq<byte>, recorded: seq<byte>): Status
    requires HashSupported(hashType)
  {
    match intf.digest(hashType, bytes)
    case None => RuntimeFailure
    case Some(digest) => if digest[..DigestSize(hashType)] == recorded then Success else InvalidHash
  }

  method ValidatePayloadRegions(ctx: Context, d: u32) returns (r: Status, regions: seq<Region>)
    modifies ctx`hashType, ctx`hashed
    ensures r == RegionsVerdict(ctx.flash, ctx.intf, ctx.descriptor, d)
    ensures r == Success ==> TableAt(ctx.flash, ctx.descriptor, d) == Some(regions)
  {
    var desc := ctx.descriptor;
    regions := [];
    var hashOffset := Wrap32(d + DESCRIPTOR_SIZE + desc.regions * REGION_SIZE);
    if desc.regions > MAX_REGION_COUNT {
      return InvalidRegionSize, regions;
    }
    var table := Read(ctx.flash, Add32(d, DESCRIPTOR_SIZE), desc.regions * REGION_SIZE);
    if table.None? {
      return RuntimeFailure, regions;
    }
    regions := ParseRegions(table.value, desc.regions);
    var holder := CheckRegions(regions, desc.imageSize, d, desc.area);
    if holder.None? {
      return InvalidDescriptor, regions;
    }
    if !HashSupported(desc.hashType) {
      return InvalidHashType, regions;
    }
    r := CheckDigest(ctx, regions, holder.value, d, hashOffset);
  }

  method CheckDigest(ctx: Context, rs: seq<Region>, holder: nat, d: u32, hashOffset: u32) returns (r: Status)
    requires HashSupported(ctx.descriptor.hashType)
    requires hashOffset == Wrap32(d + DESCRIPTOR_SIZE + ctx.descriptor.regions * REGION_SIZE)
    modifies ctx`hashType, ctx`hashed
    ensures r == DigestVerdict(ctx.flash, ctx.intf, ctx.descriptor, d, rs, holder)
  {
    var size := DigestSize(ctx.descriptor.hashType);
    var record := Read(ctx.flash, hashOffset, 4 + size);
    if record.None? {
      return RuntimeFailure;
    }
    if Le32(record.value, 0) != HASH_MAGIC {
      return InvalidDescriptor;
    }
    ctx.HashInit(ctx.descriptor.hashType);
    r := HashRegions(ctx, rs, holder, d, ctx.descriptor.area);
    if r != Success {
      return;
    }
    var digest := ctx.intf.digest(ctx.hashType, ctx.hashed);
    if digest.None? {
      return RuntimeFailure;
    }
    if record.value[4..] != digest.value[..size] {
      return InvalidHash;
    }
  }
}
