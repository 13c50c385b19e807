/** What an accepted image is made of, and what two accepted images have in common. */
module Cr51ImageTheorems {
  import opened Bytes
  import opened Options
  import opened Cr51Format
  import opened Cr51Context
  import opened Cr51Hashing
  import opened Cr51Descriptor
  import opened Cr51SignedPrefix
  import opened Cr51Regions
  import opened Cr51Coverage
  import opened Cr51Mauv
  import opened Cr51Walk
  import opened Cr51Scan
  import opened Cr51Validate
  import opened Cr51SearchTheorems

  /** The descriptor in the flash. */
  function DescriptorIn(f: Flash, at: nat): Descriptor
    requires at + DESCRIPTOR_SIZE <= |f.data|
  {
    ParseDescriptor(f.data[at..at + DESCRIPTOR_SIZE])
  }

  /** An image as it is meant to be: a descriptor for this place and this image, well signed with
      everything up to its raw signature, and a hash record that vouches for the static bytes. */
  ghost predicate WellMade(job: Job, at: u32) {
    && job.start <= at && at + DESCRIPTOR_SIZE <= job.end && CanRead(job.f, at, DESCRIPTOR_SIZE)
    && var desc := DescriptorIn(job.f, at);
       && CheckHeader(job.intf, desc, at - job.start, job.end - job.start) == Success
       && SignedAt(job.f, job.intf, desc, job.family, at) && Vouched(job.f, job.intf, desc, at)
  }

  /** The header checks pass exactly for a supported descriptor that states its own place, a size
      and an area within the image, and the size the system wants. */
  lemma HeaderMeans(intf: Intf, desc: Descriptor, relative: u32, maxSize: u32)
    requires relative <= maxSize
    ensures CheckHeader(intf, desc, relative, maxSize) == Success
            <==> && desc.magic == DESCRIPTOR_MAGIC && desc.offset == relative && desc.major <= MAX_MAJOR_VERSION
                 && 0 < desc.regions <= MAX_REGION_COUNT
                 && desc.area <= maxSize - relative && desc.imageSize <= maxSize
                 && (if intf.imageSizeValid.Some? then intf.imageSizeValid.value(desc.imageSize) else desc.imageSize == maxSize)
                 && desc.imageType in {0, 1, 2, 3, 4} && desc.scheme in {1, 2, 3, 4} && desc.hashType in {2, 4}
  {
  }

  /** The checks on a readable candidate whose descriptor area holds the fixed prefix succeed
      exactly for a well-made image. */
  lemma AcceptedIsWellMade(job: Job, at: u32)
    requires job.start <= at < job.end && CanRead(job.f, at, DESCRIPTOR_SIZE)
    requires HashSupported(DescriptorIn(job.f, at).hashType) ==> Spacious(DescriptorIn(job.f, at))
    ensures StatusAt(job, at) == Success <==> WellMade(job, at)
  {
    hide CheckHeader, CheckSigned, SignedAt, RegionsVerdict, Vouched, ParseDescriptor;
    var desc := DescriptorIn(job.f, at);
    if at + DESCRIPTOR_SIZE <= job.end && CheckHeader(job.intf, desc, at - job.start, job.end - job.start) == Success {
      HeaderMeans(job.intf, desc, at - job.start, job.end - job.start);
      SignedPrefix(job.f, job.intf, desc, job.family, at);
      HashCoverage(job.f, job.intf, desc, at);
    }
  }

  /** The descriptor an accepted candidate is judged by is the one in the flash. */
  lemma AcceptedDescriptor(job: Job, at: u32)
    requires StatusAt(job, at) == Success
    ensures CanRead(job.f, at, DESCRIPTOR_SIZE) && DescAt(job, at) == DescriptorIn(job.f, at)
  {
    hide CheckHeader, CheckSigned, RegionsVerdict, ParseDescriptor, BlobOffset;
  }

  /** A blob offset left behind by a place the scan reached is what the blob walk relies on: at a
      multiple of 4, behind a descriptor. */
  lemma BlobLeftIsAligned(job: Job, from: nat, at: u32)
    requires job.Bounded() && Hit(job, from, at) && BlobLeft(job, at) != 0
    ensures Aligned(BlobLeft(job, at)) && Aligned(BlobLeft(job, at) + BLOB_SIZE) && BlobLeft(job, at) >= DESCRIPTOR_SIZE
  {
    hide CheckSigned, ParseDescriptor, FixedPrefix;
    var desc := CheckCandidate(job, BLANK, at, 0).desc;
    BlobIsAligned(job.f, desc, at, 0);
    PaddingMeans(BlobLeft(job, at));
    PaddingMeans(BlobLeft(job, at) + BLOB_SIZE);
  }

  // ----- Two images -----

  /** The bytes under the signature. */
  function Signed(f: Flash, desc: Descriptor, at: nat): seq<byte>
    requires HashSupported(desc.hashType) && SchemeSupported(desc.scheme)
    requires at + Needed(desc) <= |f.data| + KeySize(desc.scheme)
  {
    f.data[at..at + Needed(desc) - KeySize(desc.scheme)]
  }

  lemma SignedIsRead(job: Job, at: u32)
    requires WellMade(job, at)
    ensures var desc := DescriptorIn(job.f, at);
            && HashSupported(desc.hashType) && SchemeSupported(desc.scheme) && desc.regions <= MAX_REGION_COUNT
            && at + Needed(desc) <= |job.f.data| + KeySize(desc.scheme)
            && TableAt(job.f, desc, at).Some? && RecordAt(job.f, desc, at).Some?
  {
    hide CheckHeader, ParseDescriptor, Tiled, Authentic, TransitionAllowed, Gather, LeValue, RegionReadable, ParseRegions;
    HeaderMeans(job.intf, DescriptorIn(job.f, at), at - job.start, job.end - job.start);
  }

  lemma SamePart(s: seq<byte>, t: seq<byte>, at: nat, n: nat, i: nat, j: nat)
    requires at + n <= |s| && at + n <= |t| && s[at..at + n] == t[at..at + n] && i <= j <= n
    ensures s[at + i..at + j] == t[at + i..at + j]
  {
    SliceOfSlice(s, at, n, i, j);
    SliceOfSlice(t, at, n, i, j);
  }

  /** The signed bytes of one image determine the length of the other's. */
  lemma SameSignedSameDescriptor(f: Flash, g: Flash, at: nat, n: nat)
    requires n >= DESCRIPTOR_SIZE && at + n <= |f.data| && at + n <= |g.data| && f.data[at..at + n] == g.data[at..at + n]
    ensures DescriptorIn(f, at) == DescriptorIn(g, at)
  {
    SamePart(f.data, g.data, at, n, 0, DESCRIPTOR_SIZE);
  }

  lemma SameTable(f: Flash, g: Flash, desc: Descriptor, at: u32, n: nat)
    requires HashSupported(desc.hashType) && desc.regions <= MAX_REGION_COUNT && n >= FixedPrefix(desc)
    requires at + n <= |f.data| && at + n <= |g.data| && f.data[at..at + n] == g.data[at..at + n]
    requires TableAt(f, desc, at).Some? && TableAt(g, desc, at).Some? && RecordAt(f, desc, at).Some? && RecordAt(g, desc, at).Some?
    ensures TableAt(f, desc, at) == TableAt(g, desc, at) && RecordAt(f, desc, at) == RecordAt(g, desc, at)
  {
    hide ParseRegions;
    var table := DESCRIPTOR_SIZE + desc.regions * REGION_SIZE;
    SamePart(f.data, g.data, at, n, DESCRIPTOR_SIZE, table);
    SamePart(f.data, g.data, at, n, table, table + HashStructSize(desc.hashType));
  }

  /** The signatures of two images are over the same digest, taken with the same hash. */
  ghost predicate SameDigest(f: Flash, g: Flash, intf: Intf, at: nat) {
    && at + DESCRIPTOR_SIZE <= |f.data| && at + DESCRIPTOR_SIZE <= |g.data|
    && var d, e := DescriptorIn(f, at), DescriptorIn(g, at);
       && HashSupported(d.hashType) && SchemeSupported(d.scheme) && HashSupported(e.hashType) && SchemeSupported(e.scheme)
       && at + Needed(d) <= |f.data| + KeySize(d.scheme) && at + Needed(e) <= |g.data| + KeySize(e.scheme)
       && SchemeHash(d.scheme) == SchemeHash(e.scheme)
       && intf.digest(SchemeHash(d.scheme), Signed(f, d, at)) == intf.digest(SchemeHash(d.scheme), Signed(g, e, at))
  }

  /** Two accepted images at the same place whose signatures are over the same digest are the same
      in every signed byte and in every static byte outside the descriptor area, or they exhibit a
      collision of the digest. */
  lemma SameDigestSameImage(job: Job, other: Job, at: u32)
    requires other == job.(f := other.f) && WellMade(job, at) && WellMade(other, at)
    requires SameDigest(job.f, other.f, job.intf, at)
    ensures var f, g, intf, desc := job.f, other.f, job.intf, DescriptorIn(job.f, at);
            && TableAt(f, desc, at).Some?
            && var rs := TableAt(f, desc, at).value;
               || Collision(intf, SchemeHash(desc.scheme), Signed(f, desc, at), Signed(g, DescriptorIn(g, at), at))
               || Collision(intf, desc.hashType, Gather(f.data, rs, at, desc.area, desc.imageSize),
                            Gather(g.data, rs, at, desc.area, desc.imageSize))
               || (&& DescriptorIn(g, at) == desc && Signed(f, desc, at) == Signed(g, desc, at)
                   && forall a: nat :: Covered(rs, at, desc.area, a) ==>
                        a < |f.data| && a < |g.data| && f.data[a] == g.data[a])
  {
    SignedIsRead(job, at);
    SignedIsRead(other, at);
    if Signed(job.f, DescriptorIn(job.f, at), at) == Signed(other.f, DescriptorIn(other.f, at), at) {
      SameSignedSameImage(job, other, at);
    } else {
      DigestIsTaken(job, at);
      DigestIsTaken(other, at);
    }
  }

  lemma DigestIsTaken(job: Job, at: u32)
    requires WellMade(job, at)
    ensures var desc := DescriptorIn(job.f, at);
            && HashSupported(desc.hashType) && SchemeSupported(desc.scheme) && at + Needed(desc) <= |job.f.data| + KeySize(desc.scheme)
            && job.intf.digest(SchemeHash(desc.scheme), Signed(job.f, desc, at)).Some?
  {
    hide CheckHeader, ParseDescriptor, Vouched;
    HeaderMeans(job.intf, DescriptorIn(job.f, at), at - job.start, job.end - job.start);
    SignedIsRead(job, at);
  }

  lemma SameSignedSameImage(job: Job, other: Job, at: u32)
    requires other == job.(f := other.f) && WellMade(job, at) && WellMade(other, at)
    requires SameDigest(job.f, other.f, job.intf, at)
    requires Signed(job.f, DescriptorIn(job.f, at), at) == Signed(other.f, DescriptorIn(other.f, at), at)
    ensures var f, g, desc := job.f, other.f, DescriptorIn(job.f, at);
            && DescriptorIn(g, at) == desc && TableAt(f, desc, at).Some?
            && var rs := TableAt(f, desc, at).value;
               || Collision(job.intf, desc.hashType, Gather(f.data, rs, at, desc.area, desc.imageSize),
                            Gather(g.data, rs, at, desc.area, desc.imageSize))
               || forall a: nat :: Covered(rs, at, desc.area, a) ==> a < |f.data| && a < |g.data| && f.data[a] == g.data[a]
  {
    hide CheckHeader, ParseDescriptor, Vouched, RegionsVerdict, SignedAt, TableAt, RecordAt, FixedPrefix;
    var f, g, desc := job.f, other.f, DescriptorIn(job.f, at);
    var n := |Signed(f, desc, at)|;
    SignedIsRead(job, at);
    SignedIsRead(other, at);
    assert |Signed(g, DescriptorIn(g, at), at)| == n;
    SameSignedSameDescriptor(f, g, at, n);
    SameTable(f, g, desc, at, n);
    HeaderMeans(job.intf, desc, at - job.start, job.end - job.start);
    HashCoverage(f, job.intf, desc, at);
    HashCoverage(g, job.intf, desc, at);
    Integrity(f, g, job.intf, desc, at);
  }
}
