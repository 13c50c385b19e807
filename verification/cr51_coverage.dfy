/** Which bytes of the image the region digest vouches for. */
module Cr51Coverage {
  import opened Bytes
  import opened Options
  import opened Cr51Format
  import opened Cr51Context
  import opened Cr51Hashing
  import opened Cr51Regions

  /** An address of a static region outside the descriptor area. */
  ghost predicate Covered(rs: seq<Region>, d: nat, area: nat, a: nat) {
    InStatic(rs, a) && !(d <= a < d + area)
  }

  ghost predicate InStatic(rs: seq<Region>, a: nat) {
    exists i :: 0 <= i < |rs| && rs[i].Static() && Holding(rs[i], a)
  }

  /** The bytes at the covered addresses below n, in address order, each once. */
  ghost function Gather(data: seq<byte>, rs: seq<Region>, d: nat, area: nat, n: nat): seq<byte> {
    if n == 0 then []
    else
      Gather(data, rs, d, area, n - 1) + if Covered(rs, d, area, n - 1) && n - 1 < |data| then [data[n - 1]] else []
  }

  lemma {:induction false} GatherAll(data: seq<byte>, rs: seq<Region>, d: nat, area: nat, lo: nat, hi: nat)
    requires lo <= hi <= |data| && forall a :: lo <= a < hi ==> Covered(rs, d, area, a)
    ensures Gather(data, rs, d, area, hi) == Gather(data, rs, d, area, lo) + data[lo..hi]
  {
    if lo < hi {
      GatherAll(data, rs, d, area, lo, hi - 1);
      assert data[lo..hi] == data[lo..hi - 1] + [data[hi - 1]];
    } else {
      assert data[lo..hi] == [];
    }
  }

  lemma {:induction false} GatherNone(data: seq<byte>, rs: seq<Region>, d: nat, area: nat, lo: nat, hi: nat)
    requires lo <= hi && forall a :: lo <= a < hi ==> !Covered(rs, d, area, a)
    ensures Gather(data, rs, d, area, hi) == Gather(data, rs, d, area, lo)
  {
    if lo < hi {
      GatherNone(data, rs, d, area, lo, hi - 1);
    }
  }

  /** Equal gatherings agree on every covered address. */
  lemma {:induction false} GatherAgrees(s: seq<byte>, t: seq<byte>, rs: seq<Region>, d: nat, area: nat, n: nat)
    requires Gather(s, rs, d, area, n) == Gather(t, rs, d, area, n)
    requires forall a: nat :: a < n && Covered(rs, d, area, a) ==> a < |s| && a < |t|
    ensures forall a: nat :: a < n && Covered(rs, d, area, a) ==> s[a] == t[a]
  {
    if n > 0 {
      var g, h := Gather(s, rs, d, area, n - 1), Gather(t, rs, d, area, n - 1);
      if Covered(rs, d, area, n - 1) {
        assert (g + [s[n - 1]])[..|g|] == g && (h + [t[n - 1]])[..|h|] == h;
      } else {
        assert g + [] == g && h + [] == h;
      }
      GatherAgrees(s, t, rs, d, area, n - 1);
    }
  }

  // ----- One region -----

  lemma {:induction false} RegionsAscend(rs: seq<Region>, imageSize: nat, d: nat, area: nat, i: nat, k: nat)
    requires Tiled(rs, imageSize, d, area) && i < k <= |rs|
    ensures rs[i].End() <= Boundary(rs, k)
    decreases k - i
  {
    if i + 1 < k {
      RegionsAscend(rs, imageSize, d, area, i, k - 1);
      assert RegionFits(rs, k - 1, imageSize, d, area);
    }
  }

  /** An address lies in at most one region. */
  lemma OneRegion(rs: seq<Region>, imageSize: nat, d: nat, area: nat, i: nat, k: nat, a: nat)
    requires Tiled(rs, imageSize, d, area) && i < |rs| && k < |rs| && Holding(rs[i], a) && Holding(rs[k], a)
    ensures i == k
  {
    assert RegionFits(rs, i, imageSize, d, area) && RegionFits(rs, k, imageSize, d, area);
    if i < k {
      RegionsAscend(rs, imageSize, d, area, i, k);
    } else if k < i {
      RegionsAscend(rs, imageSize, d, area, k, i);
    }
  }

  lemma {:induction false} HolderHolds(rs: seq<Region>, d: nat, n: nat, i: nat)
    requires i < n <= |rs| && Holding(rs[i], d)
    ensures HolderAmong(rs, d, n) < n && Holding(rs[HolderAmong(rs, d, n)], d)
  {
    if !Holding(rs[n - 1], d) {
      HolderHolds(rs, d, n - 1, i);
    }
  }

  lemma {:induction false} HolderIsFirst(rs: seq<Region>, d: nat, n: nat)
    requires n <= |rs| && forall i :: 0 <= i < n ==> !Holding(rs[i], d)
    ensures HolderAmong(rs, d, n) == 0
  {
    if n > 0 {
      HolderIsFirst(rs, d, n - 1);
    }
  }

  /** The region taken for the descriptor's is the one that holds it, or region 0. */
  lemma HolderIs(rs: seq<Region>, imageSize: nat, d: nat, area: nat, i: nat)
    requires Tiled(rs, imageSize, d, area) && i < |rs|
    ensures Holding(rs[i], d) ==> Holder(rs, d) == i
    ensures Holder(rs, d) == i && !Holding(rs[i], d) ==> i == 0
  {
    var h := Holder(rs, d);
    if Holding(rs[i], d) {
      HolderHolds(rs, d, |rs|, i);
      OneRegion(rs, imageSize, d, area, i, h, d);
    } else if forall k :: 0 <= k < |rs| ==> !Holding(rs[k], d) {
      HolderIsFirst(rs, d, |rs|);
    } else {
      var k :| 0 <= k < |rs| && Holding(rs[k], d);
      HolderHolds(rs, d, |rs|, k);
    }
  }

  lemma CoveredInRegion(rs: seq<Region>, imageSize: nat, d: nat, area: nat, i: nat, a: nat)
    requires Tiled(rs, imageSize, d, area) && i < |rs| && Holding(rs[i], a)
    ensures InStatic(rs, a) == rs[i].Static()
  {
    if InStatic(rs, a) {
      var k :| 0 <= k < |rs| && rs[k].Static() && Holding(rs[k], a);
      OneRegion(rs, imageSize, d, area, i, k, a);
    }
  }

  lemma CoveredRange(rs: seq<Region>, imageSize: nat, d: nat, area: nat, i: nat, lo: nat, hi: nat, all: bool)
    requires Tiled(rs, imageSize, d, area) && i < |rs| && rs[i].offset <= lo <= hi <= rs[i].End()
    requires if all then rs[i].Static() && (hi <= d || d + area <= lo) else !rs[i].Static() || (d <= lo && hi <= d + area)
    ensures forall a :: lo <= a < hi ==> Covered(rs, d, area, a) == all
  {
    forall a | lo <= a < hi ensures Covered(rs, d, area, a) == all {
      CoveredInRegion(rs, imageSize, d, area, i, a);
    }
  }

  lemma ReadOne(f: Flash, p: Stretch)
    ensures ReadAll(f, [p]) == ReadRange(f, p.start, p.size)
  {
    var first := ReadRange(f, p.start, p.size);
    if first.Some? {
      assert first.value + [] == first.value;
    }
  }

  lemma ReadTwo(f: Flash, p: Stretch, q: Stretch)
    ensures ReadAll(f, [p, q]) == Both(ReadRange(f, p.start, p.size), ReadRange(f, q.start, q.size))
  {
    assert [p, q][1..] == [q];
    ReadOne(f, q);
  }

  /** What is read around the descriptor area. */
  lemma AroundDescriptor(f: Flash, rs: seq<Region>, imageSize: nat, d: u32, area: u32, i: nat)
    requires Tiled(rs, imageSize, d, area) && i < |rs| && imageSize < TWO32
    requires rs[i].Static() && Holding(rs[i], d)
    requires ReadAll(f, StretchesOf(rs[i], true, d, area)).Some?
    ensures var r := rs[i];
            && d + area <= r.End() <= |f.data|
            && ReadAll(f, StretchesOf(r, true, d, area)) == Some(f.data[r.offset..d] + f.data[d + area..r.End()])
  {
    var r := rs[i];
    assert RegionFits(rs, i, imageSize, d, area);
    var rest := Stretch(d + area, r.End() - d - area);
    if d == r.offset {
      assert StretchesOf(r, true, d, area) == [rest];
      ReadOne(f, rest);
      assert f.data[d..d] + f.data[d + area..r.End()] == f.data[d + area..r.End()];
    } else {
      assert StretchesOf(r, true, d, area) == [Stretch(r.offset, d - r.offset), rest];
      ReadTwo(f, Stretch(r.offset, d - r.offset), rest);
    }
  }

  /** Region 0 standing in for a descriptor that no region holds is read in full, or the read
      runs off the flash. */
  lemma StandIn(f: Flash, rs: seq<Region>, imageSize: nat, d: u32, area: u32)
    requires Tiled(rs, imageSize, d, area) && 0 < |rs| && imageSize < TWO32 && d + area < TWO32
    requires rs[0].Static() && !Holding(rs[0], d)
    ensures var r, bytes := rs[0], ReadAll(f, StretchesOf(rs[0], true, d, area));
            bytes.Some? ==> r.End() <= |f.data| && bytes.value == f.data[r.offset..r.End()]
  {
    var r := rs[0];
    assert RegionFits(rs, 0, imageSize, d, area);
    var end, next := r.End(), d + area;
    var rest := Stretch(next, Sub32(end, next));
    if d == 0 {
      assert StretchesOf(r, true, d, area) == [rest];
      ReadOne(f, rest);
    } else if d == end {
      assert StretchesOf(r, true, d, area) == [Stretch(0, d)];
      ReadOne(f, Stretch(0, d));
    } else {
      assert StretchesOf(r, true, d, area) == [Stretch(0, d), rest];
      ReadTwo(f, Stretch(0, d), rest);
    }
  }

  /** The descriptor area stays clear of a region that does not hold the descriptor. */
  lemma CoveredOutside(rs: seq<Region>, imageSize: nat, d: nat, area: nat, i: nat)
    requires Tiled(rs, imageSize, d, area) && i < |rs| && rs[i].Static() && !Holding(rs[i], d)
    ensures forall a :: rs[i].offset <= a < rs[i].End() ==> Covered(rs, d, area, a)
  {
    forall a | rs[i].offset <= a < rs[i].End() ensures Covered(rs, d, area, a) {
      if d <= a < d + area {
        assert RegionFits(rs, i, imageSize, d, area);
        HolderBelow(rs, imageSize, d, area, i);
        OneRegion(rs, imageSize, d, area, i, HolderAmong(rs, d, i), a);
      }
    }
  }

  /** A descriptor below the start of region i is held by a region before it, with its area. */
  lemma {:induction false} HolderBelow(rs: seq<Region>, imageSize: nat, d: nat, area: nat, i: nat)
    requires Tiled(rs, imageSize, d, area) && i <= |rs| && d < Boundary(rs, i)
    ensures var h := HolderAmong(rs, d, i); h < i && Holding(rs[h], d) && d + area <= rs[h].End()
  {
    assert RegionFits(rs, i - 1, imageSize, d, area);
    if !Holding(rs[i - 1], d) {
      HolderBelow(rs, imageSize, d, area, i - 1);
    }
  }

  ghost predicate Gathers(f: Flash, rs: seq<Region>, d: nat, area: nat, r: Region, bytes: seq<byte>) {
    && (r.Static() ==> r.End() <= |f.data|)
    && Gather(f.data, rs, d, area, r.End()) == Gather(f.data, rs, d, area, r.offset) + bytes
  }

  lemma HolderGathers(f: Flash, rs: seq<Region>, imageSize: nat, d: u32, area: u32, i: nat)
    requires Tiled(rs, imageSize, d, area) && i < |rs| && rs[i].Static() && Holding(rs[i], d)
    requires d + area <= rs[i].End() <= |f.data|
    ensures Gathers(f, rs, d, area, rs[i], f.data[rs[i].offset..d] + f.data[d + area..rs[i].End()])
  {
    hide Covered, Gather, Tiled;
    var r := rs[i];
    var g := Gather(f.data, rs, d, area, r.offset);
    CoveredRange(rs, imageSize, d, area, i, r.offset, d, true);
    GatherAll(f.data, rs, d, area, r.offset, d);
    CoveredRange(rs, imageSize, d, area, i, d, d + area, false);
    GatherNone(f.data, rs, d, area, d, d + area);
    CoveredRange(rs, imageSize, d, area, i, d + area, r.End(), true);
    GatherAll(f.data, rs, d, area, d + area, r.End());
    assert g + f.data[r.offset..d] + f.data[d + area..r.End()] == g + (f.data[r.offset..d] + f.data[d + area..r.End()]);
  }

  lemma WholeGathers(f: Flash, rs: seq<Region>, imageSize: nat, d: u32, area: u32, i: nat)
    requires Tiled(rs, imageSize, d, area) && i < |rs| && rs[i].Static() && !Holding(rs[i], d)
    requires rs[i].End() <= |f.data|
    ensures Gathers(f, rs, d, area, rs[i], f.data[rs[i].offset..rs[i].End()])
  {
    CoveredOutside(rs, imageSize, d, area, i);
    GatherAll(f.data, rs, d, area, rs[i].offset, rs[i].End());
  }

  lemma NothingGathers(f: Flash, rs: seq<Region>, imageSize: nat, d: u32, area: u32, i: nat)
    requires Tiled(rs, imageSize, d, area) && i < |rs| && !rs[i].Static()
    ensures Gathers(f, rs, d, area, rs[i], [])
  {
    CoveredRange(rs, imageSize, d, area, i, rs[i].offset, rs[i].End(), false);
    GatherNone(f.data, rs, d, area, rs[i].offset, rs[i].End());
    assert Gather(f.data, rs, d, area, rs[i].offset) + [] == Gather(f.data, rs, d, area, rs[i].offset);
  }

  /** What is read for one region is what there is to gather in it. */
  lemma RegionGathers(f: Flash, rs: seq<Region>, imageSize: nat, d: u32, area: u32, i: nat)
    requires Tiled(rs, imageSize, d, area) && i < |rs| && imageSize < TWO32 && d + area < TWO32
    requires ReadAll(f, StretchesOf(rs[i], i == Holder(rs, d), d, area)).Some?
    ensures Gathers(f, rs, d, area, rs[i], ReadAll(f, StretchesOf(rs[i], i == Holder(rs, d), d, area)).value)
  {
    var r := rs[i];
    HolderIs(rs, imageSize, d, area, i);
    if !r.Static() {
      NothingGathers(f, rs, imageSize, d, area, i);
    } else if Holding(r, d) {
      AroundDescriptor(f, rs, imageSize, d, area, i);
      HolderGathers(f, rs, imageSize, d, area, i);
    } else {
      if i == Holder(rs, d) {
        StandIn(f, rs, imageSize, d, area);
      } else {
        ReadOne(f, Stretch(r.offset, r.size));
      }
      WholeGathers(f, rs, imageSize, d, area, i);
    }
  }

  // ----- The whole table -----

  /** The bytes fed to the hash engine, the covered addresses up to a boundary, and nothing of a
      static region beyond the flash. */
  ghost predicate GatheredUpTo(f: Flash, rs: seq<Region>, d: nat, area: nat, n: nat, fed: seq<byte>)
    requires n <= |rs|
  {
    && fed == Gather(f.data, rs, d, area, Boundary(rs, n))
    && forall i :: 0 <= i < n ==> InFlash(f, rs[i])
  }

  predicate InFlash(f: Flash, r: Region) { r.Static() ==> r.End() <= |f.data| }

  lemma GatheredNext(f: Flash, rs: seq<Region>, d: nat, area: nat, n: nat, fed: seq<byte>, bytes: seq<byte>)
    requires n < |rs| && rs[n].offset == Boundary(rs, n)
    requires GatheredUpTo(f, rs, d, area, n, fed) && Gathers(f, rs, d, area, rs[n], bytes)
    ensures GatheredUpTo(f, rs, d, area, n + 1, fed + bytes)
  {
    assert InFlash(f, rs[n]);
  }

  lemma StartsAtBoundary(rs: seq<Region>, imageSize: nat, d: nat, area: nat, i: nat)
    requires Tiled(rs, imageSize, d, area) && i < |rs|
    ensures rs[i].offset == Boundary(rs, i)
  {
    assert RegionFits(rs, i, imageSize, d, area);
  }

  lemma GatheredNothing(f: Flash, rs: seq<Region>, d: nat, area: nat)
    ensures GatheredUpTo(f, rs, d, area, 0, [])
  {
  }

  lemma {:induction false} RegionsGather(f: Flash, rs: seq<Region>, imageSize: nat, d: u32, area: u32, n: nat)
    requires Tiled(rs, imageSize, d, area) && n <= |rs| && imageSize < TWO32 && d + area < TWO32
    requires Fed(f, [], rs, Holder(rs, d), d, area, n).Some?
    ensures GatheredUpTo(f, rs, d, area, n, Fed(f, [], rs, Holder(rs, d), d, area, n).value)
  {
    hide Tiled, Holder, StretchesOf, ReadAll, Gathers, GatheredUpTo;
    if n == 0 {
      GatheredNothing(f, rs, d, area);
    } else {
      RegionsGather(f, rs, imageSize, d, area, n - 1);
      RegionGathers(f, rs, imageSize, d, area, n - 1);
      StartsAtBoundary(rs, imageSize, d, area, n - 1);
      GatheredNext(f, rs, d, area, n - 1, Fed(f, [], rs, Holder(rs, d), d, area, n - 1).value,
                   ReadAll(f, StretchesOf(rs[n - 1], n - 1 == Holder(rs, d), d, area)).value);
    }
  }

  lemma StreamIsGather(f: Flash, rs: seq<Region>, imageSize: nat, d: u32, area: u32)
    requires Tiled(rs, imageSize, d, area) && imageSize < TWO32 && d + area < TWO32
    ensures var bytes := Fed(f, [], rs, Holder(rs, d), d, area, |rs|);
            bytes.Some? ==>
              && bytes.value == Gather(f.data, rs, d, area, imageSize)
              && forall a: nat :: InStatic(rs, a) ==> a < |f.data| && a < imageSize
  {
    var bytes := Fed(f, [], rs, Holder(rs, d), d, area, |rs|);
    if bytes.Some? {
      RegionsGather(f, rs, imageSize, d, area, |rs|);
      forall a: nat | InStatic(rs, a) ensures a < |f.data| && a < imageSize {
        var i :| 0 <= i < |rs| && rs[i].Static() && Holding(rs[i], a);
        assert RegionFits(rs, i, imageSize, d, area) && InFlash(f, rs[i]);
      }
    }
  }

  /** Every chunk that is read of a region, around the descriptor area if it is there. */
  ghost predicate RegionReadable(f: Flash, rs: seq<Region>, d: u32, area: u32, i: nat)
    requires i < |rs|
  {
    forall p :: p in StretchesOf(rs[i], i == Holder(rs, d), d, area) ==> StretchReadable(f, p)
  }

  lemma {:induction false} FedSucceeds(f: Flash, rs: seq<Region>, d: u32, area: u32, n: nat)
    requires n <= |rs|
    ensures Fed(f, [], rs, Holder(rs, d), d, area, n).Some? <==> forall i :: 0 <= i < n ==> RegionReadable(f, rs, d, area, i)
  {
    hide RegionReadable, StretchesOf, ReadAll, Holder;
    if n > 0 {
      FedSucceeds(f, rs, d, area, n - 1);
      RegionReadSucceeds(f, rs, d, area, n - 1);
    }
  }

  lemma RegionReadSucceeds(f: Flash, rs: seq<Region>, d: u32, area: u32, i: nat)
    requires i < |rs|
    ensures ReadAll(f, StretchesOf(rs[i], i == Holder(rs, d), d, area)).Some? <==> RegionReadable(f, rs, d, area, i)
  {
    hide StretchesOf, ReadAll, Holder, StretchReadable;
    ReadAllSucceeds(f, StretchesOf(rs[i], i == Holder(rs, d), d, area));
  }

  /** The hash record of an image vouches for exactly the covered bytes: the checks succeed just
      when the table is readable and tiles the image, the record is readable and tagged, the
      stretches are readable, and the digest of the covered bytes is the recorded one. */
  ghost predicate Vouched(f: Flash, intf: Intf, desc: Descriptor, d: u32) {
    && desc.regions <= MAX_REGION_COUNT && TableAt(f, desc, d).Some? && HashSupported(desc.hashType)
    && var rs := TableAt(f, desc, d).value;
       && Tiled(rs, desc.imageSize, d, desc.area)
       && RecordAt(f, desc, d).Some? && Le32(RecordAt(f, desc, d).value, 0) == HASH_MAGIC
       && (forall i :: 0 <= i < |rs| ==> RegionReadable(f, rs, d, desc.area, i))
       && var digest := intf.digest(desc.hashType, Gather(f.data, rs, d, desc.area, desc.imageSize));
          digest.Some? && digest.value[..DigestSize(desc.hashType)] == RecordAt(f, desc, d).value[4..]
  }

  lemma HashCoverage(f: Flash, intf: Intf, desc: Descriptor, d: u32)
    requires d + desc.area < TWO32
    ensures RegionsVerdict(f, intf, desc, d) == Success <==> Vouched(f, intf, desc, d)
    ensures Vouched(f, intf, desc, d) ==>
              forall a: nat :: InStatic(TableAt(f, desc, d).value, a) ==> a < |f.data| && a < desc.imageSize
  {
    hide RegionReadable, Gather, Tiled, InStatic, Fed;
    if TableAt(f, desc, d).Some? {
      FedSucceeds(f, TableAt(f, desc, d).value, d, desc.area, |TableAt(f, desc, d).value|);
    }
    if TableAt(f, desc, d).Some? && Tiled(TableAt(f, desc, d).value, desc.imageSize, d, desc.area) {
      StreamIsGather(f, TableAt(f, desc, d).value, desc.imageSize, d, desc.area);
    }
  }

  /** Two different inputs with the same digest. */
  ghost predicate Collision(intf: Intf, hashType: byte, s: seq<byte>, t: seq<byte>)
    requires HashSupported(hashType)
  {
    && s != t && intf.digest(hashType, s).Some? && intf.digest(hashType, t).Some?
    && intf.digest(hashType, s).value[..DigestSize(hashType)] == intf.digest(hashType, t).value[..DigestSize(hashType)]
  }

  /** Two accepted images with the same descriptor, region table and hash record agree on every
      static byte outside the descriptor area, or exhibit a collision of the digest. */
  lemma Integrity(f: Flash, g: Flash, intf: Intf, desc: Descriptor, d: u32)
    requires d + desc.area < TWO32
    requires RegionsVerdict(f, intf, desc, d) == Success && RegionsVerdict(g, intf, desc, d) == Success
    requires TableAt(f, desc, d) == TableAt(g, desc, d)
    requires HashSupported(desc.hashType) && RecordAt(f, desc, d) == RecordAt(g, desc, d)
    ensures var rs := TableAt(f, desc, d).value;
            || Collision(intf, desc.hashType, Gather(f.data, rs, d, desc.area, desc.imageSize), Gather(g.data, rs, d, desc.area, desc.imageSize))
            || forall a: nat :: Covered(rs, d, desc.area, a) ==> a < |f.data| && a < |g.data| && f.data[a] == g.data[a]
  {
    var rs := TableAt(f, desc, d).value;
    HashCoverage(f, intf, desc, d);
    HashCoverage(g, intf, desc, d);
    if Gather(f.data, rs, d, desc.area, desc.imageSize) == Gather(g.data, rs, d, desc.area, desc.imageSize) {
      GatherAgrees(f.data, g.data, rs, d, desc.area, desc.imageSize);
    }
  }

  // ----- Where the table speaks about -----

  /** A tiled table puts the descriptor into a static region, with its whole area, exactly when
      it lies below the image size. */
  lemma DescriptorResides(rs: seq<Region>, imageSize: nat, d: nat, area: nat)
    requires Tiled(rs, imageSize, d, area)
    ensures d < imageSize
            <==> exists i :: 0 <= i < |rs| && Holding(rs[i], d) && rs[i].Static() && d + area <= rs[i].End()
  {
    if d < imageSize {
      HolderBelow(rs, imageSize, d, area, |rs|);
      assert RegionFits(rs, HolderAmong(rs, d, |rs|), imageSize, d, area);
    }
    forall i | 0 <= i < |rs| && Holding(rs[i], d) ensures d < imageSize {
      assert RegionFits(rs, i, imageSize, d, area);
    }
  }

  /** An address of a static region of the image that begins at `start`, outside the descriptor
      area: what the format means to be hashed. */
  ghost predicate Intended(rs: seq<Region>, start: nat, d: nat, area: nat, a: nat) {
    a >= start && InStatic(rs, a - start) && !(d <= a < d + area)
  }

  lemma {:induction false} LastStatic(rs: seq<Region>, n: nat) returns (last: nat)
    requires exists a: nat :: InStatic(rs, a)
    requires forall a: nat :: InStatic(rs, a) ==> a < n
    ensures InStatic(rs, last) && forall a: nat :: InStatic(rs, a) ==> a <= last
  {
    if InStatic(rs, n - 1) {
      last := n - 1;
    } else {
      last := LastStatic(rs, n - 1);
    }
  }

  lemma {:induction false} FirstStatic(rs: seq<Region>, a: nat) returns (first: nat)
    requires InStatic(rs, a)
    ensures InStatic(rs, first) && forall b: nat :: InStatic(rs, b) ==> first <= b
    decreases a
  {
    if b: nat :| b < a && InStatic(rs, b) {
      first := FirstStatic(rs, b);
    } else {
      first := a;
    }
  }

  lemma StaticInImage(rs: seq<Region>, imageSize: nat, d: nat, area: nat, a: nat)
    requires Tiled(rs, imageSize, d, area) && InStatic(rs, a)
    ensures a < imageSize
  {
    var i :| 0 <= i < |rs| && rs[i].Static() && Holding(rs[i], a);
    assert RegionFits(rs, i, imageSize, d, area);
  }

  /** An address that a shifted image tells from an unshifted one. */
  lemma ShiftShows(rs: seq<Region>, imageSize: nat, start: nat, d: nat, area: nat, a: nat) returns (x: nat)
    requires Tiled(rs, imageSize, d, area) && start > 0 && InStatic(rs, a)
    ensures Covered(rs, d, area, x) != Intended(rs, start, d, area, x)
  {
    if d < imageSize {
      forall b: nat | InStatic(rs, b) ensures b < imageSize {
        StaticInImage(rs, imageSize, d, area, b);
      }
      var last := LastStatic(rs, imageSize);
      x := last + start;
      DescriptorResides(rs, imageSize, d, area);
      assert d <= x < d + area ==> InStatic(rs, x);
      assert InStatic(rs, x - start);
    } else {
      x := FirstStatic(rs, a);
      StaticInImage(rs, imageSize, d, area, x);
    }
  }

  /** The region offsets count from the start of the image but are used as flash addresses: what
      is hashed is what is meant to be hashed exactly when the image begins at address 0 or has
      nothing static. */
  lemma OffsetsAreAbsolute(rs: seq<Region>, imageSize: nat, start: nat, d: nat, area: nat)
    requires Tiled(rs, imageSize, d, area)
    ensures (forall a: nat :: Covered(rs, d, area, a) <==> Intended(rs, start, d, area, a))
            <==> start == 0 || !exists a: nat :: InStatic(rs, a)
  {
    if start == 0 {
      assert forall a: nat :: Covered(rs, d, area, a) <==> Intended(rs, start, d, area, a);
    } else if a: nat :| InStatic(rs, a) {
      var x := ShiftShows(rs, imageSize, start, d, area, a);
    } else {
      assert forall a: nat :: Covered(rs, d, area, a) <==> Intended(rs, start, d, area, a);
    }
  }
}
