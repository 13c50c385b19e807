/** The blob list written out as the format says, and what the walk makes of it. */
module Cr51Blobs {
  import opened Bytes
  import opened Options
  import opened Cr51Format
  import opened Cr51Context
  import opened Cr51Mauv
  import opened Cr51Walk

  type Header = h: seq<byte> | |h| == BLOB_DATA_SIZE witness [0, 0, 0, 0, 0, 0, 0, 0]

  /** One blob as it lies in the flash: its header, which gives its type and the size of its
      payload, its payload, and the bytes that pad it to a multiple of 4, whose values do not
      matter. */
  datatype Blob = Blob(magic: u32, header: Header, payload: seq<byte>, padding: seq<byte>) {
    predicate Valid() {
      Le32(header, 0) == magic && Le32(header, 4) == |payload| && |padding| == Padding(|payload|)
    }
    function Size(): nat { BLOB_DATA_SIZE + |payload| + |padding| }
    predicate IsMauv() { magic == BLOB_TYPE_MAUV }
  }

  /** The blob with a given type and payload, padded with 0xff as the format asks. */
  function MakeBlob(magic: u32, payload: seq<byte>): (b: Blob)
    requires |payload| < TWO32
    ensures b.Valid() && b.magic == magic && b.payload == payload
  {
    Pow256Words();
    var m, n := LeBytes(magic, 4), LeBytes(|payload|, 4);
    assert (m + n)[0..4] == m && (m + n)[4..8] == n;
    Blob(magic, m + n, payload, [0xff, 0xff, 0xff][..Padding(|payload|)])
  }

  function Encode(b: Blob): (s: seq<byte>)
    ensures |s| == b.Size()
  {
    b.header + b.payload + b.padding
  }

  /** Where blob k starts in the serialized list. */
  function StartOf(bs: seq<Blob>, k: nat): nat
    requires k <= |bs|
  {
    if k == 0 then 0 else StartOf(bs, k - 1) + bs[k - 1].Size()
  }

  /** The first n blobs one after the other. */
  function Serialize(bs: seq<Blob>, n: nat): (s: seq<byte>)
    requires n <= |bs|
    ensures |s| == StartOf(bs, n)
  {
    if n == 0 then [] else Serialize(bs, n - 1) + Encode(bs[n - 1])
  }

  lemma {:induction false} StartsAscend(bs: seq<Blob>, j: nat, k: nat)
    requires j <= k <= |bs|
    ensures StartOf(bs, j) <= StartOf(bs, k)
    ensures j < k ==> StartOf(bs, j) + bs[j].Size() <= StartOf(bs, k)
    decreases k - j
  {
    if j < k {
      StartsAscend(bs, j, k - 1);
    }
  }

  lemma {:induction false} SerializedBlob(bs: seq<Blob>, n: nat, k: nat)
    requires k < n <= |bs|
    ensures StartOf(bs, k + 1) <= StartOf(bs, n)
    ensures Serialize(bs, n)[StartOf(bs, k)..StartOf(bs, k + 1)] == Encode(bs[k])
  {
    if k < n - 1 {
      SerializedBlob(bs, n - 1, k);
    }
  }

  ghost predicate Readable(f: Flash, from: nat, to: nat) {
    to <= |f.data| && forall x: nat, n: nat :: from <= x && x + n <= to ==> f.readable(x, n)
  }

  /** The blob is well-formed and lies in the flash at `at`; its header and payload can be read. */
  predicate BlobAt(f: Flash, at: nat, b: Blob) {
    && b.Valid() && at + b.Size() <= |f.data|
    && Read(f, at, BLOB_DATA_SIZE) == Some(b.header)
    && Read(f, at + BLOB_DATA_SIZE, |b.payload|) == Some(b.payload)
  }

  /** The first n blobs of the list lie in the flash from `start` on. */
  predicate Written(f: Flash, start: nat, bs: seq<Blob>, n: nat)
    requires n <= |bs|
  {
    n == 0 || (Written(f, start, bs, n - 1) && BlobAt(f, start + StartOf(bs, n - 1), bs[n - 1]))
  }

  lemma EncodedIsThere(f: Flash, at: nat, b: Blob)
    requires b.Valid() && Readable(f, at, at + b.Size()) && f.data[at..at + b.Size()] == Encode(b)
    ensures BlobAt(f, at, b)
  {
    assert Encode(b)[0..8] == b.header && Encode(b)[8..8 + |b.payload|] == b.payload;
    SliceOfSlice(f.data, at, b.Size(), 0, 8);
    SliceOfSlice(f.data, at, b.Size(), 8, 8 + |b.payload|);
  }

  lemma SerializedIsThere(f: Flash, start: nat, bs: seq<Blob>, k: nat, at: nat, b: Blob)
    requires k < |bs| && at == start + StartOf(bs, k) && b == bs[k] && b.Valid()
    requires Readable(f, start, start + StartOf(bs, |bs|))
    requires f.data[start..start + StartOf(bs, |bs|)] == Serialize(bs, |bs|)
    ensures BlobAt(f, at, b)
  {
    SerializedBlob(bs, |bs|, k);
    PartIsThere(f, start, Serialize(bs, |bs|), at, b);
  }

  /** A flash that holds the serialization of well-formed blobs holds the list. */
  lemma {:induction false} SerializedIsWritten(f: Flash, start: nat, bs: seq<Blob>, n: nat)
    requires n <= |bs| && (forall b :: b in bs ==> b.Valid())
    requires Readable(f, start, start + StartOf(bs, |bs|))
    requires f.data[start..start + StartOf(bs, |bs|)] == Serialize(bs, |bs|)
    ensures Written(f, start, bs, n)
  {
    hide BlobAt, Readable, Serialize;
    if n > 0 {
      SerializedIsWritten(f, start, bs, n - 1);
      assert bs[n - 1] in bs;
      SerializedIsThere(f, start, bs, n - 1, start + StartOf(bs, n - 1), bs[n - 1]);
    }
  }

  lemma PartIsThere(f: Flash, start: nat, s: seq<byte>, at: nat, b: Blob)
    requires start <= at && at - start + b.Size() <= |s| && s[at - start..at - start + b.Size()] == Encode(b) && b.Valid()
    requires Readable(f, start, start + |s|) && f.data[start..start + |s|] == s
    ensures BlobAt(f, at, b)
  {
    SliceOfSlice(f.data, start, |s|, at - start, at - start + b.Size());
    EncodedIsThere(f, at, b);
  }

  // ----- The walk, on the list of blobs -----

  /** The walk over the list itself, from blob k on, with the list cut off after n bytes. */
  function Scanned(start: nat, bs: seq<Blob>, n: nat, k: nat, found: Option<Found>): Result<Option<Found>>
    decreases |bs| - k
  {
    if !HeaderIn(bs, n, k) then Ok(found)
    else if StartOf(bs, k) + BLOB_DATA_SIZE + |bs[k].payload| > n then Err(InvalidDescriptor)
    else if bs[k].IsMauv() && found.Some? then Err(InvalidDescriptor)
    else Scanned(start, bs, n, k + 1, Noted(start + StartOf(bs, k), bs[k], found))
  }

  /** The header of blob k lies inside the first n bytes. */
  predicate HeaderIn(bs: seq<Blob>, n: nat, k: nat) {
    k < |bs| && StartOf(bs, k) + BLOB_DATA_SIZE <= n
  }

  /** The payload of a blob at `at`. */
  function PayloadAt(at: nat, b: Blob): Found { Found(at + BLOB_DATA_SIZE, |b.payload|) }

  /** The MAUV known once the blob at `at` has been passed. */
  function Noted(at: nat, b: Blob, found: Option<Found>): Option<Found> {
    if b.IsMauv() then Some(PayloadAt(at, b)) else found
  }

  /** One round of the walk at a blob that lies before `next` without wrapping. */
  lemma WalkOnce(f: Flash, start: u32, size: u32, at: u32, b: Blob, found: Option<Found>, next: u32)
    requires start >= 16 && size + 4 <= TWO32 && start <= at <= start + size + 3 && start + size < TWO32 && Aligned(at)
    requires b.Valid() && Read(f, at, BLOB_DATA_SIZE) == Some(b.header) && next == at + b.Size()
    requires at + BLOB_DATA_SIZE + |b.payload| <= start + size && !(b.IsMauv() && found.Some?)
    ensures next <= start + size + 3
    ensures WalkFrom(f, start, size, at, found)
         == WalkFrom(f, start, size, next, Noted(at, b, found))
  {
    LastHeaderIs(start, size);
    NextHeaderIs(at, |b.payload|);
  }

  lemma WalkStops(f: Flash, start: u32, size: u32, at: u32, b: Blob, found: Option<Found>)
    requires start >= 16 && size + 4 <= TWO32 && start <= at <= start + size + 3 && start + size < TWO32
    requires b.Valid() && Read(f, at, BLOB_DATA_SIZE) == Some(b.header)
    requires at + BLOB_DATA_SIZE + |b.payload| > start + size || (b.IsMauv() && found.Some?)
    ensures WalkFrom(f, start, size, at, found)
         == if at + BLOB_DATA_SIZE > start + size then Ok(found) else Err(InvalidDescriptor)
  {
    LastHeaderIs(start, size);
  }

  lemma LastHeaderIs(start: u32, size: u32)
    requires start >= 16 && start + size < TWO32
    ensures LastHeader(start, size) == start + size - BLOB_DATA_SIZE
  {
  }

  lemma StaysAligned(at: nat, b: Blob)
    requires b.Valid() && Aligned(at)
    ensures Aligned(at + b.Size())
  {
    var n := BLOB_DATA_SIZE + |b.payload|;
    PaddedIsAligned(n);
    assert Padding(n) == Padding(|b.payload|);
    PaddingIsRelative(at, n + Padding(n));
  }

  lemma WalkStarts(f: Flash, start: u32, size: u32)
    requires start >= 16 && start + size < TWO32
    ensures WalkEnds(f, start, size) && Walk(f, start, size) == WalkFrom(f, start, size, start, None)
  {
    WalkIsFrom(f, start, size);
  }

  lemma {:induction false} BlobIsThere(f: Flash, start: nat, bs: seq<Blob>, n: nat, k: nat)
    requires k < n <= |bs| && Written(f, start, bs, n)
    ensures BlobAt(f, start + StartOf(bs, k), bs[k])
  {
    if k < n - 1 {
      BlobIsThere(f, start, bs, n - 1, k);
    }
  }

  lemma WalkAtBlob(f: Flash, start: u32, n: u32, at: u32, b: Blob, found: Option<Found>) returns (next: nat)
    requires start >= 16 && start + n < TWO32 && start <= at <= start + n + 3 && Aligned(at) && BlobAt(f, at, b)
    ensures next == at + b.Size() && next < TWO32 && Aligned(next)
    ensures at + BLOB_DATA_SIZE > start + n ==> WalkFrom(f, start, n, at, found) == Ok(found)
    ensures at + BLOB_DATA_SIZE <= start + n < at + BLOB_DATA_SIZE + |b.payload| ==>
              WalkFrom(f, start, n, at, found) == Err(InvalidDescriptor)
    ensures at + BLOB_DATA_SIZE <= start + n && b.IsMauv() && found.Some? ==>
              WalkFrom(f, start, n, at, found) == Err(InvalidDescriptor)
    ensures at + BLOB_DATA_SIZE + |b.payload| <= start + n && !(b.IsMauv() && found.Some?) ==>
              next <= start + n + 3 && WalkFrom(f, start, n, at, found) == WalkFrom(f, start, n, next, Noted(at, b, found))
  {
    next := at + b.Size();
    StaysAligned(at, b);
    if at + BLOB_DATA_SIZE + |b.payload| > start + n || (b.IsMauv() && found.Some?) {
      WalkStops(f, start, n, at, b, found);
    } else {
      WalkOnce(f, start, n, at, b, found, next);
    }
  }

  lemma WalkAtHeader(f: Flash, start: u32, bs: seq<Blob>, n: u32, k: nat, at: u32, found: Option<Found>) returns (next: u32)
    requires k < |bs| && start >= 16 && start + n < TWO32 && Written(f, start, bs, |bs|)
    requires at == start + StartOf(bs, k) <= start + n + 3 && Aligned(at)
    ensures next == start + StartOf(bs, k + 1) && Aligned(next)
    ensures if !HeaderIn(bs, n, k) then WalkFrom(f, start, n, at, found) == Ok(found)
            else if at + BLOB_DATA_SIZE + |bs[k].payload| > start + n || (bs[k].IsMauv() && found.Some?)
            then WalkFrom(f, start, n, at, found) == Err(InvalidDescriptor)
            else next <= start + n + 3 && WalkFrom(f, start, n, at, found) == WalkFrom(f, start, n, next, Noted(at, bs[k], found))
  {
    BlobIsThere(f, start, bs, |bs|, k);
    next := WalkAtBlob(f, start, n, at, bs[k], found);
  }

  /** The walk over the flash visits the headers of the list in order, and nothing else. */
  lemma {:induction false} WalkIsScan(f: Flash, start: u32, bs: seq<Blob>, n: u32, k: nat, at: u32, found: Option<Found>)
    requires k <= |bs| && start >= 16 && start + n < TWO32 && n <= StartOf(bs, |bs|) && Written(f, start, bs, |bs|)
    requires at == start + StartOf(bs, k) <= start + n + 3 && Aligned(at)
    ensures WalkFrom(f, start, n, at, found) == Scanned(start, bs, n, k, found)
    decreases |bs| - k
  {
    hide Written, BlobAt, LastHeader, NextHeader;
    if k == |bs| {
      LastHeaderIs(start, n);
    } else {
      var next := WalkAtHeader(f, start, bs, n, k, at, found);
      if at + BLOB_DATA_SIZE + |bs[k].payload| <= start + n && !(bs[k].IsMauv() && found.Some?) {
        WalkIsScan(f, start, bs, n, k + 1, next, Noted(at, bs[k], found));
      }
    }
  }

  // ----- The verdict -----

  ghost predicate NoMauv(bs: seq<Blob>, k: nat)
    requires k <= |bs|
  {
    forall j: nat :: j < k ==> !bs[j].IsMauv()
  }

  /** Blob k spoils the first n bytes: they end inside its payload, or it is a second MAUV. */
  ghost predicate Spoils(bs: seq<Blob>, n: nat, k: nat) {
    && HeaderIn(bs, n, k)
    && (StartOf(bs, k) + BLOB_DATA_SIZE + |bs[k].payload| > n || (bs[k].IsMauv() && !NoMauv(bs, k)))
  }

  ghost predicate Spoilt(bs: seq<Blob>, n: nat) { exists k: nat :: Spoils(bs, n, k) }

  /** What the first n bytes of a list starting at `start` have to be taken for. */
  ghost predicate Verdict(start: nat, bs: seq<Blob>, n: nat, r: Result<Option<Found>>) {
    if Spoilt(bs, n) then r == Err(InvalidDescriptor)
    else if exists k: nat :: HeaderIn(bs, n, k) && bs[k].IsMauv()
    then exists k: nat :: HeaderIn(bs, n, k) && bs[k].IsMauv() && r == Ok(Some(PayloadAt(start + StartOf(bs, k), bs[k])))
    else r == Ok(None)
  }

  predicate IsFind(start: nat, bs: seq<Blob>, j: nat, p: Found)
    requires j < |bs|
  {
    bs[j].IsMauv() && p == PayloadAt(start + StartOf(bs, j), bs[j])
  }

  /** The MAUV among the first k blobs, if there is one. */
  ghost predicate FoundAmong(start: nat, bs: seq<Blob>, k: nat, found: Option<Found>)
    requires k <= |bs|
  {
    match found
    case None => NoMauv(bs, k)
    case Some(p) => exists j: nat :: j < k && IsFind(start, bs, j, p)
  }

  /** The scan has passed blobs 0..k and knows which of them is the MAUV. */
  ghost predicate Passed(start: nat, bs: seq<Blob>, n: nat, k: nat, found: Option<Found>) {
    k <= |bs| && FoundAmong(start, bs, k, found) && Clean(bs, n, k)
  }

  ghost predicate Clean(bs: seq<Blob>, n: nat, k: nat) {
    forall j: nat :: j < k ==> HeaderIn(bs, n, j) && !Spoils(bs, n, j)
  }

  lemma CleanNext(bs: seq<Blob>, n: nat, k: nat)
    requires Clean(bs, n, k) && HeaderIn(bs, n, k) && !Spoils(bs, n, k)
    ensures Clean(bs, n, k + 1)
  {
    forall j: nat | j < k + 1 ensures HeaderIn(bs, n, j) && !Spoils(bs, n, j) {
      if j < k {
        assert HeaderIn(bs, n, j);
      }
    }
  }

  lemma FoundAmongNext(start: nat, bs: seq<Blob>, k: nat, found: Option<Found>)
    requires k < |bs| && FoundAmong(start, bs, k, found) && (bs[k].IsMauv() ==> found.None?)
    ensures FoundAmong(start, bs, k + 1, Noted(start + StartOf(bs, k), bs[k], found))
  {
    if bs[k].IsMauv() {
      assert IsFind(start, bs, k, PayloadAt(start + StartOf(bs, k), bs[k]));
    } else if found.Some? {
      var j: nat :| j < k && IsFind(start, bs, j, found.value);
    }
  }

  lemma PassOn(start: nat, bs: seq<Blob>, n: nat, k: nat, found: Option<Found>)
    requires Passed(start, bs, n, k, found) && HeaderIn(bs, n, k) && !Spoils(bs, n, k)
    ensures Passed(start, bs, n, k + 1, Noted(start + StartOf(bs, k), bs[k], found))
    ensures StartOf(bs, k) + BLOB_DATA_SIZE + |bs[k].payload| <= n && !(bs[k].IsMauv() && found.Some?)
  {
    CleanNext(bs, n, k);
    if found.Some? {
      var j: nat :| j < k && IsFind(start, bs, j, found.value);
    }
    FoundAmongNext(start, bs, k, found);
  }

  lemma PassedAll(start: nat, bs: seq<Blob>, n: nat, k: nat, found: Option<Found>)
    requires Passed(start, bs, n, k, found) && !HeaderIn(bs, n, k)
    ensures Verdict(start, bs, n, Ok(found))
  {
    NoneBehind(bs, n, k);
  }

  lemma {:induction false} ScanDecides(start: nat, bs: seq<Blob>, n: nat, k: nat, found: Option<Found>)
    requires Passed(start, bs, n, k, found)
    ensures Verdict(start, bs, n, Scanned(start, bs, n, k, found))
    decreases |bs| - k
  {
    if !HeaderIn(bs, n, k) {
      PassedAll(start, bs, n, k, found);
    } else if Spoils(bs, n, k) {
      assert Spoilt(bs, n);
    } else {
      PassOn(start, bs, n, k, found);
      ScanDecides(start, bs, n, k + 1, Noted(start + StartOf(bs, k), bs[k], found));
    }
  }

  lemma NoneBehind(bs: seq<Blob>, n: nat, k: nat)
    requires k <= |bs| && !HeaderIn(bs, n, k)
    ensures forall j: nat :: HeaderIn(bs, n, j) ==> j < k
  {
    forall j: nat | HeaderIn(bs, n, j) ensures j < k {
      if k <= j {
        StartsAscend(bs, k, j);
      }
    }
  }

  /** The blob list round trip: a list in the flash, cut off after n bytes, is refused exactly if
      the cut falls into a payload behind its header or two MAUVs come before it; otherwise the
      walk finds the one MAUV, or none. */
  lemma RoundTrip(f: Flash, start: u32, bs: seq<Blob>, n: u32)
    requires start >= 16 && Aligned(start) && start + n < TWO32
    requires Written(f, start, bs, |bs|) && n <= StartOf(bs, |bs|)
    ensures WalkEnds(f, start, n) && Verdict(start, bs, n, Walk(f, start, n))
  {
    hide Written, Verdict, Walk, WalkEnds, WalkFrom;
    WalkStarts(f, start, n);
    WalkIsScan(f, start, bs, n, 0, start, None);
    ScanDecides(start, bs, n, 0, None);
  }

  // ----- The whole list -----

  predicate TwoMauvs(bs: seq<Blob>, j: nat, k: nat) { j < k < |bs| && bs[j].IsMauv() && bs[k].IsMauv() }

  ghost predicate OnlyMauv(bs: seq<Blob>, k: nat) {
    k < |bs| && bs[k].IsMauv() && forall j: nat :: j < |bs| && bs[j].IsMauv() ==> j == k
  }

  lemma NotCut(bs: seq<Blob>, k: nat)
    requires k < |bs|
    ensures StartOf(bs, k) + BLOB_DATA_SIZE + |bs[k].payload| <= StartOf(bs, |bs|)
  {
    StartsAscend(bs, k, |bs|);
  }

  /** An uncut list is refused exactly if it has two MAUVs. */
  lemma UncutSpoils(bs: seq<Blob>)
    ensures Spoilt(bs, StartOf(bs, |bs|)) <==> exists j: nat, k: nat :: TwoMauvs(bs, j, k)
  {
    if k: nat :| Spoils(bs, StartOf(bs, |bs|), k) {
      NotCut(bs, k);
      var j: nat :| j < k && bs[j].IsMauv();
      assert TwoMauvs(bs, j, k);
    }
    if j: nat, k: nat :| TwoMauvs(bs, j, k) {
      NotCut(bs, k);
      assert Spoils(bs, StartOf(bs, |bs|), k);
    }
  }

  lemma OnlyMauvDecides(start: nat, bs: seq<Blob>, k: nat, r: Result<Option<Found>>)
    requires OnlyMauv(bs, k) && Verdict(start, bs, StartOf(bs, |bs|), r)
    ensures r == Ok(Some(PayloadAt(start + StartOf(bs, k), bs[k])))
  {
    UncutSpoils(bs);
    NotCut(bs, k);
    assert HeaderIn(bs, StartOf(bs, |bs|), k);
  }

  lemma FoundMauvIsRead(f: Flash, blobOffset: u32, size: u32, p: Found, payload: seq<byte>)
    requires 12 <= blobOffset && BlobMagicAt(f, blobOffset)
    requires WalkEnds(f, blobOffset + BLOB_SIZE, size) && Walk(f, blobOffset + BLOB_SIZE, size) == Ok(Some(p))
    requires p.at > 0 && Read(f, p.at, p.size) == Some(payload)
    ensures MauvOf(f, blobOffset, size) == if Sane(payload) then Ok(Some(payload)) else Err(InvalidMauv)
  {
    assert MauvOf(f, blobOffset, size) == MauvAt(f, p);
  }

  lemma PayloadIsThere(f: Flash, start: nat, bs: seq<Blob>, k: nat) returns (p: Found)
    requires k < |bs| && Written(f, start, bs, |bs|)
    ensures p == PayloadAt(start + StartOf(bs, k), bs[k]) && p.at > 0
    ensures Read(f, p.at, p.size) == Some(bs[k].payload)
  {
    BlobIsThere(f, start, bs, |bs|, k);
    p := PayloadAt(start + StartOf(bs, k), bs[k]);
  }

  /** The MAUV of a list in the flash comes back byte for byte if it is the only one and sane. */
  lemma MauvComesBack(f: Flash, blobOffset: u32, bs: seq<Blob>, size: u32, k: nat)
    requires 12 <= blobOffset && Aligned(blobOffset) && BlobMagicAt(f, blobOffset)
    requires Written(f, blobOffset + BLOB_SIZE, bs, |bs|) && size == StartOf(bs, |bs|) && blobOffset + BLOB_SIZE + size < TWO32
    requires OnlyMauv(bs, k)
    ensures MauvOf(f, blobOffset, size) == if Sane(bs[k].payload) then Ok(Some(bs[k].payload)) else Err(InvalidMauv)
  {
    hide Written, Verdict, Walk, WalkEnds, MauvOf;
    var start := blobOffset + BLOB_SIZE;
    RoundTrip(f, start, bs, size);
    OnlyMauvDecides(start, bs, k, Walk(f, start, size));
    var p := PayloadIsThere(f, start, bs, k);
    FoundMauvIsRead(f, blobOffset, size, p, bs[k].payload);
  }

  /** Without a MAUV in the list there is none to find; with two the image is refused. */
  lemma MauvAbsentOrTwice(f: Flash, blobOffset: u32, bs: seq<Blob>, size: u32)
    requires 12 <= blobOffset && Aligned(blobOffset) && BlobMagicAt(f, blobOffset)
    requires Written(f, blobOffset + BLOB_SIZE, bs, |bs|) && size == StartOf(bs, |bs|) && blobOffset + BLOB_SIZE + size < TWO32
    ensures NoMauv(bs, |bs|) ==> MauvOf(f, blobOffset, size) == Ok(None)
    ensures (exists j: nat, k: nat :: TwoMauvs(bs, j, k)) ==> MauvOf(f, blobOffset, size) == Err(InvalidDescriptor)
  {
    hide Written, Verdict, Walk, WalkEnds;
    RoundTrip(f, blobOffset + BLOB_SIZE, bs, size);
    AbsentOrTwiceDecides(blobOffset + BLOB_SIZE, bs, Walk(f, blobOffset + BLOB_SIZE, size));
  }

  lemma AbsentOrTwiceDecides(start: nat, bs: seq<Blob>, r: Result<Option<Found>>)
    requires Verdict(start, bs, StartOf(bs, |bs|), r)
    ensures NoMauv(bs, |bs|) ==> r == Ok(None)
    ensures (exists j: nat, k: nat :: TwoMauvs(bs, j, k)) ==> r == Err(InvalidDescriptor)
  {
    UncutSpoils(bs);
  }
}
