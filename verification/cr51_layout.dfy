/** The structures of an image written out field by field in the order of the format, and where the
    checks find them again. */
module Cr51Layout {
  import opened Bytes
  import opened Options
  import opened Cr51Format
  import opened Cr51Context
  import opened Cr51Descriptor
  import opened Cr51SignedPrefix
  import opened Cr51Regions
  import opened Cr51Mauv

  type Letter = c: char | c as int < 128 witness 'A'

  function Tag(a: Letter, b: Letter, c: Letter, d: Letter): (t: seq<byte>)
    ensures |t| == 4
  {
    [a as int, b as int, c as int, d as int]
  }

  /** The bytes of a little-endian word, the least significant first. */
  lemma FourBytes(s: seq<byte>)
    requires |s| == 4
    ensures var a: int, b: int, c: int, d: int := s[0], s[1], s[2], s[3];
            LeValue(s) == a + 0x100 * b + 0x1_0000 * c + 0x100_0000 * d
  {
    var t, u, v := s[1..], s[2..], s[3..];
    assert t[1..] == u && u[1..] == v && v[1..] == [];
    var c: int, d: int := s[2], s[3];
    assert LeValue(v) == d;
    assert LeValue(u) == c + 0x100 * d;
  }

  lemma EightBytes(s: seq<byte>, t: seq<byte>)
    requires |s| == 4
    ensures LeValue(s + t) == LeValue(s) + TWO32 * LeValue(t)
  {
    var u := s + t;
    assert u[1..] == s[1..] + t && u[2..] == s[2..] + t && u[3..] == s[3..] + t && u[4..] == t;
    assert u[1..][1..] == u[2..] && u[2..][1..] == u[3..] && u[3..][1..] == u[4..];
    FourBytes(s);
    assert LeValue(u[3..]) == s[3] + 0x100 * LeValue(t);
    assert LeValue(u[2..]) == s[2] + 0x100 * LeValue(u[3..]);
    assert LeValue(u[1..]) == s[1] + 0x100 * LeValue(u[2..]);
  }

  /** The magic values spell their names. */
  lemma TagsSpell()
    ensures LeValue(Tag('H', 'A', 'S', 'H')) == HASH_MAGIC
    ensures LeValue(Tag('B', 'L', 'O', 'B')) == BLOB_MAGIC
    ensures LeValue(Tag('M', 'A', 'U', 'V')) == BLOB_TYPE_MAUV
    ensures LeValue(Tag('S', 'I', 'G', 'N')) == SIGNATURE_MAGIC
    ensures LeValue(Tag('_', 'I', 'M', 'G') + Tag('D', 'S', 'C', '_')) == DESCRIPTOR_MAGIC
  {
    hide LeValue;
    FourBytes(Tag('H', 'A', 'S', 'H'));
    FourBytes(Tag('B', 'L', 'O', 'B'));
    FourBytes(Tag('M', 'A', 'U', 'V'));
    FourBytes(Tag('S', 'I', 'G', 'N'));
    FourBytes(Tag('_', 'I', 'M', 'G'));
    FourBytes(Tag('D', 'S', 'C', '_'));
    EightBytes(Tag('_', 'I', 'M', 'G'), Tag('D', 'S', 'C', '_'));
  }

  // ----- The descriptor -----

  type Text = s: seq<byte> | |s| == 32 witness seq(32, i => 0)

  /** The fields of `struct image_descriptor`, in order, but for its magic. */
  datatype Fields = Fields(
    major: byte, minor: byte, reserved0: seq<byte>, offset: u32, area: u32, name: Text, family: u32,
    version: seq<byte>, timestamp: seq<byte>, imageType: byte, denylist: byte, hashType: byte, scheme: byte,
    regions: byte, reserved1: seq<byte>, imageSize: u32, blobSize: u32)
  {
    predicate Valid() { |reserved0| == 2 && |version| == 16 && |timestamp| == 8 && |reserved1| == 3 }

    function Meaning(): Descriptor {
      Descriptor(DESCRIPTOR_MAGIC, major, offset, area, family, imageType, denylist, hashType, scheme, regions, imageSize, blobSize)
    }
  }

  /** Up to the name; from the family up to the image type; the rest. */
  function WriteFront(d: Fields): (s: seq<byte>)
    requires d.Valid()
    ensures |s| == 52
  {
    Tag('_', 'I', 'M', 'G') + Tag('D', 'S', 'C', '_') + [d.major, d.minor] + d.reserved0 + Word(d.offset) + Word(d.area) + d.name
  }

  function WriteMiddle(d: Fields): (s: seq<byte>)
    requires d.Valid()
    ensures |s| == 28
  {
    Word(d.family) + d.version + d.timestamp
  }

  function WriteEnd(d: Fields): (s: seq<byte>)
    requires d.Valid()
    ensures |s| == 16
  {
    [d.imageType, d.denylist, d.hashType, d.scheme, d.regions] + d.reserved1 + Word(d.imageSize) + Word(d.blobSize)
  }

  function WriteDescriptor(d: Fields): (s: seq<byte>)
    requires d.Valid()
    ensures |s| == DESCRIPTOR_SIZE
  {
    WriteFront(d) + WriteMiddle(d) + WriteEnd(d)
  }

  lemma FrontIsRead(d: Fields)
    requires d.Valid()
    ensures var s := WriteFront(d);
            Le64(s, 0) == DESCRIPTOR_MAGIC && s[8] == d.major && Le32(s, 12) == d.offset && Le32(s, 16) == d.area
  {
    hide LeValue, Word, Tag;
    TagsSpell();
    var s := WriteFront(d);
    assert s[0..8] == Tag('_', 'I', 'M', 'G') + Tag('D', 'S', 'C', '_');
    assert s[12..16] == Word(d.offset) && s[16..20] == Word(d.area);
  }

  lemma EndIsRead(d: Fields)
    requires d.Valid()
    ensures var s := WriteEnd(d);
            && s[0..5] == [d.imageType, d.denylist, d.hashType, d.scheme, d.regions]
            && Le32(s, 8) == d.imageSize && Le32(s, 12) == d.blobSize
  {
    hide LeValue, Word;
    var s := WriteEnd(d);
    assert s[8..12] == Word(d.imageSize) && s[12..16] == Word(d.blobSize);
  }

  /** Any descriptor that is written is read back field by field. */
  lemma DescriptorRoundTrip(d: Fields)
    requires d.Valid()
    ensures ParseDescriptor(WriteDescriptor(d)) == d.Meaning()
  {
    hide LeValue, Word, WriteFront, WriteEnd;
    FrontIsRead(d);
    EndIsRead(d);
    var s := WriteDescriptor(d);
    assert s[0..52] == WriteFront(d) && s[52..80] == WriteMiddle(d) && s[80..96] == WriteEnd(d);
    assert s[52..80][0..4] == Word(d.family);
    Le64OfSlice(s, 0, 52, 0);
    Le32OfSlice(s, 0, 52, 12);
    Le32OfSlice(s, 0, 52, 16);
    Le32OfSlice(s, 52, 28, 0);
    Le32OfSlice(s, 80, 16, 8);
    Le32OfSlice(s, 80, 16, 12);
    assert s[8] == s[0..52][8];
    var end := s[80..96][0..5];
    assert s[80] == end[0] && s[81] == end[1] && s[82] == end[2] && s[83] == end[3] && s[84] == end[4];
  }

  // ----- The region table -----

  /** A row of the table: `struct image_region`. */
  datatype Row = Row(name: Text, offset: u32, size: u32, version: nat, attributes: nat) {
    predicate Valid() { version < 0x1_0000 && attributes < 0x1_0000 }
    function Meaning(): Region { Region(offset, size, attributes) }
  }

  function Half(x: nat): (s: seq<byte>)
    requires x < 0x1_0000
    ensures |s| == 2 && LeValue(s) == x
  {
    Pow256Words();
    LeBytes(x, 2)
  }

  function WriteRow(r: Row): (s: seq<byte>)
    requires r.Valid()
    ensures |s| == REGION_SIZE
  {
    r.name + Word(r.offset) + Word(r.size) + Half(r.version) + Half(r.attributes)
  }

  predicate AllValid(rows: seq<Row>) { forall i :: 0 <= i < |rows| ==> rows[i].Valid() }

  function WriteRows(rows: seq<Row>): (s: seq<byte>)
    requires AllValid(rows)
    ensures |s| == |rows| * REGION_SIZE
  {
    if rows == [] then [] else WriteRows(rows[..|rows| - 1]) + WriteRow(rows[|rows| - 1])
  }

  lemma RowIsRead(s: seq<byte>, i: nat, r: Row)
    requires r.Valid() && (i + 1) * REGION_SIZE <= |s| && s[i * REGION_SIZE..(i + 1) * REGION_SIZE] == WriteRow(r)
    ensures ParseRegion(s, i) == r.Meaning()
  {
    hide LeValue, Word, Half;
    var at := i * REGION_SIZE;
    var t := s[at..at + REGION_SIZE];
    assert t[32..36] == Word(r.offset) && t[36..40] == Word(r.size) && t[42..44] == Half(r.attributes);
    Le32OfSlice(s, at, REGION_SIZE, 32);
    Le32OfSlice(s, at, REGION_SIZE, 36);
    SliceOfSlice(s, at, REGION_SIZE, 42, 44);
  }

  lemma SliceOfSum(t: seq<byte>, u: seq<byte>, i: nat, j: nat)
    requires i <= j <= |t|
    ensures (t + u)[i..j] == t[i..j] && (t + u)[|t|..|t| + |u|] == u
  {
  }

  lemma {:induction false} RowStands(rows: seq<Row>, i: nat)
    requires AllValid(rows) && i < |rows|
    ensures (i + 1) * REGION_SIZE <= |WriteRows(rows)|
    ensures WriteRows(rows)[i * REGION_SIZE..(i + 1) * REGION_SIZE] == WriteRow(rows[i])
  {
    hide WriteRow;
    var n := |rows| - 1;
    var t, u := WriteRows(rows[..n]), WriteRow(rows[n]);
    RowEnds(i, n + 1);
    if i < n {
      RowEnds(i, n);
      RowStands(rows[..n], i);
      SliceOfSum(t, u, i * REGION_SIZE, (i + 1) * REGION_SIZE);
    } else {
      SliceOfSum(t, u, 0, 0);
    }
  }

  /** Any table that is written, with any number of rows, is read back row by row. */
  lemma TableRoundTrip(rows: seq<Row>, i: nat)
    requires AllValid(rows) && i < |rows|
    ensures |ParseRegions(WriteRows(rows), |rows|)| == |rows|
    ensures ParseRegions(WriteRows(rows), |rows|)[i] == rows[i].Meaning()
  {
    hide ParseRegion, WriteRow, WriteRows;
    RowStands(rows, i);
    RowIsRead(WriteRows(rows), i, rows[i]);
  }

  /** The table in the flash: row i lies behind the descriptor and the i rows before it, and what
      makes its region static is the lowest bit of its attributes. */
  lemma TableMeans(f: Flash, desc: Descriptor, d: u32, i: nat)
    requires TableAt(f, desc, d).Some? && d + DESCRIPTOR_SIZE < TWO32 && i < desc.regions
    ensures var rs, at := TableAt(f, desc, d).value, d + 96 + 44 * i;
            && |rs| == desc.regions && at + 44 <= |f.data|
            && rs[i].offset == Le32(f.data, at + 32) && rs[i].size == Le32(f.data, at + 36)
            && (rs[i].Static() <==> f.data[at + 42] % 2 == 1)
  {
    hide LeValue;
    var n := desc.regions * REGION_SIZE;
    var bytes := f.data[d + 96..d + 96 + n];
    assert TableAt(f, desc, d) == Some(ParseRegions(bytes, desc.regions));
    RowEnds(i, desc.regions);
    Le32OfSlice(f.data, d + 96, n, i * REGION_SIZE + 32);
    Le32OfSlice(f.data, d + 96, n, i * REGION_SIZE + 36);
    var at := i * REGION_SIZE + 42;
    HalfIsOdd(bytes, at);
    assert bytes[at] == f.data[d + 96 + at];
  }

  lemma RowEnds(i: nat, n: nat)
    requires i < n
    ensures (i + 1) * REGION_SIZE <= n * REGION_SIZE
  {
  }

  lemma HalfIsOdd(s: seq<byte>, i: nat)
    requires i + 2 <= |s|
    ensures Le16(s, i) % 2 == s[i] % 2
  {
    var t := s[i..i + 2];
    var low: int, high: int := t[0], LeValue(t[1..]);
    assert LeValue(t) == low + 0x100 * high;
    SumIsOdd(low, high);
  }

  lemma SumIsOdd(low: int, high: int)
    ensures (low + 0x100 * high) % 2 == low % 2
  {
    assert low + 0x100 * high == 2 * (low / 2 + 0x80 * high) + low % 2;
  }

  // ----- The MAUV record -----

  function Long(x: u64): (s: seq<byte>)
    ensures |s| == 8 && LeValue(s) == x
  {
    Pow256Words();
    LeBytes(x, 8)
  }

  function WriteLongs(xs: seq<u64>): (s: seq<byte>)
    ensures |s| == 8 * |xs|
  {
    if xs == [] then [] else WriteLongs(xs[..|xs| - 1]) + Long(xs[|xs| - 1])
  }

  /** `struct image_mauv`. */
  datatype Record = Record(structVersion: u32, reserved0: seq<byte>, version: u64, timestamp: u64, minimum: u64,
                           reserved1: seq<byte>, denied: seq<u64>)
  {
    predicate Valid() { |reserved0| == 4 && |reserved1| == 4 && |denied| < TWO32 }
  }

  function WriteRecord(r: Record): (s: seq<byte>)
    requires r.Valid()
    ensures |s| == 40 + 8 * |r.denied|
  {
    Word(r.structVersion) + r.reserved0 + Long(r.version) + Long(r.timestamp) + Long(r.minimum) + r.reserved1
    + Word(|r.denied|) + WriteLongs(r.denied)
  }

  lemma {:induction false} LongStands(xs: seq<u64>, i: nat)
    requires i < |xs|
    ensures WriteLongs(xs)[8 * i..8 * i + 8] == Long(xs[i])
  {
    hide Long;
    var n := |xs| - 1;
    var t, u := WriteLongs(xs[..n]), Long(xs[n]);
    if i < n {
      LongStands(xs[..n], i);
      SliceOfSum(t, u, 8 * i, 8 * i + 8);
    } else {
      SliceOfSum(t, u, 0, 0);
    }
  }

  lemma RecordHead(r: Record)
    requires r.Valid()
    ensures var s := WriteRecord(r);
            && Le32(s, 0) == r.structVersion && PayloadVersion(s) == r.version && Timestamp(s) == r.timestamp
            && MinimumVersion(s) == r.minimum && Denied(s) == |r.denied|
  {
    hide LeValue, Word, Long, WriteLongs;
    var s := WriteRecord(r);
    assert s[0..4] == Word(r.structVersion) && s[8..16] == Long(r.version) && s[16..24] == Long(r.timestamp);
    assert s[24..32] == Long(r.minimum) && s[36..40] == Word(|r.denied|);
  }

  lemma RecordDenies(r: Record, i: nat)
    requires r.Valid() && i < |r.denied|
    ensures WellSized(WriteRecord(r)) && i < Denied(WriteRecord(r)) && DeniedVersion(WriteRecord(r), i) == r.denied[i]
  {
    hide LeValue, Long, WriteLongs, Denied;
    RecordHead(r);
    var s := WriteRecord(r);
    LongStands(r.denied, i);
    assert s[40..] == WriteLongs(r.denied);
    assert s[40 + 8 * i..48 + 8 * i] == s[40..][8 * i..8 * i + 8];
  }

  /** Any record that is written is read back: it allows what it says, and it is sane exactly if it is
      of the one known version, names a version above 0 that it allows itself, and denies at most 11. */
  lemma RecordRoundTrip(r: Record, version: u64)
    requires r.Valid()
    ensures var m := WriteRecord(r);
            && WellSized(m) && PayloadVersion(m) == r.version && Timestamp(m) == r.timestamp
            && (Allows(m, version) <==> version >= r.minimum && version !in r.denied)
            && (Sane(m) <==> r.structVersion == 1 && r.version > 0 && |r.denied| <= 11
                             && r.version >= r.minimum && r.version !in r.denied)
  {
    hide LeValue, WriteRecord, DeniedVersion, Denied;
    RecordHead(r);
    AllowsMeans(r, version);
    AllowsMeans(r, r.version);
  }

  lemma AllowsMeans(r: Record, version: u64)
    requires r.Valid()
    ensures WellSized(WriteRecord(r)) && (Allows(WriteRecord(r), version) <==> version >= r.minimum && version !in r.denied)
  {
    hide LeValue, WriteRecord, DeniedVersion, Denied;
    RecordHead(r);
    forall i: nat | i < |r.denied| ensures DeniedVersion(WriteRecord(r), i) == r.denied[i] { RecordDenies(r, i); }
    if version in r.denied {
      var i :| 0 <= i < |r.denied| && r.denied[i] == version;
      assert DeniedVersion(WriteRecord(r), i) == version;
    }
  }

  // ----- A whole descriptor area -----

  /** `struct signature_*`: the key indices take four bytes. */
  datatype Signature = Signature(indices: seq<byte>, exponent: u32, modulus: seq<byte>, raw: seq<byte>)

  /** The structures of a descriptor area: the descriptor, the region table, the hash record, the
      denylist, the blob list and the signature. */
  datatype Area = Area(fields: Fields, rows: seq<Row>, digest: seq<byte>, denied: seq<seq<byte>>, blobs: seq<byte>, sign: Signature) {
    ghost predicate Valid() {
      && fields.Valid() && AllValid(rows) && |rows| == fields.regions && |denied| == fields.denylist && |blobs| == fields.blobSize
      && (forall i :: 0 <= i < |denied| ==> |denied[i]| == 16)
      && fields.hashType in {2, 4} && 1 <= fields.scheme <= 4
      && |digest| == (if fields.hashType == 2 then 256 else 512) / 8
      && |sign.indices| == 4 && |sign.modulus| == |sign.raw| == KeyBytes(fields.scheme)
    }
  }

  function WriteRecords(records: seq<seq<byte>>): (s: seq<byte>)
    requires forall i :: 0 <= i < |records| ==> |records[i]| == 16
    ensures |s| == 16 * |records|
  {
    if records == [] then [] else WriteRecords(records[..|records| - 1]) + records[|records| - 1]
  }

  function WriteDenylist(records: seq<seq<byte>>): (s: seq<byte>)
    requires forall i :: 0 <= i < |records| ==> |records[i]| == 16
  {
    if records == [] then [] else Tag('B', 'L', 'C', 'K') + WriteRecords(records)
  }

  function WriteBlobs(blobs: seq<byte>): seq<byte> { if blobs == [] then [] else Tag('B', 'L', 'O', 'B') + blobs }

  function WriteSignature(x: Signature): seq<byte> {
    Tag('S', 'I', 'G', 'N') + x.indices + Word(x.exponent) + x.modulus + x.raw
  }

  /** What stands in front of the blob list. */
  function WriteFixed(h: Area): seq<byte>
    requires h.Valid()
  {
    WriteDescriptor(h.fields) + WriteRows(h.rows) + (Tag('H', 'A', 'S', 'H') + h.digest) + WriteDenylist(h.denied)
  }

  function WriteArea(h: Area): seq<byte>
    requires h.Valid()
  {
    WriteFixed(h) + WriteBlobs(h.blobs) + WriteSignature(h.sign)
  }

  /** The sizes that the layout check computes are those of the structures. */
  lemma SizesAreWritten(h: Area)
    requires h.Valid()
    ensures var desc := h.fields.Meaning();
            && HashSupported(desc.hashType) && SchemeSupported(desc.scheme)
            && FixedPrefix(desc) == |WriteFixed(h)| && SignatureAt(desc) == |WriteFixed(h) + WriteBlobs(h.blobs)|
            && SignatureStructSize(desc.scheme) == |WriteSignature(h.sign)| && Needed(desc) == |WriteArea(h)|
            && KeySize(desc.scheme) == |h.sign.raw| && HashStructSize(desc.hashType) == 4 + |h.digest|
            && DigestSize(desc.hashType) == |h.digest|
  {
    hide WriteDescriptor, WriteRows, WriteRecords, Word, Tag;
  }

  lemma PartAt(s: seq<byte>, at: nat, a: seq<byte>, b: seq<byte>, c: seq<byte>)
    requires at + |a + b + c| <= |s| && s[at..at + |a + b + c|] == a + b + c
    ensures s[at + |a|..at + |a| + |b|] == b
  {
    SliceOfSlice(s, at, |a + b + c|, |a|, |a| + |b|);
    assert (a + b + c)[|a|..|a| + |b|] == b;
  }

  /** The area's structures stand in a flash that can be read there. */
  ghost predicate StandsAt(f: Flash, at: nat, h: Area)
    requires h.Valid()
  {
    && at + |WriteArea(h)| <= |f.data| && f.data[at..at + |WriteArea(h)|] == WriteArea(h)
    && forall x: nat, n: nat :: at <= x && x + n <= at + |WriteArea(h)| ==> f.readable(x, n)
  }

  /** A part of what stands in the flash stands there too. */
  lemma PartStands(f: Flash, at: nat, h: Area, a: seq<byte>, b: seq<byte>, c: seq<byte>)
    requires h.Valid() && StandsAt(f, at, h) && WriteArea(h) == a + b + c
    ensures at + |a| + |b| <= |f.data| && Read(f, at + |a|, |b|) == Some(b)
  {
    hide WriteArea;
    PartAt(f.data, at, a, b, c);
    ReadableInside(f, at, |WriteArea(h)|, at + |a|, |b|);
  }

  lemma ReadableInside(f: Flash, at: nat, size: nat, x: nat, n: nat)
    requires forall x: nat, n: nat :: at <= x && x + n <= at + size ==> f.readable(x, n)
    requires at <= x && x + n <= at + size
    ensures f.readable(x, n)
  {
  }

  lemma {:induction false} RowsAreRead(rows: seq<Row>)
    requires AllValid(rows)
    ensures ParseRegions(WriteRows(rows), |rows|) == Meanings(rows)
  {
    hide WriteRows, ParseRegion;
    forall i | 0 <= i < |rows| ensures ParseRegions(WriteRows(rows), |rows|)[i] == Meanings(rows)[i] { TableRoundTrip(rows, i); }
  }

  function Meanings(rows: seq<Row>): (rs: seq<Region>)
    ensures |rs| == |rows|
  {
    seq(|rows|, i requires 0 <= i < |rows| => rows[i].Meaning())
  }

  lemma DescriptorIsFound(f: Flash, at: u32, h: Area)
    requires h.Valid() && StandsAt(f, at, h)
    ensures CanRead(f, at, 96) && ParseDescriptor(f.data[at..at + 96]) == h.fields.Meaning()
  {
    hide WriteDescriptor, WriteRows, WriteDenylist, WriteBlobs, WriteSignature, Tag, ParseDescriptor, StandsAt;
    var d := WriteDescriptor(h.fields);
    var rest := WriteRows(h.rows) + (Tag('H', 'A', 'S', 'H') + h.digest) + WriteDenylist(h.denied) + WriteBlobs(h.blobs)
                + WriteSignature(h.sign);
    assert WriteArea(h) == [] + d + rest;
    PartStands(f, at, h, [], d, rest);
    DescriptorRoundTrip(h.fields);
  }

  lemma TableIsFound(f: Flash, at: u32, h: Area)
    requires h.Valid() && StandsAt(f, at, h)
    ensures TableAt(f, h.fields.Meaning(), at) == Some(Meanings(h.rows))
  {
    hide WriteDescriptor, WriteRows, WriteDenylist, WriteBlobs, WriteSignature, Tag, ParseRegions, Meanings, StandsAt;
    var d, t := WriteDescriptor(h.fields), WriteRows(h.rows);
    var rest := (Tag('H', 'A', 'S', 'H') + h.digest) + WriteDenylist(h.denied) + WriteBlobs(h.blobs) + WriteSignature(h.sign);
    assert WriteArea(h) == d + t + rest;
    PartStands(f, at, h, d, t, rest);
    RowsAreRead(h.rows);
  }

  lemma RecordIsFound(f: Flash, at: u32, h: Area)
    requires h.Valid() && StandsAt(f, at, h)
    ensures RecordAt(f, h.fields.Meaning(), at) == Some(Tag('H', 'A', 'S', 'H') + h.digest)
  {
    hide WriteDescriptor, WriteRows, WriteDenylist, WriteBlobs, WriteSignature, Tag, StandsAt;
    var a, r := WriteDescriptor(h.fields) + WriteRows(h.rows), Tag('H', 'A', 'S', 'H') + h.digest;
    var rest := WriteDenylist(h.denied) + WriteBlobs(h.blobs) + WriteSignature(h.sign);
    assert WriteArea(h) == a + r + rest;
    PartStands(f, at, h, a, r, rest);
  }

  /** The blob list is found where the context is told to look for it, behind its tag. */
  lemma BlobsAreFound(f: Flash, at: u32, h: Area, was: u32)
    requires h.Valid() && StandsAt(f, at, h) && h.blobs != []
    ensures var blob := BlobOffset(h.fields.Meaning(), at, was);
            Read(f, blob, 4 + |h.blobs|) == Some(Tag('B', 'L', 'O', 'B') + h.blobs)
  {
    hide WriteFixed, WriteSignature, Tag, StandsAt, FixedPrefix;
    SizesAreWritten(h);
    assert WriteArea(h) == WriteFixed(h) + WriteBlobs(h.blobs) + WriteSignature(h.sign);
    PartStands(f, at, h, WriteFixed(h), WriteBlobs(h.blobs), WriteSignature(h.sign));
  }

  /** The layout check accepts structures that fit their area, and points at the signature structure. */
  lemma SignatureIsPlacedThere(h: Area)
    requires h.Valid() && |WriteArea(h)| <= h.fields.area && (h.blobs == [] || |h.blobs| >= 8)
    ensures PlaceSignature(h.fields.Meaning()) == Ok(|WriteFixed(h) + WriteBlobs(h.blobs)|)
  {
    hide WriteArea, WriteFixed, WriteBlobs, PlaceSignature;
    SizesAreWritten(h);
    LayoutCheck(h.fields.Meaning());
  }

  lemma SignatureIsFound(f: Flash, at: u32, h: Area)
    requires h.Valid() && StandsAt(f, at, h)
    ensures var sign := at + |WriteFixed(h) + WriteBlobs(h.blobs)|;
            && sign + |WriteSignature(h.sign)| == at + |WriteArea(h)| <= |f.data|
            && Read(f, sign, |WriteSignature(h.sign)|) == Some(WriteSignature(h.sign))
  {
    hide WriteFixed, WriteBlobs, WriteSignature, StandsAt;
    assert WriteArea(h) == (WriteFixed(h) + WriteBlobs(h.blobs)) + WriteSignature(h.sign) + [];
    PartStands(f, at, h, WriteFixed(h) + WriteBlobs(h.blobs), WriteSignature(h.sign), []);
  }

  /** What the checks take from the signature structure. */
  lemma SignatureFields(x: Signature)
    requires |x.indices| == 4
    ensures var s, n := WriteSignature(x), |x.modulus|;
            && |s| == 12 + n + |x.raw| && Le32(s, 0) == SIGNATURE_MAGIC && Le32(s, 8) == x.exponent
            && s[12..12 + n] == x.modulus && s[12 + n..] == x.raw
  {
    hide LeValue, Word, Tag;
    TagsSpell();
    var s, n := WriteSignature(x), |x.modulus|;
    assert s[0..4] == Tag('S', 'I', 'G', 'N') && s[8..12] == Word(x.exponent) && s[12..12 + n] == x.modulus;
  }

  lemma KeyIsFound(f: Flash, at: u32, h: Area)
    requires h.Valid() && StandsAt(f, at, h)
    ensures var raw := at + |WriteFixed(h) + WriteBlobs(h.blobs)| + 12 + |h.sign.modulus|;
            raw < TWO32 && SignatureStruct(f, h.fields.scheme, raw) == Some(WriteSignature(h.sign))
  {
    hide WriteFixed, WriteBlobs, WriteSignature, WriteArea, StandsAt;
    SizesAreWritten(h);
    SignatureIsFound(f, at, h);
    SignatureFields(h.sign);
  }

  /** Everything the validator looks for, with `desc` read at `at`, is what was written: the
      descriptor; the rows of the table; the digest behind its tag; the blob list behind its own; and the
      signature structure, with its tag, where the layout check and the raw signature say. */
  ghost predicate Found(f: Flash, at: u32, desc: Descriptor, h: Area, was: u32)
    requires HashSupported(desc.hashType) && SchemeSupported(desc.scheme)
  {
    && CanRead(f, at, 96) && ParseDescriptor(f.data[at..at + 96]) == desc
    && (exists rs :: TableAt(f, desc, at) == Some(rs) && ReadAs(rs, h.rows))
    && RecordAt(f, desc, at) == Some(Tag('H', 'A', 'S', 'H') + h.digest)
    && (h.blobs != [] ==> Read(f, BlobOffset(desc, at, was), 4 + |h.blobs|) == Some(Tag('B', 'L', 'O', 'B') + h.blobs))
    && PlaceSignature(desc).Ok?
    && SignatureFound(f, at + PlaceSignature(desc).value, desc.scheme, WriteSignature(h.sign))
  }

  predicate ReadAs(rs: seq<Region>, rows: seq<Row>) {
    |rs| == |rows| && forall i :: 0 <= i < |rs| ==> rs[i] == rows[i].Meaning()
  }

  ghost predicate SignatureFound(f: Flash, sign: nat, scheme: byte, own: seq<byte>)
    requires SchemeSupported(scheme)
  {
    && |own| >= 4 && Le32(own, 0) == SIGNATURE_MAGIC && sign + SignatureFieldOffset(scheme) < TWO32
    && Read(f, sign, SignatureStructSize(scheme)) == SignatureStruct(f, scheme, sign + SignatureFieldOffset(scheme)) == Some(own)
  }

  /** What stands in the flash is found as it was written, for every table, hash type, denylist,
      blob list and signature scheme. */
  lemma AreaIsFound(f: Flash, at: u32, h: Area, was: u32)
    requires h.Valid() && StandsAt(f, at, h) && |WriteArea(h)| <= h.fields.area && (h.blobs == [] || |h.blobs| >= 8)
    ensures var desc := h.fields.Meaning();
            HashSupported(desc.hashType) && SchemeSupported(desc.scheme) && Found(f, at, desc, h, was)
  {
    hide WriteFixed, WriteBlobs, WriteSignature, WriteArea, StandsAt, Meanings, Tag, ParseDescriptor, TableAt, RecordAt,
         BlobOffset, PlaceSignature;
    SizesAreWritten(h);
    DescriptorIsFound(f, at, h);
    TableIsFound(f, at, h);
    MeaningsAre(h.rows);
    RecordIsFound(f, at, h);
    if h.blobs != [] { BlobsAreFound(f, at, h, was); }
    SignatureIsPlacedThere(h);
    SignatureIsFound(f, at, h);
    SignatureFields(h.sign);
    KeyIsFound(f, at, h);
  }

  lemma MeaningsAre(rows: seq<Row>)
    ensures ReadAs(Meanings(rows), rows)
  {
  }
}
