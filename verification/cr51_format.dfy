/** The Cr51 image format, and the platform services its validator is given. */
module Cr51Format {
  import opened Bytes
  import opened Options

  datatype Status =
    | Success
    | RuntimeFailure
    | UnsupportedDescriptor
    | InvalidDescriptor
    | InvalidImageFamily
    | DevDowngradeDisallowed
    | InvalidSignature
    | InvalidHash
    | InvalidHashType
    | InvalidArgument
    | FailedToLocateMagic
    | InvalidInterface
    | InvalidSigScheme
    | InvalidRegionSize
    | InvalidMauv
    | RetrievingStoredMauv
    | StoringNewMauv
    | StoredMauvForbids
    | ValidButMauvNotStored
    | StoredMauvExpectsMauv
    | ReadFailed  // whatever nonzero code the read callback returned

  datatype Result<+T> = Ok(value: T) | Err(status: Status)

  // ----- Platform services -----

  datatype Chip = Chip(data: seq<byte>, readable: (nat, nat) -> bool)

  /** Flash addressed by 32-bit offsets. A read delivers its bytes or fails as a whole. */
  type Flash = f: Chip | |f.data| < TWO32 witness Chip([], (offset, count) => true)

  predicate CanRead(f: Flash, offset: nat, count: nat) {
    offset + count <= |f.data| && f.readable(offset, count)
  }

  type Digest = d: seq<byte> | |d| == 64 witness seq(64, i => 0)

  /** The callbacks as pure functions. `digest` is None when a step of the hash engine fails; a
      predicate stands for a missing optional callback by being constantly false. */
  datatype Intf = Intf(
    digest: (byte, seq<byte>) -> Option<Digest>,
    production: bool,
    downgradeAllowed: bool,
    imageSizeValid: Option<u32 -> bool>,
    trustDigest: seq<byte> -> bool,
    trustKey: (byte, seq<byte>) -> bool,
    verifyWithKey: (byte, seq<byte>, u32, seq<byte>, seq<byte>) -> bool,
    verify: (byte, seq<byte>, seq<byte>) -> bool)

  // ----- Constants -----

  const DESCRIPTOR_MAGIC: u64 := 0x5f435344474d495f
  const HASH_MAGIC: u32 := 0x48534148
  const BLOB_MAGIC: u32 := 0x424f4c42
  const SIGNATURE_MAGIC: u32 := 0x4e474953
  const BLOB_TYPE_MAUV: u32 := 0x5655414d

  const MAX_MAJOR_VERSION := 1
  const DESCRIPTOR_ALIGNMENT := 0x1_0000
  const IMAGE_REGION_ALIGNMENT := 4096
  const MAX_READ_SIZE := 1024
  const MAX_REGION_COUNT := 16
  const IMAGE_FAMILY_ALL := 0
  const IMAGE_DEV := 0
  const IMAGE_PROD := 1

  const DESCRIPTOR_SIZE := 96
  const REGION_SIZE := 44
  const BLOB_SIZE := 4
  const BLOB_DATA_SIZE := 8
  const BLOB_DATA_ALIGNMENT := 4
  const DENYLIST_SIZE := 4
  const DENYLIST_RECORD_SIZE := 16
  const SIGNATURE_OFFSET := 12

  // ----- The descriptor and the region table -----

  datatype Descriptor = Descriptor(
    magic: u64, major: byte, offset: u32, area: u32, family: u32,
    imageType: byte, denylist: byte, hashType: byte, scheme: byte, regions: byte,
    imageSize: u32, blobSize: u32)

  function ParseDescriptor(s: seq<byte>): Descriptor
    requires |s| == DESCRIPTOR_SIZE
  {
    Descriptor(Le64(s, 0), s[8], Le32(s, 12), Le32(s, 16), Le32(s, 52),
               s[80], s[81], s[82], s[83], s[84],
               Le32(s, 88), Le32(s, 92))
  }

  datatype Region = Region(offset: u32, size: u32, attributes: nat) {
    predicate Static() { attributes % 2 == 1 }
    function End(): nat { offset + size }
  }

  function ParseRegion(s: seq<byte>, i: nat): Region
    requires (i + 1) * REGION_SIZE <= |s|
  {
    var at := i * REGION_SIZE;
    Region(Le32(s, at + 32), Le32(s, at + 36), Le16(s, at + 42))
  }

  function ParseRegions(s: seq<byte>, n: nat): (rs: seq<Region>)
    requires n * REGION_SIZE <= |s|
    ensures |rs| == n
    ensures forall i :: 0 <= i < n ==> (i + 1) * REGION_SIZE <= |s| && rs[i] == ParseRegion(s, i)
  {
    if n == 0 then [] else ParseRegions(s, n - 1) + [ParseRegion(s, n - 1)]
  }

  // ----- Sizes that depend on the hash type and the signature scheme -----

  predicate HashSupported(hashType: byte) { hashType == 2 || hashType == 4 }

  /** 32 bytes for SHA-256 (type 2), 64 for SHA-512 (type 4). */
  function DigestSize(hashType: byte): nat
    requires HashSupported(hashType)
  {
    if hashType == 2 then 32 else 64
  }

  function HashStructSize(hashType: byte): nat
    requires HashSupported(hashType)
  {
    4 + DigestSize(hashType)
  }

  /** RSA-2048, RSA-3072, RSA-4096 with SHA-256, and RSA-4096 with SHA-512. */
  predicate SchemeSupported(scheme: byte) { 1 <= scheme <= 4 }

  function KeySize(scheme: byte): nat
    requires SchemeSupported(scheme)
  {
    if scheme == 1 then 256 else if scheme == 2 then 384 else 512
  }

  function SchemeHash(scheme: byte): byte
    requires SchemeSupported(scheme)
  {
    if scheme == 4 then 4 else 2
  }

  function SignatureFieldOffset(scheme: byte): nat
    requires SchemeSupported(scheme)
  {
    SIGNATURE_OFFSET + KeySize(scheme)
  }

  function SignatureStructSize(scheme: byte): nat
    requires SchemeSupported(scheme)
  {
    SignatureFieldOffset(scheme) + KeySize(scheme)
  }
}
