/** What an accepted descriptor's signature covers, and where everything lies. */
module Cr51SignedPrefix {
  import opened Bytes
  import opened Options
  import opened Cr51Format
  import opened Cr51Context
  import opened Cr51Hashing
  import opened Cr51Descriptor

  // ----- Layout -----

  /** Everything in front of the blob's contents. */
  function BlobContents(desc: Descriptor): nat
    requires HashSupported(desc.hashType)
  {
    FixedPrefix(desc) + if desc.blobSize > 0 then BLOB_SIZE else 0
  }

  /** Where the signature structure belongs. */
  function SignatureAt(desc: Descriptor): nat
    requires HashSupported(desc.hashType)
  {
    BlobContents(desc) + desc.blobSize
  }

  /** The room the descriptor and its auxiliary structures take. */
  function Needed(desc: Descriptor): nat
    requires HashSupported(desc.hashType) && SchemeSupported(desc.scheme)
  {
    SignatureAt(desc) + SignatureStructSize(desc.scheme)
  }

  /** The area holds at least what precedes the blob's contents. */
  predicate Spacious(desc: Descriptor)
    requires HashSupported(desc.hashType)
  {
    desc.area >= BlobContents(desc)
  }

  predicate BlobWellSized(desc: Descriptor) { desc.blobSize == 0 || desc.blobSize >= BLOB_DATA_SIZE }

  /** The layout check, exactly. It means what it says for areas that hold the fixed prefix; for
      smaller ones the unsigned differences wrap and hardly anything is refused. */
  lemma LayoutCheck(desc: Descriptor)
    requires HashSupported(desc.hashType) && SchemeSupported(desc.scheme)
    ensures PlaceSignature(desc).Ok?
            <==> BlobWellSized(desc)
                 && (Needed(desc) <= desc.area || (!Spacious(desc) && Needed(desc) <= desc.area + TWO32))
    ensures PlaceSignature(desc).Ok? ==> PlaceSignature(desc).value == Wrap32(SignatureAt(desc))
  {
  }

  /** What the check is for: the structures lie inside the descriptor area. For a descriptor that
      passes, they do exactly if the area holds the fixed prefix. */
  lemma LayoutInsideArea(desc: Descriptor)
    requires HashSupported(desc.hashType) && SchemeSupported(desc.scheme) && PlaceSignature(desc).Ok?
    ensures Needed(desc) <= desc.area <==> Spacious(desc)
    ensures Spacious(desc) ==> PlaceSignature(desc) == Ok(SignatureAt(desc))
  {
    LayoutCheck(desc);
  }

  /** The blob of an image found by the 64 KiB scan starts at a multiple of 4 and is never at 0,
      the value that stands for no blob. */
  lemma BlobIsAligned(f: Flash, desc: Descriptor, offset: u32, was: u32)
    requires HashSupported(desc.hashType) && desc.blobSize > 0
    requires offset % DESCRIPTOR_ALIGNMENT == 0
    ensures BlobOffset(desc, offset, was) == offset + FixedPrefix(desc)
    ensures BlobOffset(desc, offset, was) % BLOB_DATA_ALIGNMENT == 0 && BlobOffset(desc, offset, was) >= DESCRIPTOR_SIZE
  {
    var q := offset / DESCRIPTOR_ALIGNMENT;
    assert offset == q * DESCRIPTOR_ALIGNMENT && q < DESCRIPTOR_ALIGNMENT;
    NoWrap(offset, FixedPrefix(desc));
  }

  lemma NoWrap(offset: u32, prefix: u32)
    requires offset <= TWO32 - DESCRIPTOR_ALIGNMENT && prefix < DESCRIPTOR_ALIGNMENT
    ensures Add32(offset, prefix) == offset + prefix
  {
  }

  // ----- Signature -----

  /** The signature structure whose key is consulted, found by going back from the raw signature,
      is the structure whose magic was checked, also where offsets wrap. */
  lemma OwnStructIsCheckedStruct(f: Flash, scheme: byte, offset: u32, signature: u32)
    requires SchemeSupported(scheme)
    ensures var raw := Add32(offset, Add32(signature, SignatureFieldOffset(scheme)));
            SignatureStruct(f, scheme, raw).Some? ==>
              SignatureStruct(f, scheme, raw) == Read(f, Add32(offset, signature), SignatureStructSize(scheme))
  {
  }

  /** The bytes of a key or a raw signature: 2048, 3072 or 4096 bits. */
  function KeyBytes(scheme: byte): nat
    requires 1 <= scheme <= 4
  {
    (if scheme == 1 then 2048 else if scheme == 2 then 3072 else 4096) / 8
  }

  /** The digest of the signed bytes is trusted, or the raw signature can be read and verifies:
      with the key in its own structure, if that key is trusted, or with a key of the system. */
  ghost predicate Authentic(intf: Intf, scheme: byte, signed: seq<byte>, own: Option<seq<byte>>, raw: Option<seq<byte>>)
    requires 1 <= scheme <= 4
    requires own.Some? ==> |own.value| == 12 + 2 * KeyBytes(scheme)
  {
    var final := intf.digest(if scheme == 4 then 4 else 2, signed);
    var n := KeyBytes(scheme);
    && final.Some?
    && var digest := final.value[..if scheme == 4 then 64 else 32];
       || intf.trustDigest(digest)
       || (raw.Some? && intf.verify(scheme, raw.value, digest))
       || (&& raw.Some? && own.Some? && intf.trustKey(scheme, own.value)
           && intf.verifyWithKey(scheme, own.value[12..12 + n], Le32(own.value, 8), own.value[12 + n..], digest))
  }

  ghost predicate TransitionAllowed(intf: Intf, desc: Descriptor, family: u32) {
    && (desc.family == family || desc.family == IMAGE_FAMILY_ALL || family == IMAGE_FAMILY_ALL)
    && (desc.imageType == IMAGE_DEV ==> !intf.production || intf.downgradeAllowed)
  }

  /** The signature structure is tagged, the image allowed here, and the `size` bytes from the
      start of the descriptor up to the raw signature, and no others, are authentic. */
  ghost predicate Sealed(f: Flash, intf: Intf, desc: Descriptor, family: u32, offset: nat, size: nat)
    requires SchemeSupported(desc.scheme) && SignatureFieldOffset(desc.scheme) <= size
  {
    && CanRead(f, offset + size - SignatureFieldOffset(desc.scheme), SIGNATURE_OFFSET)
    && Le32(f.data, offset + size - SignatureFieldOffset(desc.scheme)) == SIGNATURE_MAGIC
    && TransitionAllowed(intf, desc, family)
    && ReadRange(f, offset, size).Some?
    && Authentic(intf, desc.scheme, ReadRange(f, offset, size).value,
                 Read(f, offset + size - SignatureFieldOffset(desc.scheme), SignatureStructSize(desc.scheme)),
                 Read(f, offset + size, KeySize(desc.scheme)))
  }

  /** The descriptor and its auxiliary structures lie inside its area and are sealed. */
  ghost predicate SignedAt(f: Flash, intf: Intf, desc: Descriptor, family: u32, offset: nat)
    requires HashSupported(desc.hashType) && SchemeSupported(desc.scheme)
  {
    && BlobWellSized(desc) && Needed(desc) <= desc.area
    && Sealed(f, intf, desc, family, offset, Needed(desc) - KeySize(desc.scheme))
  }

  /** A raw signature at `raw` that verifies with a trusted key of its own. The structure is a header
      of 12 bytes, with the exponent in the last four, the modulus, and the raw signature. */
  predicate OwnKeyAt(f: Flash, intf: Intf, scheme: byte, raw: u32, digest: seq<byte>)
    requires 1 <= scheme <= 4
  {
    var n := KeyBytes(scheme);
    && raw >= 12 + n && CanRead(f, raw - n - 12, 12 + 2 * n)
    && intf.trustKey(scheme, f.data[raw - n - 12..raw + n])
    && intf.verifyWithKey(scheme, f.data[raw - n..raw], Le32(f.data, raw - n - 4), f.data[raw..raw + n], digest)
  }

  lemma OwnKeyMeans(f: Flash, intf: Intf, scheme: byte, raw: u32, digest: seq<byte>)
    requires SchemeSupported(scheme)
    ensures var own := SignatureStruct(f, scheme, raw);
            own.Some? && OwnKeyVerifies(intf, scheme, own.value, digest) <==> OwnKeyAt(f, intf, scheme, raw, digest)
  {
    hide LeValue;
    var n := KeyBytes(scheme);
    assert KeySize(scheme) == n;
    if raw >= 12 + n && CanRead(f, raw - n - 12, 12 + 2 * n) {
      var at := raw - n - 12;
      SliceOfSlice(f.data, at, 12 + 2 * n, 12, 12 + n);
      SliceOfSlice(f.data, at, 12 + 2 * n, 12 + n, 12 + 2 * n);
      Le32OfSlice(f.data, at, 12 + 2 * n, 8);
    }
  }

  /** The status of the signature check in terms of the flash and the callbacks: the digest is the
      first 32 bytes of the SHA-256, or the 64 of the SHA-512, of exactly the given bytes; a trusted
      one needs no signature; and otherwise a key that comes with the image counts only if it is
      trusted. */
  lemma SignatureMeans(f: Flash, intf: Intf, offset: u32, size: u32, scheme: byte, raw: u32)
    ensures var r := CheckSignature(f, intf, offset, size, scheme, raw);
            if !(1 <= scheme <= 4) then r == InvalidSigScheme
            else if ReadRange(f, offset, size).None? then r == RuntimeFailure
            else
              var final := intf.digest(if scheme == 4 then 4 else 2, f.data[offset..offset + size]);
              if final.None? then r == RuntimeFailure
              else
                var digest := final.value[..if scheme == 4 then 64 else 32];
                var n := KeyBytes(scheme);
                if intf.trustDigest(digest) then r == Success
                else if !CanRead(f, raw, n) then r == RuntimeFailure
                else
                  && (r == Success <==> OwnKeyAt(f, intf, scheme, raw, digest) || intf.verify(scheme, f.data[raw..raw + n], digest))
                  && (r != Success ==> r == InvalidSignature)
  {
    hide OwnKeyVerifies, SignatureStruct, OwnKeyAt;
    if 1 <= scheme <= 4 && ReadRange(f, offset, size).Some? {
      var final := intf.digest(if scheme == 4 then 4 else 2, f.data[offset..offset + size]);
      if final.Some? {
        OwnKeyMeans(f, intf, scheme, raw, final.value[..if scheme == 4 then 64 else 32]);
      }
    }
  }

  lemma SignatureIsAuthentic(f: Flash, intf: Intf, scheme: byte, offset: u32, size: u32, raw: u32)
    requires SchemeSupported(scheme)
    ensures CheckSignature(f, intf, offset, size, scheme, raw) == Success
            <==> ReadRange(f, offset, size).Some?
                 && Authentic(intf, scheme, ReadRange(f, offset, size).value, SignatureStruct(f, scheme, raw), Read(f, raw, KeySize(scheme)))
  {
  }

  lemma TransitionIsAllowed(f: Flash, intf: Intf, desc: Descriptor, family: u32, signature: u32)
    ensures CheckTransition(f, intf, desc, family, signature) == Success
            <==> CanRead(f, signature, SIGNATURE_OFFSET) && Le32(f.data, signature) == SIGNATURE_MAGIC
                 && TransitionAllowed(intf, desc, family)
  {
    if CanRead(f, signature, SIGNATURE_OFFSET) {
      Le32OfSlice(f.data, signature, SIGNATURE_OFFSET, 0);
    }
  }

  lemma SealIsChecked(f: Flash, intf: Intf, desc: Descriptor, family: u32, offset: u32, size: u32)
    requires SchemeSupported(desc.scheme) && SignatureFieldOffset(desc.scheme) <= size && offset + size < TWO32
    ensures CheckSeal(f, intf, family, desc, offset, offset + size - SignatureFieldOffset(desc.scheme), size) == Success
            <==> Sealed(f, intf, desc, family, offset, size)
  {
    var structAt := offset + size - SignatureFieldOffset(desc.scheme);
    TransitionIsAllowed(f, intf, desc, family, structAt);
    SignatureIsAuthentic(f, intf, desc.scheme, offset, size, offset + size);
    assert SignatureStruct(f, desc.scheme, offset + size) == Read(f, structAt, SignatureStructSize(desc.scheme));
  }

  lemma SignatureIsPlaced(f: Flash, intf: Intf, desc: Descriptor, family: u32, offset: u32) returns (size: u32)
    requires HashSupported(desc.hashType) && SchemeSupported(desc.scheme)
    requires BlobWellSized(desc) && Needed(desc) <= desc.area && offset + desc.area < TWO32
    ensures size == Needed(desc) - KeySize(desc.scheme)
    ensures SignatureFieldOffset(desc.scheme) <= size && offset + size < TWO32
    ensures CheckSigned(f, intf, family, desc, offset)
         == CheckSeal(f, intf, family, desc, offset, offset + size - SignatureFieldOffset(desc.scheme), size)
  {
    hide CheckSeal;
    LayoutCheck(desc);
    size := SignatureAt(desc) + SignatureFieldOffset(desc.scheme);
  }

  /** For a descriptor area that holds the fixed prefix, the checks from the layout on succeed
      exactly for a well-signed descriptor, with no 32-bit wrap. */
  lemma SignedPrefix(f: Flash, intf: Intf, desc: Descriptor, family: u32, offset: u32)
    requires HashSupported(desc.hashType) && SchemeSupported(desc.scheme)
    requires Spacious(desc) && offset + desc.area < TWO32
    ensures CheckSigned(f, intf, family, desc, offset) == Success <==> SignedAt(f, intf, desc, family, offset)
  {
    if BlobWellSized(desc) && Needed(desc) <= desc.area {
      var size := SignatureIsPlaced(f, intf, desc, family, offset);
      SealIsChecked(f, intf, desc, family, offset, size);
    } else {
      LayoutCheck(desc);
    }
  }
}
