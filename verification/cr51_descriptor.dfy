/** The image descriptor: its sanity checks, its layout, and the signature over its prefix. */
module Cr51Descriptor {
  import opened Bytes
  import opened Options
  import opened Cr51Format
  import opened Cr51Context
  import opened Cr51Hashing

  // ----- Layout -----

  /** The structures in front of the blob: descriptor, region table, hash record, denylist. */
  function FixedPrefix(desc: Descriptor): (n: nat)
    requires HashSupported(desc.hashType)
    ensures n % 4 == 0 && DESCRIPTOR_SIZE + desc.regions * REGION_SIZE <= n < DESCRIPTOR_ALIGNMENT
  {
    DESCRIPTOR_SIZE + desc.regions * REGION_SIZE + HashStructSize(desc.hashType)
    + if desc.denylist > 0 then DENYLIST_SIZE + desc.denylist * DENYLIST_RECORD_SIZE else 0
  }

  /** Where the signature structure starts, relative to the descriptor, computed and checked
      against the descriptor area with 32-bit arithmetic. */
  function PlaceSignature(desc: Descriptor): Result<u32>
    requires HashSupported(desc.hashType) && SchemeSupported(desc.scheme)
  {
    var prefix: u32 := FixedPrefix(desc);
    var blobStart := Add32(prefix, BLOB_SIZE);
    if desc.blobSize > 0 && (desc.blobSize > Sub32(desc.area, blobStart) || desc.blobSize < BLOB_DATA_SIZE) then
      Err(InvalidDescriptor)
    else
      var signature := if desc.blobSize > 0 then Add32(blobStart, desc.blobSize) else prefix;
      if SignatureStructSize(desc.scheme) > Sub32(desc.area, signature) then Err(InvalidDescriptor) else Ok(signature)
  }

  /** The offset of the blob an accepted header announces, or the one known so far. */
  function BlobOffset(desc: Descriptor, offset: u32, was: u32): u32
    requires HashSupported(desc.hashType)
  {
    if desc.blobSize > 0 then Add32(offset, FixedPrefix(desc)) else was
  }

  // ----- The checks -----

  function CheckHeader(intf: Intf, desc: Descriptor, relative: u32, maxSize: u32): Status
    requires relative <= maxSize
  {
    if desc.magic != DESCRIPTOR_MAGIC || desc.offset != relative || desc.regions == 0
       || desc.area > maxSize - relative || desc.imageSize > maxSize
    then InvalidDescriptor
    else if (match intf.imageSizeValid case None => desc.imageSize != maxSize case Some(valid) => !valid(desc.imageSize))
    then InvalidDescriptor
    else if desc.imageType > 4 then InvalidDescriptor
    else if !SchemeSupported(desc.scheme) then InvalidSigScheme
    else if !HashSupported(desc.hashType) then InvalidHashType
    else if desc.major > MAX_MAJOR_VERSION || desc.regions > MAX_REGION_COUNT then UnsupportedDescriptor
    else Success
  }

  function CheckTransition(f: Flash, intf: Intf, desc: Descriptor, family: u32, signature: u32): Status {
    match Read(f, signature, SIGNATURE_OFFSET)
    case None => RuntimeFailure
    case Some(bytes) =>
      if Le32(bytes, 0) != SIGNATURE_MAGIC then InvalidDescriptor
      else if desc.family != family && desc.family != IMAGE_FAMILY_ALL && family != IMAGE_FAMILY_ALL then InvalidImageFamily
      else if intf.production && desc.imageType == IMAGE_DEV && !intf.downgradeAllowed then DevDowngradeDisallowed
      else Success
  }

  /** The signature structure that ends with the raw signature. */
  function SignatureStruct(f: Flash, scheme: byte, rawSignature: u32): Option<seq<byte>>
    requires SchemeSupported(scheme)
  {
    var field := SignatureFieldOffset(scheme);
    if field > rawSignature then None else Read(f, rawSignature - field, SignatureStructSize(scheme))
  }

  /** The structure's own key is trusted and the signature verifies with it. */
  predicate OwnKeyVerifies(intf: Intf, scheme: byte, s: seq<byte>, digest: seq<byte>)
    requires SchemeSupported(scheme) && |s| == SignatureStructSize(scheme)
  {
    var field := SignatureFieldOffset(scheme);
    && intf.trustKey(scheme, s)
    && intf.verifyWithKey(scheme, s[SIGNATURE_OFFSET..field], Le32(s, 8), s[field..], digest)
  }

  function CheckSignature(f: Flash, intf: Intf, offset: u32, size: u32, scheme: byte, rawSignature: u32): Status {
    if !SchemeSupported(scheme) then InvalidSigScheme
    else
      match ReadRange(f, offset, size)
      case None => RuntimeFailure
      case Some(bytes) =>
        match intf.digest(SchemeHash(scheme), bytes)
        case None => RuntimeFailure
        case Some(digest) => CheckDigest(f, intf, scheme, rawSignature, digest[..DigestSize(SchemeHash(scheme))])
  }

  function CheckDigest(f: Flash, intf: Intf, scheme: byte, rawSignature: u32, digest: seq<byte>): Status
    requires SchemeSupported(scheme)
  {
    if intf.trustDigest(digest) then Success
    else
      match Read(f, rawSignature, KeySize(scheme))
      case None => RuntimeFailure
      case Some(raw) =>
        var own := SignatureStruct(f, scheme, rawSignature);
        if own.Some? && OwnKeyVerifies(intf, scheme, own.value, digest) then Success
        else if intf.verify(scheme, raw, digest) then Success
        else InvalidSignature
  }

  /** The verdict, the descriptor left in the context, and the offset of the blob: computed for
      images that have one, and otherwise the one handed in. */
  datatype Checked = Checked(status: Status, desc: Descriptor, blobOffset: u32)

  function CheckDescriptor(f: Flash, intf: Intf, family: u32, was: Descriptor, offset: u32, relative: u32, maxSize: u32,
                           blobOffset: u32): Checked
  {
    if maxSize < relative || maxSize - relative < DESCRIPTOR_SIZE then Checked(InvalidDescriptor, was, blobOffset)
    else
      match Read(f, offset, DESCRIPTOR_SIZE)
      case None => Checked(RuntimeFailure, was, blobOffset)
      case Some(bytes) =>
        var desc := ParseDescriptor(bytes);
        var header := CheckHeader(intf, desc, relative, maxSize);
        if header != Success then Checked(header, desc, blobOffset)
        else
          Checked(CheckSigned(f, intf, family, desc, offset), desc, BlobOffset(desc, offset, blobOffset))
  }

  /** The checks from the layout on. */
  function CheckSigned(f: Flash, intf: Intf, family: u32, desc: Descriptor, offset: u32): Status
    requires HashSupported(desc.hashType) && SchemeSupported(desc.scheme)
  {
    match PlaceSignature(desc)
    case Err(e) => e
    case Ok(signature) =>
      CheckSeal(f, intf, family, desc, offset, Add32(offset, signature), Add32(signature, SignatureFieldOffset(desc.scheme)))
  }

  function CheckSeal(f: Flash, intf: Intf, family: u32, desc: Descriptor, offset: u32, signature: u32, size: u32): Status {
    var transition := CheckTransition(f, intf, desc, family, signature);
    if transition != Success then transition else CheckSignature(f, intf, offset, size, desc.scheme, Add32(offset, size))
  }

  // ----- The library's functions -----

  method ValidateTransition(ctx: Context, signature: u32) returns (r: Status)
    ensures r == CheckTransition(ctx.flash, ctx.intf, ctx.descriptor, ctx.family, signature)
  {
    var bytes := Read(ctx.flash, signature, SIGNATURE_OFFSET);
    if bytes.None? {
      return RuntimeFailure;
    }
    if Le32(bytes.value, 0) != SIGNATURE_MAGIC {
      return InvalidDescriptor;
    }
    if ctx.descriptor.family != ctx.family && ctx.descriptor.family != IMAGE_FAMILY_ALL && ctx.family != IMAGE_FAMILY_ALL {
      return InvalidImageFamily;
    }
    if ctx.intf.production && ctx.descriptor.imageType == IMAGE_DEV {
      if !ctx.intf.downgradeAllowed {
        return DevDowngradeDisallowed;
      }
    }
    return Success;
  }

  method ValidateSignatureWithOwnKey(ctx: Context, scheme: byte, rawSignature: u32, digest: seq<byte>) returns (ok: bool)
    requires SchemeSupported(scheme)
    ensures var own := SignatureStruct(ctx.flash, scheme, rawSignature);
            ok == (own.Some? && OwnKeyVerifies(ctx.intf, scheme, own.value, digest))
  {
    var field := SignatureFieldOffset(scheme);
    if field > rawSignature {
      return false;
    }
    var own := Read(ctx.flash, rawSignature - field, SignatureStructSize(scheme));
    if own.None? || !ctx.intf.trustKey(scheme, own.value) {
      return false;
    }
    return ctx.intf.verifyWithKey(scheme, own.value[SIGNATURE_OFFSET..field], Le32(own.value, 8), own.value[field..], digest);
  }

  method ValidateSignature(ctx: Context, offset: u32, size: u32, scheme: byte, rawSignature: u32) returns (r: Status)
    modifies ctx`hashType, ctx`hashed
    ensures r == CheckSignature(ctx.flash, ctx.intf, offset, size, scheme, rawSignature)
  {
    if !SchemeSupported(scheme) {
      return InvalidSigScheme;
    }
    ctx.HashInit(SchemeHash(scheme));
    AfterNothing(ReadRange(ctx.flash, offset, size));
    r := ReadAndHashUpdate(ctx, offset, size);
    if r != Success {
      return;
    }
    var final := ctx.intf.digest(ctx.hashType, ctx.hashed);
    if final.None? {
      return RuntimeFailure;
    }
    var digest := final.value[..DigestSize(SchemeHash(scheme))];
    if ctx.intf.trustDigest(digest) {
      return Success;
    }
    var raw := Read(ctx.flash, rawSignature, KeySize(scheme));
    if raw.None? {
      return RuntimeFailure;
    }
    var own := ValidateSignatureWithOwnKey(ctx, scheme, rawSignature, digest);
    if own {
      return Success;
    }
    if !ctx.intf.verify(scheme, raw.value, digest) {
      return InvalidSignature;
    }
    return Success;
  }

  method ValidateHeader(ctx: Context, relative: u32, maxSize: u32) returns (r: Status)
    requires relative <= maxSize
    ensures r == CheckHeader(ctx.intf, ctx.descriptor, relative, maxSize)
  {
    var desc := ctx.descriptor;
    if desc.magic != DESCRIPTOR_MAGIC || desc.offset != relative || desc.regions == 0
       || desc.area > maxSize - relative || desc.imageSize > maxSize
    {
      return InvalidDescriptor;
    }
    if ctx.intf.imageSizeValid.None? {
      if desc.imageSize != maxSize {
        return InvalidDescriptor;
      }
    } else if !ctx.intf.imageSizeValid.value(desc.imageSize) {
      return InvalidDescriptor;
    }
    if !(0 <= desc.imageType <= 4) {
      return InvalidDescriptor;
    }
    if !SchemeSupported(desc.scheme) {
      return InvalidSigScheme;
    }
    if !HashSupported(desc.hashType) {
      return InvalidHashType;
    }
    if desc.major > MAX_MAJOR_VERSION || desc.regions > MAX_REGION_COUNT {
      return UnsupportedDescriptor;
    }
    return Success;
  }

  method MeasureSigned(ctx: Context, offset: u32, blobWas: u32) returns (r: Result<u32>, blobOffset: u32)
    requires HashSupported(ctx.descriptor.hashType) && SchemeSupported(ctx.descriptor.scheme)
    ensures r == PlaceSignature(ctx.descriptor) && blobOffset == BlobOffset(ctx.descriptor, offset, blobWas)
  {
    var desc := ctx.descriptor;
    blobOffset := blobWas;
    var signedSize: u32 := DESCRIPTOR_SIZE + desc.regions * REGION_SIZE;
    signedSize := signedSize + HashStructSize(desc.hashType);
    if desc.denylist > 0 {
      signedSize := signedSize + DENYLIST_SIZE;
      signedSize := signedSize + desc.denylist * DENYLIST_RECORD_SIZE;
    }
    if desc.blobSize > 0 {
      blobOffset := Add32(offset, signedSize);
      signedSize := Add32(signedSize, BLOB_SIZE);
      if desc.blobSize > Sub32(desc.area, signedSize) || desc.blobSize < BLOB_DATA_SIZE {
        return Err(InvalidDescriptor), blobOffset;
      }
      signedSize := Add32(signedSize, desc.blobSize);
    }
    if SignatureStructSize(desc.scheme) > Sub32(desc.area, signedSize) {
      return Err(InvalidDescriptor), blobOffset;
    }
    return Ok(signedSize), blobOffset;
  }

  method ValidateDescriptor(ctx: Context, offset: u32, relative: u32, maxSize: u32, blobWas: u32)
    returns (r: Status, blobOffset: u32)
    modifies ctx`descriptor, ctx`hashType, ctx`hashed
    ensures Checked(r, ctx.descriptor, blobOffset)
         == CheckDescriptor(ctx.flash, ctx.intf, ctx.family, old(ctx.descriptor), offset, relative, maxSize, blobWas)
  {
    blobOffset := blobWas;
    if maxSize < relative || maxSize - relative < DESCRIPTOR_SIZE {
      return InvalidDescriptor, blobOffset;
    }
    var bytes := Read(ctx.flash, offset, DESCRIPTOR_SIZE);
    if bytes.None? {
      return RuntimeFailure, blobOffset;
    }
    ctx.descriptor := ParseDescriptor(bytes.value);
    r := ValidateHeader(ctx, relative, maxSize);
    if r != Success {
      return;
    }
    var signedSize;
    signedSize, blobOffset := MeasureSigned(ctx, offset, blobWas);
    if signedSize.Err? {
      r := signedSize.status;
      return;
    }
    r := ValidateTransition(ctx, Add32(offset, signedSize.value));
    if r != Success {
      return;
    }
    var size := Add32(signedSize.value, SignatureFieldOffset(ctx.descriptor.scheme));
    r := ValidateSignature(ctx, offset, size, ctx.descriptor.scheme, Add32(offset, size));
  }
}
