/** The minimum acceptable update version (MAUV): finding it in an image's blob list, checking it,
    and stepping the copy the system keeps against rollback. */
module Cr51Mauv {
  import opened Bytes
  import opened Options
  import opened Cr51Format
  import opened Cr51Context
  import opened Cr51Walk

  const MAUV_SIZE := 40
  const MAUV_MAX_SIZE := 128
  const MAUV_MAX_DENIED := 11
  const MAUV_STRUCT_VERSION := 1

  // ----- The record -----

  function PayloadVersion(m: seq<byte>): u64
    requires |m| >= MAUV_SIZE
  {
    Le64(m, 8)
  }

  function Timestamp(m: seq<byte>): u64
    requires |m| >= MAUV_SIZE
  {
    Le64(m, 16)
  }

  function MinimumVersion(m: seq<byte>): u64
    requires |m| >= MAUV_SIZE
  {
    Le64(m, 24)
  }

  function Denied(m: seq<byte>): u32
    requires |m| >= MAUV_SIZE
  {
    Le32(m, 36)
  }

  predicate WellSized(m: seq<byte>) { |m| >= MAUV_SIZE && |m| == MAUV_SIZE + 8 * Denied(m) }

  function DeniedVersion(m: seq<byte>, i: nat): u64
    requires WellSized(m) && i < Denied(m)
  {
    Le64(m, MAUV_SIZE + 8 * i)
  }

  /** An update to `version` is allowed: not below the minimum and not denylisted. */
  predicate Allows(m: seq<byte>, version: u64)
    requires WellSized(m)
  {
    version >= MinimumVersion(m) && forall i :: 0 <= i < Denied(m) ==> DeniedVersion(m, i) != version
  }

  predicate Sane(m: seq<byte>) {
    && WellSized(m) && Denied(m) <= MAUV_MAX_DENIED
    && Le32(m, 0) == MAUV_STRUCT_VERSION && PayloadVersion(m) > 0
    && Allows(m, PayloadVersion(m))
  }

  method DoesStoredAllow(m: seq<byte>, version: u64) returns (ok: bool)
    requires WellSized(m)
    ensures ok == Allows(m, version)
  {
    if version < MinimumVersion(m) {
      return false;
    }
    for i := 0 to Denied(m)
      invariant forall k :: 0 <= k < i ==> DeniedVersion(m, k) != version
    {
      if DeniedVersion(m, i) == version {
        return false;
      }
    }
    return true;
  }

  method SanityCheck(m: seq<byte>) returns (r: Status)
    ensures r == if Sane(m) then Success else InvalidMauv
  {
    if |m| < MAUV_SIZE {
      return InvalidMauv;
    }
    if Le32(m, 0) != MAUV_STRUCT_VERSION || PayloadVersion(m) == 0 {
      return InvalidMauv;
    }
    if Denied(m) > MAUV_MAX_DENIED || |m| != MAUV_SIZE + Denied(m) * 8 {
      return InvalidMauv;
    }
    var ok := DoesStoredAllow(m, PayloadVersion(m));
    return if ok then Success else InvalidMauv;
  }

  predicate BlobMagicAt(f: Flash, blobOffset: u32) {
    CanRead(f, blobOffset, BLOB_SIZE) && Le32(f.data, blobOffset) == BLOB_MAGIC
  }

  /** No blob, or no blob magic, or a list the walk gets through: on every flash, or on this one. */
  ghost predicate BlobInReach(f: Flash, blobOffset: u32, blobSize: u32) {
    blobOffset != 0 && BlobMagicAt(f, blobOffset) ==>
      Walkable(blobOffset + BLOB_SIZE, blobSize) || WalkEnds(f, blobOffset + BLOB_SIZE, blobSize)
  }

  lemma InReachEnds(f: Flash, blobOffset: u32, blobSize: u32)
    requires blobOffset != 0 && BlobMagicAt(f, blobOffset) && BlobInReach(f, blobOffset, blobSize)
    ensures WalkEnds(f, blobOffset + BLOB_SIZE, blobSize)
  {
    hide WalkEnds, Walkable;
    if Walkable(blobOffset + BLOB_SIZE, blobSize) {
      WalkableEnds(f, blobOffset + BLOB_SIZE, blobSize);
    }
  }

  /** The MAUV of an image, if it has one. */
  ghost function MauvOf(f: Flash, blobOffset: u32, blobSize: u32): (r: Result<Option<seq<byte>>>)
    requires blobOffset != 0 && BlobInReach(f, blobOffset, blobSize)
    ensures r.Err? ==> r.status in {RuntimeFailure, InvalidDescriptor, InvalidMauv}
  {
    if !CanRead(f, blobOffset, BLOB_SIZE) then Err(RuntimeFailure)
    else if !BlobMagicAt(f, blobOffset) then Err(InvalidDescriptor)
    else
      InReachEnds(f, blobOffset, blobSize);
      match Walk(f, blobOffset + BLOB_SIZE, blobSize)
      case Err(e) => Err(e)
      case Ok(None) => Ok(None)
      case Ok(Some(found)) => MauvAt(f, found)
  }

  function MauvAt(f: Flash, found: Found): Result<Option<seq<byte>>> {
    if found.at == 0 then Ok(None)
    else if found.size > MAUV_MAX_SIZE then Err(InvalidMauv)
    else
      match Read(f, found.at, found.size)
      case None => Err(RuntimeFailure)
      case Some(bytes) => if Sane(bytes) then Ok(Some(bytes)) else Err(InvalidMauv)
  }

  method FindAndReadMauv(ctx: Context, blobOffset: u32, blobSize: u32) returns (r: Result<Option<seq<byte>>>)
    requires blobOffset != 0 && BlobInReach(ctx.flash, blobOffset, blobSize)
    ensures r == MauvOf(ctx.flash, blobOffset, blobSize)
  {
    var magic := Read(ctx.flash, blobOffset, BLOB_SIZE);
    if magic.None? {
      return Err(RuntimeFailure);
    }
    Le32OfSlice(ctx.flash.data, blobOffset, BLOB_SIZE, 0);
    if Le32(magic.value, 0) != BLOB_MAGIC {
      return Err(InvalidDescriptor);
    }
    InReachEnds(ctx.flash, blobOffset, blobSize);
    var walked := FindMauv(ctx, blobOffset + BLOB_SIZE, blobSize);
    if walked.Err? {
      return Err(walked.status);
    }
    var found := walked.value;
    var present := found.Some? && found.value.at != 0;
    if !present {
      return Ok(None);
    }
    if found.value.size > MAUV_MAX_SIZE {
      return Err(InvalidMauv);
    }
    var bytes := Read(ctx.flash, found.value.at, found.value.size);
    if bytes.None? {
      return Err(RuntimeFailure);
    }
    var sane := SanityCheck(bytes.value);
    if sane != Success {
      return Err(sane);
    }
    return Ok(bytes);
  }

  // ----- The stored copy -----

  /** The system's side of one call: whether it can hand out a stored MAUV at all, and whether
      the retrieve and the store callback work this time. */
  datatype Store = Store(present: bool, retrieves: bool, stores: bool)

  datatype Outcome = Outcome(status: Status, stored: Option<seq<byte>>)

  function UpdateStored(store: Store, stored: Option<seq<byte>>, payload: seq<byte>): Outcome {
    if store.stores then Outcome(Success, Some(payload)) else Outcome(StoringNewMauv, stored)
  }

  /** The payload's MAUV against the stored one. */
  function StepStored(store: Store, stored: Option<seq<byte>>, payload: Option<seq<byte>>): Outcome
    requires payload.Some? ==> Sane(payload.value)
  {
    if !store.present then Outcome(if payload.Some? then InvalidInterface else Success, stored)
    else if !store.retrieves then Outcome(RetrievingStoredMauv, stored)
    else if stored.None? then
      if payload.Some? then UpdateStored(store, stored, payload.value) else Outcome(Success, stored)
    else if |stored.value| > MAUV_MAX_SIZE || !Sane(stored.value) then Outcome(InvalidMauv, stored)
    else if payload.None? then Outcome(StoredMauvExpectsMauv, stored)
    else if !Allows(stored.value, PayloadVersion(payload.value)) then Outcome(StoredMauvForbids, stored)
    else if Timestamp(payload.value) > Timestamp(stored.value) then UpdateStored(store, stored, payload.value)
    else Outcome(Success, stored)
  }

  ghost function PayloadMauv(f: Flash, blobOffset: u32, blobSize: u32): (r: Result<Option<seq<byte>>>)
    requires BlobInReach(f, blobOffset, blobSize)
    ensures r.Ok? && r.value.Some? ==> Sane(r.value.value)
    ensures r.Err? ==> r.status in {RuntimeFailure, InvalidDescriptor, InvalidMauv}
  {
    if blobOffset == 0 then Ok(None) else MauvOf(f, blobOffset, blobSize)
  }

  ghost function CheckMauv(f: Flash, store: Store, stored: Option<seq<byte>>, blobOffset: u32, blobSize: u32): Outcome
    requires BlobInReach(f, blobOffset, blobSize)
  {
    match PayloadMauv(f, blobOffset, blobSize)
    case Err(e) => Outcome(e, stored)
    case Ok(payload) => StepStored(store, stored, payload)
  }

  method UpdateStoredMauv(ctx: Context, store: Store, payload: seq<byte>) returns (r: Status)
    modifies ctx`stored
    ensures Outcome(r, ctx.stored) == UpdateStored(store, old(ctx.stored), payload)
  {
    if !store.stores {
      return StoringNewMauv;
    }
    ctx.stored := Some(payload);
    return Success;
  }

  method ValidatePayloadMauv(ctx: Context, store: Store, blobOffset: u32, blobSize: u32) returns (r: Status)
    requires BlobInReach(ctx.flash, blobOffset, blobSize)
    modifies ctx`stored
    ensures Outcome(r, ctx.stored) == CheckMauv(ctx.flash, store, old(ctx.stored), blobOffset, blobSize)
  {
    var payload: Option<seq<byte>> := None;
    if blobOffset != 0 {
      var found := FindAndReadMauv(ctx, blobOffset, blobSize);
      if found.Err? {
        return found.status;
      }
      payload := found.value;
    }
    assert PayloadMauv(ctx.flash, blobOffset, blobSize) == Ok(payload);
    if !store.present {
      return if payload.Some? then InvalidInterface else Success;
    }
    if !store.retrieves {
      return RetrievingStoredMauv;
    }
    if ctx.stored.None? {
      if payload.Some? {
        r := UpdateStoredMauv(ctx, store, payload.value);
        return;
      }
      return Success;
    }
    var stored := ctx.stored.value;
    if |stored| > MAUV_MAX_SIZE {
      return InvalidMauv;
    }
    r := SanityCheck(stored);
    if r != Success {
      return;
    }
    if payload.None? {
      return StoredMauvExpectsMauv;
    }
    var allowed := DoesStoredAllow(stored, PayloadVersion(payload.value));
    if !allowed {
      return StoredMauvForbids;
    }
    if Timestamp(payload.value) > Timestamp(stored) {
      r := UpdateStoredMauv(ctx, store, payload.value);
      return;
    }
    return Success;
  }
}
