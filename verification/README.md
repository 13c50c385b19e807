# Two protocols, verified

This project models the two intricate pieces of C and C++ in this repository and proves what they
are for.

**The Cr51 image validator** (`subprojects/libcr51sign`). Given a flash, `libcr51sign_validate`
scans for a descriptor at 64 KiB boundaries, checks its layout and the signature over its prefix,
checks that its region table tiles the image, hashes the static regions around the descriptor area,
and for production images walks a blob list for the MAUV (minimum acceptable update version) and
steps the copy the system keeps against rollback. The flash is a value whose reads succeed or fail
as a whole; the hash engine is the stream of bytes fed to it and a function of that stream, about
which nothing is assumed; signature and trust callbacks are predicates. Integers have their 32 bits:
`u32` results that could wrap are computed with `Add32`, `Sub32` or `Wrap32`; where a plain sum is
given type `u32`, the subset type demands that it does not wrap.

**The NC-SI daemon** (`subprojects/ncsid`). Three state machines share one state record, one debug
record and one buffer and are polled by one scheduler, against a NIC that answers each request by the
next round. The frame builders of both sides work in place on arrays. The frames follow DMTF DSP0222
1.0.0, sections 8.2.1, 8.3 and 8.4.

Each file of the program is imperative, and so is its model: methods over a class or over arrays with
the loops of the source, each proved equal to a specification function. The theorems are lemmas about
those functions. What the functions answer is in turn said without them, in bytes of the flash and of the
wire and in what the callbacks say: `cr51_layout`, `cr51_verdicts`, `cr51_signed_prefix`,
`cr51_store_theorems` and `ncsi_wire`.

| files | contents |
|---|---|
| `bytes`, `options`, `iteration`, `bitmask` | words, byte orders, masks, repeating a step |
| `cr51_format`, `cr51_context`, `cr51_scan`, `cr51_hashing` | the format, the context, the scan, chunked hashing |
| `cr51_regions`, `cr51_coverage` | the region checks and what the digest vouches for |
| `cr51_descriptor`, `cr51_signed_prefix` | the descriptor checks and what the signature covers |
| `cr51_layout`, `cr51_verdicts` | the structures of an image written out and found again; every answer of the checks on one image |
| `cr51_walk`, `cr51_blobs` | the walk over the blob list, when it ends, and what it makes of a list |
| `cr51_mauv`, `cr51_rollback` | the MAUV check, one step of the stored copy |
| `cr51_validate`, `cr51_search_theorems`, `cr51_image_theorems`, `cr51_store_theorems` | the whole validation and its theorems |
| `cr51_instances` | images written out byte for byte, and what accepting them shows |
| `ncsi_frames`, `ncsi_client`, `ncsi_server` | frames and their builders on both sides |
| `ncsi_fsm`, `ncsi_machine` | the three machines and the scheduler |
| `ncsi_wire` | what stands on the wire, byte by byte: every frame sent, and which frames pass |
| `ncsi_safety`, `ncsi_theorems` | the joint invariant over all runs and what follows from it |
| `ncsi_nic`, `ncsi_closed_loop` | the NIC and the loop closed over it |
| `ncsi_retry`, `ncsi_recovery`, `ncsi_watch`, `ncsi_link` | the exact retry budget, the way back from any state, what the health checks notice, and a lost link, a restart and a stop |

## Where the code and its documentation differ

The model follows the code. For each difference one lemma says exactly when the documented property
holds, and where it can fail another gives an image or a run on which it does.

- Region offsets are documented as relative to the image and used as flash addresses: the two agree
  exactly as `Cr51Coverage.OffsetsAreAbsolute` says; `Cr51Instances.ImageElsewhereIsAccepted` accepts
  an image of which no byte was hashed.
- "The descriptor must reside in a static region" is not checked for a descriptor at or beyond the
  image size (`Cr51Coverage.DescriptorResides`, `Cr51Instances.ImageElsewhereIsAccepted`).
- "Previous additions are guaranteed not to overflow", but the subtractions beside them wrap for an
  area smaller than the fixed prefix (`Cr51SignedPrefix.LayoutInsideArea`,
  `Cr51Instances.EmptyAreaIsAccepted`).
- The blob offset is documented as 0 for an image without a blob; an earlier candidate can leave its
  own (`Cr51SearchTheorems.VerdictDependsOnStaleBlob`, `Cr51Instances.StaleBlobRefuses`).
- Validation need not end for end offsets in the last block of the address space
  (`Cr51Validate.ValidationEnds`, `Cr51Scan.ScanEnds`), nor the blob walk for some lists of almost
  2^32 bytes at the very start of the flash (`Cr51Walk.WalkEndsExactly`); both give the flash.
- The retry counter is not set by a reset: at most five failures exactly if it starts below the limit
  (`NcsiRetry.LimitHoldsIfCounterIsSet`), and for every start the exact number that a run can have
  (`NcsiRetry.BudgetIsExact`).
- The test "ensures that L3/L4 configuration parameters have not been wiped out", but every start of a
  run, a retry included, turns to the other channel, and a finished run forgets the tries: filters that
  are gone lead to a clear exactly as `NcsiWatch.WipeIsNoticed` says, and with two channels one of them
  may be gone for ever (`NcsiWatch.WipeAfterBringUp`).

## Model

| member | source | states |
|---|---|---|
| Cr51Scan.ScanForMagic8 | subprojects/libcr51sign/src/libcr51sign.c:926-967 | for every call that returns: bad arguments are refused, and otherwise the result is what the first of the wrapping 32-bit offsets says that lies behind the limit, cannot be read or holds the magic |
| Cr51Scan.ScanAligned | subprojects/libcr51sign/src/libcr51sign.c:948-966 | the loop, for every flash and limit on which it ends |
| Cr51Scan.BoundedScanEnds | subprojects/libcr51sign/src/libcr51sign.c:948-966 | for limits that leave room for one more step the loop ends, and its result is that of the plain upward search |
| Cr51Scan.ScanFinds | subprojects/libcr51sign/src/libcr51sign.c:926-967 | a result is what the scan returns if and only if it is the least readable multiple of the alignment in [start, limit - 8) that holds the magic with everything before it readable and without the magic, or the read error of the first unreadable multiple before any such, or not-found when there is none |
| Cr51Scan.RoundUpMeans | subprojects/libcr51sign/src/libcr51sign.c:947 | the mask arithmetic yields the least multiple that is not below, also for start 0; in the last block of the address space it wraps to 0 |
| Cr51Scan.ScanEnds | subprojects/libcr51sign/src/libcr51sign.c:948-949 | for every magic, the loop ends on every flash if and only if limit - 8 <= 2^32 - alignment; beyond that the 32-bit offset wraps below the limit, and a readable flash without the magic is searched for ever |
| BitMask.PowerOfTwoTest | subprojects/libcr51sign/src/libcr51sign.c:33 | the `x & (x - 1)` test holds exactly for powers of two |
| BitMask.AndMask | subprojects/libcr51sign/src/libcr51sign.c:947 | masking with the complement of 2^k - 1 clears the low k bits |
| Cr51Hashing.ReadAndHashUpdate | subprojects/libcr51sign/src/libcr51sign.c:227-264 | the chunk loop appends exactly the stretch to what was hashed, or fails without a verdict on what was fed; offsets do not wrap |
| Cr51Hashing.ReadRangeSucceeds | subprojects/libcr51sign/src/libcr51sign.c:246-261 | a chunked read succeeds if and only if each 1024-byte chunk can be read, counting one empty chunk for size 0 |
| Cr51Regions.CheckRegions | subprojects/libcr51sign/src/libcr51sign.c:322-366 | accepts exactly the tables that tile the image and, if they hold the descriptor at all, hold it with its whole area in one static region; and finds the region that holds it |
| Cr51Regions.HashRegion | subprojects/libcr51sign/src/libcr51sign.c:395-429 | the do/while hashes a static region around the descriptor area, in at most two rounds for any 32-bit values |
| Cr51Regions.NextStretch | subprojects/libcr51sign/src/libcr51sign.c:406-429 | one round of the do/while takes the next stretch and leaves the rest, or ends |
| Cr51Regions.HashRegions | subprojects/libcr51sign/src/libcr51sign.c:393-430 | all static regions in order, or the first read failure |
| Cr51Regions.CheckDigest | subprojects/libcr51sign/src/libcr51sign.c:368-445 | hash record, digest of what was fed, comparison, each with its error |
| Cr51Regions.ValidatePayloadRegions | subprojects/libcr51sign/src/libcr51sign.c:273-446 | the region checks as a whole: equal to `RegionsVerdict`, whose every answer `Cr51Verdicts.RegionsAnswers` gives; hands out the table it read |
| Cr51Verdicts.RegionsAnswers | subprojects/libcr51sign/src/libcr51sign.c:273-446 | every answer of the region checks, in terms of the flash and the digest callback: region count, readable table, rows in place, hash type, readable record, its tag, readable static bytes, digest, comparison, in this order and each with its error |
| Cr51Verdicts.TiledMeans | subprojects/libcr51sign/src/libcr51sign.c:322-366 | the table check accepts exactly rows of whole 4096-byte sectors, each starting where the sizes before it end, that add up to the image size, with the whole descriptor area inside one static row if the descriptor starts in one |
| Cr51Layout.TableMeans | subprojects/libcr51sign/include/libcr51sign/cr51_image_descriptor.h:165-182 | row i of the table is read at d + 96 + 44 i: offset, size, and the static flag as the lowest bit of the attributes |
| Cr51Layout.TableRoundTrip | subprojects/libcr51sign/include/libcr51sign/cr51_image_descriptor.h:165-182 | any table that is written, of any number of rows with any offsets, sizes and attributes, is read back row by row |
| Cr51Coverage.OneRegion | subprojects/libcr51sign/src/libcr51sign.c:336-342 | in a tiled table an address lies in at most one region |
| Cr51Coverage.HolderIs | subprojects/libcr51sign/src/libcr51sign.c:343-346 | the region taken for the descriptor's is the one that holds it, or region 0 when none does |
| Cr51Coverage.AroundDescriptor | subprojects/libcr51sign/src/libcr51sign.c:402-429 | the region of the descriptor is fed as its bytes before and after the descriptor area |
| Cr51Coverage.StandIn | subprojects/libcr51sign/src/libcr51sign.c:402-429 | region 0 standing in for a descriptor that no region holds is fed in full or the read runs off the flash |
| Cr51Coverage.RegionGathers | subprojects/libcr51sign/src/libcr51sign.c:393-430 | what is fed for a region is what the address filter gathers in it |
| Cr51Coverage.StreamIsGather | subprojects/libcr51sign/src/libcr51sign.c:393-430 | the bytes fed are the covered bytes below the image size, in address order, and every static address lies in the flash and in the image |
| Cr51Coverage.HashCoverage | subprojects/libcr51sign/src/libcr51sign.c:268-446 | the checks succeed if and only if the table tiles the image, the record is there, every chunk to be hashed is readable, and the recorded digest is that of the bytes at exactly the static addresses outside [d, d + area), each once and in address order; all of them lie in the flash and in the image |
| Cr51Coverage.GatherAgrees | subprojects/libcr51sign/src/libcr51sign.c:438-443 | equal gatherings agree at every covered address |
| Cr51Coverage.Integrity | subprojects/libcr51sign/src/libcr51sign.c:295-445 | two accepted images with the same descriptor, table and record agree on every static byte outside the descriptor area, or exhibit a digest collision |
| Cr51Coverage.DescriptorResides | subprojects/libcr51sign/src/libcr51sign.c:343-360 | a tiled table puts the descriptor, with its whole area, into a static region if and only if it lies below the image size |
| Cr51Coverage.OffsetsAreAbsolute | subprojects/libcr51sign/src/libcr51sign.c:402-415 | region offsets are relative to the image but used as addresses: what is hashed is what the format means if and only if the image starts at 0 or has nothing static |
| Cr51Instances.ImageElsewhereIsAccepted | subprojects/libcr51sign/src/libcr51sign.c:343-360 | whole validations that accept an image although no region holds its descriptor; and if it starts at 64 KiB, none of the bytes that were hashed is one of its own |
| Cr51Coverage.FedSucceeds | subprojects/libcr51sign/src/libcr51sign.c:393-430 | the regions can be fed if and only if every chunk of every stretch around the descriptor area can be read |
| Cr51Descriptor.ValidateTransition | subprojects/libcr51sign/src/libcr51sign.c:165-222 | signature magic, family and production rules in the order of the code |
| Cr51Descriptor.ValidateSignatureWithOwnKey | subprojects/libcr51sign/src/libcr51sign.c:537-647 | the key in the signature structure: readable, trusted, and verifies the digest; `Cr51SignedPrefix.OwnKeyMeans` says so of the bytes in the flash |
| Cr51Descriptor.ValidateSignature | subprojects/libcr51sign/src/libcr51sign.c:653-754 | digest of the signed bytes, trusted hash, own key, system key, in that order; `Cr51SignedPrefix.SignatureMeans` gives every answer |
| Cr51SignedPrefix.SignatureMeans | subprojects/libcr51sign/src/libcr51sign.c:653-754 | every answer of the signature check, in terms of the flash and the callbacks: scheme, readable bytes, digest, trusted digest, readable raw signature; then success if and only if the system key verifies it, or the key beside it does and is trusted |
| Cr51SignedPrefix.OwnKeyMeans | subprojects/libcr51sign/src/libcr51sign.c:537-647 | the key beside the raw signature counts if and only if the structure in front of the raw signature is readable, its key is trusted, and the raw signature verifies with its modulus and exponent, all given as slices of the flash |
| Cr51Descriptor.ValidateHeader | subprojects/libcr51sign/src/libcr51sign.c:793-848 | the sanity checks on the descriptor with their errors |
| Cr51Verdicts.DescriptorAnswers | subprojects/libcr51sign/src/libcr51sign.c:768-914 | every answer on a descriptor, in the order of the checks: room, readable, header, layout, transition, signature over everything up to the raw signature |
| Cr51Verdicts.HeaderAnswers | subprojects/libcr51sign/src/libcr51sign.c:793-848 | which descriptors get which error from the sanity checks |
| Cr51Verdicts.TransitionAnswers | subprojects/libcr51sign/src/libcr51sign.c:165-222 | which images get which error from the transition check: the family before the type |
| Cr51Layout.DescriptorRoundTrip | subprojects/libcr51sign/include/libcr51sign/cr51_image_descriptor.h:194-266 | any descriptor that is written field by field is read back as it was meant |
| Cr51Layout.TagsSpell | subprojects/libcr51sign/include/libcr51sign/cr51_image_descriptor.h:69-91 | the magic values are the little-endian names `_IMGDSC_`, `HASH`, `BLOB`, `SIGN` and `MAUV` |
| Cr51Layout.SizesAreWritten | subprojects/libcr51sign/src/libcr51sign.c:855-896 | for every supported hash type and scheme, table, denylist and blob list: the sizes that the layout check adds up are those of the structures as written |
| Cr51Layout.AreaIsFound | subprojects/libcr51sign/src/libcr51sign.c:855-914 | whatever structures are written one behind the other into a descriptor area that holds them, each is found where it was written: descriptor, table, hash record, blob list, and the signature structure with its tag, by the layout check as well as from the raw signature |
| Cr51Descriptor.MeasureSigned | subprojects/libcr51sign/src/libcr51sign.c:855-896 | the 32-bit layout computation and the blob offset it leaves behind even when it fails |
| Cr51Descriptor.ValidateDescriptor | subprojects/libcr51sign/src/libcr51sign.c:768-914 | the descriptor checks as a whole: equal to `CheckDescriptor`, verdict, context and blob offset |
| Cr51SignedPrefix.LayoutCheck | subprojects/libcr51sign/src/libcr51sign.c:855-896 | the layout check passes if and only if the blob size is 0 or at least 8 and the structures fit the area, or the area is smaller than the fixed prefix and they fit modulo 2^32 |
| Cr51SignedPrefix.LayoutInsideArea | subprojects/libcr51sign/src/libcr51sign.c:855-896 | for descriptors that pass, the structures lie inside the descriptor area if and only if the area holds what precedes the blob contents |
| Cr51Instances.HeadIsAccepted | subprojects/libcr51sign/src/libcr51sign.c:1012-1028 | round trip for a family of images written out byte for byte (place, area, size, one region, zero digest): each is accepted, with the descriptor that was written |
| Cr51Instances.EmptyAreaIsAccepted | subprojects/libcr51sign/src/libcr51sign.c:886-887 | a whole validation that accepts a production image with descriptor area 0, whose structures need 700 bytes |
| Cr51SignedPrefix.BlobIsAligned | subprojects/libcr51sign/src/libcr51sign.c:870-872 | the blob of an image found by the 64 KiB scan is at a multiple of 4, without wrapping, and never at 0 |
| Cr51SignedPrefix.OwnStructIsCheckedStruct | subprojects/libcr51sign/src/libcr51sign.c:549-573 | the structure re-derived from the raw signature is the one whose magic was checked, also where 32-bit offsets wrap |
| Cr51SignedPrefix.TransitionIsAllowed | subprojects/libcr51sign/src/libcr51sign.c:165-222 | the transition check passes if and only if the tag is there, the families match or one is a wildcard, and dev images are let into production only by exemption |
| Cr51SignedPrefix.SignatureIsAuthentic | subprojects/libcr51sign/src/libcr51sign.c:653-754 | the signature check passes if and only if the signed bytes are read and their digest is trusted, or the raw signature is readable and verifies with a key of the system or with the key beside it, if that key is trusted |
| Cr51SignedPrefix.SignedPrefix | subprojects/libcr51sign/src/libcr51sign.c:849-914 | for an area that holds the fixed prefix: success if and only if everything lies in the area and the bytes from the descriptor up to the raw signature, and no others, are authentic |
| Cr51ImageTheorems.HeaderMeans | subprojects/libcr51sign/src/libcr51sign.c:778-848 | the header checks pass exactly for the listed conditions |
| Cr51ImageTheorems.AcceptedIsWellMade | subprojects/libcr51sign/src/libcr51sign.c:1012-1028 | a candidate is accepted if and only if it is well made: header, signed prefix and vouched static bytes |
| Cr51ImageTheorems.AcceptedDescriptor | subprojects/libcr51sign/src/libcr51sign.c:786-787 | the descriptor an accepted candidate is judged by is the one in the flash |
| Cr51ImageTheorems.BlobLeftIsAligned | subprojects/libcr51sign/src/libcr51sign.c:870-872 | a blob offset left behind by a scanned place is a multiple of 4 behind a descriptor, as the blob walk relies on |
| Cr51ImageTheorems.SameDigestSameImage | subprojects/libcr51sign/src/libcr51sign.c:969-980 | two accepted images at one place with the same signed digest agree in every signed byte and every covered static byte, or exhibit a collision |
| Cr51Validate.NextIsScan | subprojects/libcr51sign/src/libcr51sign.c:1003-1005 | the candidate search is the scan for the descriptor magic at 64 KiB boundaries |
| Cr51Validate.TryCandidate | subprojects/libcr51sign/src/libcr51sign.c:1012-1028 | descriptor checks, then region checks, for one candidate |
| Cr51Validate.ConcludeImage | subprojects/libcr51sign/src/libcr51sign.c:1029-1068 | validation state, MAUV check for production images, translated status |
| Cr51Validate.TryAndGoOn | subprojects/libcr51sign/src/libcr51sign.c:1006-1080 | one round of the loop |
| Cr51Validate.ValidateImage | subprojects/libcr51sign/src/libcr51sign.c:982-1087 | the whole validation, for every call that returns: status, validation state, descriptor, stored MAUV and place are what `ValidateReturns` says; the table handed out is that of the image at this place |
| Cr51Validate.ValidateReturnsOnce | subprojects/libcr51sign/src/libcr51sign.c:982-1087 | a validation returns with one verdict |
| Cr51Validate.BoundedValidateReturns | subprojects/libcr51sign/src/libcr51sign.c:982-1087 | for end offsets up to 0xFFFF0008 it returns, with the verdict of `Validate`, whose meaning `LowestImageIsJudged` gives |
| Cr51Validate.ValidationEnds | subprojects/libcr51sign/src/libcr51sign.c:1006-1080 | it returns on every flash if and only if the end offset is at most 0xFFFF0008 or there is no range to search |
| Cr51SearchTheorems.VerdictIsOwn | subprojects/libcr51sign/src/libcr51sign.c:1012-1023 | neither the context nor an earlier blob offset has a say in the verdict on a candidate, and the blob offset changes only if the candidate leaves one |
| Cr51SearchTheorems.SearchDecides | subprojects/libcr51sign/src/libcr51sign.c:1006-1086 | by induction over the candidates: lowest good one, or first error |
| Cr51SearchTheorems.LowestImageIsJudged | subprojects/libcr51sign/src/libcr51sign.c:982-1087 | the state is valid if and only if a place the scan reaches checks out; then the lowest such place is judged, with the blob offset of the last earlier place that left one; otherwise the status is the first candidate's, or the scan's, and the store is untouched |
| Cr51SearchTheorems.StaleBlobOffset | subprojects/libcr51sign/src/libcr51sign_mauv.c:466-477 | an image without a blob is judged as one without a blob if and only if no blob offset was left behind or the blob magic stands there |
| Cr51SearchTheorems.VerdictDependsOnStaleBlob | subprojects/libcr51sign/src/libcr51sign.c:1038-1062 | the same for the final verdict: the carried offset matters exactly for production images without a blob and without the magic at that offset |
| Cr51Instances.StaleBlobRefuses | subprojects/libcr51sign/src/libcr51sign_mauv.c:33-74 | two flashes that differ in one byte, the blob size of a candidate refused in both: whole validations accept the production image behind it, which has no blob, with the one and refuse it with the other |
| Cr51Mauv.DoesStoredAllow | subprojects/libcr51sign/src/libcr51sign_mauv.c:239-260 | true if and only if the version is not below the minimum and not on the denylist |
| Cr51Mauv.SanityCheck | subprojects/libcr51sign/src/libcr51sign_mauv.c:268-330 | accepts exactly the sane records |
| Cr51Layout.RecordRoundTrip | subprojects/libcr51sign/include/libcr51sign/cr51_image_descriptor.h:342-389 | any record that is written is read back: version, timestamp, what it allows; and it is sane if and only if it is of struct version 1, names a version above 0 that it allows itself, and denies at most 11 versions |
| Cr51Walk.PaddingRoundsUp | subprojects/libcr51sign/src/libcr51sign_mauv.c:162-165 | the mask arithmetic pads an address to a multiple of 4 |
| Cr51Walk.NextHeaderIs | subprojects/libcr51sign/src/libcr51sign_mauv.c:160-165 | for an aligned header, absolute rounding equals relative padding of the payload |
| Cr51Walk.FindMauv | subprojects/libcr51sign/src/libcr51sign_mauv.c:94-175 | the blob walk with its 32-bit and 64-bit arithmetic, for every list on which it ends |
| Cr51Walk.WalkIsFrom | subprojects/libcr51sign/src/libcr51sign_mauv.c:111-168 | for lists that a padded payload cannot lead back to the start of, it ends with the result of the plain recursion |
| Cr51Walk.WalkEndsExactly | subprojects/libcr51sign/src/libcr51sign_mauv.c:111-168 | the walk ends on every flash if and only if the list starts behind its last header or its size is less than 2^32 - 3 plus the padding of its start; for any other list a flash of a few bytes is given on which it never ends |
| Cr51Verdicts.WalkAnswers | subprojects/libcr51sign/src/libcr51sign_mauv.c:111-168 | what a round of the walk does at a header, errors included: readable, payload inside the list, no second MAUV |
| Cr51Verdicts.MauvAnswers | subprojects/libcr51sign/src/libcr51sign_mauv.c:353-397 | every answer of the search for the MAUV, given what the walk comes to: magic, size, read, sanity, each with its error |
| Cr51Mauv.FindAndReadMauv | subprojects/libcr51sign/src/libcr51sign_mauv.c:353-397 | blob magic, walk, size limit, read and sanity check with their errors |
| Cr51Mauv.UpdateStoredMauv | subprojects/libcr51sign/src/libcr51sign_mauv.c:410-435 | stores faithfully or reports that it did not |
| Cr51Mauv.ValidatePayloadMauv | subprojects/libcr51sign/src/libcr51sign_mauv.c:450-569 | status and stored record are those of `CheckMauv`, including a missing retrieve callback; what that means for whole validations is `Cr51StoreTheorems.ValidationComes` |
| Cr51Blobs.MakeBlob | subprojects/libcr51sign/include/libcr51sign/cr51_image_descriptor.h:328-340 | every type and payload has a well-formed blob |
| Cr51Blobs.SerializedIsWritten | subprojects/libcr51sign/include/libcr51sign/cr51_image_descriptor.h:310-327 | a flash that holds the serialization of well-formed blobs holds the list |
| Cr51Blobs.WalkIsScan | subprojects/libcr51sign/src/libcr51sign_mauv.c:111-168 | the walk over the flash visits the headers of the list in order and stops like the list |
| Cr51Blobs.RoundTrip | subprojects/libcr51sign/src/libcr51sign_mauv.c:94-175 | a list cut off after n bytes is refused if and only if the cut falls into a payload behind its header or a second MAUV header lies before it; otherwise the walk returns offset and size of the one MAUV, or none |
| Cr51Blobs.UncutSpoils | subprojects/libcr51sign/include/libcr51sign/cr51_image_descriptor.h:86-91 | an uncut list is refused if and only if it has two MAUVs |
| Cr51Blobs.MauvComesBack | subprojects/libcr51sign/src/libcr51sign_mauv.c:353-397 | the only MAUV of a list comes back byte for byte if it is sane, and is refused otherwise |
| Cr51Blobs.MauvAbsentOrTwice | subprojects/libcr51sign/src/libcr51sign_mauv.c:353-397 | no MAUV: none found; two: refused |
| Cr51Rollback.StepMovesForward | subprojects/libcr51sign/src/libcr51sign_mauv.c:499-568 | one step keeps the store sane, never empties it, and replaces a record only by a strictly newer one the old one allows |
| Cr51Rollback.AcceptedAgainstStored | subprojects/libcr51sign/src/libcr51sign_mauv.c:523-568 | against a stored record: success if and only if the payload has a MAUV, its version is allowed, and a newer one can be stored |
| Cr51Rollback.CheckIsIdempotent | subprojects/libcr51sign/src/libcr51sign_mauv.c:450-569 | an accepted payload checked again succeeds and leaves the store alone |
| Cr51StoreTheorems.ValidationKeepsStore | subprojects/libcr51sign/src/libcr51sign.c:982-1087 | a whole validation moves the store forward only, changes it only to the MAUV in the blob list of the accepted production image, and lets a production image past a stored MAUV only if the sane MAUV in its own blob list is of a version the stored one allows; the accepted image is the lowest that checks out |
| Cr51StoreTheorems.ValidationComes | subprojects/libcr51sign/src/libcr51sign.c:1029-1068 | what a whole validation that finds an image comes to, for every store, stored MAUV and MAUV of the image: an image that is not a production image succeeds without a look at the store; a first MAUV and an allowed newer one are stored, or reported as not stored with the store unchanged; an allowed one that is not newer changes nothing; every refusal has its status and leaves the store alone |
| Cr51StoreTheorems.FirstMauvIsStored | subprojects/libcr51sign/src/libcr51sign_mauv.c:502-515 | a validation of a production image with a sane MAUV of its own, with nothing stored and a store that can be read: success with that MAUV stored if the store callback works, and otherwise the status that says that it was not |
| Cr51StoreTheorems.NewerMauvIsStored | subprojects/libcr51sign/src/libcr51sign_mauv.c:532-568 | the same where a MAUV is stored that is older and allows the version: it is replaced, or the status says that it was not |
| Cr51StoreTheorems.ValidationPassesExactly | subprojects/libcr51sign/src/libcr51sign.c:1038-1062 | against a stored MAUV, and with a working retrieve callback, a validation that finds a production image succeeds if and only if the sane MAUV in its own blob list is of a version the stored one allows and, where it is newer, can be stored |
| Cr51StoreTheorems.StoreOverRuns | subprojects/libcr51sign/src/libcr51sign_mauv.c:499-568 | between any two points of any run of validations the stored MAUV stays sane, is never removed, and if it changed became strictly newer |
| Cr51StoreTheorems.NoRollback | subprojects/libcr51sign/src/libcr51sign_mauv.c:532-557 | after any run that leaves a MAUV stored, the lowest image that checks out gets past the check, if it is a production image, only with a sane MAUV in its own blob list whose version the stored one allows |
| Cr51StoreTheorems.ValidationIsIdempotent | subprojects/libcr51sign/src/libcr51sign.c:1029-1046 | an image that was validated is validated again from any context, and the second time changes nothing |
| NcsiFrames.AckDeterminesCommand | subprojects/ncsid/src/platforms/nemora/portable/ncsi_client.c:275-323 | a frame that validates as ACK does so for one command only, standard or OEM |
| NcsiFrames.CommandIsNoAck | subprojects/ncsid/src/platforms/nemora/portable/ncsi_client.c:84-102 | a command frame echoed back never validates as ACK, for any command and size |
| NcsiFrames.AckMeans | subprojects/ncsid/src/platforms/nemora/portable/ncsi_client.c:275-323 | a frame is accepted as the response to a command if and only if it has the size and packet type of that response, no error codes, and for OEM commands the manufacturer and the subtype |
| NcsiClient.SetHeaderFields | subprojects/ncsid/src/platforms/nemora/portable/ncsi_client.c:84-102 | the header of a command, in place |
| NcsiClient.CmdSimple | subprojects/ncsid/src/platforms/nemora/portable/ncsi_client.c:121-125 | a command without a body, in place |
| NcsiClient.CmdSetMac | subprojects/ncsid/src/platforms/nemora/portable/ncsi_client.c:130-142 | the address filter command, in place; its bytes are those of `NcsiWire.WireFormat` |
| NcsiClient.OemCmd | subprojects/ncsid/src/platforms/nemora/portable/ncsi_client.c:217-273 | the OEM commands with their bodies, in place |
| NcsiWire.WireFormat | subprojects/ncsid/src/platforms/nemora/portable/ncsi_client.c:84-273 | every frame that is sent in any reachable state, byte for byte: Ethernet and NC-SI headers, payload length, payload; the address filter and the host traffic filter carry the address from the host MAC reply, the latter enabled, with port 3959 and no IP address, and only if some channel does not count as hostless; echo carries the pattern; link status is asked of channel 0, the other checks of the channel under test |
| NcsiWire.AnswerMeans | subprojects/ncsid/src/platforms/nemora/portable/ncsi_fsm.c:92-314 | in every reachable state, the round that looks at the answer to an L2 command: which frames are accepted, byte for byte; where each leads; what is learned from it; and otherwise the clear |
| NcsiWire.FilterAnswerMeans | subprojects/ncsid/src/platforms/nemora/portable/ncsi_fsm.c:362-379 | the same for the answer to a host traffic filter |
| NcsiWire.CheckMeans | subprojects/ncsid/src/platforms/nemora/portable/ncsi_fsm.c:511-650 | in every reachable state, the round that looks at the answer to a health check, byte for byte: the pattern came back; the filter is as configured, or none was, or all channels are hostless; the statistics have their size; the link is up; on with the run if and only if so, and otherwise a new run or, without tries left, the clear |
| NcsiWire.QuietRoundMeans | subprojects/ncsid/src/ncsi_state_machine.cpp:351-391 | in every reachable state with no answer to wait for, the next round: the restart delay, the requests of L2 configuration in their order with command and channel, the decision to stop and the end of a stop, the choice between health checks and filters, the start and the end of a test run, a daemon that is off |
| NcsiServer.BuildResponseHeader | subprojects/ncsid/src/platforms/nemora/portable/ncsi_server.c:35-48 | the response header, with request and response possibly the same buffer |
| NcsiServer.BuildSimpleAck | subprojects/ncsid/src/platforms/nemora/portable/ncsi_server.c:50-58 | a plain ACK, also in place |
| NcsiServer.BuildOemAck | subprojects/ncsid/src/platforms/nemora/portable/ncsi_server.c:70-82 | the OEM part of an ACK, also in place |
| NcsiServer.BuildOemSimpleAck | subprojects/ncsid/src/platforms/nemora/portable/ncsi_server.c:106-111 | an OEM ACK without data: same bytes in place as with separate buffers |
| NcsiServer.BuildOemEchoAck | subprojects/ncsid/src/platforms/nemora/portable/ncsi_server.c:113-125 | the echo ACK: same bytes in place, despite the overlapping moves, as with separate buffers |
| NcsiServer.BuildOemGetMacAck | subprojects/ncsid/src/platforms/nemora/portable/ncsi_server.c:96-104 | the host address ACK |
| NcsiServer.BuildOemGetFilterAck | subprojects/ncsid/src/platforms/nemora/portable/ncsi_server.c:127-137 | the filter ACK |
| NcsiServer.BuildStdAck | subprojects/ncsid/src/platforms/nemora/portable/ncsi_server.c:139-176 | the ACKs of standard commands with data |
| NcsiServer.ResponseCodes | subprojects/ncsid/src/platforms/nemora/portable/ncsi_server.c:35-48 | status and reason code stand in a response with the lower byte first, the length with the higher byte first |
| NcsiServer.StdReplyBytes | subprojects/ncsid/src/platforms/nemora/portable/ncsi_server.c:35-48 | an ACK byte by byte: its request with the response bit, the length, no error codes and the payload |
| NcsiServer.OemReplyBytes | subprojects/ncsid/src/platforms/nemora/portable/ncsi_server.c:70-82 | the same for an OEM ACK, with the manufacturer and the rest of the extension header of the request |
| NcsiServer.StdReplyAgrees | subprojects/ncsid/src/platforms/nemora/portable/ncsi_server.c:50-58 | an ACK built for a standard command validates for that command and for no other |
| NcsiServer.OemReplyAgrees | subprojects/ncsid/src/platforms/nemora/portable/ncsi_server.c:70-111 | an ACK built for an OEM command validates for that command and for no other |
| NcsiServer.EchoCarriesPattern | subprojects/ncsid/src/platforms/nemora/portable/ncsi_server.c:113-125 | the echo ACK validates for echo only and carries the pattern of the request |
| NcsiMachine.StateMachine.constructor | subprojects/ncsid/src/ncsi_state_machine.cpp:126-132 | the daemon as constructed |
| NcsiMachine.StateMachine.Reset | subprojects/ncsid/src/ncsi_state_machine.cpp:112-124 | what a reset sets, and that it leaves the retry counter alone |
| NcsiMachine.StateMachine.Fail | subprojects/ncsid/src/platforms/nemora/portable/ncsi_fsm.c:50-56 | a failure clears all three machines at once and is counted |
| NcsiMachine.StateMachine.AwaitClear0 | subprojects/ncsid/src/platforms/nemora/portable/ncsi_fsm.c:96-119 | the answer to the first command, with loopback detection |
| NcsiMachine.StateMachine.AwaitCapabilities | subprojects/ncsid/src/platforms/nemora/portable/ncsi_fsm.c:144-165 | the channel count is taken only if it is 1 or 2 |
| NcsiMachine.StateMachine.PollL2Config | subprojects/ncsid/src/platforms/nemora/portable/ncsi_fsm.c:76-318 | one poll of the L2 machine, in place: the transition table of `L2Spec` |
| NcsiMachine.StateMachine.PollL3L4Config | subprojects/ncsid/src/platforms/nemora/portable/ncsi_fsm.c:337-388 | one poll of the filter configuration |
| NcsiMachine.StateMachine.RetryTest | subprojects/ncsid/src/platforms/nemora/portable/ncsi_fsm.c:414-425 | the retry counter with its 8-bit subtraction |
| NcsiMachine.StateMachine.JudgeTest | subprojects/ncsid/src/platforms/nemora/portable/ncsi_fsm.c:511-650 | the verdict on a test response, whose meaning `NcsiWire.CheckMeans` gives |
| NcsiMachine.StateMachine.StartTest | subprojects/ncsid/src/platforms/nemora/portable/ncsi_fsm.c:395-407 | the next channel to test |
| NcsiMachine.StateMachine.PollTest | subprojects/ncsid/src/platforms/nemora/portable/ncsi_fsm.c:486-667 | one poll of the test machine; its checks mean what `NcsiWire.CheckMeans` says |
| NcsiMachine.StateMachine.ReceiveNcsi | subprojects/ncsid/src/ncsi_state_machine.cpp:308-329 | frames of any length are read over one another until the buffer shows the NC-SI type, or the read times out; a frame too short for a type is judged by what the buffer held before |
| NcsiMachine.ReceivedIsFirst | subprojects/ncsid/src/ncsi_state_machine.cpp:308-329 | a round works on the first outcome that is a timeout or after which the buffer shows the NC-SI type, and leaves the outcomes behind it for later |
| NcsiMachine.StateMachine.Round | subprojects/ncsid/src/ncsi_state_machine.cpp:351-399 | one pass of the scheduler: receives, polls one machine, writes its frame |
| NcsiMachine.StateMachine.RunTestFsm | subprojects/ncsid/src/ncsi_state_machine.cpp:331-342 | a finished test run restarts without its own delay |
| NcsiMachine.StateMachine.Run | subprojects/ncsid/src/ncsi_state_machine.cpp:344-400 | any number of rounds does to the records, and writes, exactly what `RunSpec` says |
| NcsiSafety.StepKeeps | subprojects/ncsid/src/platforms/nemora/portable/ncsi_fsm.c:76-667 | the joint invariant of the three machines, their records and the history of what was sent and answered is kept by every round and every request from outside |
| NcsiSafety.ConstructedIsSafe | subprojects/ncsid/src/ncsi_state_machine.cpp:126-132 | the daemon as constructed satisfies it, whatever the memory holds that construction does not set |
| NcsiTheorems.OneOutstandingCommand | subprojects/ncsid/src/platforms/nemora/portable/ncsi_fsm.c:58-74 | at most one machine awaits an answer, and it is the answer to the command last sent; before L2 is done the others are at their beginning |
| NcsiTheorems.AnswerGoesToSender | subprojects/ncsid/src/ncsi_state_machine.cpp:361-391 | while a command is outstanding the next round polls the machine that sent it, sends nothing, and judges the frame as the answer to that command |
| NcsiTheorems.ChannelSafety | subprojects/ncsid/src/platforms/nemora/portable/ncsi_fsm.c:38-40 | channel 1 is addressed only if the NIC reported two channels |
| NcsiTheorems.StepsLandOnRequests | subprojects/ncsid/src/platforms/nemora/portable/ncsi_fsm.c:135-165 | the channel count is 0 exactly until the capabilities are acknowledged; steps by one or three never land inside a request/response pair |
| NcsiTheorems.ScriptIsFollowed | subprojects/ncsid/src/platforms/nemora/portable/ncsi_fsm.c:84-314 | since the last clear the L2 commands are a prefix of one script fixed by the channel count and by the value of the pending stop in the round that decides about the reset of channel 0 (before it, of both scripts), each sent after the previous acknowledgement |
| NcsiTheorems.SetMacCarriesHostMac | subprojects/ncsid/src/ncsi_state_machine.cpp:139-163 | every address filter command has 38 bytes, the address from the host MAC reply at offset 30, filter number 1, enabled, and payload length 8 |
| NcsiTheorems.HostlessIsEarned | subprojects/ncsid/src/platforms/nemora/portable/ncsi_fsm.c:436-442 | hostless if and only if the latest accepted filter reply of every channel said so |
| NcsiTheorems.ConfiguredIsEarned | subprojects/ncsid/src/platforms/nemora/portable/ncsi_fsm.c:353-379 | configured only if every channel acknowledged its filter since the last clear |
| NcsiRetry.StepCounts | subprojects/ncsid/src/platforms/nemora/portable/ncsi_fsm.c:414-425 | in one step the counter stays, restarts together with the failures counted, or goes up by one (modulo 256) with at most one failure, and then only below its last value |
| NcsiRetry.RetryBudget | subprojects/ncsid/src/platforms/nemora/portable/ncsi_fsm.c:414-425 | in every run the failing test responses since the last clear or finished test run are at most 4 for a counter that starts below 5, and at most 260 minus its start otherwise |
| NcsiRetry.BudgetIsExact | subprojects/ncsid/src/platforms/nemora/portable/ncsi_fsm.c:414-425 | that bound is the least: for every starting value a run against a one-channel NIC reaches it |
| NcsiRetry.LimitHoldsIfCounterIsSet | subprojects/ncsid/src/ncsi_state_machine.cpp:112-124 | every run clears at the fifth failure at the latest if and only if the counter, which a reset does not set, starts below 5 |
| NcsiRetry.RetryUnlessSpent | subprojects/ncsid/src/platforms/nemora/portable/ncsi_fsm.c:414-425 | a retry is granted if and only if the counter is not at its last value |
| NcsiTheorems.LoopbackIsInferred | subprojects/ncsid/src/platforms/nemora/portable/ncsi_fsm.c:96-119 | loopback is inferred if and only if the answer to the first command is that command |
| NcsiTheorems.LoopbackNeverComesUp | subprojects/ncsid/src/platforms/nemora/portable/ncsi_fsm.c:58-74 | on a wire that returns every frame the connection never comes up |
| NcsiTheorems.RunIsExec | subprojects/ncsid/src/ncsi_state_machine.cpp:344-400 | a run of the scheduler is one of the runs the invariants hold for |
| NcsiTheorems.DaemonIsReachable | subprojects/ncsid/src/ncsi_state_machine.cpp:344-400 | every state at a round boundary of the constructed daemon is reachable |
| NcsiNic.ReplyFits | subprojects/ncsid/test/nic_mock.cpp:84-158 | the NIC answers every command with one frame for that command that fits the buffer |
| NcsiClosedLoop.TurnProgresses | subprojects/ncsid/src/ncsi_state_machine.cpp:351-399 | against a cooperative NIC each round takes the daemon one step closer and nothing fails |
| NcsiClosedLoop.ComesUpAndStaysUp | subprojects/ncsid/src/ncsi_state_machine.cpp:344-400 | from a clear, up and configured if and only if the expected number of rounds has passed, for ever after, with an unchanged failure count |
| NcsiClosedLoop.ConstructedComesUp | subprojects/ncsid/src/ncsi_state_machine.cpp:344-400 | the constructed daemon is up after exactly 27 rounds on one channel and 35 on two |
| NcsiClosedLoop.LoopIsRun | subprojects/ncsid/src/ncsi_state_machine.cpp:344-400 | the closed loop is a run of the scheduler fed with the NIC's replies |
| NcsiRecovery.RoundNearer | subprojects/ncsid/src/ncsi_state_machine.cpp:351-399 | with no stop pending and no answer that says hostless, each round lowers a rank, sends the machines back to the start or reaches the configured state |
| NcsiRecovery.FromTheStart | subprojects/ncsid/src/ncsi_state_machine.cpp:344-400 | back at the start the daemon is configured if and only if the bring-up has had its rounds, and for ever after, whatever it had learned before |
| NcsiRecovery.Recovers | subprojects/ncsid/src/ncsi_state_machine.cpp:344-400 | from every reachable state with no stop pending, and with any frame in flight: facing a cooperative NIC the daemon is configured within 3161 rounds if and only if it is switched on or to be restarted |
| NcsiRecovery.SettlesForGood | subprojects/ncsid/src/ncsi_state_machine.cpp:344-400 | and then some round is followed by configured rounds only |
| NcsiWatch.FilterVerdict | subprojects/ncsid/src/platforms/nemora/portable/ncsi_fsm.c:540-579 | a filter check passes if and only if the channel has the address, port and open IP filter that were configured |
| NcsiWatch.WatchDecides | subprojects/ncsid/src/platforms/nemora/portable/ncsi_fsm.c:395-425 | a configured daemon whose NIC cooperates but for its filters clears after exactly the expected rounds, or is configured for ever with an unchanged failure count |
| NcsiWatch.WipeIsNoticed | subprojects/ncsid/src/platforms/nemora/portable/ncsi_fsm.c:395-425 | in every reachable configured state: filters gone from the NIC lead to a clear, within 1280 rounds, if and only if they are gone from every channel, or from the channel checked next while the counter is at its last value |
| NcsiWatch.WipeAfterBringUp | subprojects/ncsid/src/platforms/nemora/portable/ncsi_fsm.c:395-407 | a whole run: bring-up on two channels, then channel 1 loses its filter, and the daemon counts as configured for ever |
| NcsiLink.LinkDecides | subprojects/ncsid/src/platforms/nemora/portable/ncsi_fsm.c:630-650 | in every reachable configured state, with a NIC that cooperates in everything else: the connection is lost within 2304 rounds, and for good, if and only if the link is down, and is configured for ever if and only if it is up |
| NcsiLink.LinkLossClears | subprojects/ncsid/src/platforms/nemora/portable/ncsi_fsm.c:630-650 | with the link down a configured daemon clears within 2304 rounds, whatever else the NIC says, and is never configured again |
| NcsiLink.ComesUpIfLinked | subprojects/ncsid/src/ncsi_state_machine.cpp:344-400 | the constructed daemon, with a NIC that cooperates in everything else, is configured some time if and only if the link is up |
| NcsiLink.RestartHappens | subprojects/ncsid/src/platforms/nemora/portable/ncsi_fsm.c:650-661 | from every reachable state a restart that was asked for brings the daemon back to the start within 3026 rounds, whatever arrives |
| NcsiLink.StopHappens | subprojects/ncsid/src/platforms/nemora/portable/ncsi_fsm.c:179-216 | a stop that is asked for before the channels would be reset takes exactly the expected number of rounds on one and on two channels; then the daemon is off for ever |
| NcsiLink.OnlyStopSwitchesOff | subprojects/ncsid/src/platforms/nemora/portable/ncsi_fsm.c:210-216 | nothing but the end of the script that resets the channels switches the daemon off, and by then all of it was sent |

## Left out

Of the image validator:

- Missing callbacks, except `image_size_valid` and `retrieve_stored_image_mauv_data`: one interface is fixed; an optional predicate that is missing is one that is constantly false.
- The combined `read_and_hash_update` callback: its contract is that of the loop.
- A flash whose contents change between two reads, and a flash of exactly 4 GiB, whose last byte no 32-bit end offset can include.
- Which of the three hash callbacks failed: all give the same error, and the model reports it once.
- The region table handed out when validation fails, and the key index field, which the library never sets.
- Cr51SearchTheorems.LowestImageIsJudged: like the other theorems about whole validations, for end offsets up to 0xFFFF0008, for which every validation returns (`Cr51Validate.ValidationEnds`); beyond them a validation that returns is `Cr51Validate.ValidateReturns`. `size_t` has 64 bits.
- Cr51ImageTheorems.AcceptedIsWellMade: for descriptor areas that hold the fixed prefix; what smaller areas let through is `Cr51SignedPrefix.LayoutCheck`.
- The OpenSSL support code (RSA, SHA, PEM), error strings and prints: foreign calls or no property of weight.

Of the daemon:

- Accumulated pass-through statistics, ping and error counters, `state_that_failed`, error reports and logging: no decision depends on them.
- The `link_up_` and `hostless_` notifications to the network configuration: they are sent when the modelled flags change and are not read back.
- Sockets, BPF filters, D-Bus and the wall-clock delay between rounds: the socket is a queue of outcomes, and a read error counts as a timeout.
- NcsiMachine.StateMachine.Run: models a bounded number of rounds; the unbounded loop is covered by the lemmas for every number.
- The instance identifier in request headers is always 0, as in the code.
- NcsiRecovery.SettlesForGood: gives no bound for the round from which on the daemon is configured.
- Requests to stop or restart from other components: they may come between any two rounds.
- NACK builders and the version and capabilities data of the mock NIC beyond the bytes the daemon reads.

The other programs of the repository (`metrics-ipmi-blobs`, `nemora-postd`, `dhcp-done`, `espi-control`,
the ACPI and GPIO monitors, `ncsid`'s normalisation helpers) are plumbing around input and output, or would
add only easy claims.
