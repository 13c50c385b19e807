/** What the search for an image accepts, and what its verdict depends on. */
module Cr51SearchTheorems {
  import opened Bytes
  import opened Options
  import opened Cr51Format
  import opened Cr51Context
  import opened Cr51Scan
  import opened Cr51Descriptor
  import opened Cr51Regions
  import opened Cr51Mauv
  import opened Cr51Walk
  import opened Cr51Validate

  const BLANK := Descriptor(0, 0, 0, 0, 0, 0, 0, 0, 0, 0, 0, 0)

  /** The verdict on a candidate by itself, and its descriptor. */
  ghost function StatusAt(job: Job, at: u32): Status { CandidateStatus(job, CheckCandidate(job, BLANK, at, 0), at) }

  function DescAt(job: Job, at: u32): Descriptor { CheckCandidate(job, BLANK, at, 0).desc }

  /** The blob offset a candidate leaves behind, 0 if none. */
  function BlobLeft(job: Job, at: u32): u32 { CheckCandidate(job, BLANK, at, 0).blobOffset }

  /** Neither what an earlier candidate left in the context nor its blob offset has a say in the
      verdict on the next. */
  lemma VerdictIsOwn(job: Job, was: Descriptor, at: u32, blobOffset: u32)
    ensures var c := CheckCandidate(job, was, at, blobOffset);
            && CandidateStatus(job, c, at) == StatusAt(job, at)
            && (at < job.end - 8 && job.Bounded() ==> c.blobOffset == if BlobLeft(job, at) != 0 then BlobLeft(job, at) else blobOffset)
            && (StatusAt(job, at) == Success ==>
                  c.desc == DescAt(job, at) && HashSupported(c.desc.hashType)
                  && c.blobOffset == BlobOffset(c.desc, at, blobOffset))
  {
    hide CheckSigned, RegionsVerdict, ParseDescriptor;
  }

  /** A place the scan from `from` on reaches, since everything up to it can be read, and where
      it finds the descriptor magic. */
  ghost predicate Hit(job: Job, from: nat, x: nat) {
    && Probed(x, from, job.end, DESCRIPTOR_ALIGNMENT) && Holds(job.f, DESCRIPTOR_MAGIC, x)
    && forall y: nat :: Probed(y, from, job.end, DESCRIPTOR_ALIGNMENT) && y <= x ==> CanRead(job.f, y, 8)
  }

  ghost predicate Good(job: Job, from: nat, x: nat) { Hit(job, from, x) && StatusAt(job, x) == Success }

  ghost predicate Lowest(job: Job, from: nat, x: nat) {
    Good(job, from, x) && forall y: nat :: y < x ==> !Good(job, from, y)
  }

  ghost predicate Found(job: Job, from: nat, found: Result<u32>) {
    Located(job.f, DESCRIPTOR_MAGIC, from, job.end, DESCRIPTOR_ALIGNMENT, found)
  }

  lemma NextIsFound(job: Job, from: u32)
    requires job.Bounded() && from < job.end && job.end >= 8 && from <= TWO32 - DESCRIPTOR_ALIGNMENT
    ensures Found(job, from, NextCandidate(job, from))
  {
    hide PowerOfTwo, Located, Scan;
    AlignmentIsPowerOfTwo();
    NextIsScan(job, from);
    ScanFinds(job.f, DESCRIPTOR_MAGIC, from, job.end, job.end, DESCRIPTOR_ALIGNMENT, NextCandidate(job, from));
  }

  lemma FoundIsHit(job: Job, from: nat, at: u32)
    requires Found(job, from, Ok(at))
    ensures Hit(job, from, at) && at < job.end - 8
    ensures forall y: nat :: y < at ==> !Hit(job, from, y)
  {
  }

  lemma NothingFound(job: Job, from: nat, e: Status)
    requires Found(job, from, Err(e))
    ensures forall y: nat :: !Hit(job, from, y)
  {
  }

  /** Behind a place that was reached, the same places are reached from there on. */
  lemma HitsBehind(job: Job, from: nat, at: u32)
    requires Hit(job, from, at)
    ensures forall y: nat {:trigger Hit(job, from, y)} {:trigger Hit(job, at + 1, y)} ::
              y > at ==> (Hit(job, from, y) <==> Hit(job, at + 1, y))
    ensures forall y: nat {:trigger Hit(job, at + 1, y)} :: y <= at ==> !Hit(job, at + 1, y)
  {
  }

  /** No place reached before x leaves a blob offset behind. */
  ghost predicate NoneLeaves(job: Job, from: nat, x: nat) {
    forall y: u32 :: y < x && Hit(job, from, y) ==> BlobLeft(job, y) == 0
  }

  /** The blob offset the search carries when it comes to x: that of the last place before x that
      leaves one, or the one it started with. */
  ghost predicate Carried(job: Job, from: nat, x: nat, initial: u32, carried: u32) {
    if NoneLeaves(job, from, x) then carried == initial
    else exists y: u32 :: y < x && Hit(job, from, y) && BlobLeft(job, y) == carried != 0 && NoneLeaves(job, y + 1, x)
  }

  /** The verdict of the search, if it accepts an image at x with a blob offset carried there. */
  ghost predicate AcceptedAt(job: Job, v: Verdict, stored: Option<seq<byte>>, x: u32, carried: u32) {
    && BlobBehind(carried) && HashSupported(DescAt(job, x).hashType)
    && BlobBehind(BlobOffset(DescAt(job, x), x, carried))
    && v == Conclude(job, x, DescAt(job, x), BlobOffset(DescAt(job, x), x, carried), stored)
  }

  ghost predicate AcceptsLowest(job: Job, from: nat, v: Verdict, stored: Option<seq<byte>>, initial: u32) {
    exists x: u32, carried: u32 ::
      Lowest(job, from, x) && Carried(job, from, x, initial, carried) && AcceptedAt(job, v, stored, x, carried)
  }

  ghost predicate SomeGood(job: Job, from: nat) { exists x: nat :: Good(job, from, x) }

  /** What the search has to come to. */
  ghost predicate Decided(job: Job, from: nat, found: Result<u32>, v: Verdict, stored: Option<seq<byte>>, first: Status,
                          initial: u32)
  {
    if SomeGood(job, from) then AcceptsLowest(job, from, v, stored, initial)
    else
      && v.state == Invalid && v.stored == stored && v.place == None
      && v.status == if first != Success then first else if found.Ok? then StatusAt(job, found.value) else found.status
  }

  lemma AcceptNow(job: Job, from: nat, at: u32, was: Descriptor, blobOffset: u32, stored: Option<seq<byte>>, first: Status)
    requires job.Bounded() && Found(job, from, Ok(at)) && Candidate(job, Ok(at)) && BlobBehind(blobOffset)
    requires StatusAt(job, at) == Success
    ensures Decided(job, from, Ok(at), Search(job, Ok(at), was, blobOffset, stored, first), stored, first, blobOffset)
  {
    hide CheckCandidate, CandidateStatus, StatusAt, DescAt, BlobLeft, Conclude, NextCandidate, Found, Hit;
    VerdictIsOwn(job, was, at, blobOffset);
    FoundIsHit(job, from, at);
    BlobStaysBehind(job, was, at, blobOffset);
    assert Lowest(job, from, at);
    assert Carried(job, from, at, blobOffset, blobOffset);
    assert AcceptedAt(job, Search(job, Ok(at), was, blobOffset, stored, first), stored, at, blobOffset);
  }

  lemma GoodBehind(job: Job, from: nat, at: u32)
    requires Found(job, from, Ok(at)) && StatusAt(job, at) != Success
    ensures forall y: nat {:trigger Good(job, from, y)} {:trigger Good(job, at + 1, y)} ::
              Good(job, from, y) <==> Good(job, at + 1, y)
    ensures forall y: nat {:trigger Lowest(job, at + 1, y)} :: Lowest(job, at + 1, y) ==> Lowest(job, from, y)
  {
    hide StatusAt, Found, Hit;
    FoundIsHit(job, from, at);
    HitsBehind(job, from, at);
    forall y: nat ensures Good(job, from, y) <==> Good(job, at + 1, y) {
      if y <= at {
        assert !Hit(job, at + 1, y);
      } else {
        assert Hit(job, from, y) <==> Hit(job, at + 1, y);
      }
    }
  }

  lemma CarriedBehind(job: Job, from: nat, at: u32, x: nat, initial: u32, carried: u32)
    requires Found(job, from, Ok(at)) && x > at
    requires Carried(job, at + 1, x, if BlobLeft(job, at) != 0 then BlobLeft(job, at) else initial, carried)
    ensures Carried(job, from, x, initial, carried)
  {
    hide BlobLeft, Found, Hit;
    FoundIsHit(job, from, at);
    HitsBehind(job, from, at);
    if NoneLeaves(job, at + 1, x) {
      if BlobLeft(job, at) != 0 {
        assert !NoneLeaves(job, from, x);
      } else {
        forall y: u32 | y < x && Hit(job, from, y) ensures BlobLeft(job, y) == 0 {
          if y > at {
            assert Hit(job, at + 1, y);
          }
        }
      }
    } else {
      var y: u32 :| y < x && Hit(job, at + 1, y) && BlobLeft(job, y) == carried != 0 && NoneLeaves(job, y + 1, x);
      assert Hit(job, from, y);
      assert !NoneLeaves(job, from, x);
    }
  }

  lemma AcceptsBehind(job: Job, from: nat, at: u32, v: Verdict, stored: Option<seq<byte>>, initial: u32, next: u32)
    requires Found(job, from, Ok(at)) && StatusAt(job, at) != Success
    requires next == if BlobLeft(job, at) != 0 then BlobLeft(job, at) else initial
    ensures SomeGood(job, from) <==> SomeGood(job, at + 1)
    ensures AcceptsLowest(job, at + 1, v, stored, next) ==> AcceptsLowest(job, from, v, stored, initial)
  {
    hide StatusAt, BlobLeft, Found, AcceptedAt, Hit, Carried;
    GoodBehind(job, from, at);
    HitsBehindOnly(job, from, at);
    if AcceptsLowest(job, at + 1, v, stored, next) {
      var x: u32, carried: u32 :|
        Lowest(job, at + 1, x) && Carried(job, at + 1, x, next, carried) && AcceptedAt(job, v, stored, x, carried);
      CarriedBehind(job, from, at, x, initial, carried);
    }
  }

  lemma HitsBehindOnly(job: Job, from: nat, at: u32)
    ensures forall y: nat {:trigger Hit(job, at + 1, y)} :: Hit(job, at + 1, y) ==> y > at
  {
  }

  lemma DecidedBehind(job: Job, from: nat, at: u32, next: Result<u32>, v: Verdict, stored: Option<seq<byte>>, first: Status,
                      now: Status, initial: u32, blobOffset: u32)
    requires Found(job, from, Ok(at)) && StatusAt(job, at) != Success
    requires now == if first == Success then StatusAt(job, at) else first
    requires blobOffset == if BlobLeft(job, at) != 0 then BlobLeft(job, at) else initial
    requires Decided(job, at + 1, next, v, stored, now, blobOffset)
    ensures Decided(job, from, Ok(at), v, stored, first, initial)
  {
    hide StatusAt, BlobLeft, Found, AcceptsLowest, SomeGood;
    AcceptsBehind(job, from, at, v, stored, initial, blobOffset);
  }

  lemma NothingDecided(job: Job, from: nat, e: Status, v: Verdict, stored: Option<seq<byte>>, first: Status, initial: u32)
    requires Found(job, from, Err(e))
    requires v.state == Invalid && v.stored == stored && v.place == None && v.status == if first != Success then first else e
    ensures Decided(job, from, Err(e), v, stored, first, initial)
  {
    hide StatusAt, Found, Hit;
    NothingFound(job, from, e);
  }

  /** The search accepts the lowest place it reaches whose descriptor and regions check out; if
      there is none, its verdict is the first candidate's, or else what ended the scan. */
  lemma {:induction false} SearchDecides(job: Job, from: nat, found: Result<u32>, was: Descriptor, blobOffset: u32,
                                         stored: Option<seq<byte>>, first: Status)
    requires job.Bounded() && Found(job, from, found) && Candidate(job, found) && BlobBehind(blobOffset)
    ensures Decided(job, from, found, Search(job, found, was, blobOffset, stored, first), stored, first, blobOffset)
    decreases Left(job, found)
  {
    hide CheckCandidate, CandidateStatus, StatusAt, DescAt, BlobLeft, Conclude, NextCandidate, Found, Hit, Decided;
    match found {
      case Err(e) =>
        NothingDecided(job, from, e, Search(job, found, was, blobOffset, stored, first), stored, first, blobOffset);
      case Ok(at) =>
        BlobStaysBehind(job, was, at, blobOffset);
        VerdictIsOwn(job, was, at, blobOffset);
        if StatusAt(job, at) == Success {
          AcceptNow(job, from, at, was, blobOffset, stored, first);
        } else {
          NextIsBehind(job, at + 1);
          NextIsFound(job, at + 1);
          var c, next := CheckCandidate(job, was, at, blobOffset), NextCandidate(job, at + 1);
          var now := if first == Success then StatusAt(job, at) else first;
          SearchDecides(job, at + 1, next, c.desc, c.blobOffset, stored, now);
          var v := Search(job, next, c.desc, c.blobOffset, stored, now);
          DecidedBehind(job, from, at, next, v, stored, first, now, blobOffset, c.blobOffset);
        }
    }
  }

  /** Validation marks the image valid exactly if some place the scan reaches has a descriptor and
      regions that check out, and then it judges the lowest such place; otherwise the store is
      left alone and the status is the first candidate's, or what ended the scan without any. */
  lemma LowestImageIsJudged(job: Job, was: Descriptor, stored: Option<seq<byte>>)
    requires job.Bounded() && job.start < job.end && job.end >= 8 && job.start <= TWO32 - DESCRIPTOR_ALIGNMENT
    ensures var v, found := Validate(job, was, stored), NextCandidate(job, job.start);
            && (v.state == Valid <==> SomeGood(job, job.start))
            && (v.state == Valid ==> AcceptsLowest(job, job.start, v, stored, 0))
            && (v.state != Valid ==>
                  && v.state == Invalid && v.stored == stored && v.place == None
                  && v.status == if found.Ok? then StatusAt(job, found.value) else found.status)
  {
    hide StatusAt, SomeGood, NextCandidate, Found;
    NextIsBehind(job, job.start);
    NextIsFound(job, job.start);
    SearchDecides(job, job.start, NextCandidate(job, job.start), was, 0, stored, Success);
  }

  // ----- The blob offset an earlier candidate left behind -----

  lemma NoBlobNoWalk(f: Flash, carried: u32)
    requires carried >= BLOB_SIZE && BlobMagicAt(f, carried)
    ensures MauvOf(f, carried, 0) == Ok(None)
  {
    WalkableEnds(f, carried + BLOB_SIZE, 0);
  }

  /** For an image without a blob the MAUV check is to find none. With the offset of another
      candidate's blob it does exactly if the blob magic stands there. */
  lemma StaleBlobOffset(f: Flash, store: Store, stored: Option<seq<byte>>, carried: u32)
    requires carried >= BLOB_SIZE
    ensures CheckMauv(f, store, stored, carried, 0) == CheckMauv(f, store, stored, 0, 0) <==> BlobMagicAt(f, carried)
  {
    if BlobMagicAt(f, carried) {
      NoBlobNoWalk(f, carried);
    }
  }

  /** The verdict on an accepted image is its own, whatever offset was left behind, exactly if it
      is not a production image, has a blob, or the blob magic stands at that offset. */
  lemma VerdictDependsOnStaleBlob(job: Job, desc: Descriptor, x: u32, carried: u32, stored: Option<seq<byte>>)
    requires HashSupported(desc.hashType) && BlobBehind(carried)
    requires BlobBehind(BlobOffset(desc, x, carried)) && BlobBehind(BlobOffset(desc, x, 0))
    ensures Conclude(job, x, desc, BlobOffset(desc, x, carried), stored) == Conclude(job, x, desc, BlobOffset(desc, x, 0), stored)
            <==> desc.imageType != IMAGE_PROD || desc.blobSize > 0 || carried == 0 || BlobMagicAt(job.f, carried)
  {
    hide CheckMauv;
    if desc.imageType == IMAGE_PROD && desc.blobSize == 0 && carried != 0 {
      StaleBlobOffset(job.f, job.store, stored, carried);
      if !BlobMagicAt(job.f, carried) {
        MauvStatusIsKept(job, stored, carried);
      }
    }
  }

  /** The translation of the one MAUV status does not hide a difference. */
  lemma MauvStatusIsKept(job: Job, stored: Option<seq<byte>>, carried: u32)
    requires carried >= BLOB_SIZE && !BlobMagicAt(job.f, carried)
    ensures CheckMauv(job.f, job.store, stored, carried, 0).status in {RuntimeFailure, InvalidDescriptor}
    ensures CheckMauv(job.f, job.store, stored, 0, 0).status !in {RuntimeFailure, InvalidDescriptor, StoringNewMauv}
  {
  }
}
