/** The stored MAUV over whole runs of validations. */
module Cr51StoreTheorems {
  import opened Bytes
  import opened Options
  import opened Cr51Format
  import opened Cr51Context
  import opened Cr51Descriptor
  import opened Cr51Mauv
  import opened Cr51Walk
  import opened Cr51Regions
  import opened Cr51Rollback
  import opened Cr51SearchTheorems
  import opened Cr51Validate

  /** One validation, of any flash with any outcome of the callbacks, from whatever descriptor the
      context holds. */
  datatype Run = Run(job: Job, was: Descriptor)

  ghost predicate AllBounded(runs: seq<Run>) { forall i :: 0 <= i < |runs| ==> runs[i].job.Bounded() }

  /** The stored MAUV after the runs. */
  ghost function After(stored: Option<seq<byte>>, runs: seq<Run>): Option<seq<byte>>
    requires AllBounded(runs)
  {
    if runs == [] then stored
    else
      var last := runs[|runs| - 1];
      Validate(last.job, last.was, After(stored, runs[..|runs| - 1])).stored
  }

  /** The image got past the MAUV check: accepted, or accepted but for the writing back. */
  predicate Passed(v: Verdict) { v.state == Valid && v.status in {Success, ValidButMauvNotStored} }

  /** The accepted image has a blob list of its own, and its MAUV is `own`. */
  ghost predicate Carries(job: Job, v: Verdict, own: seq<byte>) {
    && v.place.Some? && v.desc == DescAt(job, v.place.value) && v.desc.blobSize > 0 && HashSupported(v.desc.hashType)
    && var blobOffset := BlobOffset(v.desc, v.place.value, 0);
       BlobBehind(blobOffset) && PayloadMauv(job.f, blobOffset, v.desc.blobSize) == Ok(Some(own)) && Sane(own)
  }

  ghost predicate CarriesAllowed(job: Job, v: Verdict, m: seq<byte>)
    requires WellSized(m)
  {
    exists own: seq<byte> :: Carries(job, v, own) && Allows(m, PayloadVersion(own))
  }

  /** What a validation does to a sane store: it moves forward, and to the MAUV of the accepted
      image only; and against a stored MAUV a production image passes only with an allowed one. */
  ghost predicate StoreKept(job: Job, v: Verdict, stored: Option<seq<byte>>)
    requires SaneStore(stored)
  {
    && Forward(stored, v.stored)
    && (v.stored != stored ==>
          && v.state == Valid && v.status == Success && v.desc.imageType == IMAGE_PROD
          && v.stored.Some? && Carries(job, v, v.stored.value))
    && (stored.Some? && job.store.present && v.desc.imageType == IMAGE_PROD && Passed(v) ==> CarriesAllowed(job, v, stored.value))
  }

  /** Only a payload with an allowed MAUV passes a stored one. */
  lemma StepPasses(store: Store, stored: Option<seq<byte>>, payload: Option<seq<byte>>)
    requires SaneStore(stored) && (payload.Some? ==> Sane(payload.value))
    ensures stored.Some? && store.present && StepStored(store, stored, payload).status in {Success, StoringNewMauv} ==>
              payload.Some? && Allows(stored.value, PayloadVersion(payload.value))
  {
  }

  /** Without a blob of its own an image has no MAUV, whatever offset is left behind. */
  lemma NoBlobNoMauv(f: Flash, blobOffset: u32)
    requires BlobBehind(blobOffset)
    ensures PayloadMauv(f, blobOffset, 0).Ok? ==> PayloadMauv(f, blobOffset, 0).value == None
  {
    if blobOffset != 0 && BlobMagicAt(f, blobOffset) {
      WalkableEnds(f, blobOffset + BLOB_SIZE, 0);
    }
  }

  lemma ConclusionKeepsStore(job: Job, at: u32, desc: Descriptor, carried: u32, blobOffset: u32, stored: Option<seq<byte>>)
    requires HashSupported(desc.hashType) && blobOffset == BlobOffset(desc, at, carried) && desc == DescAt(job, at)
    requires BlobBehind(blobOffset) && SaneStore(stored)
    ensures StoreKept(job, Conclude(job, at, desc, blobOffset, stored), stored)
  {
    hide MauvOf, Allows, PayloadMauv, Sane, FixedPrefix, DescAt;
    var payload := PayloadMauv(job.f, blobOffset, desc.blobSize);
    var v := Conclude(job, at, desc, blobOffset, stored);
    if payload.Ok? {
      StepMovesForward(job.store, stored, payload.value);
      StepPasses(job.store, stored, payload.value);
      if desc.blobSize == 0 {
        NoBlobNoMauv(job.f, blobOffset);
      } else if payload.value.Some? {
        assert Carries(job, v, payload.value.value);
      }
    }
  }

  lemma RefusalKeepsStore(job: Job, v: Verdict, stored: Option<seq<byte>>)
    requires SaneStore(stored) && v.state == Invalid && v.stored == stored
    ensures StoreKept(job, v, stored)
  {
    hide Sane, Allows;
  }

  lemma {:induction false} SearchKeepsStore(job: Job, found: Result<u32>, was: Descriptor, blobOffset: u32,
                                            stored: Option<seq<byte>>, first: Status)
    requires job.Bounded() && Candidate(job, found) && BlobBehind(blobOffset) && SaneStore(stored)
    ensures StoreKept(job, Search(job, found, was, blobOffset, stored, first), stored)
    decreases Left(job, found)
  {
    hide CheckCandidate, CandidateStatus, StatusAt, DescAt, BlobLeft, Conclude, NextCandidate, StoreKept;
    if found.Err? {
      RefusalKeepsStore(job, Search(job, found, was, blobOffset, stored, first), stored);
    } else {
      var at := found.value;
      var c := CheckCandidate(job, was, at, blobOffset);
      var r := CandidateStatus(job, c, at);
      BlobStaysBehind(job, was, at, blobOffset);
      NextIsBehind(job, at + 1);
      if r == Success {
        VerdictIsOwn(job, was, at, blobOffset);
        ConclusionKeepsStore(job, at, c.desc, blobOffset, c.blobOffset, stored);
      } else {
        SearchKeepsStore(job, NextCandidate(job, at + 1), c.desc, c.blobOffset, stored, if first == Success then r else first);
      }
    }
  }

  /** A search whose range has no room for a descriptor accepts nothing. */
  lemma {:induction false} NoRoomNoImage(job: Job, found: Result<u32>, was: Descriptor, blobOffset: u32,
                                         stored: Option<seq<byte>>, first: Status)
    requires job.Bounded() && Candidate(job, found) && BlobBehind(blobOffset) && job.MaxSize() < DESCRIPTOR_SIZE
    ensures Search(job, found, was, blobOffset, stored, first).state == Invalid
    decreases Left(job, found)
  {
    hide CheckHeader, CheckSigned, RegionsVerdict, ParseDescriptor, NextCandidate, Conclude;
    if found.Ok? {
      var at := found.value;
      var c := CheckCandidate(job, was, at, blobOffset);
      BlobStaysBehind(job, was, at, blobOffset);
      NextIsBehind(job, at + 1);
      NoRoomNoImage(job, NextCandidate(job, at + 1), c.desc, c.blobOffset, stored,
                    if first == Success then CandidateStatus(job, c, at) else first);
    }
  }

  /** Whatever the offsets, an image that is marked valid is the lowest one that checks out. */
  lemma JudgedIsLowest(job: Job, was: Descriptor, stored: Option<seq<byte>>)
    requires job.Bounded() && Validate(job, was, stored).state == Valid
    ensures var v := Validate(job, was, stored); v.place.Some? && Lowest(job, job.start, v.place.value)
  {
    hide Lowest, SomeGood, Carried, DescAt, StatusAt, Search;
    NextIsBehind(job, job.start);
    if job.start < job.end && job.end >= 8 {
      if job.start <= TWO32 - DESCRIPTOR_ALIGNMENT {
        LowestImageIsJudged(job, was, stored);
      } else {
        NoRoomNoImage(job, NextCandidate(job, job.start), was, 0, stored, Success);
      }
    } else {
      NothingToSearch(job, was, stored);
    }
  }

  lemma NothingToSearch(job: Job, was: Descriptor, stored: Option<seq<byte>>)
    requires job.Bounded() && (job.end <= job.start || job.end < 8)
    ensures Validate(job, was, stored).state == Invalid
  {
  }

  /** A validation leaves a sane store sane, never empties it, and replaces a stored MAUV only by
      a strictly newer one, that of the accepted image, whose version the old one allows; and while
      one is stored, a production image gets past the check only if the MAUV in its own blob list is
      sane and of a version the stored one allows. The accepted image is the lowest that checks
      out. */
  lemma ValidationKeepsStore(job: Job, was: Descriptor, stored: Option<seq<byte>>)
    requires job.Bounded() && SaneStore(stored)
    ensures var v := Validate(job, was, stored);
            StoreKept(job, v, stored) && (v.state == Valid ==> v.place.Some? && Lowest(job, job.start, v.place.value))
  {
    hide Search, NextCandidate, StoreKept, Lowest;
    NextIsBehind(job, job.start);
    SearchKeepsStore(job, NextCandidate(job, job.start), was, 0, stored, Success);
    if Validate(job, was, stored).state == Valid {
      JudgedIsLowest(job, was, stored);
    }
  }

  /** The MAUV of the accepted image is allowed, and can be stored if it is newer. */
  ghost predicate CarriesStorable(job: Job, v: Verdict, m: seq<byte>)
    requires Sane(m)
  {
    exists own: seq<byte> ::
      Carries(job, v, own) && Allows(m, PayloadVersion(own)) && (Timestamp(own) > Timestamp(m) ==> job.store.stores)
  }

  ghost predicate PassesExactly(job: Job, v: Verdict, m: seq<byte>)
    requires Sane(m)
  {
    v.state == Valid && v.desc.imageType == IMAGE_PROD ==> (v.status == Success <==> CarriesStorable(job, v, m))
  }

  lemma ConclusionPasses(job: Job, at: u32, desc: Descriptor, carried: u32, blobOffset: u32, m: seq<byte>)
    requires HashSupported(desc.hashType) && blobOffset == BlobOffset(desc, at, carried) && desc == DescAt(job, at)
    requires BlobBehind(blobOffset) && Sane(m) && job.store.present && job.store.retrieves
    ensures PassesExactly(job, Conclude(job, at, desc, blobOffset, Some(m)), m)
  {
    hide MauvOf, Allows, PayloadMauv, Sane, FixedPrefix, DescAt, StepStored;
    var payload := PayloadMauv(job.f, blobOffset, desc.blobSize);
    var v := Conclude(job, at, desc, blobOffset, Some(m));
    if payload.Ok? {
      AcceptedAgainstStored(job.store, m, payload.value);
      StepIsNoTranslation(job.store, m, payload.value);
      if desc.blobSize == 0 {
        NoBlobNoMauv(job.f, blobOffset);
      } else if payload.value.Some? {
        assert Carries(job, v, payload.value.value);
      }
    }
  }

  lemma StepIsNoTranslation(store: Store, m: seq<byte>, payload: Option<seq<byte>>)
    requires payload.Some? ==> Sane(payload.value)
    ensures StepStored(store, Some(m), payload).status != ValidButMauvNotStored
  {
  }

  lemma {:induction false} SearchPasses(job: Job, found: Result<u32>, was: Descriptor, blobOffset: u32, m: seq<byte>, first: Status)
    requires job.Bounded() && Candidate(job, found) && BlobBehind(blobOffset)
    requires Sane(m) && job.store.present && job.store.retrieves
    ensures PassesExactly(job, Search(job, found, was, blobOffset, Some(m), first), m)
    decreases Left(job, found)
  {
    hide CheckCandidate, CandidateStatus, StatusAt, DescAt, BlobLeft, Conclude, NextCandidate, CarriesStorable, Sane;
    if found.Ok? {
      var at := found.value;
      var c := CheckCandidate(job, was, at, blobOffset);
      var r := CandidateStatus(job, c, at);
      BlobStaysBehind(job, was, at, blobOffset);
      NextIsBehind(job, at + 1);
      if r == Success {
        VerdictIsOwn(job, was, at, blobOffset);
        ConclusionPasses(job, at, c.desc, blobOffset, c.blobOffset, m);
      } else {
        SearchPasses(job, NextCandidate(job, at + 1), c.desc, c.blobOffset, m, if first == Success then r else first);
      }
    }
  }

  /** Against a stored MAUV, and with a working retrieve callback, a validation that finds a
      production image succeeds exactly if the sane MAUV in the image's own blob list is of a version
      the stored one allows and, where it is newer, can be stored. */
  lemma ValidationPassesExactly(job: Job, was: Descriptor, m: seq<byte>)
    requires job.Bounded() && Sane(m) && job.store.present && job.store.retrieves
    ensures PassesExactly(job, Validate(job, was, Some(m)), m)
  {
    hide Search, NextCandidate, PassesExactly;
    NextIsBehind(job, job.start);
    SearchPasses(job, NextCandidate(job, job.start), was, 0, m, Success);
  }

  // ----- The outcome, case by case -----

  /** What becomes of the store, and the status, for an accepted production image whose own blob list
      carries the MAUV `own`. */
  ghost predicate Settled(store: Store, stored: Option<seq<byte>>, own: seq<byte>, v: Verdict)
    requires Sane(own)
  {
    if !store.present then v.status == InvalidInterface && v.stored == stored
    else if !store.retrieves then v.status == RetrievingStoredMauv && v.stored == stored
    else if stored.Some? && !Sane(stored.value) then v.status == InvalidMauv && v.stored == stored
    else if stored.Some? && !Allows(stored.value, PayloadVersion(own)) then v.status == StoredMauvForbids && v.stored == stored
    else if stored.Some? && Timestamp(own) <= Timestamp(stored.value) then v.status == Success && v.stored == stored
    else if store.stores then v.status == Success && v.stored == Some(own)
    else v.status == ValidButMauvNotStored && v.stored == stored
  }

  /** The same for one whose own blob list carries none. */
  ghost predicate SettledWithout(store: Store, stored: Option<seq<byte>>, v: Verdict) {
    && v.stored == stored
    && v.status == if !store.present then Success
                   else if !store.retrieves then RetrievingStoredMauv
                   else if stored.None? then Success
                   else if !Sane(stored.value) then InvalidMauv
                   else StoredMauvExpectsMauv
  }

  /** The accepted image has a blob list of its own, which comes to `found`. */
  ghost predicate Lists(job: Job, v: Verdict, found: Result<Option<seq<byte>>>) {
    && v.place.Some? && v.desc == DescAt(job, v.place.value) && v.desc.blobSize > 0 && HashSupported(v.desc.hashType)
    && var blobOffset := BlobOffset(v.desc, v.place.value, 0);
       BlobBehind(blobOffset) && PayloadMauv(job.f, blobOffset, v.desc.blobSize) == found
  }

  ghost predicate SettledAs(job: Job, stored: Option<seq<byte>>, found: Result<Option<seq<byte>>>, v: Verdict)
    requires found.Ok? && found.value.Some? ==> Sane(found.value.value)
  {
    match found
    case Err(e) => v.status == e && v.stored == stored
    case Ok(None) => SettledWithout(job.store, stored, v)
    case Ok(Some(own)) => Settled(job.store, stored, own, v)
  }

  /** An accepted image that is not a production image succeeds and leaves the store alone; for a
      production image with a blob list, status and store are settled by what the list comes to; one
      without is settled as such, but for the two errors an offset left behind can cause. */
  ghost predicate Comes(job: Job, stored: Option<seq<byte>>, v: Verdict) {
    v.state == Valid ==>
      && (v.desc.imageType != 1 ==> v.status == Success && v.stored == stored)
      && (v.desc.imageType == 1 && v.desc.blobSize > 0 ==>
            exists found: Result<Option<seq<byte>>> ::
              && Lists(job, v, found) && (found.Ok? && found.value.Some? ==> Sane(found.value.value))
              && SettledAs(job, stored, found, v))
      && (v.desc.imageType == 1 && v.desc.blobSize == 0 ==>
            SettledWithout(job.store, stored, v) || (v.stored == stored && v.status in {RuntimeFailure, InvalidDescriptor}))
  }

  lemma SaneFits(m: seq<byte>)
    requires Sane(m)
    ensures |m| <= MAUV_MAX_SIZE
  {
  }

  lemma ListSettles(job: Job, at: u32, desc: Descriptor, blobOffset: u32, stored: Option<seq<byte>>,
                    found: Result<Option<seq<byte>>>)
    requires BlobBehind(blobOffset) && PayloadMauv(job.f, blobOffset, desc.blobSize) == found && desc.imageType == IMAGE_PROD
    ensures SettledAs(job, stored, found, Conclude(job, at, desc, blobOffset, stored))
  {
    hide MauvOf, Allows, PayloadMauv, Sane;
    if stored.Some? && Sane(stored.value) {
      SaneFits(stored.value);
    }
  }

  lemma NoListFinds(f: Flash, blobOffset: u32)
    requires BlobBehind(blobOffset)
    ensures PayloadMauv(f, blobOffset, 0) in {Ok(None), Err(RuntimeFailure), Err(InvalidDescriptor)}
  {
    if blobOffset != 0 && BlobMagicAt(f, blobOffset) {
      NoBlobNoWalk(f, blobOffset);
    }
  }

  lemma NoListSettles(store: Store, stored: Option<seq<byte>>, found: Result<Option<seq<byte>>>, v: Verdict, job: Job)
    requires found in {Ok(None), Err(RuntimeFailure), Err(InvalidDescriptor)} && store == job.store && SettledAs(job, stored, found, v)
    ensures SettledWithout(store, stored, v) || (v.stored == stored && v.status in {RuntimeFailure, InvalidDescriptor})
  {
  }

  lemma ConclusionComes(job: Job, at: u32, desc: Descriptor, carried: u32, blobOffset: u32, stored: Option<seq<byte>>)
    requires HashSupported(desc.hashType) && blobOffset == BlobOffset(desc, at, carried) && desc == DescAt(job, at)
    requires BlobBehind(blobOffset)
    ensures Comes(job, stored, Conclude(job, at, desc, blobOffset, stored))
  {
    hide MauvOf, Allows, PayloadMauv, Sane, FixedPrefix, DescAt, CheckMauv, SettledAs;
    if desc.imageType == IMAGE_PROD {
      var found := PayloadMauv(job.f, blobOffset, desc.blobSize);
      var v := Conclude(job, at, desc, blobOffset, stored);
      ListSettles(job, at, desc, blobOffset, stored, found);
      if desc.blobSize > 0 {
        assert Lists(job, v, found);
      } else {
        NoListFinds(job.f, blobOffset);
        NoListSettles(job.store, stored, found, v, job);
      }
    }
  }

  lemma {:induction false} SearchComes(job: Job, found: Result<u32>, was: Descriptor, blobOffset: u32,
                                       stored: Option<seq<byte>>, first: Status)
    requires job.Bounded() && Candidate(job, found) && BlobBehind(blobOffset)
    ensures Comes(job, stored, Search(job, found, was, blobOffset, stored, first))
    decreases Left(job, found)
  {
    hide CheckCandidate, CandidateStatus, StatusAt, DescAt, BlobLeft, Conclude, NextCandidate, Lists, SettledAs;
    if found.Ok? {
      var at := found.value;
      var c := CheckCandidate(job, was, at, blobOffset);
      var r := CandidateStatus(job, c, at);
      BlobStaysBehind(job, was, at, blobOffset);
      NextIsBehind(job, at + 1);
      if r == Success {
        VerdictIsOwn(job, was, at, blobOffset);
        ConclusionComes(job, at, c.desc, blobOffset, c.blobOffset, stored);
      } else {
        SearchComes(job, NextCandidate(job, at + 1), c.desc, c.blobOffset, stored, if first == Success then r else first);
      }
    }
  }

  /** Whole validations, whatever is stored and whichever callbacks work: the first MAUV of a
      production image is stored, a newer one replaces an older one that allows it, and every other
      case has the status its cause asks for and leaves the store as it was. */
  lemma ValidationComes(job: Job, was: Descriptor, stored: Option<seq<byte>>)
    requires job.Bounded()
    ensures Comes(job, stored, Validate(job, was, stored))
  {
    hide Search, NextCandidate, Comes;
    NextIsBehind(job, job.start);
    SearchComes(job, NextCandidate(job, job.start), was, 0, stored, Success);
  }

  /** In particular, for a production image with a sane MAUV of its own and a store that can be read:
      where nothing was stored its MAUV is, and rollback protection has begun; or the status says that
      it is not. */
  lemma FirstMauvIsStored(job: Job, was: Descriptor, own: seq<byte>)
    requires job.Bounded() && job.store.present && job.store.retrieves
    requires var v := Validate(job, was, None); v.state == Valid && v.desc.imageType == 1 && Carries(job, v, own)
    ensures var v := Validate(job, was, None);
            if job.store.stores then v.status == Success && v.stored == Some(own)
            else v.status == ValidButMauvNotStored && v.stored == None
  {
    hide Validate, DescAt, PayloadMauv;
    ValidationComes(job, was, None);
  }

  /** And where a MAUV was stored that allows it and is older, it is replaced. */
  lemma NewerMauvIsStored(job: Job, was: Descriptor, m: seq<byte>, own: seq<byte>)
    requires job.Bounded() && job.store.present && job.store.retrieves && Sane(m)
    requires var v := Validate(job, was, Some(m)); v.state == Valid && v.desc.imageType == 1 && Carries(job, v, own)
    requires Sane(own) && Allows(m, PayloadVersion(own)) && Timestamp(own) > Timestamp(m)
    ensures var v := Validate(job, was, Some(m));
            if job.store.stores then v.status == Success && v.stored == Some(own)
            else v.status == ValidButMauvNotStored && v.stored == Some(m)
  {
    hide Validate, DescAt, PayloadMauv, Allows;
    ValidationComes(job, was, Some(m));
  }

  lemma {:induction false} RunsSplit(stored: Option<seq<byte>>, runs: seq<Run>, i: nat)
    requires AllBounded(runs) && i <= |runs|
    ensures After(stored, runs) == After(After(stored, runs[..i]), runs[i..])
  {
    hide Validate;
    if i == |runs| {
      assert runs[..i] == runs;
    } else {
      var n := |runs| - 1;
      RunsSplit(stored, runs[..n], i);
      assert runs[..n][..i] == runs[..i] && runs[..n][i..] == runs[i..][..n - i];
    }
  }

  lemma {:induction false} RunsMoveOn(stored: Option<seq<byte>>, runs: seq<Run>)
    requires AllBounded(runs) && SaneStore(stored)
    ensures Newer(stored, After(stored, runs))
  {
    hide Validate, Sane, Allows;
    if runs != [] {
      var n := |runs| - 1;
      RunsMoveOn(stored, runs[..n]);
      var before := After(stored, runs[..n]);
      ValidationKeepsStore(runs[n].job, runs[n].was, before);
      ForwardComposes(stored, before, After(stored, runs));
    }
  }

  /** The stored MAUV over any run, from an empty or sane store and with callbacks that may fail
      at any time: between any two points it stays sane, is never removed, and if it changed it
      became strictly newer. */
  lemma StoreOverRuns(stored: Option<seq<byte>>, runs: seq<Run>, i: nat, j: nat)
    requires AllBounded(runs) && SaneStore(stored) && i <= j <= |runs|
    ensures Newer(After(stored, runs[..i]), After(stored, runs[..j]))
  {
    hide Validate, Sane;
    RunsMoveOn(stored, runs[..i]);
    RunsSplit(stored, runs[..j], i);
    assert runs[..j][..i] == runs[..i];
    RunsMoveOn(After(stored, runs[..i]), runs[..j][i..]);
  }

  /** After any run that leaves a MAUV stored, the lowest image that checks out is let through only
      if it is not a production image, or if its own MAUV is of a version the stored one allows. */
  lemma NoRollback(stored: Option<seq<byte>>, runs: seq<Run>, job: Job, was: Descriptor)
    requires AllBounded(runs) && SaneStore(stored) && job.Bounded() && job.store.present
    requires After(stored, runs).Some?
    ensures var m := After(stored, runs);
            var v := Validate(job, was, m);
            && Sane(m.value)
            && (v.desc.imageType == IMAGE_PROD && Passed(v) ==>
                  && v.place.Some? && Lowest(job, job.start, v.place.value)
                  && CarriesAllowed(job, v, m.value))
  {
    hide Validate, CarriesAllowed, Carries, Sane, Lowest;
    RunsMoveOn(stored, runs);
    ValidationKeepsStore(job, was, After(stored, runs));
  }

  /** The verdict on a candidate and the blob offset it leaves depend neither on what the context
      held nor on the store. */
  lemma CandidateIgnoresContext(job: Job, again: Job, was: Descriptor, now: Descriptor, at: u32, blobOffset: u32)
    requires again == job.(store := again.store)
    ensures var c, d := CheckCandidate(job, was, at, blobOffset), CheckCandidate(again, now, at, blobOffset);
            && CandidateStatus(job, c, at) == CandidateStatus(again, d, at)
            && c.blobOffset == d.blobOffset
            && (CandidateStatus(job, c, at) == Success ==> c.desc == d.desc)
  {
    hide CheckSigned, CheckHeader, RegionsVerdict, ParseDescriptor, BlobOffset;
  }

  lemma ConclusionAgain(job: Job, again: Job, at: u32, desc: Descriptor, blobOffset: u32, stored: Option<seq<byte>>)
    requires again == job.(store := again.store) && again.store.present == job.store.present && again.store.retrieves
    requires BlobBehind(blobOffset) && SaneStore(stored)
    requires Conclude(job, at, desc, blobOffset, stored).status == Success
    ensures var v := Conclude(job, at, desc, blobOffset, stored); Conclude(again, at, desc, blobOffset, v.stored) == v
  {
    hide CheckMauv, Sane;
    if desc.imageType == IMAGE_PROD {
      CheckIsIdempotent(job.f, job.store, again.store, stored, blobOffset, desc.blobSize);
    }
  }

  lemma {:induction false} SearchAgain(job: Job, again: Job, found: Result<u32>, was: Descriptor, now: Descriptor, blobOffset: u32,
                                       stored: Option<seq<byte>>, first: Status)
    requires again == job.(store := again.store) && again.store.present == job.store.present && again.store.retrieves
    requires job.Bounded() && Candidate(job, found) && BlobBehind(blobOffset) && SaneStore(stored)
    requires var v := Search(job, found, was, blobOffset, stored, first); v.state == Valid && v.status == Success
    ensures var v := Search(job, found, was, blobOffset, stored, first); Search(again, found, now, blobOffset, v.stored, first) == v
    decreases Left(job, found)
  {
    hide CheckCandidate, CandidateStatus, Conclude, NextCandidate, Sane;
    if found.Ok? {
      var at := found.value;
      var c, d := CheckCandidate(job, was, at, blobOffset), CheckCandidate(again, now, at, blobOffset);
      var r := CandidateStatus(job, c, at);
      CandidateIgnoresContext(job, again, was, now, at, blobOffset);
      BlobStaysBehind(job, was, at, blobOffset);
      NextIsBehind(job, at + 1);
      SameScan(job, again, at + 1);
      if r == Success {
        ConclusionAgain(job, again, at, c.desc, c.blobOffset, stored);
      } else {
        SearchAgain(job, again, NextCandidate(job, at + 1), c.desc, d.desc, c.blobOffset, stored, if first == Success then r else first);
      }
    }
  }

  lemma SameScan(job: Job, again: Job, from: u32)
    requires again == job.(store := again.store) && job.Bounded()
    ensures again.Bounded() && NextCandidate(job, from) == NextCandidate(again, from)
  {
  }

  /** An image that was validated is validated again, from whatever the context then holds and
      with a store that may no longer take anything, and the second time changes nothing. */
  lemma ValidationIsIdempotent(job: Job, again: Job, was: Descriptor, now: Descriptor, stored: Option<seq<byte>>)
    requires again == job.(store := again.store) && again.store.present == job.store.present && again.store.retrieves
    requires job.Bounded() && SaneStore(stored)
    requires var v := Validate(job, was, stored); v.state == Valid && v.status == Success
    ensures var v := Validate(job, was, stored); Validate(again, now, v.stored) == v
  {
    hide Search, NextCandidate, Sane;
    NextIsBehind(job, job.start);
    SameScan(job, again, job.start);
    SearchAgain(job, again, NextCandidate(job, job.start), was, now, 0, stored, Success);
  }
}
