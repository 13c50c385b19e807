/** What one step of the stored MAUV keeps, and what it lets through. */
module Cr51Rollback {
  import opened Bytes
  import opened Options
  import opened Cr51Format
  import opened Cr51Context
  import opened Cr51Mauv
  import opened Cr51Walk

  /** Nothing stored yet, or a record that passes the sanity check. */
  ghost predicate SaneStore(stored: Option<seq<byte>>) { stored.Some? ==> Sane(stored.value) }

  /** `next` may follow `stored`: a stored record stays or is replaced by a sane one that is
      strictly newer and whose payload the old one allows. */
  ghost predicate Forward(stored: Option<seq<byte>>, next: Option<seq<byte>>)
    requires SaneStore(stored)
  {
    && SaneStore(next)
    && (stored.Some? ==> next.Some?)
    && (stored.Some? && next != stored ==>
          Timestamp(next.value) > Timestamp(stored.value) && Allows(stored.value, PayloadVersion(next.value)))
  }

  lemma StepMovesForward(store: Store, stored: Option<seq<byte>>, payload: Option<seq<byte>>)
    requires SaneStore(stored) && (payload.Some? ==> Sane(payload.value))
    ensures Forward(stored, StepStored(store, stored, payload).stored)
    ensures var r := StepStored(store, stored, payload); r.stored != stored ==> r.status == Success && r.stored == payload
  {
  }

  /** Against a stored record, a payload is accepted exactly if it has a MAUV of its own, the
      stored record allows its version, and a newer MAUV can be written back. */
  lemma AcceptedAgainstStored(store: Store, m: seq<byte>, payload: Option<seq<byte>>)
    requires Sane(m) && (payload.Some? ==> Sane(payload.value)) && store.present && store.retrieves
    ensures StepStored(store, Some(m), payload).status == Success
            <==> payload.Some? && Allows(m, PayloadVersion(payload.value))
                 && (Timestamp(payload.value) > Timestamp(m) ==> store.stores)
  {
  }

  /** Checking an accepted payload again, with the same kind of store and a working retrieve
      callback, succeeds and changes nothing. */
  lemma Idempotent(first: Store, again: Store, stored: Option<seq<byte>>, payload: Option<seq<byte>>)
    requires SaneStore(stored) && (payload.Some? ==> Sane(payload.value))
    requires first.present == again.present && again.retrieves
    requires StepStored(first, stored, payload).status == Success
    ensures var kept := StepStored(first, stored, payload).stored;
            StepStored(again, kept, payload) == Outcome(Success, kept)
  {
  }

  /** The same for the check of an image, blob list included. */
  lemma CheckIsIdempotent(f: Flash, first: Store, again: Store, stored: Option<seq<byte>>, blobOffset: u32, blobSize: u32)
    requires BlobInReach(f, blobOffset, blobSize) && SaneStore(stored)
    requires first.present == again.present && again.retrieves
    requires CheckMauv(f, first, stored, blobOffset, blobSize).status == Success
    ensures var kept := CheckMauv(f, first, stored, blobOffset, blobSize).stored;
            CheckMauv(f, again, kept, blobOffset, blobSize) == Outcome(Success, kept)
  {
    Idempotent(first, again, stored, PayloadMauv(f, blobOffset, blobSize).value);
  }

  lemma ForwardComposes(a: Option<seq<byte>>, b: Option<seq<byte>>, c: Option<seq<byte>>)
    requires SaneStore(a) && Newer(a, b) && Newer(b, c)
    ensures Newer(a, c)
  {
  }

  /** The part of `Forward` that holds over any number of steps. */
  ghost predicate Newer(stored: Option<seq<byte>>, next: Option<seq<byte>>) {
    && SaneStore(stored) && SaneStore(next)
    && (stored.Some? ==> next.Some?)
    && (stored.Some? && next != stored ==> Timestamp(next.value) > Timestamp(stored.value))
  }
}
