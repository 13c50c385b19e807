/** Feeding stretches of the flash to the hash engine. */
module Cr51Hashing {
  import opened Bytes
  import opened Options
  import opened Cr51Format
  import opened Cr51Context

  function Min(a: nat, b: nat): nat { if a < b then a else b }

  /** Bytes already read, in front of those still to come. */
  function After(done: seq<byte>, rest: Option<seq<byte>>): Option<seq<byte>> {
    if rest.None? then None else Some(done + rest.value)
  }

  lemma AfterTwo(first: seq<byte>, second: seq<byte>, rest: Option<seq<byte>>)
    ensures After(first, After(second, rest)) == After(first + second, rest)
  {
    if rest.Some? {
      assert first + (second + rest.value) == first + second + rest.value;
    }
  }

  lemma AfterNothing(rest: Option<seq<byte>>)
    ensures After([], rest) == rest
  {
    if rest.Some? {
      assert [] + rest.value == rest.value;
    }
  }

  /** The bytes of a stretch read in chunks, None if one of the chunks cannot be read. */
  function ReadRange(f: Flash, offset: nat, size: nat): (r: Option<seq<byte>>)
    ensures r.Some? ==> offset + size <= |f.data| && r.value == f.data[offset..offset + size]
    decreases size
  {
    var chunk := Min(size, MAX_READ_SIZE);
    if !CanRead(f, offset, chunk) then None
    else if size == chunk then Some(f.data[offset..offset + size])
    else After(f.data[offset..offset + chunk], ReadRange(f, offset + chunk, size - chunk))
  }

  method ReadAndHashChunk(ctx: Context, offset: u32, count: u32) returns (ok: bool)
    modifies ctx`hashed
    ensures ok == CanRead(ctx.flash, offset, count)
    ensures ok ==> ctx.hashed == old(ctx.hashed) + ctx.flash.data[offset..offset + count]
  {
    var read := Read(ctx.flash, offset, count);
    if read.None? {
      return false;
    }
    ctx.HashUpdate(read.value);
    return true;
  }

  lemma ReadChunk(f: Flash, done: seq<byte>, at: nat, left: nat, count: nat)
    requires count == Min(left, MAX_READ_SIZE)
    ensures var all := After(done, ReadRange(f, at, left));
            if !CanRead(f, at, count) then all == None
            else
              var more := done + f.data[at..at + count];
              all == if left == count then Some(more) else After(more, ReadRange(f, at + count, left - count))
  {
    if CanRead(f, at, count) && left > count {
      AfterTwo(done, f.data[at..at + count], ReadRange(f, at + count, left - count));
    }
  }

  /** Afterwards the hash engine has been fed exactly the stretch, in order. */
  method ReadAndHashUpdate(ctx: Context, offset: u32, size: u32) returns (r: Status)
    modifies ctx`hashed
    ensures r == Success || r == RuntimeFailure
    ensures After(old(ctx.hashed), ReadRange(ctx.flash, offset, size)) == if r == Success then Some(ctx.hashed) else None
  {
    var at: u32, left: u32 := offset, size;
    ghost var fed := After(ctx.hashed, ReadRange(ctx.flash, offset, size));
    while true
      invariant fed == After(ctx.hashed, ReadRange(ctx.flash, at, left))
      decreases left
    {
      var count: u32 := if left < MAX_READ_SIZE then left else MAX_READ_SIZE;
      ReadChunk(ctx.flash, ctx.hashed, at, left, count);
      var ok := ReadAndHashChunk(ctx, at, count);
      if !ok {
        return RuntimeFailure;
      }
      at, left := at + count, left - count;
      if left == 0 {
        return Success;
      }
    }
  }

  /** The k-th chunk of 1024 bytes of a stretch; a stretch of size 0 still has one, empty, chunk. */
  predicate HasChunk(size: nat, k: nat) { k == 0 || k * 1024 < size }

  predicate ChunkReadable(f: Flash, offset: nat, size: nat, k: nat)
    requires HasChunk(size, k)
  {
    CanRead(f, offset + k * 1024, Min(size - k * 1024, 1024))
  }

  lemma LaterChunk(f: Flash, offset: nat, size: nat, k: nat)
    requires size > MAX_READ_SIZE && k > 0
    ensures HasChunk(size, k) == HasChunk(size - MAX_READ_SIZE, k - 1)
    ensures HasChunk(size, k) ==>
              ChunkReadable(f, offset, size, k) == ChunkReadable(f, offset + MAX_READ_SIZE, size - MAX_READ_SIZE, k - 1)
  {
  }

  /** A chunked read succeeds exactly when each of its chunks can be read. */
  lemma {:induction false} ReadRangeSucceeds(f: Flash, offset: nat, size: nat)
    ensures ReadRange(f, offset, size).Some?
            <==> forall k: nat :: HasChunk(size, k) ==> ChunkReadable(f, offset, size, k)
    decreases size
  {
    if !ChunkReadable(f, offset, size, 0) {
      assert HasChunk(size, 0);
    } else if size > MAX_READ_SIZE {
      ReadRangeSucceeds(f, offset + MAX_READ_SIZE, size - MAX_READ_SIZE);
      if ReadRange(f, offset, size).Some? {
        forall k: nat | HasChunk(size, k) && k > 0 ensures ChunkReadable(f, offset, size, k) {
          LaterChunk(f, offset, size, k);
        }
      } else {
        var j: nat :| HasChunk(size - MAX_READ_SIZE, j) && !ChunkReadable(f, offset + MAX_READ_SIZE, size - MAX_READ_SIZE, j);
        LaterChunk(f, offset, size, j + 1);
      }
    }
  }

  datatype Stretch = Stretch(start: nat, size: nat)

  /** The bytes of several stretches one after the other, None if one of them cannot be read. */
  function ReadAll(f: Flash, parts: seq<Stretch>): Option<seq<byte>> {
    if parts == [] then Some([])
    else
      var first := ReadRange(f, parts[0].start, parts[0].size);
      if first.None? then None else After(first.value, ReadAll(f, parts[1..]))
  }

  ghost predicate StretchReadable(f: Flash, p: Stretch) {
    forall k: nat :: HasChunk(p.size, k) ==> ChunkReadable(f, p.start, p.size, k)
  }

  /** Several stretches can be read exactly when every chunk of every one of them can. */
  lemma {:induction false} ReadAllSucceeds(f: Flash, parts: seq<Stretch>)
    ensures ReadAll(f, parts).Some? <==> forall p :: p in parts ==> StretchReadable(f, p)
  {
    if parts != [] {
      var p := parts[0];
      ReadRangeSucceeds(f, p.start, p.size);
      assert ReadRange(f, p.start, p.size).Some? <==> StretchReadable(f, p);
      ReadAllSucceeds(f, parts[1..]);
      assert parts == [p] + parts[1..];
    }
  }

  function Both(a: Option<seq<byte>>, b: Option<seq<byte>>): Option<seq<byte>> {
    if a.None? then None else After(a.value, b)
  }

  lemma FeedNext(f: Flash, fed: seq<byte>, parts: seq<Stretch>)
    requires parts != []
    ensures var first := After(fed, ReadRange(f, parts[0].start, parts[0].size));
            After(fed, ReadAll(f, parts)) == Both(first, ReadAll(f, parts[1..]))
  {
    var first := ReadRange(f, parts[0].start, parts[0].size);
    if first.Some? {
      AfterTwo(fed, first.value, ReadAll(f, parts[1..]));
    }
  }

  lemma FeedNone(f: Flash, fed: seq<byte>)
    ensures After(fed, ReadAll(f, [])) == Some(fed)
  {
    assert fed + [] == fed;
  }
}
