/**
 * The bounded queue of output chunks between the backend thread and the streaming caller.
 */
module StreamQueue {
  import opened Prelude

  const DEFAULT_MAX_BYTES: nat := 4 * 1024 * 1024

  /** A configured limit of zero means the default. */
  function Limit(configured: nat): (n: nat)
    ensures n > 0
  {
    if configured > 0 then configured else DEFAULT_MAX_BYTES
  }

  /** Subtraction-free on purpose: nothing here can wrap. */
  predicate HasRoom(queued: nat, len: nat, max: nat) {
    len == 0 || (len <= max && queued <= max - len)
  }

  /** Room means that the limit, 4 MiB unless configured otherwise, is not exceeded afterwards. */
  lemma RoomIff(queued: nat, len: nat, configured: nat)
    requires len > 0
    ensures HasRoom(queued, len, Limit(configured)) <==>
      queued + len <= if configured == 0 then 4_194_304 else configured
    ensures HasRoom(queued, 0, Limit(configured))
  {
  }

  /** The queue's own guarded subtraction. */
  function Less(queued: nat, len: nat): nat { if queued >= len then queued - len else 0 }

  /** Chunks a producer may have left: none empty, and no more bytes in all than the limit. */
  predicate Bounded(chunks: seq<Bytes>, max: nat) {
    |Concat(chunks)| <= max && forall i :: 0 <= i < |chunks| ==> chunks[i] != []
  }

  lemma BoundedTail(chunks: seq<Bytes>, max: nat)
    requires chunks != [] && Bounded(chunks, max)
    ensures Bounded(chunks[1..], max) && |Concat(chunks[1..])| == |Concat(chunks)| - |chunks[0]|
  {
  }

  lemma BoundedSnoc(chunks: seq<Bytes>, chunk: Bytes, max: nat)
    requires Bounded(chunks, max) && chunk != [] && HasRoom(|Concat(chunks)|, |chunk|, max)
    ensures Bounded(chunks + [chunk], max)
    ensures Concat(chunks + [chunk]) == Concat(chunks) + chunk
  {
    ConcatSnoc(chunks, chunk);
  }

  /** The popped and the queued chunks together are `all`, in order. */
  ghost predicate Flow(popped: seq<Bytes>, queued: seq<Bytes>, all: Bytes) {
    Concat(popped) + Concat(queued) == all
  }

  lemma FlowStart(queued: seq<Bytes>)
    ensures Flow([], queued, Concat(queued))
  {
  }

  lemma FlowPop(popped: seq<Bytes>, queued: seq<Bytes>, all: Bytes)
    requires Flow(popped, queued, all) && queued != []
    ensures Flow(popped + [queued[0]], queued[1..], all)
  {
    ConcatSnoc(popped, queued[0]);
    assert Concat(popped) + queued[0] + Concat(queued[1..]) == Concat(popped) + (queued[0] + Concat(queued[1..]));
  }

  lemma FlowPush(popped: seq<Bytes>, queued: seq<Bytes>, all: Bytes, chunk: Bytes)
    requires Flow(popped, queued, all)
    ensures Flow(popped, queued + [chunk], all + chunk)
  {
    ConcatSnoc(queued, chunk);
    assert Concat(popped) + (Concat(queued) + chunk) == Concat(popped) + Concat(queued) + chunk;
  }

  lemma SliceNext(start: Bytes, buf: Bytes, off: nat, take: nat)
    requires off + take <= |buf|
    ensures start + buf[..off] + buf[off..off + take] == start + buf[..off + take]
  {
    assert buf[..off + take] == buf[..off] + buf[off..off + take];
  }

  class ChunkQueue {
    var chunks: seq<Bytes>
    var bytesQueued: nat
    var configured: nat

    /** The counter is the true number of queued bytes, and the limit is never exceeded. */
    ghost predicate Valid()
      reads this
    {
      bytesQueued == |Concat(chunks)| && Bounded(chunks, Limit(configured))
    }

    constructor (max: nat)
      ensures Valid() && chunks == [] && configured == max
    {
      chunks, bytesQueued, configured := [], 0, max;
    }

    /** One chunk, if there is room for it; an empty one is not queued. */
    method TryEnqueue(chunk: Bytes) returns (ok: bool)
      requires Valid()
      modifies this`chunks, this`bytesQueued
      ensures Valid()
      ensures ok <==> HasRoom(|Concat(old(chunks))|, |chunk|, Limit(configured))
      ensures chunks == if ok && chunk != [] then old(chunks) + [chunk] else old(chunks)
    {
      if chunk == [] {
        return true;
      }
      if !HasRoom(bytesQueued, |chunk|, Limit(configured)) {
        return false;
      }
      BoundedSnoc(chunks, chunk, Limit(configured));
      chunks := chunks + [chunk];
      bytesQueued := bytesQueued + |chunk|;
      ok := true;
    }

    /** The counter's guard against underflow is never needed. */
    method Pop() returns (chunk: Option<Bytes>)
      requires Valid()
      modifies this`chunks, this`bytesQueued
      ensures Valid()
      ensures old(chunks) == [] ==> chunk == None && chunks == []
      ensures old(chunks) != [] ==> chunk == Some(old(chunks)[0]) && chunks == old(chunks)[1..]
      ensures chunk.Some? ==> old(bytesQueued) >= |chunk.value| > 0
    {
      if chunks == [] {
        return None;
      }
      BoundedTail(chunks, Limit(configured));
      var head := chunks[0];
      chunks := chunks[1..];
      bytesQueued := Less(bytesQueued, |head|);
      chunk := Some(head);
    }

    /** The consumer takes as many chunks as it likes, none included. */
    method PopSome(ghost before: seq<Bytes>, ghost all: Bytes) returns (taken: seq<Bytes>)
      requires Valid() && Flow(before, chunks, all)
      modifies this`chunks, this`bytesQueued
      ensures Valid() && Flow(before + taken, chunks, all) && |chunks| <= |old(chunks)|
    {
      hide Flow, Bounded;
      var wish: nat := *;
      taken := [];
      assert before + [] == before;
      while |taken| < wish && chunks != []
        invariant Valid() && Flow(before + taken, chunks, all) && |chunks| <= |old(chunks)|
        decreases |chunks|
      {
        FlowPop(before + taken, chunks, all);
        var chunk := Pop();
        assert before + taken + [chunk.value] == before + (taken + [chunk.value]);
        taken := taken + [chunk.value];
      }
    }

    /**
     * A write of any size against a consumer that pops whenever it likes, and at least once while the producer
     * waits: the write is cut into slices no larger than the limit, always ends, and nothing is lost, repeated
     * or reordered. `taken` is what the consumer got meanwhile.
     */
    method Enqueue(buf: Bytes) returns (taken: seq<Bytes>)
      requires Valid()
      modifies this`chunks, this`bytesQueued
      ensures Valid() && Flow(taken, chunks, Concat(old(chunks)) + buf)
    {
      hide Flow, Bounded, Concat;
      ghost var start := Concat(chunks);
      var off := 0;
      taken := [];
      assert buf[..0] == [];
      FlowStart(chunks);
      assert start + buf[..0] == start;
      while off < |buf|
        invariant 0 <= off <= |buf| && Valid()
        invariant Flow(taken, chunks, start + buf[..off])
      {
        var take := Min(|buf| - off, Limit(configured));
        var slice := buf[off..off + take];
        var more := AwaitRoom(take, taken, start + buf[..off]);
        taken := taken + more;
        FlowPush(taken, chunks, start + buf[..off], slice);
        var ok := TryEnqueue(slice);
        SliceNext(start, buf, off, take);
        off := off + take;
        more := PopSome(taken, start + buf[..off]);
        taken := taken + more;
      }
      assert buf[..off] == buf;
    }

    /** Waiting for room: a wake-up comes from one pop or more, and an empty queue always has room for a slice. */
    method AwaitRoom(len: nat, ghost before: seq<Bytes>, ghost all: Bytes) returns (taken: seq<Bytes>)
      requires Valid() && len <= Limit(configured) && Flow(before, chunks, all)
      modifies this`chunks, this`bytesQueued
      ensures Valid() && HasRoom(bytesQueued, len, Limit(configured))
      ensures Flow(before + taken, chunks, all)
    {
      hide Flow, Bounded;
      taken := [];
      assert before + [] == before;
      while !HasRoom(bytesQueued, len, Limit(configured))
        invariant Valid()
        invariant Flow(before + taken, chunks, all)
        decreases |chunks|
      {
        FlowPop(before + taken, chunks, all);
        var chunk := Pop();
        assert before + taken + [chunk.value] == before + (taken + [chunk.value]);
        taken := taken + [chunk.value];
        var more := PopSome(before + taken, all);
        assert before + taken + more == before + (taken + more);
        taken := taken + more;
      }
    }
  }
}
