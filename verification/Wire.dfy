/**
 * The Rust side of the framing: an incremental reader of frontend messages, and the two validators of
 * complete requests.
 */
module Wire {
  import opened Prelude
  import opened Frames
  import opened Requests
  import Replies

  const MAX_MESSAGE: nat := 128 * 1024 * 1024

  // ---------------------------------------------------------------------------
  // Frontend messages, typed and untyped
  // ---------------------------------------------------------------------------

  /** Startup and control packets have no type byte; their first byte is the high byte of their length, zero. */
  function FrontendFront(s: Bytes): (f: Front)
    ensures f.Whole? ==> 0 < f.size <= |s|
  {
    if |s| < 4 then Partial
    else if s[0] == 0 then
      var n := Number(s[..4]);
      if n < 8 || n > MAX_MESSAGE then Malformed else if |s| >= n then Whole(n) else Partial
    else if |s| < 5 then Partial
    else
      var n := Length(s);
      if n < 4 || n >= 0x8000_0000 || 1 + n > MAX_MESSAGE then Malformed
      else if |s| >= 1 + n then Whole(1 + n) else Partial
  }

  lemma FrontendIsStable(s: Bytes, more: Bytes)
    requires !FrontendFront(s).Partial?
    ensures FrontendFront(s + more) == FrontendFront(s)
  {
    hide Number;
    assert (s + more)[..4] == s[..4];
    if |s| >= 5 { assert (s + more)[1..5] == s[1..5]; }
  }

  /** The complete messages at the front, what is left, and whether what is left can never become a message. */
  datatype Split = Split(frames: seq<Bytes>, rest: Bytes, bad: bool)

  function SplitOf(s: Bytes): Split
    decreases |s|
  {
    match FrontendFront(s)
    case Partial => Split([], s, false)
    case Malformed => Split([], s, true)
    case Whole(n) =>
      var tail := SplitOf(s[n..]);
      Split([s[..n]] + tail.frames, tail.rest, tail.bad)
  }

  /** Nothing is lost or invented. */
  lemma {:induction false} SplitConserves(s: Bytes)
    ensures Concat(SplitOf(s).frames) + SplitOf(s).rest == s
    decreases |s|
  {
    hide FrontendFront;
    if FrontendFront(s).Whole? {
      var n := FrontendFront(s).size;
      SplitConserves(s[n..]);
      var tail := SplitOf(s[n..]);
      assert SplitOf(s).frames[1..] == tail.frames;
      assert s[..n] + Concat(tail.frames) + tail.rest == s[..n] + (Concat(tail.frames) + tail.rest);
    }
  }

  lemma SplitWhole(s: Bytes, n: nat)
    requires FrontendFront(s) == Whole(n)
    ensures SplitOf(s) == Prefixed(s[..n], SplitOf(s[n..]))
  {
    hide FrontendFront;
  }

  function Prefixed(frame: Bytes, tail: Split): Split { Split([frame] + tail.frames, tail.rest, tail.bad) }

  lemma SplitStuck(s: Bytes)
    requires !FrontendFront(s).Whole?
    ensures SplitOf(s) == Split([], s, FrontendFront(s).Malformed?)
  {
    hide FrontendFront;
  }

  /** Splitting goes on where it stopped; once stuck on an invalid message it stays there. */
  function Resumed(a: Split, more: Bytes): Split {
    if a.bad then Split(a.frames, a.rest + more, true)
    else var b := SplitOf(a.rest + more); Split(a.frames + b.frames, b.rest, b.bad)
  }

  lemma ResumedPrefixed(frame: Bytes, a: Split, more: Bytes)
    ensures Resumed(Prefixed(frame, a), more) == Prefixed(frame, Resumed(a, more))
  {
    hide SplitOf;
    if !a.bad {
      var b := SplitOf(a.rest + more);
      assert [frame] + a.frames + b.frames == [frame] + (a.frames + b.frames);
    }
  }

  lemma {:induction false} SplitMore(s: Bytes, more: Bytes)
    ensures SplitOf(s + more) == Resumed(SplitOf(s), more)
    decreases |s|
  {
    hide FrontendFront, SplitOf, Resumed, Prefixed;
    if FrontendFront(s).Whole? {
      var n := FrontendFront(s).size;
      FrontendIsStable(s, more);
      assert (s + more)[n..] == s[n..] + more && (s + more)[..n] == s[..n];
      SplitWhole(s, n);
      SplitWhole(s + more, n);
      SplitMore(s[n..], more);
      ResumedPrefixed(s[..n], SplitOf(s[n..]), more);
    } else {
      SplitStuck(s);
      ResumedStuck(s, more);
    }
  }

  lemma ResumedStuck(s: Bytes, more: Bytes)
    requires !FrontendFront(s).Whole?
    ensures Resumed(Split([], s, FrontendFront(s).Malformed?), more) == SplitOf(s + more)
  {
    hide FrontendFront, SplitOf;
    if FrontendFront(s).Malformed? {
      FrontendIsStable(s, more);
      SplitStuck(s + more);
    } else {
      assert [] + SplitOf(s + more).frames == SplitOf(s + more).frames;
    }
  }

  class FrameReader {
    var buffer: Bytes

    constructor ()
      ensures buffer == []
    {
      buffer := [];
    }

    method Append(input: Bytes)
      modifies this
      ensures buffer == old(buffer) + input
    {
      buffer := buffer + input;
    }

    /** The next message is drained from the buffer; an invalid one stays. */
    method NextFrame() returns (ok: bool, frame: Option<Bytes>)
      modifies this
      ensures ok <==> !FrontendFront(old(buffer)).Malformed?
      ensures frame.Some? <==> FrontendFront(old(buffer)).Whole?
      ensures frame.Some? ==> frame.value == old(buffer)[..FrontendFront(old(buffer)).size]
      ensures buffer == if frame.Some? then old(buffer)[|frame.value|..] else old(buffer)
    {
      hide Number, Length;
      var front := FrontendFront(buffer);
      match front
      case Malformed => return false, None;
      case Partial => return true, None;
      case Whole(n) =>
        ok, frame := true, Some(buffer[..n]);
        buffer := buffer[n..];
    }

    /** All messages the input completes; an invalid one loses those found in the same call. */
    method Push(input: Bytes) returns (frames: Option<seq<Bytes>>)
      modifies this
      ensures var all := SplitOf(old(buffer) + input);
        buffer == all.rest && frames == if all.bad then None else Some(all.frames)
    {
      hide FrontendFront;
      Append(input);
      ghost var start := buffer;
      var found: seq<Bytes> := [];
      Ahead(start);
      while true
        invariant Behind(start, found, buffer)
        decreases |buffer|
      {
        ghost var before := buffer;
        var ok, frame := NextFrame();
        if !ok {
          return None;
        }
        assert found + [] == found;
        if frame.None? {
          break;
        }
        BehindNext(start, found, before);
        found := found + [frame.value];
      }
      frames := Some(found);
    }

    /** Successive pushes until one fails: the messages of those that did not. */
    method PushEach(chunks: seq<Bytes>) returns (frames: seq<Bytes>, failed: bool)
      modifies this
      ensures PushAll(old(buffer), chunks) == Split(frames, buffer, failed)
    {
      hide SplitOf;
      ghost var start := buffer;
      var i := 0;
      frames, failed := [], false;
      assert chunks[0..] == chunks;
      Pushed(PushAll(start, chunks));
      while i < |chunks|
        invariant 0 <= i <= |chunks| && !failed
        invariant PushAll(start, chunks) == After(frames, PushAll(buffer, chunks[i..]))
      {
        assert chunks[i..][0] == chunks[i] && chunks[i..][1..] == chunks[i + 1..];
        var more := Push(chunks[i]);
        if more.None? {
          assert frames + [] == frames;
          return frames, true;
        }
        AfterMore(frames, more.value, PushAll(buffer, chunks[i + 1..]));
        frames := frames + more.value;
        i := i + 1;
      }
      assert frames + [] == frames;
    }
  }

  /** `frames` came before what `s` describes. */
  function After(frames: seq<Bytes>, s: Split): Split { Split(frames + s.frames, s.rest, s.bad) }

  lemma Pushed(s: Split)
    ensures After([], s) == s
  {
    assert [] + s.frames == s.frames;
  }

  lemma AfterMore(a: seq<Bytes>, b: seq<Bytes>, s: Split)
    ensures After(a + b, s) == After(a, After(b, s))
  {
    assert a + b + s.frames == a + (b + s.frames);
  }

  /** `found` messages have been taken off `start` and `left` is still to be split. */
  ghost predicate Behind(start: Bytes, found: seq<Bytes>, left: Bytes) {
    SplitOf(start) == Split(found + SplitOf(left).frames, SplitOf(left).rest, SplitOf(left).bad)
  }

  lemma Ahead(start: Bytes)
    ensures Behind(start, [], start)
  {
    hide SplitOf;
    assert [] + SplitOf(start).frames == SplitOf(start).frames;
  }

  lemma BehindNext(start: Bytes, found: seq<Bytes>, left: Bytes)
    requires Behind(start, found, left) && FrontendFront(left).Whole?
    ensures var n := FrontendFront(left).size; Behind(start, found + [left[..n]], left[n..])
  {
    hide FrontendFront;
    var n := FrontendFront(left).size;
    assert found + ([left[..n]] + SplitOf(left[n..]).frames) == found + [left[..n]] + SplitOf(left[n..]).frames;
  }

  // ---------------------------------------------------------------------------
  // Any chunking gives the same messages
  // ---------------------------------------------------------------------------

  /** Successive pushes, as `FrameReader.Push` specifies each, until one fails. */
  function PushAll(buffer: Bytes, chunks: seq<Bytes>): Split
    decreases |chunks|
  {
    if chunks == [] then Split([], buffer, false)
    else
      var one := SplitOf(buffer + chunks[0]);
      if one.bad then Split([], one.rest, true)
      else
        var tail := PushAll(one.rest, chunks[1..]);
        Split(one.frames + tail.frames, tail.rest, tail.bad)
  }

  lemma {:induction false} PushAllIsSplit(buffer: Bytes, chunks: seq<Bytes>)
    requires SplitOf(buffer) == Split([], buffer, false)
    ensures var r, whole := PushAll(buffer, chunks), SplitOf(buffer + Concat(chunks));
      && r.bad == whole.bad
      && (!whole.bad ==> r == whole)
      && (whole.bad ==> r.frames <= whole.frames)
    decreases |chunks|
  {
    hide FrontendFront;
    if chunks == [] {
      assert buffer + [] == buffer;
    } else {
      var one, tail := SplitOf(buffer + chunks[0]), Concat(chunks[1..]);
      assert buffer + Concat(chunks) == buffer + chunks[0] + tail;
      SplitMore(buffer + chunks[0], tail);
      if !one.bad {
        RestIsOpen(buffer + chunks[0]);
        PushAllIsSplit(one.rest, chunks[1..]);
      }
    }
  }

  lemma {:induction false} RestIsOpen(s: Bytes)
    requires !SplitOf(s).bad
    ensures SplitOf(SplitOf(s).rest) == Split([], SplitOf(s).rest, false)
    decreases |s|
  {
    hide FrontendFront;
    if FrontendFront(s).Whole? { RestIsOpen(s[FrontendFront(s).size..]); }
  }

  /**
   * However the same bytes arrive, a valid stream gives the same messages and leaves the same bytes, and an
   * invalid one is refused.
   */
  lemma ChunksDoNotMatter(a: seq<Bytes>, b: seq<Bytes>)
    requires Concat(a) == Concat(b)
    ensures PushAll([], a).bad == PushAll([], b).bad
    ensures !PushAll([], a).bad ==> PushAll([], a) == PushAll([], b)
    ensures !PushAll([], a).bad ==> Concat(PushAll([], a).frames) + PushAll([], a).rest == Concat(a)
  {
    hide PushAll, Concat;
    assert SplitOf([]) == Split([], [], false);
    assert [] + Concat(a) == Concat(a);
    PushAllIsSplit([], a);
    PushAllIsSplit([], b);
    SplitConserves(Concat(a));
  }

  /** Two readers fed the same bytes in different pieces end with the same messages and the same bytes left. */
  method ReadTwice(a: seq<Bytes>, b: seq<Bytes>)
    returns (first: seq<Bytes>, second: seq<Bytes>, left: Bytes, leftToo: Bytes, failed: bool, failedToo: bool)
    requires Concat(a) == Concat(b)
    ensures failed == failedToo == SplitOf(Concat(a)).bad
    ensures !failed ==> first == second && left == leftToo && Concat(first) + left == Concat(a)
  {
    hide PushAll, SplitOf, Concat;
    EmptySplit();
    assert [] + Concat(a) == Concat(a);
    PushAllIsSplit([], a);
    PushAllIsSplit([], b);
    SplitConserves(Concat(a));
    var one := new FrameReader();
    first, failed := one.PushEach(a);
    var two := new FrameReader();
    second, failedToo := two.PushEach(b);
    left, leftToo := one.buffer, two.buffer;
  }

  lemma EmptySplit()
    ensures SplitOf([]) == Split([], [], false)
  {
  }

  // ---------------------------------------------------------------------------
  // Complete requests
  // ---------------------------------------------------------------------------

  const PARSE: byte := 80
  const BIND: byte := 66
  const DESCRIBE: byte := 68
  const EXECUTE: byte := 69
  const CLOSE: byte := 67
  const FLUSH: byte := 72
  const PASSWORD: byte := 112

  predicate Extended(tag: byte) {
    tag == PARSE || tag == BIND || tag == DESCRIBE || tag == EXECUTE || tag == CLOSE || tag == FLUSH
  }

  /** One zero-terminated Query, or extended messages up to one empty Sync. */
  ghost predicate OneExchange(ms: seq<Message>) {
    && ms != []
    && var last := ms[|ms| - 1];
       || (|ms| == 1 && last.tag == QUERY && last.body != [] && last.body[|last.body| - 1] == 0)
       || (last == Message(SYNC, []) && forall i :: 0 <= i < |ms| - 1 ==> Extended(ms[i].tag))
  }

  function Boundaries(ms: seq<Message>): nat {
    if ms == [] then 0 else (if ms[0].tag == QUERY || ms[0].tag == SYNC then 1 else 0) + Boundaries(ms[1..])
  }

  /** What the desktop broker accepts, with the number of ReadyForQuery it will wait for. */
  ghost predicate Countable(ms: seq<Message>) {
    && ms != [] && Boundaries(ms) > 0
    && (forall i :: 0 <= i < |ms| ==> ms[i].tag != TERMINATE && ms[i].tag != PASSWORD)
    && var last := ms[|ms| - 1].tag; last == QUERY || last == SYNC || last == COPY_DONE || last == COPY_FAIL
  }

  lemma {:induction false} BoundariesSnoc(ms: seq<Message>, m: Message)
    ensures Boundaries(ms + [m]) == Boundaries(ms) + if m.tag == QUERY || m.tag == SYNC then 1 else 0
  {
    if ms == [] {
      assert (ms + [m])[1..] == [];
    } else {
      assert (ms + [m])[1..] == ms[1..] + [m];
      BoundariesSnoc(ms[1..], m);
    }
  }

  lemma {:induction false} NoBoundaries(ms: seq<Message>)
    requires forall i :: 0 <= i < |ms| ==> Extended(ms[i].tag)
    ensures Boundaries(ms) == 0
  {
    if ms != [] { NoBoundaries(ms[1..]); }
  }

  /**
   * A mobile request never fits more than one exchange: the desktop broker would wait for exactly one
   * ReadyForQuery, and as stream input it is complete and closes the stream's input with its last message.
   */
  lemma OneExchangeCompletesOnce(ms: seq<Message>)
    requires OneExchange(ms)
    ensures Countable(ms) && Boundaries(ms) == 1
    ensures ClosesInput(ms) && CompletionIsLast(ms)
  {
    var n := |ms| - 1;
    assert ms == ms[..n] + [ms[n]];
    BoundariesSnoc(ms[..n], ms[n]);
    NoBoundaries(ms[..n]);
    assert Completes(ms[n].tag);
  }

  // ---------------------------------------------------------------------------
  // The validators
  // ---------------------------------------------------------------------------

  /** `ms` so far: the loop's count, and no connection control among them. */
  ghost predicate Counting(ms: seq<Message>, count: nat, last: byte) {
    && count == Boundaries(ms)
    && (forall i :: 0 <= i < |ms| ==> ms[i].tag != TERMINATE && ms[i].tag != PASSWORD)
    && last == if ms == [] then 0 else ms[|ms| - 1].tag
  }

  lemma CountingStart()
    ensures Counting([], 0, 0)
  {
  }

  lemma CountingNext(ms: seq<Message>, m: Message, count: nat, last: byte)
    requires Counting(ms, count, last) && m.tag != TERMINATE && m.tag != PASSWORD
    ensures Counting(ms + [m], count + if m.tag == QUERY || m.tag == SYNC then 1 else 0, m.tag)
  {
    hide Boundaries;
    BoundariesSnoc(ms, m);
  }

  lemma ControlRefutes(s: Bytes, next: nat, ms: seq<Message>, m: Message)
    requires Replies.Walked(s, next, ms + [m]) && (m.tag == TERMINATE || m.tag == PASSWORD)
    ensures !(Framed(s) && Countable(Messages(s)))
  {
    hide Framed, Messages, Boundaries;
    if Framed(s) { assert Messages(s)[|ms|] == m; }
  }

  lemma CountingEnd(ms: seq<Message>, count: nat, last: byte)
    requires Counting(ms, count, last)
    ensures Countable(ms) <==> count > 0 && (last == QUERY || last == SYNC || last == COPY_DONE || last == COPY_FAIL)
    ensures count == Boundaries(ms)
  {
  }

  /** The number of ReadyForQuery a request will be answered with. */
  method CompletionCount(s: Bytes) returns (n: Option<nat>)
    ensures n.Some? <==> |s| <= MAX_MESSAGE && Framed(s) && Countable(Messages(s))
    ensures n.Some? ==> n.value == Boundaries(Messages(s))
  {
    hide Framed, Messages, FrontOf, Replies.Walked, Counting, Countable, Boundaries;
    if |s| > MAX_MESSAGE {
      return None;
    }
    var off, count, last := 0, 0, 0 as byte;
    ghost var ms: seq<Message> := [];
    Replies.WalkedStart(s);
    CountingStart();
    while off < |s|
      invariant 0 <= off <= |s| && Replies.Walked(s, off, ms) && Counting(ms, count, last)
      decreases |s| - off
    {
      var size := Replies.FrontSize(s, off);
      if size.None? {
        Replies.WalkedStuck(s, off, ms);
        return None;
      }
      Replies.WalkedNext(s, off, ms);
      ghost var m := Replies.Here(s, off);
      if s[off] == TERMINATE || s[off] == PASSWORD {
        ControlRefutes(s, off + size.value, ms, m);
        return None;
      }
      CountingNext(ms, m, count, last);
      last := s[off];
      if last == QUERY || last == SYNC {
        count := count + 1;
      }
      ms := ms + [m];
      off := off + size.value;
    }
    Replies.WalkedEnd(s, ms);
    CountingEnd(ms, count, last);
    if count == 0 || !(last == QUERY || last == SYNC || last == COPY_DONE || last == COPY_FAIL) {
      return None;
    }
    n := Some(count);
  }

  ghost predicate AllExtended(ms: seq<Message>) { forall i :: 0 <= i < |ms| ==> Extended(ms[i].tag) }

  /** How the mobile validator's three cases decide, given that only extended messages came before. */
  lemma ExchangeCases(ms: seq<Message>, m: Message, rest: seq<Message>)
    requires AllExtended(ms)
    ensures var all := ms + [m] + rest;
      && (rest == [] ==> (OneExchange(all) <==>
            || (ms == [] && m.tag == QUERY && m.body != [] && m.body[|m.body| - 1] == 0)
            || m == Message(SYNC, [])))
      && (rest != [] && OneExchange(all) ==> Extended(m.tag))
  {
    var all := ms + [m] + rest;
    assert all[|ms|] == m;
    assert forall i :: 0 <= i < |ms| ==> all[i] == ms[i];
  }

  lemma ExtendedAlone(ms: seq<Message>)
    requires AllExtended(ms)
    ensures !OneExchange(ms)
  {
    if ms != [] { assert Extended(ms[|ms| - 1].tag); }
  }

  /** Below the size limit the Rust and the C reading of a typed message agree. */
  lemma TypedFronts(t: Bytes)
    requires 0 < |t| <= MAX_MESSAGE && t[0] != 0
    ensures FrontendFront(t).Whole? <==> FrontOf(t).Whole?
    ensures FrontOf(t).Whole? ==> FrontendFront(t) == FrontOf(t)
  {
    hide Number;
  }

  lemma ZeroTagRefutes(s: Bytes, off: nat, ms: seq<Message>)
    requires Replies.Walked(s, off, ms) && off < |s| && AllExtended(ms) && s[off] == 0 && FrontOf(s[off..]).Whole?
    ensures !(Framed(s) && OneExchange(Messages(s)))
  {
    hide FrontOf, OneExchange, Framed, Messages, AllExtended;
    Replies.WalkedNext(s, off, ms);
    var m, next := Replies.Here(s, off), off + FrontOf(s[off..]).size;
    if Framed(s) { ExchangeCases(ms, m, Messages(s[next..])); }
  }

  /** Where a message is missing or has no type, no exchange can be. */
  lemma UntypedRefutes(s: Bytes, off: nat, ms: seq<Message>)
    requires Replies.Walked(s, off, ms) && off < |s| <= MAX_MESSAGE && AllExtended(ms)
    requires s[off] == 0 || !FrontendFront(s[off..]).Whole?
    ensures !(Framed(s) && OneExchange(Messages(s)))
  {
    hide FrontOf, FrontendFront, OneExchange, Framed, Messages, Replies.Walked, AllExtended;
    if s[off] != 0 { TypedFronts(s[off..]); }
    if FrontOf(s[off..]).Whole? {
      ZeroTagRefutes(s, off, ms);
    } else {
      Replies.WalkedStuck(s, off, ms);
    }
  }

  /** The message at `off` decides, or is one more extended message. */
  lemma TypedDecides(s: Bytes, off: nat, ms: seq<Message>)
    requires Replies.Walked(s, off, ms) && off < |s| <= MAX_MESSAGE && AllExtended(ms)
    requires s[off] != 0 && FrontendFront(s[off..]).Whole?
    ensures FrontOf(s[off..]) == FrontendFront(s[off..])
    ensures var next, m := off + FrontOf(s[off..]).size, Replies.Here(s, off);
      && Replies.Walked(s, next, ms + [m])
      && (next == |s| ==> (Framed(s) && OneExchange(Messages(s)) <==>
            || (ms == [] && m.tag == QUERY && m.body != [] && m.body[|m.body| - 1] == 0)
            || m == Message(SYNC, [])))
      && (next < |s| && Framed(s) && OneExchange(Messages(s)) ==> Extended(m.tag))
  {
    hide FrontOf, FrontendFront, OneExchange;
    TypedFronts(s[off..]);
    Replies.WalkedNext(s, off, ms);
    var next, m := off + FrontOf(s[off..]).size, Replies.Here(s, off);
    if next == |s| {
      Replies.WalkedEnd(s, ms + [m]);
      ExchangeCases(ms, m, []);
      assert ms + [m] + [] == ms + [m];
    } else if Framed(s) {
      ExchangeCases(ms, m, Messages(s[next..]));
    }
  }

  /** The mobile broker's validator. */
  method ValidateRequest(s: Bytes) returns (ok: bool)
    ensures ok <==> 0 < |s| <= MAX_MESSAGE && Framed(s) && OneExchange(Messages(s))
  {
    hide Framed, Messages, FrontOf, FrontendFront, Replies.Walked, OneExchange;
    if s == [] || |s| > MAX_MESSAGE {
      return false;
    }
    var off := 0;
    ghost var ms: seq<Message> := [];
    Replies.WalkedStart(s);
    while off < |s|
      invariant 0 <= off <= |s| && Replies.Walked(s, off, ms) && AllExtended(ms)
      invariant ms == [] <==> off == 0
      decreases |s| - off
    {
      var front := FrontendFront(s[off..]);
      if !front.Whole? || s[off] == 0 {
        UntypedRefutes(s, off, ms);
        return false;
      }
      TypedDecides(s, off, ms);
      var size := front.size;
      var last := off + size == |s|;
      if s[off] == QUERY && off == 0 && last && size >= 6 && s[off + size - 1] == 0 {
        return true;
      }
      if s[off] == SYNC && last && size == 5 {
        return true;
      }
      if !Extended(s[off]) || last {
        return false;
      }
      ms := ms + [Replies.Here(s, off)];
      off := off + size;
    }
    Replies.WalkedEnd(s, ms);
    ExtendedAlone(ms);
    ok := false;
  }
}
