/**
 * The two ways the runtime recognises the end of a response: an incremental automaton over
 * streamed output and a rescan of buffered output.
 */
module ReadyScan {
  import opened Prelude
  import opened Frames

  const READY: byte := 90
  const COPY_IN: byte := 71
  const ERROR: byte := 69
  const IDLE: byte := 73

  // ---------------------------------------------------------------------------
  // What a byte stream says
  // ---------------------------------------------------------------------------

  /** `at` is the offset just after the deciding byte. */
  datatype Verdict = Pending | Ready(at: nat, status: byte) | Broken(at: nat)

  /** The status byte of a complete ReadyForQuery; an empty body means idle. */
  function StatusOf(frame: Bytes): byte
    requires |frame| >= 5
  {
    if |frame| > 5 then frame[5] else IDLE
  }

  function Later(v: Verdict, by_: nat): Verdict {
    match v
    case Pending => Pending
    case Ready(at, status) => Ready(at + by_, status)
    case Broken(at) => Broken(at + by_)
  }

  /** The first ReadyForQuery or invalid header among the complete messages of `s`. */
  function FirstReady(s: Bytes): (v: Verdict)
    ensures v.Ready? ==> 5 <= v.at <= |s|
    ensures v.Broken? ==> v.at <= |s|
    decreases |s|
  {
    match FrontOf(s)
    case Partial => Pending
    case Malformed => Broken(5)
    case Whole(n) => if s[0] == READY then Ready(n, StatusOf(s[..n])) else Later(FirstReady(s[n..]), n)
  }

  /** The bytes after the last complete message, while nothing is decided. */
  function Remainder(s: Bytes): (r: Bytes)
    requires FirstReady(s).Pending?
    ensures |r| <= |s|
    decreases |s|
  {
    match FrontOf(s)
    case Partial => s
    case Whole(n) => Remainder(s[n..])
  }

  /** COPY mode after the complete messages of `s`, up to the one that ends the response. */
  function CopyAfter(copying: bool, s: Bytes): bool
    decreases |s|
  {
    match FrontOf(s)
    case Whole(n) =>
      if s[0] == READY then false
      else CopyAfter(CopyStep(copying, s[0]), s[n..])
    case _ => copying
  }

  function CopyStep(copying: bool, tag: byte): bool {
    if tag == COPY_IN then true else if tag == ERROR || tag == READY then false else copying
  }

  /** A complete message other than ReadyForQuery only shifts the verdict. */
  lemma PastFront(s: Bytes, n: nat)
    requires FrontOf(s) == Whole(n) && s[0] != READY
    ensures FirstReady(s) == Later(FirstReady(s[n..]), n)
    ensures FirstReady(s).Pending? ==> Remainder(s) == Remainder(s[n..])
  {
    hide FrontOf;
  }

  lemma DecidedAtFront(s: Bytes, more: Bytes)
    requires FrontOf(s).Malformed? || (FrontOf(s).Whole? && s[0] == READY)
    ensures !FirstReady(s).Pending? && FirstReady(s + more) == FirstReady(s)
  {
    hide FrontOf;
    FrontIsStable(s, more);
    if FrontOf(s).Whole? { assert (s + more)[..FrontOf(s).size] == s[..FrontOf(s).size]; }
  }

  lemma OpenFront(s: Bytes)
    requires FrontOf(s).Partial?
    ensures FirstReady(s).Pending? && Remainder(s) == s
  {
    hide FrontOf;
  }

  /** Bytes that are already decided never need to be looked at again. */
  lemma {:induction false} FirstReadyStable(s: Bytes, more: Bytes)
    ensures !FirstReady(s).Pending? ==> FirstReady(s + more) == FirstReady(s)
    ensures FirstReady(s).Pending? ==>
      FirstReady(s + more) == Later(FirstReady(Remainder(s) + more), |s| - |Remainder(s)|)
    decreases |s|
  {
    hide FrontOf, FirstReady, Remainder;
    if FrontOf(s).Partial? {
      OpenFront(s);
    } else if FrontOf(s).Malformed? || s[0] == READY {
      DecidedAtFront(s, more);
    } else {
      var n := FrontOf(s).size;
      FrontIsStable(s, more);
      assert (s + more)[n..] == s[n..] + more;
      PastFront(s, n);
      PastFront(s + more, n);
      FirstReadyStable(s[n..], more);
    }
  }

  lemma {:induction false} RemainderMore(s: Bytes, more: Bytes)
    requires FirstReady(s).Pending? && FirstReady(s + more).Pending?
    ensures FirstReady(Remainder(s) + more).Pending?
    ensures Remainder(s + more) == Remainder(Remainder(s) + more)
    decreases |s|
  {
    hide FrontOf, FirstReady, Remainder;
    if FrontOf(s).Partial? {
      OpenFront(s);
    } else if FrontOf(s).Malformed? || s[0] == READY {
      DecidedAtFront(s, more);
    } else {
      var n := FrontOf(s).size;
      FrontIsStable(s, more);
      assert (s + more)[n..] == s[n..] + more;
      PastFront(s, n);
      PastFront(s + more, n);
      RemainderMore(s[n..], more);
    }
  }

  lemma CopyAfterOpen(copying: bool, s: Bytes)
    requires FrontOf(s).Partial?
    ensures CopyAfter(copying, s) == copying
  {
  }

  lemma SofarNext(start: Bytes, writes: seq<Bytes>, i: nat)
    requires i < |writes|
    ensures start + Concat(writes[..i + 1]) == start + Concat(writes[..i]) + writes[i]
  {
    assert writes[..i + 1] == writes[..i] + [writes[i]];
    ConcatSnoc(writes[..i], writes[i]);
  }

  /** COPY mode, too, can be carried on from where the scan stopped. */
  lemma {:induction false} CopyAfterMore(copying: bool, s: Bytes, more: Bytes)
    requires FirstReady(s).Pending?
    ensures CopyAfter(copying, s + more) == CopyAfter(CopyAfter(copying, s), Remainder(s) + more)
    decreases |s|
  {
    hide FrontOf, FirstReady, Remainder;
    if FrontOf(s).Partial? {
      OpenFront(s);
    } else if FrontOf(s).Malformed? || s[0] == READY {
      DecidedAtFront(s, more);
    } else {
      var n := FrontOf(s).size;
      FrontIsStable(s, more);
      assert (s + more)[n..] == s[n..] + more;
      PastFront(s, n);
      CopyAfterMore(CopyStep(copying, s[0]), s[n..], more);
    }
  }

  lemma FirstReadySkips(m: Message, rest: Bytes)
    requires Sized(m) && m.tag != READY
    ensures FirstReady(Encode(m) + rest) == Later(FirstReady(rest), 5 + |m.body|)
  {
    hide FrontOf, Encode;
    FrontOfEncoded(m, rest);
  }

  lemma FirstReadyStops(m: Message, rest: Bytes)
    requires Sized(m) && m.tag == READY
    ensures FirstReady(Encode(m) + rest) == Ready(5 + |m.body|, if m.body == [] then IDLE else m.body[0])
  {
    hide FrontOf, Encode;
    FrontOfEncoded(m, rest);
    assert m.body != [] ==> Encode(m)[5..][0] == Encode(m)[5];
  }

  /**
   * Against the messages themselves: whatever precedes it, the first ReadyForQuery decides, at its
   * last byte, with its first body byte.
   */
  lemma {:induction false} FirstReadyOfMessages(before: seq<Message>, ready: Message, rest: Bytes)
    requires forall i :: 0 <= i < |before| ==> Sized(before[i]) && before[i].tag != READY
    requires Sized(ready) && ready.tag == READY
    ensures FirstReady(EncodeMessages(before) + Encode(ready) + rest) ==
      Ready(|EncodeMessages(before)| + 5 + |ready.body|, if ready.body == [] then IDLE else ready.body[0])
  {
    hide FirstReady, Encode;
    var s := EncodeMessages(before) + Encode(ready) + rest;
    if before == [] {
      assert s == Encode(ready) + rest;
      FirstReadyStops(ready, rest);
    } else {
      FirstReadyOfMessages(before[1..], ready, rest);
      var tail := EncodeMessages(before[1..]) + Encode(ready) + rest;
      assert s == Encode(before[0]) + tail;
      FirstReadySkips(before[0], tail);
    }
  }

  // ---------------------------------------------------------------------------
  // The streaming scanner
  // ---------------------------------------------------------------------------

  /** Scanning `rest` in COPY mode `now` is all that is left of scanning `whole` from `before`. */
  ghost predicate Continues(whole: Bytes, before: bool, rest: Bytes, now: bool) {
    && |rest| <= |whole|
    && FirstReady(whole) == Later(FirstReady(rest), |whole| - |rest|)
    && (FirstReady(whole).Pending? ==> Remainder(whole) == Remainder(rest))
    && CopyAfter(before, whole) == CopyAfter(now, rest)
  }

  /** A complete message other than ReadyForQuery can be dropped from the front. */
  lemma ContinuesPast(whole: Bytes, before: bool, done: Bytes, more: Bytes, now: bool)
    requires Continues(whole, before, done + more, now)
    requires FrontOf(done) == Whole(|done|) && done[0] != READY
    ensures Continues(whole, before, more, CopyStep(now, done[0]))
  {
    hide FrontOf;
    FrontIsStable(done, more);
    assert (done + more)[|done|..] == more;
  }

  lemma ContinuesSelf(whole: Bytes, before: bool)
    ensures Continues(whole, before, whole, before)
  {
  }

  lemma ContinuesEnd(whole: Bytes, before: bool, rest: Bytes, now: bool)
    requires Continues(whole, before, rest, now) && FrontOf(rest).Partial?
    ensures FirstReady(whole).Pending? && Remainder(whole) == rest && CopyAfter(before, whole) == now
  {
    hide FrontOf;
  }

  lemma VerdictHere(whole: Bytes, before: bool, done: Bytes, more: Bytes, now: bool)
    requires Continues(whole, before, done + more, now) && !FrontOf(done).Partial?
    requires FrontOf(done).Whole? ==> FrontOf(done) == Whole(|done|) && done[0] == READY
    ensures FrontOf(done).Whole? ==> FirstReady(whole).Ready? && FirstReady(whole).status == StatusOf(done)
    ensures FrontOf(done).Whole? ==> !CopyAfter(before, whole)
    ensures FrontOf(done).Malformed? ==> FirstReady(whole).Broken? && CopyAfter(before, whole) == now
  {
    hide FrontOf;
    FrontIsStable(done, more);
    assert (done + more)[..|done|] == done;
  }

  /** An incremental scanner: it keeps at most five header bytes and one status byte. */
  class StreamScanner {
    var header: Bytes
    var tag: byte
    var payloadRemaining: nat
    var readyStatus: byte
    var readyStatusSet: bool
    /** Fields of the session the scanner updates. */
    var transactionStatus: byte
    var copyInput: bool
    var streamFailed: bool
    /** The bytes of the message in progress. */
    ghost var pending: Bytes

    /** The scanner holds exactly what it needs of `pending`. */
    ghost predicate Valid()
      reads this
    {
      && FrontOf(pending).Partial?
      && header == pending[..Min(5, |pending|)]
      && (|pending| < 5 ==> payloadRemaining == 0)
      && (|pending| >= 5 ==>
            && tag == pending[0] && payloadRemaining == 1 + Length(pending) - |pending|)
      && (readyStatusSet <==> |pending| > 5 && pending[0] == READY)
      && (readyStatusSet ==> readyStatus == pending[5])
    }

    constructor ()
      ensures Valid() && pending == [] && !copyInput && !streamFailed
    {
      header, tag, payloadRemaining, readyStatus, readyStatusSet := [], 0, 0, 0, false;
      transactionStatus, copyInput, streamFailed := IDLE, false, false;
      pending := [];
    }

    method Reset()
      modifies this`header, this`tag, this`payloadRemaining, this`readyStatus, this`readyStatusSet, this`pending
      ensures Valid() && pending == []
    {
      header, tag, payloadRemaining, readyStatus, readyStatusSet := [], 0, 0, 0, false;
      pending := [];
    }

    /** A message is complete: COPY mode and, for ReadyForQuery, the transaction status. */
    method Complete() returns (ready: bool)
      requires FrontOf(pending) == Whole(|pending|) && tag == pending[0]
      requires readyStatusSet <==> |pending| > 5 && pending[0] == READY
      requires readyStatusSet ==> readyStatus == pending[5]
      modifies this
      ensures Valid() && pending == [] && streamFailed == old(streamFailed)
      ensures copyInput == CopyStep(old(copyInput), old(pending)[0])
      ensures ready <==> old(pending)[0] == READY
      ensures transactionStatus == if ready then StatusOf(old(pending)) else old(transactionStatus)
    {
      ready := tag == READY;
      if tag == COPY_IN { copyInput := true; }
      if tag == ERROR || ready { copyInput := false; }
      if ready { transactionStatus := if readyStatusSet then readyStatus else IDLE; }
      Reset();
    }

    /** The message in progress, header facts only. */
    ghost predicate Holds()
      reads this
    {
      && |pending| >= 5 && Length(pending) >= 4 && header == pending[..5] && tag == pending[0]
      && payloadRemaining == 1 + Length(pending) - |pending|
      && (readyStatusSet <==> |pending| > 5 && pending[0] == READY)
      && (readyStatusSet ==> readyStatus == pending[5])
    }

    /** Header bytes up to the fifth, then the tag and the length; false when the length is invalid. */
    method TakeHeader(bytes: Bytes) returns (valid: bool)
      requires Valid() && |header| < 5 && |header| + |bytes| <= 5
      modifies this`header, this`pending, this`tag, this`payloadRemaining
      ensures pending == old(pending) + bytes
      ensures valid <==> !FrontOf(pending).Malformed?
      ensures |pending| < 5 ==> Valid()
      ensures valid && |pending| == 5 ==> Holds()
    {
      header := header + bytes;
      pending := pending + bytes;
      if |header| < 5 {
        return true;
      }
      tag := header[0];
      var length := Number(header[1..5]);
      if length < 4 {
        return false;
      }
      payloadRemaining := length - 4;
      valid := true;
    }

    method TakePayload(bytes: Bytes)
      requires Holds() && |bytes| <= payloadRemaining
      modifies this`pending, this`payloadRemaining, this`readyStatus, this`readyStatusSet
      ensures pending == old(pending) + bytes && Holds()
    {
      if tag == READY && !readyStatusSet && |bytes| > 0 {
        readyStatus, readyStatusSet := bytes[0], true;
      }
      payloadRemaining := payloadRemaining - |bytes|;
      assert (pending + bytes)[1..5] == pending[1..5];
      pending := pending + bytes;
    }

    /** What `Scan` promises of a report. */
    ghost predicate Reported(v: Verdict, copying: bool, status: byte, failed: bool)
      reads this
    {
      && !v.Pending? && copyInput == copying && streamFailed == (failed || v.Broken?)
      && transactionStatus == (if v.Ready? then v.status else status)
      && (v.Ready? ==> Valid() && pending == [])
    }

    /** A message whose last byte has been taken: it is reported, or dropped and scanning goes on. */
    method Finish(ghost whole: Bytes, ghost before: bool, ghost rest: Bytes) returns (ready: bool)
      requires Holds() && payloadRemaining == 0 && Continues(whole, before, pending + rest, copyInput)
      modifies this
      ensures ready ==> Reported(FirstReady(whole), CopyAfter(before, whole), old(transactionStatus), old(streamFailed))
      ensures !ready ==> Valid() && Continues(whole, before, pending + rest, copyInput)
      ensures !ready ==> transactionStatus == old(transactionStatus) && streamFailed == old(streamFailed)
      ensures pending == []
    {
      hide Continues, FirstReady, CopyAfter;
      ghost var done, now := pending, copyInput;
      ready := Complete();
      if ready {
        VerdictHere(whole, before, done, rest, now);
      } else {
        ContinuesPast(whole, before, done, rest, now);
        assert [] + rest == rest;
      }
    }

    /** Between two reads of the buffer: nothing reported yet, `rest` still to come. */
    ghost predicate Scanning(whole: Bytes, before: bool, rest: Bytes, status: byte, failed: bool)
      reads this
    {
      Valid() && Continues(whole, before, pending + rest, copyInput) && transactionStatus == status &&
        streamFailed == failed
    }

    /** The header part of one round; `next` bytes of `buf` have been taken. */
    method ScanHeader(buf: Bytes, ghost whole: Bytes, ghost before: bool) returns (next: nat, reported: bool)
      requires |header| < 5 && buf != [] && Scanning(whole, before, buf, transactionStatus, streamFailed)
      modifies this
      ensures 0 < next <= |buf|
      ensures reported ==>
        Reported(FirstReady(whole), CopyAfter(before, whole), old(transactionStatus), old(streamFailed))
      ensures !reported ==> Scanning(whole, before, buf[next..], old(transactionStatus), old(streamFailed))
    {
      hide Continues, FirstReady, CopyAfter, Number, Remainder;
      next := Min(|buf|, 5 - |header|);
      assert pending + buf == pending + buf[..next] + buf[next..];
      var valid := TakeHeader(buf[..next]);
      reported := false;
      if !valid {
        VerdictHere(whole, before, pending, buf[next..], copyInput);
        streamFailed, reported := true, true;
      } else if |header| == 5 && payloadRemaining == 0 {
        reported := Finish(whole, before, buf[next..]);
      }
    }

    method ScanPayload(buf: Bytes, ghost whole: Bytes, ghost before: bool) returns (next: nat, reported: bool)
      requires payloadRemaining > 0 && Scanning(whole, before, buf, transactionStatus, streamFailed)
      modifies this
      ensures 0 <= next <= |buf| && (buf != [] ==> next > 0)
      ensures reported ==>
        Reported(FirstReady(whole), CopyAfter(before, whole), old(transactionStatus), old(streamFailed))
      ensures !reported ==> Scanning(whole, before, buf[next..], old(transactionStatus), old(streamFailed))
    {
      hide Continues, FirstReady, CopyAfter, Number, Remainder;
      next := Min(|buf|, payloadRemaining);
      assert pending + buf == pending + buf[..next] + buf[next..];
      TakePayload(buf[..next]);
      reported := false;
      if payloadRemaining == 0 {
        reported := Finish(whole, before, buf[next..]);
      }
    }

    /**
     * Whatever the scanner has seen before, a write is reported exactly when it completes the first
     * ReadyForQuery (with its status) or the first invalid header (which fails the stream).
     */
    method Scan(buf: Bytes) returns (reported: bool)
      requires Valid()
      modifies this
      ensures var v := FirstReady(old(pending) + buf);
        && (reported <==> !v.Pending?)
        && streamFailed == (old(streamFailed) || v.Broken?)
        && transactionStatus == (if v.Ready? then v.status else old(transactionStatus))
        && (v.Pending? ==> Valid() && pending == Remainder(old(pending) + buf))
        && (v.Ready? ==> Valid() && pending == [])
      ensures copyInput == CopyAfter(old(copyInput), old(pending) + buf)
    {
      hide Continues, FirstReady, CopyAfter, Number, Remainder, Length;
      ghost var whole, before := pending + buf, copyInput;
      var left := buf;
      ContinuesSelf(whole, before);
      while left != []
        invariant Scanning(whole, before, left, old(transactionStatus), old(streamFailed))
        decreases |left|
      {
        if |header| < 5 {
          var next, done := ScanHeader(left, whole, before);
          if done {
            return true;
          }
          left := left[next..];
        }
        if payloadRemaining > 0 {
          var next, done := ScanPayload(left, whole, before);
          if done {
            return true;
          }
          left := left[next..];
        }
      }
      assert pending + left == pending;
      ContinuesEnd(whole, before, pending, copyInput);
      reported := false;
    }

    /** Successive writes, up to the first one reported. */
    method ScanAll(writes: seq<Bytes>) returns (r: Option<nat>)
      requires Valid() && !streamFailed
      modifies this
      ensures var spec := StreamReport(old(pending), writes);
        && (r.Some? <==> spec.Some?)
        && (r.Some? ==> r.value == spec.value.write && streamFailed == spec.value.verdict.Broken?)
        && (r.Some? && !streamFailed ==> spec.value.verdict.Ready? && transactionStatus == spec.value.verdict.status)
      ensures r.Some? ==> r.value < |writes|
      ensures var seen := if r.Some? then writes[..r.value + 1] else writes;
        copyInput == CopyAfter(old(copyInput), old(pending) + Concat(seen))
    {
      hide FirstReady, CopyAfter, Remainder, FrontOf;
      ghost var start := pending;
      var i := 0;
      assert writes[0..] == writes;
      assert start + Concat(writes[..0]) == start;
      OpenFront(start);
      CopyAfterOpen(copyInput, start);
      while i < |writes|
        invariant 0 <= i <= |writes| && Valid() && !streamFailed
        invariant var sofar := start + Concat(writes[..i]);
          FirstReady(sofar).Pending? && pending == Remainder(sofar) && copyInput == CopyAfter(old(copyInput), sofar)
        invariant StreamReport(start, writes) == Delayed(StreamReport(pending, writes[i..]), i)
      {
        assert writes[i..][0] == writes[i] && writes[i..][1..] == writes[i + 1..];
        ghost var sofar := start + Concat(writes[..i]);
        SofarNext(start, writes, i);
        CopyAfterMore(old(copyInput), sofar, writes[i]);
        FirstReadyStable(sofar, writes[i]);
        var reported := Scan(writes[i]);
        if reported {
          return Some(i);
        }
        RemainderMore(sofar, writes[i]);
        DelayedOnce(StreamReport(pending, writes[i + 1..]), i);
        i := i + 1;
      }
      assert writes[..i] == writes;
      r := None;
    }
  }

  // ---------------------------------------------------------------------------
  // The buffered scanner
  // ---------------------------------------------------------------------------

  /** `off` is reached from the start over complete messages, none of them ReadyForQuery. */
  predicate Boundary(s: Bytes, off: nat)
    decreases |s|
  {
    off == 0 ||
    match FrontOf(s)
    case Whole(n) => s[0] != READY && n <= off && Boundary(s[n..], off - n)
    case _ => false
  }

  lemma {:induction false} BoundaryVerdict(s: Bytes, off: nat)
    requires Boundary(s, off)
    ensures off <= |s| && FirstReady(s) == Later(FirstReady(s[off..]), off)
    decreases |s|
  {
    hide FrontOf;
    if off > 0 {
      var n := FrontOf(s).size;
      BoundaryVerdict(s[n..], off - n);
      assert s[n..][off - n..] == s[off..];
    } else {
      assert s[0..] == s;
    }
  }

  lemma {:induction false} BoundaryMore(s: Bytes, more: Bytes, off: nat)
    requires Boundary(s, off)
    ensures Boundary(s + more, off)
    decreases |s|
  {
    hide FrontOf;
    if off > 0 {
      var n := FrontOf(s).size;
      FrontIsStable(s, more);
      BoundaryMore(s[n..], more, off - n);
      assert (s + more)[n..] == s[n..] + more;
    }
  }

  lemma {:induction false} BoundaryNext(s: Bytes, off: nat, n: nat)
    requires Boundary(s, off) && off <= |s| && FrontOf(s[off..]) == Whole(n) && s[off..][0] != READY
    ensures Boundary(s, off + n)
    decreases |s|
  {
    hide FrontOf;
    if off == 0 {
      assert s[0..] == s;
    } else {
      var m := FrontOf(s).size;
      assert s[m..][off - m..] == s[off..];
      BoundaryVerdict(s[m..], off - m);
      BoundaryNext(s[m..], off - m, n);
    }
  }

  /** The front of the output at `off`, as the rescan computes it. */
  lemma FrontAt(s: Bytes, off: nat)
    requires off + 5 <= |s|
    ensures var n, t := Number(s[off + 1..off + 5]), s[off..];
      && FrontOf(t) == (if n < 4 then Malformed else if 1 + n > |t| then Partial else Whole(1 + n))
      && t[0] == s[off] && (|t| > 5 ==> t[5] == s[off + 5])
  {
    hide Number;
    assert s[off..][1..5] == s[off + 1..off + 5];
  }

  lemma ShortIsPartial(s: Bytes)
    requires |s| < 5
    ensures FrontOf(s).Partial?
  {
  }

  lemma NothingIsPending()
    ensures FirstReady([]).Pending? && Remainder([]) == []
  {
  }

  /** What lies behind an offset; nothing, if the offset is past the end. */
  function Behind(output: Bytes, off: nat): Bytes { if off <= |output| then output[off..] else [] }

  /**
   * Output collected for a buffered call. Once the response has been copied out the output is empty but the saved
   * offset stays, so it can lie past the end until the next query begins.
   */
  class OutputBuffer {
    var output: Bytes
    var scanOff: nat
    var outputReady: bool
    var transactionStatus: byte

    ghost predicate Valid()
      reads this
    {
      if outputReady then scanOff > 0 else scanOff <= |output| && Boundary(output, scanOff)
    }

    constructor ()
      ensures Valid() && output == [] && !outputReady
    {
      output, scanOff, outputReady, transactionStatus := [], 0, false, IDLE;
    }

    /**
     * One rescan from the saved offset. Only a scan that ends with fewer than five bytes left over
     * saves its position; one that stops at a partial or invalid message starts from the old one again,
     * and says false even when an earlier scan had said true.
     */
    method Scan() returns (ready: bool)
      requires Valid()
      modifies this`scanOff, this`outputReady, this`transactionStatus
      ensures Valid()
      ensures var rest := Behind(output, old(scanOff)); var v := FirstReady(rest);
        && (v.Ready? ==> ready && outputReady && transactionStatus == v.status && scanOff == old(scanOff) + v.at)
        && (!v.Ready? ==> outputReady == old(outputReady) && transactionStatus == old(transactionStatus))
        && (v.Broken? ==> !ready && scanOff == old(scanOff))
        && (v.Pending? ==> var left := |Remainder(rest)|;
              && ready == (outputReady && left < 5)
              && scanOff == if left < 5 then old(scanOff) + |rest| - left else old(scanOff))
    {
      hide FirstReady, Boundary, Number, Remainder, FrontOf, Sees;
      if scanOff > |output| {
        NothingIsPending();
        return outputReady;
      }
      ghost var rest := output[scanOff..];
      SeesSelf(rest);
      var off := scanOff;
      while off + 5 <= |output|
        invariant scanOff == old(scanOff) <= off <= |output|
        invariant outputReady == old(outputReady) && transactionStatus == old(transactionStatus)
        invariant Sees(rest, output[off..], off - scanOff)
        invariant !outputReady ==> Boundary(output, off)
      {
        var tag, length := output[off], Number(output[off + 1..off + 5]);
        FrontAt(output, off);
        if length < 4 {
          SeesMalformed(rest, output[off..], off - scanOff);
          return false;
        }
        var size := 1 + length;
        if size > |output| - off {
          SeesPartial(rest, output[off..], off - scanOff);
          return false;
        }
        if tag == READY {
          SeesReady(rest, output[off..], off - scanOff);
          transactionStatus := if length >= 5 then output[off + 5] else IDLE;
          outputReady := true;
          scanOff := off + size;
          return true;
        }
        SeesPast(rest, output[off..], off - scanOff, size);
        if !outputReady { BoundaryNext(output, off, size); }
        assert output[off..][size..] == output[off + size..];
        off := off + size;
      }
      ShortIsPartial(output[off..]);
      SeesPartial(rest, output[off..], off - scanOff);
      scanOff := off;
      ready := outputReady;
    }

    /**
     * A backend write while no stream is open. Until the first report it is judged by all the output; after it,
     * by what lies behind the saved offset, and a long enough partial message there denies the report. That offset
     * is the end of the reported message, unless the response has been copied out: then the write is skipped until
     * the output has grown past the offset again, and is read from there, wherever in a message that is.
     */
    method Write(buf: Bytes) returns (ready: bool)
      requires Valid()
      modifies this
      ensures Valid() && output == old(output) + buf
      ensures !old(outputReady) ==> var v := FirstReady(output);
        && (ready <==> v.Ready?) && outputReady == ready && (ready ==> scanOff == v.at)
        && transactionStatus == (if v.Ready? then v.status else old(transactionStatus))
      ensures old(outputReady) ==> outputReady
      ensures old(outputReady) ==> var rest := Behind(output, old(scanOff)); var v := FirstReady(rest);
        && (ready <==> v.Ready? || (v.Pending? && |Remainder(rest)| < 5))
        && transactionStatus == (if v.Ready? then v.status else old(transactionStatus))
        && scanOff == match v
                      case Ready(at, _) => old(scanOff) + at
                      case Broken(_) => old(scanOff)
                      case Pending =>
                        if |Remainder(rest)| < 5 then old(scanOff) + |rest| - |Remainder(rest)| else old(scanOff)
    {
      hide FirstReady, Boundary, Remainder;
      if !outputReady {
        BoundaryMore(output, buf, scanOff);
        BoundaryVerdict(output + buf, scanOff);
      }
      output := output + buf;
      ready := Scan();
    }

    /** The response is handed out once it is complete; only the output is emptied. */
    method CopyOut() returns (response: Bytes)
      requires Valid() && outputReady
      modifies this`output
      ensures Valid() && response == old(output) && output == [] && scanOff > 0
    {
      response := output;
      output := [];
    }

    /** The next query: whatever was left over, its response is judged by its own bytes alone. */
    method Answer(writes: seq<Bytes>) returns (r: Option<nat>)
      modifies this
      ensures Valid()
      ensures var spec := BufferReport([], writes);
        && (r.Some? <==> spec.Some?)
        && (r.Some? ==> r.value == spec.value.write)
        && (r.Some? ==> spec.value.verdict.Ready? && transactionStatus == spec.value.verdict.status)
    {
      output, scanOff, outputReady := [], 0, false;
      r := WriteAll(writes);
    }

    /** Successive writes, up to the first one reported. */
    method WriteAll(writes: seq<Bytes>) returns (r: Option<nat>)
      requires Valid() && !outputReady
      modifies this
      ensures Valid()
      ensures var spec := BufferReport(old(output), writes);
        && (r.Some? <==> spec.Some?)
        && (r.Some? ==> r.value == spec.value.write)
        && (r.Some? ==> spec.value.verdict.Ready? && transactionStatus == spec.value.verdict.status)
    {
      hide FirstReady, Boundary;
      ghost var start := output;
      var i := 0;
      assert writes[0..] == writes;
      while i < |writes|
        invariant 0 <= i <= |writes| && Valid() && !outputReady
        invariant BufferReport(start, writes) == Delayed(BufferReport(output, writes[i..]), i)
      {
        assert writes[i..][0] == writes[i] && writes[i..][1..] == writes[i + 1..];
        ghost var before := output;
        var ready := Write(writes[i]);
        if ready {
          return Some(i);
        }
        DelayedOnce(BufferReport(output, writes[i + 1..]), i);
        i := i + 1;
      }
      r := None;
    }
  }

  /** `rest`, `off` bytes on, is all that is left of scanning `whole`. */
  ghost predicate Sees(whole: Bytes, rest: Bytes, off: nat) {
    && FirstReady(whole) == Later(FirstReady(rest), off)
    && (FirstReady(whole).Pending? ==> Remainder(whole) == Remainder(rest))
  }

  lemma SeesSelf(whole: Bytes)
    ensures Sees(whole, whole, 0)
  {
  }

  lemma SeesPast(whole: Bytes, rest: Bytes, off: nat, n: nat)
    requires Sees(whole, rest, off) && FrontOf(rest) == Whole(n) && rest[0] != READY
    ensures Sees(whole, rest[n..], off + n)
  {
    hide FrontOf;
  }

  lemma SeesMalformed(whole: Bytes, rest: Bytes, off: nat)
    requires Sees(whole, rest, off) && FrontOf(rest).Malformed?
    ensures FirstReady(whole).Broken?
  {
    hide FrontOf;
  }

  lemma SeesPartial(whole: Bytes, rest: Bytes, off: nat)
    requires Sees(whole, rest, off) && FrontOf(rest).Partial?
    ensures FirstReady(whole).Pending? && Remainder(whole) == rest
  {
    hide FrontOf;
  }

  lemma SeesReady(whole: Bytes, rest: Bytes, off: nat)
    requires Sees(whole, rest, off) && FrontOf(rest).Whole? && rest[0] == READY
    ensures var n := FrontOf(rest).size; FirstReady(whole) == Ready(n + off, if n > 5 then rest[5] else IDLE)
  {
    hide FrontOf;
  }

  // ---------------------------------------------------------------------------
  // Both scanners, over any sequence of writes
  // ---------------------------------------------------------------------------

  /** The write that is reported first, and how. */
  datatype Report = Report(write: nat, verdict: Verdict)

  /** The streaming scanner over successive writes, as `StreamScanner.Scan` specifies each. */
  function StreamReport(pending: Bytes, writes: seq<Bytes>): Option<Report>
    decreases |writes|
  {
    if writes == [] then None
    else
      var v := FirstReady(pending + writes[0]);
      if v.Pending? then OneLater(StreamReport(Remainder(pending + writes[0]), writes[1..]))
      else Some(Report(0, v))
  }

  /** The buffered scanner over successive writes, as `OutputBuffer.Write` specifies each. */
  function BufferReport(output: Bytes, writes: seq<Bytes>): Option<Report>
    decreases |writes|
  {
    if writes == [] then None
    else
      var v := FirstReady(output + writes[0]);
      if v.Ready? then Some(Report(0, v)) else OneLater(BufferReport(output + writes[0], writes[1..]))
  }

  function OneLater(r: Option<Report>): Option<Report> {
    if r.None? then None else Some(Report(r.value.write + 1, r.value.verdict))
  }

  function Delayed(r: Option<Report>, by_: nat): Option<Report> {
    if r.None? then None else Some(Report(r.value.write + by_, r.value.verdict))
  }

  lemma DelayedOnce(r: Option<Report>, by_: nat)
    ensures Delayed(OneLater(r), by_) == Delayed(r, by_ + 1)
  {
  }

  /** Byte `at` of the output, counted from one, is in write `n`. */
  ghost predicate Covers(writes: seq<Bytes>, n: nat, at: nat) {
    n < |writes| && |Concat(writes[..n])| < at <= |Concat(writes[..n + 1])|
  }

  lemma {:induction false} RemainderIsPartial(s: Bytes)
    requires FirstReady(s).Pending?
    ensures FrontOf(Remainder(s)).Partial?
    decreases |s|
  {
    hide FrontOf;
    if FrontOf(s).Whole? { RemainderIsPartial(s[FrontOf(s).size..]); }
  }

  /** A decision is never made by bytes that had left it open. */
  lemma DecidedLater(sofar: Bytes, more: Bytes)
    requires FirstReady(sofar).Pending? && !FirstReady(sofar + more).Pending?
    ensures FirstReady(sofar + more).at > |sofar|
  {
    hide FirstReady, Remainder, FrontOf;
    FirstReadyStable(sofar, more);
    RemainderIsPartial(sofar);
    PartialIsLate(Remainder(sofar), more);
  }

  lemma PartialIsLate(s: Bytes, more: Bytes)
    requires FrontOf(s).Partial? && !FirstReady(s + more).Pending?
    ensures FirstReady(s + more).at > |s|
  {
    hide Number;
    if |s| >= 5 { assert (s + more)[1..5] == s[1..5]; }
  }

  /** What a scanner should report, judged by the whole output. */
  ghost predicate RightReport(writes: seq<Bytes>, before: nat, v: Verdict, r: Option<Report>) {
    match v
    case Pending => r.None?
    case Ready(at, status) =>
      r.Some? && r.value.verdict.Ready? && r.value.verdict.status == status && at > before &&
        Covers(writes, r.value.write, at - before)
    case Broken(at) => r.Some? && r.value.verdict.Broken? && at > before && Covers(writes, r.value.write, at - before)
  }

  lemma CoversLater(writes: seq<Bytes>, n: nat, at: nat)
    requires writes != [] && Covers(writes[1..], n, at)
    ensures Covers(writes, n + 1, |writes[0]| + at)
  {
    assert writes[..n + 1][1..] == writes[1..][..n];
    assert writes[..n + 2][1..] == writes[1..][..n + 1];
  }

  lemma CoversFirst(writes: seq<Bytes>, at: nat)
    requires writes != [] && 0 < at <= |writes[0]|
    ensures Covers(writes, 0, at)
  {
    assert writes[..1][1..] == [];
    assert Concat(writes[..1]) == writes[0] + Concat([]);
  }

  lemma {:induction false} StreamReportIsRight(sofar: Bytes, writes: seq<Bytes>)
    requires FirstReady(sofar).Pending?
    ensures RightReport(writes, |sofar|, FirstReady(sofar + Concat(writes)), StreamReport(Remainder(sofar), writes))
    decreases |writes|
  {
    hide FirstReady, Remainder, Covers;
    if writes == [] {
      assert sofar + Concat(writes) == sofar;
    } else {
      var w := writes[0];
      var rest := Concat(writes[1..]);
      assert sofar + Concat(writes) == (sofar + w) + rest;
      FirstReadyStable(sofar, w);
      FirstReadyStable(sofar + w, rest);
      if FirstReady(sofar + w).Pending? {
        RemainderMore(sofar, w);
        StreamReportIsRight(sofar + w, writes[1..]);
        ReportLater(writes, |sofar|, FirstReady(sofar + w + rest), StreamReport(Remainder(sofar + w), writes[1..]));
      } else {
        DecidedLater(sofar, w);
        FirstReadyBound(sofar + w);
        CoversFirst(writes, FirstReady(sofar + w).at - |sofar|);
      }
    }
  }

  lemma FirstReadyBound(s: Bytes)
    ensures !FirstReady(s).Pending? ==> FirstReady(s).at <= |s|
  {
  }

  lemma ReportLater(writes: seq<Bytes>, before: nat, v: Verdict, r: Option<Report>)
    requires writes != [] && RightReport(writes[1..], before + |writes[0]|, v, r)
    ensures RightReport(writes, before, v, OneLater(r))
  {
    hide Covers;
    if !v.Pending? { CoversLater(writes, r.value.write, v.at - before - |writes[0]|); }
  }

  /** Once a header is invalid the buffered scanner never reports again. */
  lemma {:induction false} BrokenNeverReports(output: Bytes, writes: seq<Bytes>)
    requires FirstReady(output).Broken?
    ensures BufferReport(output, writes).None?
    decreases |writes|
  {
    hide FirstReady;
    if writes != [] {
      FirstReadyStable(output, writes[0]);
      BrokenNeverReports(output + writes[0], writes[1..]);
    }
  }

  lemma {:induction false} BufferReportIsRight(sofar: Bytes, writes: seq<Bytes>)
    requires FirstReady(sofar).Pending?
    ensures var v, r := FirstReady(sofar + Concat(writes)), BufferReport(sofar, writes);
      if v.Broken? then r.None? else RightReport(writes, |sofar|, v, r)
    decreases |writes|
  {
    hide FirstReady, Covers;
    if writes == [] {
      assert sofar + Concat(writes) == sofar;
    } else {
      var w := writes[0];
      var rest := Concat(writes[1..]);
      assert sofar + Concat(writes) == (sofar + w) + rest;
      FirstReadyStable(sofar + w, rest);
      if FirstReady(sofar + w).Pending? {
        BufferReportIsRight(sofar + w, writes[1..]);
        if !FirstReady(sofar + w + rest).Broken? {
          ReportLater(writes, |sofar|, FirstReady(sofar + w + rest), BufferReport(sofar + w, writes[1..]));
        }
      } else {
        if FirstReady(sofar + w).Broken? { BrokenNeverReports(sofar + w, writes[1..]); }
        DecidedLater(sofar, w);
        FirstReadyBound(sofar + w);
        CoversFirst(writes, FirstReady(sofar + w).at - |sofar|);
      }
    }
  }

  /**
   * However the backend cuts its output into writes, the two scanners agree: a ReadyForQuery is reported
   * by both, on the same write, the one holding its last byte, with the same status. They differ only on
   * an invalid header, which the streaming scanner fails on and the buffered scanner waits on for ever.
   */
  lemma ScannersAgree(writes: seq<Bytes>)
    ensures var v := FirstReady(Concat(writes));
      && RightReport(writes, 0, v, StreamReport([], writes))
      && (if v.Broken? then BufferReport([], writes).None? else RightReport(writes, 0, v, BufferReport([], writes)))
      && (v.Ready? ==> StreamReport([], writes).value.write == BufferReport([], writes).value.write)
  {
    hide RightReport, StreamReport, BufferReport;
    assert FirstReady([]).Pending? && Remainder([]) == [];
    assert [] + Concat(writes) == Concat(writes);
    StreamReportIsRight([], writes);
    BufferReportIsRight([], writes);
    SameWrite(writes);
  }

  lemma SameWrite(writes: seq<Bytes>)
    requires RightReport(writes, 0, FirstReady(Concat(writes)), StreamReport([], writes))
    requires !FirstReady(Concat(writes)).Broken? ==>
      RightReport(writes, 0, FirstReady(Concat(writes)), BufferReport([], writes))
    ensures FirstReady(Concat(writes)).Ready? ==>
      StreamReport([], writes).value.write == BufferReport([], writes).value.write
  {
    hide FirstReady, StreamReport, BufferReport;
    var v := FirstReady(Concat(writes));
    if v.Ready? {
      var a, b := StreamReport([], writes).value.write, BufferReport([], writes).value.write;
      if a < b { PrefixGrows(writes, a + 1, b); }
      if b < a { PrefixGrows(writes, b + 1, a); }
    }
  }

  lemma PrefixGrows(writes: seq<Bytes>, a: nat, b: nat)
    requires a <= b <= |writes|
    ensures |Concat(writes[..a])| <= |Concat(writes[..b])|
  {
    assert writes[..b] == writes[..a] + writes[a..b];
    ConcatAppend(writes[..a], writes[a..b]);
  }

  // ReadyForQuery, idle; and the header of a message of which nothing else has arrived.
  const READY_IDLE: Bytes := [90, 0, 0, 0, 5, 73]
  const OPEN_HEADER: Bytes := [82, 0, 0, 0, 8]

  lemma ReadyIdleIsReady()
    ensures FirstReady(READY_IDLE) == Ready(6, 73)
  {
    var s := READY_IDLE;
    assert |s| == 6 && s[1..5] == [s[1], s[2], s[3], s[4]] == [0, 0, 0, 5];
    assert Number([0, 0, 0, 5]) == 5;
    assert FrontOf(s) == Whole(6);
    assert s[..6] == s;
  }

  /** A ReadyForQuery is 'Z'; one without a status counts as idle, 'I'. */
  lemma BareReadyIsIdle()
    ensures FirstReady([90, 0, 0, 0, 4]) == Ready(5, 73)
  {
    var s := [90, 0, 0, 0, 4];
    assert s[1..5] == [0, 0, 0, 4];
    assert Number([0, 0, 0, 4]) == 4;
    assert FrontOf(s) == Whole(5) && s[..5] == s;
  }

  lemma OpenHeaderIsOpen()
    ensures FirstReady(OPEN_HEADER).Pending? && Remainder(OPEN_HEADER) == OPEN_HEADER && |OPEN_HEADER| == 5
  {
    var s := OPEN_HEADER;
    assert |s| == 5 && s[1..5] == [s[1], s[2], s[3], s[4]] == [0, 0, 0, 8];
    assert Number([0, 0, 0, 8]) == 8;
    assert FrontOf(s) == Partial;
  }

  /** A ReadyForQuery is reported; five bytes of a longer message follow, and the next scan denies it. */
  method LeftoverHidesReady() returns (first: bool, second: bool, stillReady: bool)
    ensures first && !second && stillReady
  {
    hide FirstReady, Remainder, Boundary;
    ReadyIdleIsReady();
    OpenHeaderIsOpen();
    var buffer := new OutputBuffer();
    assert [] + READY_IDLE == READY_IDLE && READY_IDLE[0..] == READY_IDLE;
    first := buffer.Write(READY_IDLE);
    assert buffer.scanOff == 6;
    assert (READY_IDLE + OPEN_HEADER)[6..] == OPEN_HEADER;
    second := buffer.Write(OPEN_HEADER);
    stillReady := buffer.outputReady;
  }

  // A message of twelve bytes that is no ReadyForQuery; its last six look like one.
  const LATE_MESSAGE: Bytes := [83, 0, 0, 0, 11, 0, 90, 0, 0, 0, 5, 69]

  lemma LateMessageIsPending()
    ensures FirstReady(LATE_MESSAGE).Pending? && FirstReady(LATE_MESSAGE[6..]) == Ready(6, 69)
  {
    var s, t := LATE_MESSAGE, LATE_MESSAGE[6..];
    assert |s| == 12 && s[1..5] == [s[1], s[2], s[3], s[4]] == [0, 0, 0, 11];
    assert Number([0, 0, 0, 11]) == 11;
    assert FrontOf(s) == Whole(12) && s[12..] == [];
    OpenFront([]);
    assert |t| == 6 && t[0] == 90 && t[5] == 69 && t[1..5] == [t[1], t[2], t[3], t[4]] == [0, 0, 0, 5];
    assert Number([0, 0, 0, 5]) == 5;
    assert FrontOf(t) == Whole(6);
  }

  /** The status a scan of these bytes reads. */
  function StatusIn(s: Bytes): Option<byte> {
    var v := FirstReady(s);
    if v.Ready? then Some(v.status) else None
  }

  /**
   * A scan from a saved offset reads the right status from every output if and only if the offset is zero; after a
   * response has been copied out it never is, and a late ReadyForQuery on its own is always missed.
   */
  lemma StaleOffsetIff(off: nat)
    ensures (forall late: Bytes :: StatusIn(Behind(late, off)) == StatusIn(late)) <==> off == 0
    ensures off > 0 ==> StatusIn(Behind(READY_IDLE, off)) == None && StatusIn(READY_IDLE) == Some(73)
  {
    ReadyIdleIsReady();
    var rest := Behind(READY_IDLE, off);
    if off == 0 {
      assert forall late: Bytes :: Behind(late, 0) == late;
    } else if off == 1 {
      assert rest == [0, 0, 0, 5, 73] && rest[1..5] == [0, 0, 5, 73];
      NumberBig();
      assert FrontOf(rest) == Partial;
      assert StatusIn(Behind(READY_IDLE, off)) != StatusIn(READY_IDLE);
    } else {
      ShortIsPartial(rest);
      assert StatusIn(Behind(READY_IDLE, off)) != StatusIn(READY_IDLE);
    }
  }

  lemma NumberBig()
    ensures Number([0, 0, 5, 73]) > 5
  {
  }

  /** A late message after the response was copied out: the scan reads a transaction status from the middle of it. */
  method StaleOffsetMisreads() returns (before: byte, after: byte)
    ensures before == IDLE && after == 69 && FirstReady(LATE_MESSAGE).Pending?
  {
    hide FirstReady, Remainder, Boundary;
    ReadyIdleIsReady();
    LateMessageIsPending();
    var buffer := new OutputBuffer();
    assert [] + READY_IDLE == READY_IDLE && [] + LATE_MESSAGE == LATE_MESSAGE;
    var first := buffer.Write(READY_IDLE);
    before := buffer.transactionStatus;
    var response := buffer.CopyOut();
    assert buffer.scanOff == 6;
    var second := buffer.Write(LATE_MESSAGE);
    after := buffer.transactionStatus;
  }

  /** A well-formed response, in any chunks: both scanners report the write that completes it. */
  lemma ResponseIsRecognised(writes: seq<Bytes>, before: seq<Message>, ready: Message, rest: Bytes)
    requires forall i :: 0 <= i < |before| ==> Sized(before[i]) && before[i].tag != READY
    requires Sized(ready) && ready.tag == READY
    requires Concat(writes) == EncodeMessages(before) + Encode(ready) + rest
    ensures var s, b := StreamReport([], writes), BufferReport([], writes);
      && s.Some? && b.Some? && s.value.write == b.value.write
      && Covers(writes, s.value.write, |EncodeMessages(before)| + 5 + |ready.body|)
      && s.value.verdict.Ready? && b.value.verdict.Ready?
      && s.value.verdict.status == b.value.verdict.status == if ready.body == [] then IDLE else ready.body[0]
  {
    hide FirstReady, StreamReport, BufferReport, Covers, Encode, EncodeMessages;
    FirstReadyOfMessages(before, ready, rest);
    ScannersAgree(writes);
  }

  /** The same writes to a new scanner of each kind: they agree as `ScannersAgree` says of their reports. */
  method ScanBothWays(writes: seq<Bytes>)
    returns (streamed: Option<nat>, buffered: Option<nat>, streamStatus: byte, bufferStatus: byte, failed: bool)
    ensures var v := FirstReady(Concat(writes));
      && (v.Pending? ==> streamed.None? && buffered.None?)
      && (v.Broken? ==> streamed.Some? && failed && Covers(writes, streamed.value, v.at) && buffered.None?)
      && (v.Ready? ==>
            && streamed.Some? && streamed == buffered && !failed && Covers(writes, streamed.value, v.at)
            && streamStatus == bufferStatus == v.status)
  {
    hide FirstReady, StreamReport, BufferReport, Covers;
    ScannersAgree(writes);
    var scanner := new StreamScanner();
    streamed := scanner.ScanAll(writes);
    var buffer := new OutputBuffer();
    buffered := buffer.WriteAll(writes);
    streamStatus, bufferStatus, failed := scanner.transactionStatus, buffer.transactionStatus, scanner.streamFailed;
  }
}
