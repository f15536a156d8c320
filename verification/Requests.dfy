/**
 * Frontend requests as sequences of complete messages, and the loops that inspect them in place.
 */
module Requests {
  import opened Prelude
  import opened Frames

  const QUERY: byte := 81
  const SYNC: byte := 83
  const TERMINATE: byte := 88
  const COPY_DATA: byte := 100
  const COPY_DONE: byte := 99
  const COPY_FAIL: byte := 102

  // ---------------------------------------------------------------------------
  // Complete messages, nothing left over
  // ---------------------------------------------------------------------------

  predicate Framed(s: Bytes)
    decreases |s|
  {
    s == [] || (FrontOf(s).Whole? && Framed(s[FrontOf(s).size..]))
  }

  /** The messages of a framed request. */
  function Messages(s: Bytes): seq<Message>
    requires Framed(s)
    decreases |s|
  {
    if s == [] then [] else [Message(s[0], s[5..FrontOf(s).size])] + Messages(s[FrontOf(s).size..])
  }

  ghost predicate AllSized(ms: seq<Message>) { forall i :: 0 <= i < |ms| ==> Sized(ms[i]) }

  lemma LastDigit(h: nat, l: nat, h': nat, l': nat)
    requires l < 256 && l' < 256 && h * 256 + l == h' * 256 + l'
    ensures h == h' && l == l'
  {
  }

  lemma NumberInjective(a: Bytes, b: Bytes)
    requires |a| == |b| == 4 && Number(a) == Number(b)
    ensures a == b
  {
    var p0, p1, p2, p3 := a[0] as nat, a[1] as nat, a[2] as nat, a[3] as nat;
    var q0, q1, q2, q3 := b[0] as nat, b[1] as nat, b[2] as nat, b[3] as nat;
    LastDigit(p0 * 0x10000 + p1 * 0x100 + p2, p3, q0 * 0x10000 + q1 * 0x100 + q2, q3);
    LastDigit(p0 * 0x100 + p1, p2, q0 * 0x100 + q1, q2);
    LastDigit(p0, p1, q0, q1);
  }

  lemma FrontEncodes(s: Bytes)
    requires FrontOf(s).Whole?
    ensures var n := FrontOf(s).size; var m := Message(s[0], s[5..n]);
      Sized(m) && Encode(m) == s[..n]
  {
    var n := FrontOf(s).size;
    var m := Message(s[0], s[5..n]);
    NumberInjective(s[1..5], Digits(|m.body| + 4));
    assert s[..n] == [s[0]] + s[1..5] + s[5..n];
  }

  /** A request is framed exactly when it is the encoding of a list of messages, which is then unique. */
  lemma {:induction false} FramedRoundTrip(s: Bytes)
    requires Framed(s)
    ensures AllSized(Messages(s)) && EncodeMessages(Messages(s)) == s
    decreases |s|
  {
    hide FrontOf, Encode, Sized;
    if s != [] {
      var n := FrontOf(s).size;
      FrontEncodes(s);
      FramedRoundTrip(s[n..]);
      var ms := Messages(s);
      assert ms[1..] == Messages(s[n..]);
      assert forall i :: 1 <= i < |ms| ==> ms[i] == ms[1..][i - 1];
      assert s == s[..n] + s[n..];
    }
  }

  lemma {:induction false} EncodedIsFramed(ms: seq<Message>)
    requires AllSized(ms)
    ensures Framed(EncodeMessages(ms)) && Messages(EncodeMessages(ms)) == ms
  {
    hide FrontOf, Encode;
    if ms != [] {
      EncodedIsFramed(ms[1..]);
      var rest := EncodeMessages(ms[1..]);
      var s := Encode(ms[0]) + rest;
      FrontOfEncoded(ms[0], rest);
      assert s[5..5 + |ms[0].body|] == Encode(ms[0])[5..];
    }
  }

  /** The runtime's validator: at least one message, and every one complete. */
  method ValidateFrames(s: Bytes) returns (ok: bool)
    ensures ok <==> s != [] && Framed(s)
  {
    hide Number;
    if s == [] {
      return false;
    }
    var off := 0;
    assert s[0..] == s;
    while off < |s|
      invariant 0 <= off <= |s|
      invariant Framed(s) <==> Framed(s[off..])
    {
      if |s| - off < 5 {
        return false;
      }
      var length := Number(s[off + 1..off + 5]);
      assert s[off..][1..5] == s[off + 1..off + 5];
      if length < 4 {
        return false;
      }
      if 1 + length > |s| - off {
        return false;
      }
      assert s[off..][1 + length..] == s[off + 1 + length..];
      off := off + 1 + length;
    }
    ok := true;
  }

  // ---------------------------------------------------------------------------
  // Which messages end a request's input
  // ---------------------------------------------------------------------------

  /** Query, Sync and Terminate: the backend expects nothing after them. */
  predicate Completes(tag: byte) { tag == QUERY || tag == SYNC || tag == TERMINATE }

  ghost predicate ClosesInput(ms: seq<Message>) { exists i :: 0 <= i < |ms| && Completes(ms[i].tag) }

  ghost predicate CompletionIsLast(ms: seq<Message>) { forall i :: 0 <= i < |ms| - 1 ==> !Completes(ms[i].tag) }

  /** CopyData, with at most one CopyDone, CopyFail or Terminate, at the end. */
  ghost predicate CopyOnly(ms: seq<Message>) { forall i :: 0 <= i < |ms| ==> MayCopy(ms, i) }

  ghost predicate MayCopy(ms: seq<Message>, i: nat)
    requires i < |ms|
  {
    ms[i].tag == COPY_DATA || (i == |ms| - 1 &&
      (ms[i].tag == COPY_DONE || ms[i].tag == COPY_FAIL || ms[i].tag == TERMINATE))
  }

  ghost predicate EndsCopy(ms: seq<Message>) { ms != [] && ms[|ms| - 1].tag != COPY_DATA }

  /** `off` is a message boundary: `done` messages lie before it. */
  ghost predicate At(s: Bytes, off: nat, done: nat) {
    && Framed(s) && off <= |s| && Framed(s[off..]) && done <= |Messages(s)|
    && Messages(s[off..]) == Messages(s)[done..]
  }

  lemma AtStart(s: Bytes)
    requires Framed(s)
    ensures At(s, 0, 0)
  {
    assert s[0..] == s;
  }

  /** The first message of what is left. */
  lemma AtHere(s: Bytes, off: nat, done: nat)
    requires At(s, off, done) && off < |s|
    ensures FrontOf(s[off..]).Whole? && done < |Messages(s)| && Messages(s)[done].tag == s[off]
    ensures var n := FrontOf(s[off..]).size; At(s, off + n, done + 1) && (off + n == |s| <==> done == |Messages(s)| - 1)
  {
    hide FrontOf;
    var t := s[off..];
    var n := FrontOf(t).size;
    assert t[n..] == s[off + n..];
    var ms := Messages(t);
    assert ms[0] == Messages(s)[done];
    assert ms[1..] == Messages(t[n..]) == Messages(s)[done + 1..];
  }

  /** One message on. */
  lemma AtNext(s: Bytes, off: nat, done: nat)
    requires At(s, off, done) && off < |s|
    ensures |s| - off >= 5 && done < |Messages(s)|
    ensures var n := 1 + Number(s[off + 1..off + 5]);
      && off + n <= |s| && At(s, off + n, done + 1) && Messages(s)[done].tag == s[off]
      && (off + n == |s| <==> done == |Messages(s)| - 1)
  {
    hide Number, At, Messages, Framed;
    AtHere(s, off, done);
    assert s[off..][1..5] == s[off + 1..off + 5];
  }

  lemma AtEnd(s: Bytes, done: nat)
    requires At(s, |s|, done)
    ensures done == |Messages(s)|
  {
    assert s[|s|..] == [];
  }

  method RequestClosesInput(s: Bytes) returns (closes: bool)
    requires Framed(s)
    ensures closes <==> ClosesInput(Messages(s))
  {
    hide Framed, Messages, Number, At;
    var off := 0;
    ghost var done := 0;
    AtStart(s);
    while off < |s|
      invariant 0 <= off <= |s| && done <= |Messages(s)| && At(s, off, done)
      invariant forall i :: 0 <= i < done ==> !Completes(Messages(s)[i].tag)
      decreases |s| - off
    {
      AtNext(s, off, done);
      if Completes(s[off]) {
        return true;
      }
      off := off + 1 + Number(s[off + 1..off + 5]);
      done := done + 1;
    }
    AtEnd(s, done);
    closes := false;
  }

  /** A completing message must be the last one of a fed request. */
  method CompletionCheck(s: Bytes) returns (ok: bool)
    requires Framed(s)
    ensures ok <==> CompletionIsLast(Messages(s))
  {
    hide Framed, Messages, Number, At;
    var off := 0;
    ghost var done := 0;
    AtStart(s);
    while off < |s|
      invariant 0 <= off <= |s| && done <= |Messages(s)| && At(s, off, done)
      invariant forall i :: 0 <= i < done && i < |Messages(s)| - 1 ==> !Completes(Messages(s)[i].tag)
      decreases |s| - off
    {
      AtNext(s, off, done);
      var end := off + 1 + Number(s[off + 1..off + 5]);
      if Completes(s[off]) && end != |s| {
        return false;
      }
      off := end;
      done := done + 1;
    }
    AtEnd(s, done);
    ok := true;
  }

  method CopyCheck(s: Bytes) returns (ok: bool, finished: bool)
    requires Framed(s)
    ensures ok <==> CopyOnly(Messages(s))
    ensures ok ==> (finished <==> EndsCopy(Messages(s)))
  {
    hide Framed, Messages, Number, At;
    var off := 0;
    ghost var done := 0;
    finished := false;
    AtStart(s);
    while off < |s|
      invariant 0 <= off <= |s| && done <= |Messages(s)| && At(s, off, done)
      invariant forall i :: 0 <= i < done ==> MayCopy(Messages(s), i)
      invariant finished <==> done > 0 && Messages(s)[done - 1].tag != COPY_DATA
      decreases |s| - off
    {
      AtNext(s, off, done);
      var tag, end := s[off], off + 1 + Number(s[off + 1..off + 5]);
      var ends := tag == COPY_DONE || tag == COPY_FAIL || tag == TERMINATE;
      if (tag != COPY_DATA && !ends) || (ends && end != |s|) {
        assert !MayCopy(Messages(s), done);
        return false, finished;
      }
      finished := tag != COPY_DATA;
      off := end;
      done := done + 1;
    }
    AtEnd(s, done);
    assert forall i :: 0 <= i < |Messages(s)| ==> MayCopy(Messages(s), i);
    ok := true;
  }
}
