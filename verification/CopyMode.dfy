/**
 * COPY mode and stream input against the messages of the PostgreSQL protocol, with their type bytes spelled out:
 * which backend messages turn COPY mode on and off, and which frontend messages a stream accepts in it and outside.
 */
module CopyMode {
  import opened Prelude
  import opened Frames
  import opened ReadyScan
  import opened Requests
  import opened Feed

  // CopyInResponse is 'G', 71; ErrorResponse is 'E', 69; ReadyForQuery is 'Z', 90.

  /** The last message that turns COPY mode on or off. */
  ghost predicate LastSwitch(ms: seq<Message>, i: nat) {
    && i < |ms| && (ms[i].tag == 71 || ms[i].tag == 69)
    && forall k :: i < k < |ms| ==> ms[k].tag != 71 && ms[k].tag != 69
  }

  /** What COPY mode has to be after these messages, if it was `before`. */
  ghost predicate Switched(before: bool, ms: seq<Message>, after: bool) {
    && (forall i: nat :: LastSwitch(ms, i) ==> (after <==> ms[i].tag == 71))
    && ((forall i :: 0 <= i < |ms| ==> ms[i].tag != 71 && ms[i].tag != 69) ==> after == before)
  }

  lemma SwitchedFirst(before: bool, ms: seq<Message>, after: bool)
    requires ms != [] && ms[0].tag != 90
    requires Switched(if ms[0].tag == 71 then true else if ms[0].tag == 69 then false else before, ms[1..], after)
    ensures Switched(before, ms, after)
  {
    assert forall k :: 1 <= k < |ms| ==> ms[k] == ms[1..][k - 1];
    forall i: nat | LastSwitch(ms, i) ensures after <==> ms[i].tag == 71 {
      if i > 0 { assert LastSwitch(ms[1..], i - 1); }
    }
  }

  lemma {:induction false} CopyAfterMessages(before: bool, ms: seq<Message>, rest: Bytes)
    requires (forall i :: 0 <= i < |ms| ==> Sized(ms[i]) && ms[i].tag != 90) && FrontOf(rest).Partial?
    ensures Switched(before, ms, CopyAfter(before, EncodeMessages(ms) + rest))
    decreases |ms|
  {
    hide FrontOf, Encode, Switched;
    var s := EncodeMessages(ms) + rest;
    if ms == [] {
      assert s == rest;
      CopyAfterOpen(before, rest);
      NothingSwitches(before);
    } else {
      var tail := EncodeMessages(ms[1..]) + rest;
      assert s == Encode(ms[0]) + tail;
      FrontOfEncoded(ms[0], tail);
      CopyAfterMessages(CopyStep(before, ms[0].tag), ms[1..], rest);
      SwitchedFirst(before, ms, CopyAfter(before, s));
    }
  }

  lemma NothingSwitches(before: bool)
    ensures Switched(before, [], before)
  {
  }

  lemma {:induction false} CopyAfterReady(before: bool, ms: seq<Message>, ready: Message, rest: Bytes)
    requires forall i :: 0 <= i < |ms| ==> Sized(ms[i])
    requires Sized(ready) && ready.tag == 90
    ensures !CopyAfter(before, EncodeMessages(ms) + Encode(ready) + rest)
    decreases |ms|
  {
    hide FrontOf, Encode;
    var s := EncodeMessages(ms) + Encode(ready) + rest;
    if ms == [] {
      assert s == Encode(ready) + rest;
      FrontOfEncoded(ready, rest);
    } else {
      var tail := EncodeMessages(ms[1..]) + Encode(ready) + rest;
      assert s == Encode(ms[0]) + tail;
      FrontOfEncoded(ms[0], tail);
      CopyAfterReady(CopyStep(before, ms[0].tag), ms[1..], ready, rest);
    }
  }

  /** A new scanner, given these messages and perhaps the beginning of another in any pieces. */
  method ScanMessages(ms: seq<Message>, ghost rest: Bytes, writes: seq<Bytes>) returns (copying: bool, ready: bool)
    requires (forall i :: 0 <= i < |ms| ==> Sized(ms[i]) && ms[i].tag != 90) && FrontOf(rest).Partial?
    requires Concat(writes) == EncodeMessages(ms) + rest
    ensures !ready && Switched(false, ms, copying)
  {
    hide FrontOf, CopyAfter, Switched, EncodeMessages, FirstReady;
    var scanner := new StreamScanner();
    assert [] + Concat(writes) == Concat(writes);
    MessagesPend(ms, rest);
    CopyAfterMessages(false, ms, rest);
    NothingIsPending();
    StreamReportIsRight([], writes);
    var reported := scanner.ScanAll(writes);
    copying, ready := scanner.copyInput, reported.Some?;
  }

  lemma {:induction false} MessagesPend(ms: seq<Message>, rest: Bytes)
    requires (forall i :: 0 <= i < |ms| ==> Sized(ms[i]) && ms[i].tag != 90) && FrontOf(rest).Partial?
    ensures FirstReady(EncodeMessages(ms) + rest).Pending?
  {
    hide FrontOf, Encode, FirstReady;
    var s := EncodeMessages(ms) + rest;
    if ms == [] {
      assert s == rest;
      OpenFront(rest);
    } else {
      var tail := EncodeMessages(ms[1..]) + rest;
      assert s == Encode(ms[0]) + tail;
      FirstReadySkips(ms[0], tail);
      MessagesPend(ms[1..], rest);
    }
  }

  // ---------------------------------------------------------------------------
  // What a stream accepts
  // ---------------------------------------------------------------------------

  /** Query, Sync or Terminate: 'Q', 'S', 'X'. */
  predicate EndsRequest(m: Message) { m.tag == 81 || m.tag == 83 || m.tag == 88 }

  /** CopyDone, CopyFail or Terminate: 'c', 'f', 'X'. */
  predicate EndsData(m: Message) { m.tag == 99 || m.tag == 102 || m.tag == 88 }

  /** The stream with this token is there to be fed. */
  predicate Feedable(s: Session, token: nat) {
    && token != 0 && s.streaming && s.token == token && s.logicalActive && !s.closing && !s.backendExited
    && !s.streamFailed && !s.outputReady && (s.inputClosed ==> s.copyInput)
  }

  /** At most 128 MiB of complete messages, none of which goes on after a Query, Sync or Terminate. */
  ghost predicate Fit(ms: seq<Message>) {
    && ms != [] && AllSized(ms) && |EncodeMessages(ms)| <= 134_217_728
    && forall i :: 0 <= i < |ms| - 1 ==> !EndsRequest(ms[i])
  }

  /** In COPY mode: CopyData ('d'), then at most one message that ends the data. */
  ghost predicate OnlyData(ms: seq<Message>) {
    forall i :: 0 <= i < |ms| ==> ms[i].tag == 100 || (i == |ms| - 1 && EndsData(ms[i]))
  }

  /**
   * A feed is accepted, busy or rejected by its messages and the state of the stream alone; a busy one could be
   * accepted if the slot were empty, or is rejected for its messages then.
   */
  lemma FeedOutcomes(s: Session, token: nat, ms: seq<Message>)
    requires AllSized(ms)
    ensures var v := FeedVerdict(s, token, EncodeMessages(ms));
      && (v == Accepted <==> Feedable(s, token) && Fit(ms) && s.input == [] && (s.copyInput ==> OnlyData(ms)))
      && (v == Busy <==> Feedable(s, token) && Fit(ms) && s.input != [])
  {
    hide Framed, Messages, EncodeMessages;
    EncodedIsFramed(ms);
    EncodedIsSome(ms);
    assert CompletionIsLast(ms) <==> forall i :: 0 <= i < |ms| - 1 ==> !EndsRequest(ms[i]);
    SameData(ms);
  }

  lemma SameData(ms: seq<Message>)
    ensures CopyOnly(ms) <==> OnlyData(ms)
  {
    assert forall i :: 0 <= i < |ms| ==>
      (MayCopy(ms, i) <==> ms[i].tag == 100 || (i == |ms| - 1 && EndsData(ms[i])));
  }

  lemma SameClose(ms: seq<Message>)
    ensures ClosesInput(ms) <==> exists i :: 0 <= i < |ms| && EndsRequest(ms[i])
  {
    assert forall i :: 0 <= i < |ms| ==> (Completes(ms[i].tag) <==> EndsRequest(ms[i]));
    if ClosesInput(ms) {
      var i :| 0 <= i < |ms| && Completes(ms[i].tag);
      assert EndsRequest(ms[i]);
    }
  }

  lemma EncodedIsSome(ms: seq<Message>)
    requires AllSized(ms)
    ensures EncodeMessages(ms) == [] <==> ms == []
  {
    if ms != [] { assert |Encode(ms[0])| >= 5; }
  }

  /** Bytes that are no sequence of complete messages are rejected. */
  lemma BrokenFeedIsRejected(s: Session, token: nat, request: Bytes)
    requires forall ms :: AllSized(ms) ==> EncodeMessages(ms) != request
    ensures FeedVerdict(s, token, request) == Rejected
  {
    hide Framed, Messages, EncodeMessages;
    if Framed(request) { FramedRoundTrip(request); }
  }

  /** What an accepted feed changes: the slot, and in COPY mode that mode, otherwise whether input is closed. */
  lemma FeedEffect(s: Session, ms: seq<Message>)
    requires AllSized(ms) && ms != []
    ensures Framed(EncodeMessages(ms))
    ensures var t := Fed(s, EncodeMessages(ms));
      && t == s.(input := EncodeMessages(ms), off := 0, inputClosed := t.inputClosed, copyInput := t.copyInput)
      && (s.copyInput ==> t.inputClosed == s.inputClosed && (t.copyInput <==> ms[|ms| - 1].tag == 100))
      && (!s.copyInput ==> !t.copyInput && (t.inputClosed <==> exists i :: 0 <= i < |ms| && EndsRequest(ms[i])))
  {
    hide Framed, Messages, EncodeMessages;
    EncodedIsFramed(ms);
    SameClose(ms);
    hide ClosesInput;
  }

  /**
   * A stream is started by complete messages on an active, sound and running session without a stream. That uses up a
   * token even if the slot turns out to be busy; otherwise the request fills it.
   */
  lemma StartOutcomes(s: Session, ms: seq<Message>)
    requires AllSized(ms)
    ensures Framed(EncodeMessages(ms))
    ensures MayStart(s, EncodeMessages(ms)) <==>
      && ms != [] && s.logicalActive && !s.poisoned && !s.backendExited && !s.streaming
      && s.token < 18_446_744_073_709_551_615
    ensures var t := Started(s, EncodeMessages(ms));
      && t.token == s.token + 1 && !t.streamFailed && !t.outputReady && !t.copyInput
      && (t.inputClosed <==> exists i :: 0 <= i < |ms| && EndsRequest(ms[i]))
      && (if s.input == [] then t.streaming && t.input == EncodeMessages(ms) && t.off == 0
          else !t.streaming && t.input == s.input && t.off == s.off)
      && t.logicalActive == s.logicalActive && t.poisoned == s.poisoned && t.closing == s.closing
      && t.backendExited == s.backendExited
  {
    hide Framed, Messages, EncodeMessages;
    EncodedIsFramed(ms);
    EncodedIsSome(ms);
    SameClose(ms);
    hide ClosesInput;
  }

  // A CopyInResponse without columns, and a CopyData without data.
  const COPY_IN_RESPONSE: Bytes := [71, 0, 0, 0, 7, 0, 0, 0]
  const EMPTY_COPY_DATA: Bytes := [100, 0, 0, 0, 4]

  lemma TheseParse()
    ensures COPY_IN_RESPONSE == Encode(Message(71, [0, 0, 0])) == EncodeMessages([Message(71, [0, 0, 0])])
    ensures EMPTY_COPY_DATA == Encode(Message(100, [])) == EncodeMessages([Message(100, [])])
  {
    assert Digits(7) == [0, 0, 0, 7] && Digits(4) == [0, 0, 0, 4];
    assert [Message(71, [0, 0, 0])][1..] == [] && [Message(100, [])][1..] == [];
  }

  lemma OneMessage(m: Message)
    requires |m.body| < 1000
    ensures AllSized([m]) && |EncodeMessages([m])| == 5 + |m.body| && Fit([m])
    ensures Framed(EncodeMessages([m])) && Messages(EncodeMessages([m])) == [m]
  {
    assert [m][1..] == [];
    EncodedIsFramed([m]);
  }

  lemma QueryCloses(body: Bytes)
    ensures ClosesInput([Message(81, body)])
  {
    assert [Message(81, body)][0].tag == QUERY;
  }

  /** A Query closes the input; a CopyInResponse to it opens the input again for the data. */
  method CopyInOpensInput(body: Bytes) returns (before: Feed.Verdict, after: Feed.Verdict)
    requires |body| < 1000
    ensures before == Rejected && after == Accepted
  {
    hide Framed, Messages, EncodeMessages, Encode, FirstReady, Remainder, FrontOf, CopyAfter, Fed, Fit, ClosesInput,
      FeedVerdict;
    TheseParse();
    OneMessage(Message(81, body));
    OneMessage(Message(100, []));
    QueryCloses(body);
    var query := EncodeMessages([Message(81, body)]);
    var session := new InputSession();
    var ok := session.Start(query);
    var data := session.Read(|query|);
    FeedOutcomes(session.View(), 1, [Message(100, [])]);
    before := session.Feed(1, EMPTY_COPY_DATA);
    SwitchedByOne();
    EmptyIsPartial();
    assert Concat([COPY_IN_RESPONSE]) == COPY_IN_RESPONSE + Concat([]) == COPY_IN_RESPONSE + [];
    var copying, ready := ScanMessages([Message(71, [0, 0, 0])], [], [COPY_IN_RESPONSE]);
    session.copyInput := copying;
    FeedOutcomes(session.View(), 1, [Message(100, [])]);
    after := session.Feed(1, EMPTY_COPY_DATA);
  }

  lemma SwitchedByOne()
    ensures forall after :: Switched(false, [Message(71, [0, 0, 0])], after) ==> after
  {
    assert LastSwitch([Message(71, [0, 0, 0])], 0);
  }

  lemma EmptyIsPartial()
    ensures FrontOf([]).Partial?
  {
  }
}
