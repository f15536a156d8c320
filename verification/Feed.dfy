/**
 * Incremental input for an open stream: one input slot, filled by whoever starts or feeds the stream and
 * emptied by the backend thread.
 */
module Feed {
  import opened Prelude
  import opened Frames
  import opened Requests

  const TOKEN_MAX: nat := 0xFFFF_FFFF_FFFF_FFFF
  const INPUT_MAX: nat := 128 * 1024 * 1024

  // ---------------------------------------------------------------------------
  // The session's input state
  // ---------------------------------------------------------------------------

  datatype Session = Session(
    input: Bytes,
    off: nat,
    streaming: bool,
    token: nat,
    logicalActive: bool,
    poisoned: bool,
    closing: bool,
    backendExited: bool,
    streamFailed: bool,
    outputReady: bool,
    inputClosed: bool,
    copyInput: bool)

  /** A slot that has been read to its end is empty. */
  predicate SlotOk(s: Session) { if s.input == [] then s.off == 0 else s.off < |s.input| }

  function Unread(s: Session): Bytes
    requires SlotOk(s)
  {
    s.input[s.off..]
  }

  datatype Verdict = Accepted | Busy | Rejected

  /** What the bytes alone must satisfy. */
  ghost predicate WellFormed(token: nat, request: Bytes) {
    && token != 0 && request != [] && |request| <= INPUT_MAX
    && Framed(request) && CompletionIsLast(Messages(request))
  }

  predicate Open(s: Session, token: nat) {
    && s.streaming && s.token == token && s.logicalActive && !s.closing && !s.backendExited
    && !s.streamFailed && !s.outputReady && (!s.inputClosed || s.copyInput)
  }

  ghost function FeedVerdict(s: Session, token: nat, request: Bytes): Verdict {
    if !WellFormed(token, request) || !Open(s, token) then Rejected
    else if s.input != [] then Busy
    else if s.copyInput && !CopyOnly(Messages(request)) then Rejected
    else Accepted
  }

  ghost function Fed(s: Session, request: Bytes): Session
    requires Framed(request)
  {
    var t := s.(input := request, off := 0);
    if s.copyInput then t.(copyInput := !EndsCopy(Messages(request)))
    else t.(inputClosed := ClosesInput(Messages(request)))
  }

  /** Starting a stream: refused without effect, or the token is used up even if the slot is busy. */
  ghost predicate MayStart(s: Session, request: Bytes) {
    && request != [] && Framed(request) && s.logicalActive && !s.poisoned && !s.backendExited && !s.streaming
    && s.token < TOKEN_MAX
  }

  ghost function Started(s: Session, request: Bytes): Session
    requires Framed(request)
  {
    var free := s.input == [];
    Session(if free then request else s.input, if free then 0 else s.off, free, s.token + 1, s.logicalActive, s.poisoned,
            s.closing, s.backendExited, false, false, ClosesInput(Messages(request)), false)
  }

  function ReadCount(s: Session, len: nat): nat
    requires SlotOk(s)
  {
    Min(|s.input| - s.off, len)
  }

  function AfterRead(s: Session, len: nat): (t: Session)
    requires SlotOk(s)
    ensures SlotOk(t) && t.token == s.token && t.streaming == s.streaming && t.inputClosed == s.inputClosed
  {
    var off := s.off + ReadCount(s, len);
    if off >= |s.input| then s.(input := [], off := 0) else s.(off := off)
  }

  class InputSession {
    var input: Bytes
    var off: nat
    var streaming: bool
    var token: nat
    var logicalActive: bool
    var poisoned: bool
    var closing: bool
    var backendExited: bool
    var streamFailed: bool
    var outputReady: bool
    var inputClosed: bool
    var copyInput: bool

    function View(): Session
      reads this
    {
      Session(input, off, streaming, token, logicalActive, poisoned, closing, backendExited, streamFailed,
              outputReady, inputClosed, copyInput)
    }

    constructor ()
      ensures View() == Session([], 0, false, 0, true, false, false, false, false, false, false, false)
    {
      input, off, streaming, token, logicalActive, poisoned := [], 0, false, 0, true, false;
      closing, backendExited, streamFailed, outputReady, inputClosed, copyInput := false, false, false, false,
        false, false;
    }

    method SetInput(buf: Bytes) returns (ok: bool)
      modifies this`input, this`off
      ensures ok <==> old(input) == []
      ensures if ok then input == buf && off == 0 else input == old(input) && off == old(off)
    {
      if |input| != 0 {
        return false;
      }
      input, off := buf, 0;
      ok := true;
    }

    /** At most `len` bytes; an empty slot gives none (the backend waits, or is closing). */
    method Read(len: nat) returns (data: Bytes)
      requires SlotOk(View())
      modifies this`input, this`off
      ensures SlotOk(View()) && View() == AfterRead(old(View()), len)
      ensures data + Unread(View()) == old(Unread(View())) && |data| == Min(old(|Unread(View())|), len)
    {
      var take := Min(|input| - off, len);
      data := input[off..off + take];
      off := off + take;
      if off >= |input| {
        input, off := [], 0;
      }
    }

    method Feed(t: nat, request: Bytes) returns (r: Verdict)
      modifies this`input, this`off, this`inputClosed, this`copyInput
      ensures r == FeedVerdict(old(View()), t, request)
      ensures View() == if r == Accepted then Fed(old(View()), request) else old(View())
    {
      hide Framed, Messages, ClosesInput, CopyOnly, EndsCopy, CompletionIsLast;
      if t == 0 || request == [] || |request| > INPUT_MAX {
        return Rejected;
      }
      var framed := ValidateFrames(request);
      if !framed {
        return Rejected;
      }
      var last := CompletionCheck(request);
      if !last {
        return Rejected;
      }
      if !streaming || token != t || !logicalActive || closing || backendExited || streamFailed || outputReady
         || (inputClosed && !copyInput) {
        return Rejected;
      }
      if |input| != 0 {
        return Busy;
      }
      var finished := false;
      if copyInput {
        var ok;
        ok, finished := CopyCheck(request);
        if !ok {
          return Rejected;
        }
      }
      var set_ := SetInput(request);
      if copyInput {
        if finished {
          copyInput := false;
        }
      } else {
        inputClosed := RequestClosesInput(request);
      }
      r := Accepted;
    }

    method Start(request: Bytes) returns (ok: bool)
      modifies this
      ensures ok <==> MayStart(old(View()), request) && old(input) == []
      ensures View() == if MayStart(old(View()), request) then Started(old(View()), request) else old(View())
    {
      hide Framed, Messages, ClosesInput;
      var framed := ValidateFrames(request);
      if !framed || !logicalActive || poisoned || backendExited || streaming || token >= TOKEN_MAX {
        return false;
      }
      token := token + 1;
      inputClosed := RequestClosesInput(request);
      copyInput, outputReady, streaming, streamFailed := false, false, true, false;
      ok := SetInput(request);
      if !ok {
        streaming := false;
      }
    }
  }

  // ---------------------------------------------------------------------------
  // Runs of any number of streams
  // ---------------------------------------------------------------------------

  /** An accepted feed: its token, and how many streams had been started by then. */
  datatype FeedRecord = FeedRecord(token: nat, stream: nat)

  datatype History = History(
    accepted: seq<Bytes>,       // everything put into the slot, in order
    read: Bytes,                // everything the backend took out
    tokens: seq<nat>,           // the token of each stream
    feeds: seq<FeedRecord>,
    ordinary: seq<Bytes>)       // this stream's request and what was fed to it outside COPY mode

  datatype State = State(session: Session, history: History)

  /** No stream yet; the slot may be in use by a buffered call. */
  ghost predicate Init(s: State) {
    && SlotOk(s.session) && s.session.token == 0 && !s.session.streaming && !s.session.inputClosed
    && s.history == History([Unread(s.session)], [], [], [], [])
  }

  datatype Action =
    | StartStream(request: Bytes)
    | FeedStream(token: nat, request: Bytes)
    | BackendRead(len: nat)
    | PutInput(buf: Bytes, copy: bool)
    | ScanOutput(ready: bool, failed: bool, copy: bool)
    | EndStream
    | OtherFlags(active: bool, poisoned: bool, closing: bool, exited: bool)

  ghost predicate StartStep(s: State, s': State, request: Bytes) {
    if !MayStart(s.session, request) then s' == s
    else
      && s'.session == Started(s.session, request)
      && s'.history == s.history.(
           tokens := s.history.tokens + [s.session.token + 1],
           accepted := if s.session.input == [] then s.history.accepted + [request] else s.history.accepted,
           ordinary := [request])
  }

  ghost predicate FeedStep(s: State, s': State, token: nat, request: Bytes) {
    if FeedVerdict(s.session, token, request) != Accepted then s' == s
    else
      && s'.session == Fed(s.session, request)
      && s'.history == s.history.(
           accepted := s.history.accepted + [request],
           feeds := s.history.feeds + [FeedRecord(token, |s.history.tokens|)],
           ordinary := if s.session.copyInput then s.history.ordinary else s.history.ordinary + [request])
  }

  ghost predicate ReadStep(s: State, s': State, len: nat) {
    && SlotOk(s.session) && s'.session == AfterRead(s.session, len)
    && s'.history == s.history.(read := s.history.read + Unread(s.session)[..ReadCount(s.session, len)])
  }

  /** A buffered call's request, or the frames that end COPY for a caller that gave up. */
  ghost predicate PutStep(s: State, s': State, buf: Bytes, copy: bool) {
    && s.session.input == []
    && s'.session == s.session.(input := buf, off := 0, copyInput := copy)
    && s'.history == s.history.(accepted := s.history.accepted + [buf])
  }

  ghost predicate ScanStep(s: State, s': State, ready: bool, failed: bool, copy: bool) {
    s' == s.(session := s.session.(outputReady := ready, streamFailed := failed, copyInput := copy))
  }

  ghost predicate Step(s: State, s': State, a: Action) {
    match a
    case StartStream(request) => StartStep(s, s', request)
    case FeedStream(token, request) => FeedStep(s, s', token, request)
    case BackendRead(len) => ReadStep(s, s', len)
    case PutInput(buf, copy) => PutStep(s, s', buf, copy)
    case ScanOutput(ready, failed, copy) => ScanStep(s, s', ready, failed, copy)
    case EndStream => s' == s.(session := s.session.(streaming := false))
    case OtherFlags(active, poisoned, closing, exited) =>
      s' == s.(session := s.session.(logicalActive := active, poisoned := poisoned, closing := closing,
        backendExited := exited))
  }

  ghost predicate Increasing(ts: seq<nat>) { forall i, j :: 0 <= i < j < |ts| ==> ts[i] < ts[j] }

  /** What was read, then what is left in the slot, is everything accepted. */
  ghost predicate InputOk(s: State) {
    SlotOk(s.session) && s.history.read + Unread(s.session) == Concat(s.history.accepted)
  }

  /** Tokens grow, the session holds the latest, and every feed went to the stream its token names. */
  ghost predicate TokensOk(s: State) {
    var h := s.history;
    && Increasing(h.tokens)
    && (h.tokens == [] ==> s.session.token == 0 && !s.session.streaming)
    && (h.tokens != [] ==> s.session.token == h.tokens[|h.tokens| - 1])
    && (forall i :: 0 <= i < |h.tokens| ==> 0 < h.tokens[i] <= s.session.token)
    && (forall i :: 0 <= i < |h.feeds| ==>
          1 <= h.feeds[i].stream <= |h.tokens| && h.tokens[h.feeds[i].stream - 1] == h.feeds[i].token)
  }

  /** Outside COPY mode only the last request of a stream completes its input, and then it is closed. */
  ghost predicate ClosingOk(s: State) {
    var o := s.history.ordinary;
    && (forall i :: 0 <= i < |o| ==> Framed(o[i]))
    && (forall i :: 0 <= i < |o| - 1 ==> !ClosesInput(Messages(o[i])))
    && (o == [] ==> !s.session.inputClosed && !s.session.streaming)
    && (o != [] ==> (s.session.inputClosed <==> ClosesInput(Messages(o[|o| - 1]))))
  }

  ghost predicate Inv(s: State) { InputOk(s) && TokensOk(s) && ClosingOk(s) }

  lemma PutKeepsInput(s: State, s': State, buf: Bytes)
    requires InputOk(s) && s.session.input == [] && s'.session.input == buf && s'.session.off == 0
    requires s'.history.read == s.history.read && s'.history.accepted == s.history.accepted + [buf]
    ensures InputOk(s')
  {
    ConcatSnoc(s.history.accepted, buf);
    assert buf[0..] == buf;
  }

  lemma SliceSplit(data: Bytes, off: nat, n: nat)
    requires off + n <= |data|
    ensures data[off..][..n] + data[off + n..] == data[off..]
    ensures off + n == |data| ==> data[off..][..n] + [] == data[off..]
  {
  }

  lemma ReadUnread(s: Session, len: nat)
    requires SlotOk(s)
    ensures ReadCount(s, len) <= |Unread(s)|
    ensures Unread(s)[..ReadCount(s, len)] + Unread(AfterRead(s, len)) == Unread(s)
  {
    var n := ReadCount(s, len);
    SliceSplit(s.input, s.off, n);
    assert Unread(s.(input := [], off := 0)) == [];
  }

  lemma ReadKeepsInput(s: State, s': State, len: nat)
    requires InputOk(s) && ReadStep(s, s', len)
    ensures InputOk(s')
  {
    hide Concat, Unread, ReadCount, AfterRead;
    ReadUnread(s.session, len);
    var a, b := Unread(s.session)[..ReadCount(s.session, len)], Unread(s'.session);
    assert s.history.read + a + b == s.history.read + (a + b);
  }

  lemma InputFrame(s: State, s': State)
    requires InputOk(s) && s'.session.input == s.session.input && s'.session.off == s.session.off
    requires s'.history.read == s.history.read && s'.history.accepted == s.history.accepted
    ensures InputOk(s')
  {
    hide Concat;
  }

  lemma TokensFrame(s: State, s': State)
    requires TokensOk(s) && s'.session.token == s.session.token && (s'.session.streaming ==> s.session.streaming)
    requires s'.history.tokens == s.history.tokens && s'.history.feeds == s.history.feeds
    ensures TokensOk(s')
  {
    hide Increasing;
  }

  lemma ClosingFrame(s: State, s': State)
    requires ClosingOk(s) && s'.session.inputClosed == s.session.inputClosed
    requires s'.session.streaming ==> s.session.streaming
    requires s'.history.ordinary == s.history.ordinary
    ensures ClosingOk(s')
  {
    hide Framed, Messages, ClosesInput;
  }

  lemma StartKeepsTokens(s: State, s': State, request: Bytes)
    requires TokensOk(s) && MayStart(s.session, request) && StartStep(s, s', request)
    ensures TokensOk(s')
  {
    hide Framed, Messages, ClosesInput;
  }

  lemma StartKeeps(s: State, s': State, request: Bytes)
    requires Inv(s) && StartStep(s, s', request)
    ensures Inv(s')
  {
    hide Framed, Messages, ClosesInput, InputOk, TokensOk;
    if MayStart(s.session, request) {
      StartKeepsTokens(s, s', request);
      if s.session.input == [] { PutKeepsInput(s, s', request); } else { InputFrame(s, s'); }
    }
  }

  lemma FeedKeepsTokens(s: State, s': State, token: nat, request: Bytes)
    requires TokensOk(s) && FeedVerdict(s.session, token, request) == Accepted && FeedStep(s, s', token, request)
    ensures TokensOk(s')
  {
    hide WellFormed, Framed, Messages, ClosesInput, CopyOnly, EndsCopy, Increasing;
  }

  lemma FeedKeeps(s: State, s': State, token: nat, request: Bytes)
    requires Inv(s) && FeedStep(s, s', token, request)
    ensures Inv(s')
  {
    hide Framed, Messages, ClosesInput, CopyOnly, EndsCopy, CompletionIsLast, InputOk, TokensOk;
    if FeedVerdict(s.session, token, request) == Accepted {
      PutKeepsInput(s, s', request);
      FeedKeepsTokens(s, s', token, request);
    }
  }

  /** Neither reads, nor other input, nor flags touch tokens or the closing of input. */
  lemma QuietFrame(s: State, s': State, a: Action)
    requires Inv(s) && Step(s, s', a) && !a.StartStream? && !a.FeedStream?
    ensures TokensOk(s') && ClosingOk(s')
  {
    hide TokensOk, ClosingOk, InputOk, Unread, AfterRead, ReadCount, StartStep, FeedStep;
    TokensFrame(s, s');
    ClosingFrame(s, s');
  }

  lemma StepKeeps(s: State, s': State, a: Action)
    requires Inv(s) && Step(s, s', a)
    ensures Inv(s')
  {
    hide InputOk, TokensOk, ClosingOk, StartStep, FeedStep, ReadStep;
    match a
    case StartStream(request) => StartKeeps(s, s', request);
    case FeedStream(token, request) => FeedKeeps(s, s', token, request);
    case BackendRead(len) =>
      QuietFrame(s, s', a);
      ReadKeepsInput(s, s', len);
    case PutInput(buf, _) =>
      QuietFrame(s, s', a);
      PutKeepsInput(s, s', buf);
    case _ =>
      QuietFrame(s, s', a);
      InputFrame(s, s');
  }

  datatype Run = Begin(first: State) | Then(before: Run, action: Action, next: State)

  function Last(r: Run): State { if r.Begin? then r.first else r.next }

  ghost predicate IsRun(r: Run) {
    match r
    case Begin(s) => Init(s)
    case Then(before, a, s) => IsRun(before) && Step(Last(before), s, a)
  }

  lemma InitHolds(s: State)
    requires Init(s)
    ensures Inv(s)
  {
    ConcatSnoc([], Unread(s.session));
    assert [] + [Unread(s.session)] == [Unread(s.session)];
  }

  lemma {:induction false} RunKeeps(r: Run)
    requires IsRun(r)
    ensures Inv(Last(r))
  {
    hide Inv, Step, Init;
    match r
    case Begin(s) => InitHolds(s);
    case Then(before, a, s) =>
      RunKeeps(before);
      StepKeeps(Last(before), s, a);
  }

  /**
   * The backend reads exactly the accepted requests, each once and in order; a busy or rejected feed leaves
   * no byte behind. Once the slot is empty it has read all of them.
   */
  lemma InputIsConserved(r: Run)
    requires IsRun(r)
    ensures var s, h := Last(r).session, Last(r).history;
      SlotOk(s) && h.read + Unread(s) == Concat(h.accepted) && (s.input == [] ==> h.read == Concat(h.accepted))
  {
    RunKeeps(r);
    assert Last(r).session.input == [] ==> Last(r).history.read + [] == Last(r).history.read;
  }

  /**
   * A token names one stream for ever: the streams of two accepted feeds are the same exactly when their tokens
   * are.
   */
  lemma TokenNamesOneStream(r: Run, i: nat, j: nat)
    requires IsRun(r) && i < |Last(r).history.feeds| && j < |Last(r).history.feeds|
    ensures var f, g := Last(r).history.feeds[i], Last(r).history.feeds[j];
      f.token != 0 && (f.token == g.token <==> f.stream == g.stream)
  {
    hide IsRun, InputOk, ClosingOk;
    RunKeeps(r);
    var h := Last(r).history;
    var a, b := h.feeds[i].stream - 1, h.feeds[j].stream - 1;
    assert 0 < h.tokens[a];
    if a < b { assert h.tokens[a] < h.tokens[b]; }
    if b < a { assert h.tokens[b] < h.tokens[a]; }
  }

  /** Until the next stream, input that is closed stays closed. */
  lemma ClosedStays(s: State, s': State, a: Action)
    requires Step(s, s', a) && s.session.inputClosed && !a.StartStream?
    ensures s'.session.inputClosed
  {
    hide FeedStep, Unread, ReadCount, AfterRead, StartStep;
    if a.FeedStream? { ClosedStaysFed(s, s', a.token, a.request); }
  }

  lemma ClosedStaysFed(s: State, s': State, token: nat, request: Bytes)
    requires FeedStep(s, s', token, request) && s.session.inputClosed
    ensures s'.session.inputClosed
  {
    hide Framed, Messages, CopyOnly, ClosesInput, EndsCopy, CompletionIsLast;
  }

  /** `r` goes on from `earlier` without another stream being started. */
  predicate SameStream(earlier: Run, r: Run) {
    r == earlier || (r.Then? && !r.action.StartStream? && SameStream(earlier, r.before))
  }

  lemma {:induction false} ClosedAlong(earlier: Run, r: Run)
    requires IsRun(r) && SameStream(earlier, r) && Last(earlier).session.inputClosed
    ensures Last(r).session.inputClosed
  {
    hide Step;
    if r != earlier {
      ClosedAlong(earlier, r.before);
      ClosedStays(Last(r.before), r.next, r.action);
    }
  }

  lemma {:induction false} EarlierIsRun(earlier: Run, r: Run)
    requires IsRun(r) && SameStream(earlier, r)
    ensures IsRun(earlier)
  {
    hide Step;
    if r != earlier { EarlierIsRun(earlier, r.before); }
  }

  /**
   * Once a request with a Query, Sync or Terminate has started a stream, or has been fed to it outside COPY mode,
   * it was the last such request: whatever is accepted later for that stream is COPY data or the end of it, and is
   * accepted only in COPY mode.
   */
  lemma CompletedInputTakesOnlyCopy(earlier: Run, r: Run, i: nat, token: nat, request: Bytes)
    requires IsRun(r) && SameStream(earlier, r) && i < |Last(earlier).history.ordinary|
    requires Framed(Last(earlier).history.ordinary[i]) && ClosesInput(Messages(Last(earlier).history.ordinary[i]))
    requires FeedVerdict(Last(r).session, token, request) == Accepted
    ensures i == |Last(earlier).history.ordinary| - 1
    ensures Last(r).session.copyInput && CopyOnly(Messages(request))
  {
    hide Framed, Messages, CopyOnly, CompletionIsLast, ClosesInput, IsRun, SameStream;
    EarlierIsRun(earlier, r);
    RunKeeps(earlier);
    assert ClosingOk(Last(earlier));
    ClosedAlong(earlier, r);
  }

  // ---------------------------------------------------------------------------
  // Terminate
  // ---------------------------------------------------------------------------

  const TERMINATE_FRAME: Bytes := [88, 0, 0, 0, 4]

  lemma TerminateFrameParses()
    ensures Framed(TERMINATE_FRAME) && Messages(TERMINATE_FRAME) == [Message(TERMINATE, [])]
  {
    var s := TERMINATE_FRAME;
    assert s[1..5] == [0, 0, 0, 4];
    assert Number([0, 0, 0, 4]) == 4;
    assert FrontOf(s) == Whole(5);
    assert s[5..] == [] && s[5..5] == [];
    assert Messages(s[5..]) == [];
  }

  /**
   * An accepted Terminate leaves the input closed if and only if it was closed before or the stream was
   * not in COPY mode; in COPY mode it only ends the COPY.
   */
  lemma TerminateClosesIff(s: Session, token: nat, request: Bytes)
    requires FeedVerdict(s, token, request) == Accepted
    requires Messages(request) != [] && Messages(request)[|Messages(request)| - 1].tag == TERMINATE
    ensures Fed(s, request).inputClosed <==> s.inputClosed || !s.copyInput
    ensures !Fed(s, request).copyInput
  {
    hide Framed, Messages;
    assert Completes(TERMINATE);
  }

  // Flush, which completes nothing.
  const FLUSH_FRAME: Bytes := [72, 0, 0, 0, 4]

  lemma FlushFrameParses()
    ensures Framed(FLUSH_FRAME) && Messages(FLUSH_FRAME) == [Message(72, [])]
  {
    var s := FLUSH_FRAME;
    assert s[1..5] == [0, 0, 0, 4];
    assert Number([0, 0, 0, 4]) == 4;
    assert FrontOf(s) == Whole(5);
    assert s[5..] == [] && s[5..5] == [];
    assert Messages(s[5..]) == [];
  }

  lemma FlushCompletesNothing()
    ensures Framed(FLUSH_FRAME) && !ClosesInput(Messages(FLUSH_FRAME))
  {
    hide Framed, Messages;
    FlushFrameParses();
  }

  lemma NextStep(r: Run, a: Action, s: State) returns (n: Run)
    requires IsRun(r) && Step(Last(r), s, a)
    ensures n == Then(r, a, s) && IsRun(n)
  {
    n := Then(r, a, s);
  }

  /** A stream in COPY mode whose request did not complete its input, and whose slot has been read. */
  function InCopy(input: Bytes, copy: bool): Session {
    Session(input, 0, true, 1, true, false, false, false, false, false, false, copy)
  }

  lemma CopyRun() returns (r: Run)
    ensures IsRun(r) && Last(r).session == InCopy([], true)
  {
    hide Framed, Messages, ClosesInput;
    FlushCompletesNothing();
    var s0 := State(Session([], 0, false, 0, true, false, false, false, false, false, false, false),
                    History([[]], [], [], [], []));
    var s1 := State(InCopy(FLUSH_FRAME, false), History([[], FLUSH_FRAME], [], [1], [], [FLUSH_FRAME]));
    var s2 := s1.(session := InCopy([], false), history := s1.history.(read := FLUSH_FRAME));
    var s3 := s2.(session := InCopy([], true));
    r := Begin(s0);
    assert [[]] + [FLUSH_FRAME] == [[], FLUSH_FRAME];
    r := NextStep(r, StartStream(FLUSH_FRAME), s1);
    assert FLUSH_FRAME[0..][..5] == FLUSH_FRAME;
    r := NextStep(r, BackendRead(5), s2);
    r := NextStep(r, ScanOutput(false, false, true), s3);
  }

  /** There is such a stream, and a Terminate fed to it is accepted and leaves the input open. */
  lemma TerminateLeavesCopyOpen() returns (r: Run)
    ensures IsRun(r) && r.Then? && r.action == FeedStream(1, TERMINATE_FRAME)
    ensures FeedVerdict(Last(r.before).session, 1, TERMINATE_FRAME) == Accepted
    ensures Last(r).session.streaming && !Last(r).session.inputClosed && !Last(r).session.copyInput
  {
    hide Framed, Messages, IsRun;
    TerminateFrameParses();
    r := CopyRun();
    var s := Last(r);
    var h := s.history;
    var next := State(Fed(s.session, TERMINATE_FRAME), h.(
      accepted := h.accepted + [TERMINATE_FRAME], feeds := h.feeds + [FeedRecord(1, |h.tokens|)]));
    assert EndsCopy(Messages(TERMINATE_FRAME));
    r := NextStep(r, FeedStream(1, TERMINATE_FRAME), next);
  }
}
