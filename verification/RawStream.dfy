/**
 * One raw protocol stream: the backend thread writes, the calling thread pops chunks and hands them to
 * its callback with the session mutex released, until a ReadyForQuery has been written and the queue is
 * empty. Every step below is one stretch of code under the mutex.
 */
module RawStream {
  import opened Prelude
  import opened Frames
  import opened StreamQueue
  import opened ReadyScan

  datatype Status = Completed | Aborted | Failed

  /** The backend thread; `Writing` may wait for queue room between two slices. */
  datatype Producer = Idle | Writing(buf: Bytes, off: nat) | Gone

  datatype Caller =
    | Looping
    | Offering(chunk: Bytes)
    | Draining(status: Status)
    | DrainOffering(chunk: Bytes, status: Status)
    | Returned(status: Status)

  datatype State = State(
    streaming: bool,
    outputReady: bool,
    streamFailed: bool,
    closing: bool,
    copyInput: bool,
    input: Bytes,
    queue: seq<Bytes>,
    limit: nat,
    pending: Bytes,
    producer: Producer,
    caller: Caller,
    callbackFailed: bool,
    history: History)

  /** What has happened so far; no step reads it. */
  datatype History = History(
    carried: Bytes,         // part of a write that was queued before this stream began
    written: Bytes,         // queued since
    scanned: Bytes,         // the complete writes, as the scanner saw them
    torn: Bytes,            // queued parts of writes that were cut short before the scanner reported
    response: Bytes,        // `scanned` when the scanner first reported
    late: Bytes,            // queued after that
    popped: seq<Bytes>,
    delivered: seq<Bytes>)  // chunks the callback was called with

  /** The stream has been set up: flags reset, queue cleared, request in the input slot; a close may have begun. */
  predicate Init(s: State) {
    && s.streaming && !s.outputReady && !s.streamFailed && !s.copyInput
    && s.queue == [] && s.pending == [] && s.caller == Looping && !s.callbackFailed
    && (s.producer.Writing? ==> s.producer.off <= |s.producer.buf|)
    && s.history == History(Progress(s.producer), [], [], [], [], [], [], [])
  }

  function Progress(p: Producer): Bytes
  {
    if p.Writing? && p.off <= |p.buf| then p.buf[..p.off] else []
  }

  // ---------------------------------------------------------------------------
  // The backend thread
  // ---------------------------------------------------------------------------

  predicate BeginWriteStep(s: State, s': State, buf: Bytes) {
    s.producer == Idle && s' == s.(producer := Writing(buf, 0))
  }

  function Slice(s: State): Bytes
    requires s.producer.Writing? && s.producer.off <= |s.producer.buf|
  {
    s.producer.buf[s.producer.off..s.producer.off + Min(|s.producer.buf| - s.producer.off, Limit(s.limit))]
  }

  /** The next slice fits. */
  predicate EnqueueStep(s: State, s': State) {
    && s.producer.Writing? && s.producer.off < |s.producer.buf|
    && var slice := Slice(s);
       && HasRoom(|Concat(s.queue)|, |slice|, Limit(s.limit))
       && s' == s.(
            queue := s.queue + [slice],
            producer := Writing(s.producer.buf, s.producer.off + |slice|),
            history := s.history.(
              written := s.history.written + slice,
              late := if s.outputReady then s.history.late + slice else s.history.late))
  }

  /** All slices are queued: the scanner looks at the whole write. */
  predicate EndWriteStep(s: State, s': State) {
    && s.producer.Writing? && s.producer.off == |s.producer.buf|
    && var v, scanned := FirstReady(s.pending + s.producer.buf), s.history.scanned + s.producer.buf;
       && s'.outputReady == (s.outputReady || !v.Pending?)
       && s'.streamFailed == (s.streamFailed || v.Broken?)
       && s'.copyInput == CopyAfter(s.copyInput, s.pending + s.producer.buf)
       && (v.Pending? ==> s'.pending == Remainder(s.pending + s.producer.buf))
       && (v.Ready? ==> s'.pending == [])
       && s' == s.(
            outputReady := s'.outputReady, streamFailed := s'.streamFailed,
            copyInput := s'.copyInput, pending := s'.pending, producer := Idle,
            history := s.history.(
              scanned := scanned,
              response := if s.outputReady || v.Pending? then s.history.response else scanned))
  }

  /** No room, and the stream has failed or the handle is closing: the write is cut short, its queued part stays. */
  predicate CutWriteStep(s: State, s': State) {
    && s.producer.Writing? && s.producer.off < |s.producer.buf|
    && !HasRoom(|Concat(s.queue)|, |Slice(s)|, Limit(s.limit))
    && (!s.streaming || s.streamFailed || s.closing)
    && s' == s.(
         producer := Idle,
         history := if s.outputReady then s.history else s.history.(torn := s.history.torn + Progress(s.producer)))
  }

  /** The backend thread ends; it writes no more. */
  predicate ExitStep(s: State, s': State) {
    s.producer == Idle && s' == s.(producer := Gone, closing := true)
  }

  /** Terminate, which a closing thread leaves in an empty slot. */
  const TERMINATE: Bytes := [88, 0, 0, 0, 4]

  /** Another thread claimed the handle while this call was open and begins to close it. */
  predicate CloseStep(s: State, s': State) {
    s' == s.(closing := true, input := if s.input == [] then TERMINATE else s.input)
  }

  /** The backend reads input, or another thread feeds it; feeding can end COPY mode. */
  predicate InputStep(s: State, s': State, input: Bytes, copyInput: bool) {
    s' == s.(input := input, copyInput := copyInput) && (copyInput ==> s.copyInput)
  }

  // ---------------------------------------------------------------------------
  // The caller
  // ---------------------------------------------------------------------------

  predicate PopStep(s: State, s': State) {
    && s.queue != [] && (s.caller.Looping? || s.caller.Draining?)
    && s' == s.(
         queue := s.queue[1..],
         caller := if s.caller.Looping? then Offering(s.queue[0]) else DrainOffering(s.queue[0], s.caller.status),
         history := s.history.(popped := s.history.popped + [s.queue[0]]))
  }

  /** CopyFail with an empty reason; a Sync follows unless the request was a simple Query. */
  const COPY_FAIL: Bytes := [102, 0, 0, 0, 5, 0]
  const SYNC: Bytes := [83, 0, 0, 0, 4]

  function Recovery(simple: bool): Bytes { if simple then COPY_FAIL else COPY_FAIL + SYNC }

  /** What is fed for a caller that gave up: CopyFail ('f') with no reason, and Sync ('S') after an extended one. */
  lemma RecoveryMessages()
    ensures Recovery(true) == EncodeMessages([Message(102, [0])])
    ensures Recovery(false) == EncodeMessages([Message(102, [0]), Message(83, [])])
    ensures TERMINATE == EncodeMessages([Message(88, [])])
  {
    assert Digits(5) == [0, 0, 0, 5] && Digits(4) == [0, 0, 0, 4];
    var fail, sync, end := Message(102, [0]), Message(83, []), Message(88, []);
    assert [fail][1..] == [] && [fail, sync][1..] == [sync] && [sync][1..] == [] && [end][1..] == [];
    assert Encode(fail) == COPY_FAIL && Encode(sync) == SYNC && Encode(end) == TERMINATE;
  }

  function Offered(s: State, chunk: Bytes): History {
    if s.callbackFailed then s.history else s.history.(delivered := s.history.delivered + [chunk])
  }

  /** Back from the callback in the main loop; a rejecting caller in COPY mode ends the COPY itself. */
  predicate OfferStep(s: State, s': State, accept: bool, simple: bool) {
    && s.caller.Offering?
    && var failed := s.callbackFailed || !accept;
       && s'.history == Offered(s, s.caller.chunk)
       && if failed && s.copyInput then
            if s.input != [] then
              s' == s.(callbackFailed := failed, caller := Draining(Failed), history := s'.history)
            else
              s' == s.(callbackFailed := failed, caller := Looping, copyInput := false,
                       input := Recovery(simple), history := s'.history)
          else s' == s.(callbackFailed := failed, caller := Looping, history := s'.history)
  }

  predicate DrainOfferStep(s: State, s': State, accept: bool) {
    && s.caller.DrainOffering?
    && s' == s.(callbackFailed := s.callbackFailed || !accept, caller := Draining(s.caller.status),
                history := Offered(s, s.caller.chunk))
  }

  /** The queue is empty: failure is looked at before readiness, readiness before the backend's exit and a close. */
  predicate LeaveLoopStep(s: State, s': State, waitFailed: bool) {
    && s.caller.Looping? && s.queue == []
    && (s.streamFailed || s.outputReady || s.producer.Gone? || s.closing || waitFailed)
    && s' == s.(caller := Draining(if !s.streamFailed && s.outputReady then Completed else Failed))
  }

  predicate ReturnStep(s: State, s': State) {
    && s.caller.Draining? && s.queue == []
    && var status := if s.caller.status == Completed && s.callbackFailed then Aborted else s.caller.status;
       s' == s.(streaming := false, queue := [], pending := [], caller := Returned(status))
  }

  datatype Action =
    | BeginWrite(buf: Bytes) | EnqueueSlice | EndWrite | CutWrite | Exit | Close | Input(input: Bytes, copyInput: bool)
    | Pop | Offer(accept: bool, simple: bool) | DrainOffer(accept: bool) | LeaveLoop(waitFailed: bool) | Return

  /** The stream is over once its caller has returned. */
  predicate Step(s: State, s': State, a: Action) {
    && !s.caller.Returned?
    && match a
       case BeginWrite(buf) => BeginWriteStep(s, s', buf)
       case EnqueueSlice => EnqueueStep(s, s')
       case EndWrite => EndWriteStep(s, s')
       case CutWrite => CutWriteStep(s, s')
       case Exit => ExitStep(s, s')
       case Close => CloseStep(s, s')
       case Input(input, copyInput) => InputStep(s, s', input, copyInput)
       case Pop => PopStep(s, s')
       case Offer(accept, simple) => OfferStep(s, s', accept, simple)
       case DrainOffer(accept) => DrainOfferStep(s, s', accept)
       case LeaveLoop(waitFailed) => LeaveLoopStep(s, s', waitFailed)
       case Return => ReturnStep(s, s')
  }

  // ---------------------------------------------------------------------------
  // The invariant
  // ---------------------------------------------------------------------------

  /** Nothing is lost or reordered between the two threads, and the queue stays within its limit. */
  ghost predicate QueueOk(s: State) {
    Bounded(s.queue, Limit(s.limit)) && Flow(s.history.popped, s.queue, s.history.written)
  }

  /** The callback saw every popped chunk until it rejected one. */
  ghost predicate DeliveryOk(s: State) {
    var h := s.history;
    && h.delivered <= h.popped
    && (s.caller.Offering? || s.caller.DrainOffering? ==> h.popped != [] && s.caller.chunk == h.popped[|h.popped| - 1])
    && (s.caller.Offering? || s.caller.DrainOffering? ==> h.delivered <= h.popped[..|h.popped| - 1])
    && (!s.callbackFailed ==>
          if s.caller.Offering? || s.caller.DrainOffering? then h.delivered == h.popped[..|h.popped| - 1]
          else h.delivered == h.popped)
    && (s.callbackFailed ==> h.delivered != [])
  }

  /** `all` is `a` then `b`, but for the torn bytes in between. */
  predicate Balanced(all: Bytes, a: Bytes, torn: Bytes, b: Bytes) {
    |all| == |a| + |torn| + |b| && (torn == [] ==> all == a + b)
  }

  /** The scanner has seen what was queued, except torn writes and the write in progress. */
  ghost predicate ScanOk(s: State) {
    var h := s.history;
    && (s.producer.Writing? ==> s.producer.off <= |s.producer.buf|)
    && (!s.outputReady ==> h.late == [] && Balanced(h.carried + h.written, h.scanned, h.torn, Progress(s.producer)))
    && (!s.outputReady && !s.caller.Returned? ==>
          !s.streamFailed && FirstReady(h.scanned).Pending? && s.pending == Remainder(h.scanned))
    && (s.outputReady ==>
          && Balanced(h.carried + h.written, h.response, h.torn, h.late)
          && !FirstReady(h.response).Pending?
          && (FirstReady(h.response).Broken? ==> s.streamFailed))
  }

  /** A caller on its way to success has seen readiness without failure. */
  ghost predicate OutcomeOk(s: State) {
    && (s.caller.Draining? || s.caller.DrainOffering? ==> s.caller.status != Aborted)
    && ((s.caller.Draining? || s.caller.DrainOffering? || s.caller.Returned?) && s.caller.status != Failed ==>
          s.outputReady && FirstReady(s.history.response).Ready?)
  }

  ghost predicate ReturnOk(s: State) {
    && (if s.caller.Returned? then !s.streaming && s.queue == [] else s.streaming)
    && (s.caller.Returned? && s.caller.status == Aborted ==> s.callbackFailed)
    && (s.caller.Returned? && s.caller.status == Completed ==> !s.callbackFailed)
  }

  ghost predicate Inv(s: State) { QueueOk(s) && DeliveryOk(s) && ScanOk(s) && OutcomeOk(s) && ReturnOk(s) }

  lemma InitHolds(s: State)
    requires Init(s)
    ensures Inv(s)
  {
    assert [] + Progress(s.producer) == Progress(s.producer) + [];
    OpenFront([]);
  }

  lemma BalancedMore(all: Bytes, a: Bytes, torn: Bytes, b: Bytes, more: Bytes)
    requires Balanced(all, a, torn, b)
    ensures Balanced(all + more, a, torn, b + more)
  {
    if torn == [] { assert a + b + more == a + (b + more); }
  }

  lemma BalancedTear(all: Bytes, a: Bytes, torn: Bytes, b: Bytes)
    requires Balanced(all, a, torn, b)
    ensures Balanced(all, a, torn + b, []) && Balanced(all, a + b, torn, [])
  {
    if torn == [] { assert a + b + [] == a + b; }
  }

  lemma EnqueueKeepsQueue(s: State, s': State)
    requires QueueOk(s) && EnqueueStep(s, s')
    ensures QueueOk(s')
  {
    hide Flow, Bounded;
    BoundedSnoc(s.queue, Slice(s), Limit(s.limit));
    FlowPush(s.history.popped, s.queue, s.history.written, Slice(s));
  }

  lemma ProgressGrows(s: State)
    requires s.producer.Writing? && s.producer.off < |s.producer.buf|
    ensures var slice := Slice(s);
      s.producer.off + |slice| <= |s.producer.buf| &&
      Progress(Writing(s.producer.buf, s.producer.off + |slice|)) == Progress(s.producer) + slice
  {
  }

  lemma EnqueueKeepsScan(s: State, s': State)
    requires ScanOk(s) && EnqueueStep(s, s')
    ensures ScanOk(s')
  {
    hide FirstReady, Remainder, Slice, Progress, Balanced;
    var slice, h := Slice(s), s.history;
    ProgressGrows(s);
    assert h.carried + (h.written + slice) == h.carried + h.written + slice;
    if s.outputReady {
      BalancedMore(h.carried + h.written, h.response, h.torn, h.late, slice);
    } else {
      BalancedMore(h.carried + h.written, h.scanned, h.torn, Progress(s.producer), slice);
    }
  }

  lemma EnqueueKeeps(s: State, s': State)
    requires Inv(s) && !s.caller.Returned? && EnqueueStep(s, s')
    ensures Inv(s')
  {
    hide QueueOk, ScanOk, FirstReady, HasRoom, Slice;
    EnqueueKeepsQueue(s, s');
    EnqueueKeepsScan(s, s');
  }

  lemma EndWriteKeeps(s: State, s': State)
    requires Inv(s) && !s.caller.Returned? && EndWriteStep(s, s')
    ensures Inv(s')
  {
    hide Flow, FirstReady, Remainder, Bounded, CopyAfter, Balanced;
    var h, p := s.history, s.producer;
    assert p.buf[..|p.buf|] == p.buf;
    if !s.outputReady {
      BalancedTear(h.carried + h.written, h.scanned, h.torn, p.buf);
      FirstReadyStable(h.scanned, p.buf);
      if FirstReady(s.pending + p.buf).Pending? { RemainderMore(h.scanned, p.buf); }
    }
  }

  lemma PopKeeps(s: State, s': State)
    requires Inv(s) && !s.caller.Returned? && PopStep(s, s')
    ensures Inv(s')
  {
    hide Flow, ScanOk, FirstReady, Bounded;
    ScanFrame(s, s');
    BoundedTail(s.queue, Limit(s.limit));
    FlowPop(s.history.popped, s.queue, s.history.written);
    assert s'.history.popped[..|s.history.popped|] == s.history.popped;
  }

  /** Caller steps leave everything the scanner's part speaks of alone. */
  lemma ScanFrame(s: State, s': State)
    requires ScanOk(s) && s'.producer == s.producer && s'.streamFailed == s.streamFailed
    requires s'.outputReady == s.outputReady
    requires (s'.caller.Returned? || (s'.pending == s.pending && !s.caller.Returned?))
    requires s'.history == s.history.(popped := s'.history.popped, delivered := s'.history.delivered)
    ensures ScanOk(s')
  {
    hide FirstReady, Remainder, Progress;
  }

  lemma OfferKeeps(s: State, s': State, accept: bool, simple: bool)
    requires Inv(s) && !s.caller.Returned? && OfferStep(s, s', accept, simple)
    ensures Inv(s')
  {
    hide QueueOk, ScanOk, FirstReady, Recovery;
    ScanFrame(s, s');
    QueueFrame(s, s');
  }

  lemma QueueFrame(s: State, s': State)
    requires QueueOk(s) && s'.queue == s.queue && s'.limit == s.limit
    requires s'.history.popped == s.history.popped && s'.history.written == s.history.written
    ensures QueueOk(s')
  {
    hide Flow, Bounded;
  }

  lemma DrainOfferKeeps(s: State, s': State, accept: bool)
    requires Inv(s) && !s.caller.Returned? && DrainOfferStep(s, s', accept)
    ensures Inv(s')
  {
    hide QueueOk, ScanOk, FirstReady;
    ScanFrame(s, s');
    QueueFrame(s, s');
  }

  lemma LeaveLoopKeeps(s: State, s': State, waitFailed: bool)
    requires Inv(s) && LeaveLoopStep(s, s', waitFailed)
    ensures Inv(s')
  {
    hide QueueOk, FirstReady, Remainder, Progress;
    QueueFrame(s, s');
  }

  lemma ReturnKeeps(s: State, s': State)
    requires Inv(s) && ReturnStep(s, s')
    ensures Inv(s')
  {
    hide QueueOk, ScanOk, FirstReady, Remainder;
    ScanFrame(s, s');
    QueueFrame(s, s');
  }

  /** Starting, cutting short and ending a write, a close and input touch neither the queue nor what was delivered. */
  lemma QuietKeeps(s: State, s': State, a: Action)
    requires Inv(s) && Step(s, s', a) && (a.BeginWrite? || a.CutWrite? || a.Exit? || a.Close? || a.Input?)
    ensures Inv(s')
  {
    hide QueueOk, FirstReady, Remainder, HasRoom, Slice, Balanced;
    QueueFrame(s, s');
    if a.BeginWrite? { assert a.buf[..0] == []; }
    var h := s.history;
    if a.CutWrite? && !s.outputReady { BalancedTear(h.carried + h.written, h.scanned, h.torn, Progress(s.producer)); }
  }

  lemma StepKeeps(s: State, s': State, a: Action)
    requires Inv(s) && Step(s, s', a)
    ensures Inv(s')
  {
    hide Inv, Slice, HasRoom, FirstReady, Remainder, CopyAfter, Progress;
    match a
    case EnqueueSlice => EnqueueKeeps(s, s');
    case EndWrite => EndWriteKeeps(s, s');
    case Pop => PopKeeps(s, s');
    case Offer(accept, simple) => OfferKeeps(s, s', accept, simple);
    case DrainOffer(accept) => DrainOfferKeeps(s, s', accept);
    case LeaveLoop(waitFailed) => LeaveLoopKeeps(s, s', waitFailed);
    case Return => ReturnKeeps(s, s');
    case _ => QuietKeeps(s, s', a);
  }

  // ---------------------------------------------------------------------------
  // Whole runs
  // ---------------------------------------------------------------------------

  /** A run, step by step from its initial state; every beginning of a run is a run. */
  datatype Run = Start(first: State) | Then(before: Run, action: Action, next: State)

  function Last(r: Run): State { if r.Start? then r.first else r.next }

  function First(r: Run): State { if r.Start? then r.first else First(r.before) }

  predicate IsRun(r: Run) {
    match r
    case Start(s) => Init(s)
    case Then(before, a, s) => IsRun(before) && Step(Last(before), s, a)
  }

  lemma {:induction false} RunKeeps(r: Run)
    requires IsRun(r)
    ensures Inv(Last(r))
  {
    hide Inv, Step, Init;
    match r
    case Start(s) => InitHolds(s);
    case Then(before, a, s) =>
      RunKeeps(before);
      StepKeeps(Last(before), s, a);
  }

  /**
   * A stream that returns success has delivered, in order and exactly once, every byte queued for it, after
   * the scanner has seen a ReadyForQuery. Those bytes are the response, through the write that completed it,
   * then whatever was queued later, if and only if no part of a write that was cut short lies among them.
   */
  lemma SuccessDeliversEverything(r: Run)
    requires IsRun(r) && Last(r).caller == Returned(Completed)
    ensures var s, h := Last(r), Last(r).history;
      && Concat(h.delivered) == h.written && !s.streaming && s.queue == []
      && FirstReady(h.response).Ready?
      && (h.carried + h.written == h.response + h.late <==> !TearsWrite(r))
      && (!TearsWrite(r) ==> FirstReady(h.carried + h.written) == FirstReady(h.response))
  {
    hide FirstReady, Remainder;
    RunKeeps(r);
    TornIffTears(r);
    var h := Last(r).history;
    assert h.popped[..|h.popped|] == h.popped;
    assert Concat(h.popped) + [] == Concat(h.popped);
    FirstReadyStable(h.response, h.late);
    if h.torn != [] { assert |h.carried + h.written| > |h.response + h.late|; }
  }

  /** A write is cut short after part of it was queued and before the scanner has reported. */
  predicate TearsWrite(r: Run) {
    r.Then? &&
    (TearsWrite(r.before) ||
     (r.action.CutWrite? && !Last(r.before).outputReady && Progress(Last(r.before).producer) != []))
  }

  /** Something is queued after the scanner has reported. */
  predicate QueuesLate(r: Run) {
    r.Then? && (QueuesLate(r.before) || (r.action.EnqueueSlice? && Last(r.before).outputReady))
  }

  lemma {:induction false} TornIffTears(r: Run)
    requires IsRun(r)
    ensures Last(r).history.torn == [] <==> !TearsWrite(r)
  {
    hide Step;
    if r.Then? {
      TornIffTears(r.before);
      TornStep(Last(r.before), r.next, r.action);
    }
  }

  lemma {:induction false} LateIffQueues(r: Run)
    requires IsRun(r)
    ensures Last(r).history.late == [] <==> !QueuesLate(r)
  {
    hide Step;
    if r.Then? {
      LateIffQueues(r.before);
      TornStep(Last(r.before), r.next, r.action);
    }
  }

  /** Only these two kinds of step touch the two records. */
  lemma TornStep(s: State, s': State, a: Action)
    requires Step(s, s', a)
    ensures s'.history.torn == s.history.torn + if a.CutWrite? && !s.outputReady then Progress(s.producer) else []
    ensures s'.history.late != s.history.late ==> a.EnqueueSlice? && s.outputReady
    ensures a.EnqueueSlice? && s.outputReady ==> s'.history.late != []
  {
    hide FirstReady, Remainder, HasRoom, Recovery, CopyAfter, Concat, Progress, EndWriteStep, OfferStep, Limit;
    if a.EndWrite? {
      EndWriteRecords(s, s');
    } else if a.Offer? {
      OfferRecords(s, s', a.accept, a.simple);
    } else if a.EnqueueSlice? {
      SliceIsSome(s);
    }
  }

  lemma SliceIsSome(s: State)
    requires s.producer.Writing? && s.producer.off < |s.producer.buf|
    ensures Slice(s) != []
  {
  }

  lemma EndWriteRecords(s: State, s': State)
    requires EndWriteStep(s, s')
    ensures s'.history.torn == s.history.torn && s'.history.late == s.history.late
  {
    hide FirstReady, Remainder, CopyAfter;
  }

  lemma OfferRecords(s: State, s': State, accept: bool, simple: bool)
    requires OfferStep(s, s', accept, simple)
    ensures s'.history.torn == s.history.torn && s'.history.late == s.history.late
  {
    hide Recovery;
  }

  /**
   * When the callback of a successful stream got exactly the response, through the ready write. A stream that begins
   * between two writes: if and only if no write was torn before the ready one and nothing was queued between it and
   * the return. A stream without torn and late bytes: if and only if it began between two writes; else it misses
   * `carried`, what the write under way had queued before. A stream without torn bytes: if and only if the late bytes
   * happen to make up for the carried ones.
   */
  lemma ExactIffNeitherTornNorLate(r: Run)
    requires IsRun(r) && Last(r).caller == Returned(Completed)
    ensures var h := Last(r).history;
      h.carried + Concat(h.delivered) == h.response <==> !TearsWrite(r) && !QueuesLate(r)
    ensures var h := Last(r).history;
      h.carried == [] ==> (Concat(h.delivered) == h.response <==> !TearsWrite(r) && !QueuesLate(r))
    ensures var h := Last(r).history;
      !TearsWrite(r) && !QueuesLate(r) ==> (Concat(h.delivered) == h.response <==> h.carried == [])
    ensures var h := Last(r).history;
      !TearsWrite(r) ==> (Concat(h.delivered) == h.response <==> h.carried + h.response == h.response + h.late)
    ensures Last(r).history.carried == Progress(First(r).producer)
  {
    hide FirstReady, Remainder;
    RunKeeps(r);
    SuccessDeliversEverything(r);
    TornIffTears(r);
    LateIffQueues(r);
    CarriedStays(r);
    var h := Last(r).history;
    assert h.response + [] == h.response && [] + Concat(h.delivered) == Concat(h.delivered);
    SameFront(h.carried, Concat(h.delivered), h.response);
  }

  lemma SameFront(front: Bytes, a: Bytes, b: Bytes)
    ensures front + a == front + b <==> a == b
    ensures front + a == a ==> front == []
  {
    if front + a == front + b {
      assert a == (front + a)[|front|..] == (front + b)[|front|..] == b;
    }
    if front + a == a { assert |front + a| == |front| + |a|; }
  }

  lemma {:induction false} CarriedStays(r: Run)
    requires IsRun(r)
    ensures Last(r).history.carried == Progress(First(r).producer)
  {
    hide Step;
    if r.Then? {
      CarriedStays(r.before);
      CarriedStep(Last(r.before), r.next, r.action);
    }
  }

  lemma CarriedStep(s: State, s': State, a: Action)
    requires Step(s, s', a)
    ensures s'.history.carried == s.history.carried
  {
    hide FirstReady, Remainder, HasRoom, Slice, Recovery, CopyAfter, Concat, Limit, EndWriteStep, OfferStep, Progress;
    if a.EndWrite? {
      EndWriteCarried(s, s');
    } else if a.Offer? {
      OfferCarried(s, s', a.accept, a.simple);
    }
  }

  lemma EndWriteCarried(s: State, s': State)
    requires EndWriteStep(s, s')
    ensures s'.history.carried == s.history.carried
  {
    hide FirstReady, Remainder, CopyAfter;
  }

  lemma OfferCarried(s: State, s': State, accept: bool, simple: bool)
    requires OfferStep(s, s', accept, simple)
    ensures s'.history.carried == s.history.carried
  {
    hide Recovery;
  }

  /**
   * A rejected callback: the delivered chunks are a prefix of all that was queued, ending in the rejected one; the
   * rest was drained, and the scanner saw a ReadyForQuery without failing. What was queued is the response and what
   * followed it if and only if no write was torn.
   */
  lemma AbortDeliversPrefix(r: Run)
    requires IsRun(r) && Last(r).caller == Returned(Aborted)
    ensures var s, h := Last(r), Last(r).history;
      && s.callbackFailed && h.delivered != [] && h.delivered <= h.popped && Concat(h.popped) == h.written
      && FirstReady(h.response).Ready? && !s.streaming && s.queue == []
      && (h.carried + h.written == h.response + h.late <==> !TearsWrite(r))
  {
    hide FirstReady, Remainder;
    RunKeeps(r);
    TornIffTears(r);
    var h := Last(r).history;
    assert Concat(h.popped) + [] == Concat(h.popped);
    if h.torn != [] { assert |h.carried + h.written| > |h.response + h.late|; }
  }

  /** The callback has turned a chunk down. */
  predicate Rejects(r: Run) {
    r.Then? && (Rejects(r.before) || (r.action.Offer? && !r.action.accept) || (r.action.DrainOffer? && !r.action.accept))
  }

  /** The stream was given up: it left its loop without or despite a ReadyForQuery, or could not end a COPY. */
  predicate GivesUp(r: Run) {
    r.Then? && (GivesUp(r.before) || GivesUpNow(Last(r.before), r.action))
  }

  predicate GivesUpNow(s: State, a: Action) {
    || (a.LeaveLoop? && (s.streamFailed || !s.outputReady))
    || (a.Offer? && (s.callbackFailed || !a.accept) && s.copyInput && s.input != [])
  }

  /** What the caller will return, as far as it is decided. */
  predicate StatusOk(s: State, rejects: bool, gaveUp: bool) {
    && (s.callbackFailed <==> rejects)
    && (match s.caller
        case Looping => !gaveUp
        case Offering(_) => !gaveUp
        case Draining(status) => status == if gaveUp then Failed else Completed
        case DrainOffering(_, status) => status == if gaveUp then Failed else Completed
        case Returned(status) => status == if gaveUp then Failed else if rejects then Aborted else Completed)
  }

  lemma StatusStep(s: State, s': State, a: Action, rejects: bool, gaveUp: bool)
    requires Step(s, s', a) && StatusOk(s, rejects, gaveUp)
    ensures StatusOk(s', rejects || (a.Offer? && !a.accept) || (a.DrainOffer? && !a.accept), gaveUp || GivesUpNow(s, a))
  {
    hide FirstReady, Remainder, HasRoom, Slice, Recovery, CopyAfter, Concat, Limit, Progress;
  }

  lemma {:induction false} RunStatus(r: Run)
    requires IsRun(r)
    ensures StatusOk(Last(r), Rejects(r), GivesUp(r))
  {
    hide Step, StatusOk;
    if r.Then? {
      RunStatus(r.before);
      StatusStep(Last(r.before), r.next, r.action, Rejects(r.before), GivesUp(r.before));
    } else {
      StatusStart(r.first);
    }
  }

  lemma StatusStart(s: State)
    requires Init(s)
    ensures StatusOk(s, false, false)
  {
  }

  /** Which of its three results a stream returns. */
  lemma ResultIff(r: Run)
    requires IsRun(r) && Last(r).caller.Returned?
    ensures var status := Last(r).caller.status;
      && (status == Failed <==> GivesUp(r))
      && (status == Aborted <==> !GivesUp(r) && Rejects(r))
      && (status == Completed <==> !GivesUp(r) && !Rejects(r))
  {
    RunStatus(r);
  }

  /**
   * A caller that has turned a chunk down while the backend waits for COPY data: the COPY is ended for it if the input
   * slot is free, and the stream is given up if it is not. In any other case nothing is fed.
   */
  lemma RejectedCopy(s: State, s': State, accept: bool, simple: bool)
    requires OfferStep(s, s', accept, simple)
    ensures var failed := s.callbackFailed || !accept;
      && s'.callbackFailed == failed
      && (failed && s.copyInput && s.input == [] ==>
            && s'.caller == Looping && !s'.copyInput
            && s'.input == EncodeMessages(if simple then [Message(102, [0])] else [Message(102, [0]), Message(83, [])]))
      && (failed && s.copyInput && s.input != [] ==> s'.caller == Draining(Failed) && s'.input == s.input)
      && (!failed || !s.copyInput ==> s'.caller == Looping && s'.input == s.input && s'.copyInput == s.copyInput)
      && (!s.callbackFailed ==> s'.history.delivered == s.history.delivered + [s.caller.chunk])
      && (s.callbackFailed ==> s'.history.delivered == s.history.delivered)
  {
    hide EncodeMessages, Recovery;
    RecoveryMessages();
  }

  /** A producer waiting for room never waits on an empty queue: the caller always has something to pop. */
  lemma WaitingMeansPoppable(s: State)
    requires s.producer.Writing? && s.producer.off < |s.producer.buf|
    requires !HasRoom(|Concat(s.queue)|, |Slice(s)|, Limit(s.limit))
    ensures s.queue != []
  {
  }

  // ---------------------------------------------------------------------------
  // A run that delivers exactly the response, and runs that deliver more, something else, and less
  // ---------------------------------------------------------------------------

  // A ParameterStatus-like message the backend may send at any time.
  const AFTERWARDS: Bytes := [83, 0, 0, 0, 5, 0]

  lemma ReadyIdleEndsResponse()
    ensures FirstReady([] + READY_IDLE) == Ready(6, 73) && !CopyAfter(false, [] + READY_IDLE)
    ensures |READY_IDLE| == |AFTERWARDS| == 6
  {
    var s := [] + READY_IDLE;
    assert s == READY_IDLE && s[1..5] == [0, 0, 0, 5];
    ReadyIdleIsReady();
    assert Number([0, 0, 0, 5]) == 5;
  }

  function Begun(limit: nat, request: Bytes): State {
    State(true, false, false, false, false, request, [], limit, [], Idle, Looping, false,
          History([], [], [], [], [], [], [], []))
  }

  /** One write, small enough for the empty queue: it begins and is queued whole. */
  lemma QueueWrite(r: Run, buf: Bytes) returns (next: Run)
    requires IsRun(r) && !Last(r).caller.Returned? && Last(r).producer == Idle && Last(r).queue == []
    requires 0 < |buf| <= Limit(Last(r).limit)
    ensures IsRun(next) && First(next) == First(r) && TearsWrite(next) == TearsWrite(r)
    ensures !Last(r).outputReady ==> QueuesLate(next) == QueuesLate(r)
    ensures var s := Last(r); Last(next) == s.(queue := [buf], producer := Writing(buf, |buf|), history := s.history.(
      written := s.history.written + buf, late := if s.outputReady then s.history.late + buf else s.history.late))
  {
    var s := Last(r);
    var a := s.(producer := Writing(buf, 0));
    assert Slice(a) == buf;
    assert [] + [buf] == [buf];
    var b := a.(queue := [buf], producer := Writing(buf, |buf|), history := s.history.(
      written := s.history.written + buf, late := if s.outputReady then s.history.late + buf else s.history.late));
    next := Then(Then(r, BeginWrite(buf), a), EnqueueSlice, b);
  }

  /** The queued ReadyForQuery is scanned. */
  lemma ScanReady(r: Run) returns (next: Run)
    requires IsRun(r) && !Last(r).caller.Returned? && Last(r).pending == [] && !Last(r).outputReady
    requires !Last(r).copyInput
    requires Last(r).producer == Writing(READY_IDLE, 6) && Last(r).history.scanned == []
    ensures IsRun(next) && First(next) == First(r) && TearsWrite(next) == TearsWrite(r)
    ensures QueuesLate(next) == QueuesLate(r)
    ensures var s := Last(r); Last(next) == s.(outputReady := true, copyInput := false, producer := Idle,
      history := s.history.(scanned := READY_IDLE, response := READY_IDLE))
  {
    hide FirstReady, CopyAfter;
    ReadyIdleEndsResponse();
    var s := Last(r);
    assert [] + READY_IDLE == READY_IDLE;
    var a := s.(outputReady := true, copyInput := false, producer := Idle,
      history := s.history.(scanned := READY_IDLE, response := READY_IDLE));
    next := Then(r, EndWrite, a);
  }

  /** The one queued chunk is popped, offered and accepted. */
  lemma PopAccepted(r: Run) returns (next: Run)
    requires IsRun(r) && (Last(r).caller.Looping? || Last(r).caller.Draining?) && !Last(r).callbackFailed
    requires |Last(r).queue| == 1
    ensures IsRun(next) && First(next) == First(r) && TearsWrite(next) == TearsWrite(r)
    ensures QueuesLate(next) == QueuesLate(r)
    ensures var s := Last(r); Last(next) == s.(queue := [], history := s.history.(
      popped := s.history.popped + s.queue, delivered := s.history.delivered + s.queue))
  {
    var s := Last(r);
    var chunk := s.queue[0];
    assert s.queue == [chunk] && s.queue[1..] == [];
    var a := s.(queue := [], history := s.history.(popped := s.history.popped + [chunk]),
      caller := if s.caller.Looping? then Offering(chunk) else DrainOffering(chunk, s.caller.status));
    var b := a.(caller := s.caller, history := a.history.(delivered := s.history.delivered + [chunk]));
    var offer := if s.caller.Looping? then Offer(true, true) else DrainOffer(true);
    next := Then(Then(r, Pop, a), offer, b);
  }

  lemma LeaveReady(r: Run) returns (next: Run)
    requires IsRun(r) && Last(r).caller == Looping && Last(r).queue == [] && Last(r).outputReady
    requires !Last(r).streamFailed
    ensures IsRun(next) && First(next) == First(r) && TearsWrite(next) == TearsWrite(r)
    ensures QueuesLate(next) == QueuesLate(r)
    ensures Last(next) == Last(r).(caller := Draining(Completed))
  {
    var a := Last(r).(caller := Draining(Completed));
    next := Then(r, LeaveLoop(false), a);
  }

  lemma ReturnSuccess(r: Run) returns (next: Run)
    requires IsRun(r) && Last(r).caller == Draining(Completed) && Last(r).queue == [] && !Last(r).callbackFailed
    ensures IsRun(next) && First(next) == First(r) && TearsWrite(next) == TearsWrite(r)
    ensures QueuesLate(next) == QueuesLate(r)
    ensures Last(next) == Last(r).(streaming := false, pending := [], caller := Returned(Completed))
  {
    var a := Last(r).(streaming := false, pending := [], caller := Returned(Completed));
    next := Then(r, Return, a);
  }

  lemma NextStep(r: Run, a: Action, s: State) returns (n: Run)
    requires IsRun(r) && Step(Last(r), s, a)
    ensures n == Then(r, a, s) && IsRun(n) && First(n) == First(r) && Last(n) == s
    ensures TearsWrite(r) ==> TearsWrite(n)
    ensures QueuesLate(n) <==> QueuesLate(r) || (a.EnqueueSlice? && Last(r).outputReady)
  {
    n := Then(r, a, s);
  }

  lemma BegunRun(limit: nat, request: Bytes) returns (r: Run)
    ensures IsRun(r) && First(r) == Last(r) == Begun(limit, request) && !QueuesLate(r) && !TearsWrite(r)
  {
    r := Start(Begun(limit, request));
  }

  /**
   * The backend writes once more after its ReadyForQuery while the caller is draining: those bytes reach
   * the callback too, after the response and before the successful return.
   */
  lemma LateBytesAreDelivered(limit: nat, request: Bytes) returns (r: Run)
    requires Limit(limit) >= 6
    ensures IsRun(r) && First(r).producer == Idle && Last(r).caller == Returned(Completed)
    ensures Last(r).history.response == READY_IDLE
    ensures Last(r).history.delivered == [READY_IDLE, AFTERWARDS]
  {
    hide IsRun, First, Last, FirstReady, CopyAfter, Limit;
    ReadyIdleEndsResponse();
    r := BegunRun(limit, request);
    r := QueueWrite(r, READY_IDLE);
    r := ScanReady(r);
    r := PopAccepted(r);
    r := LeaveReady(r);
    r := QueueWrite(r, AFTERWARDS);
    r := PopAccepted(r);
    r := ReturnSuccess(r);
  }

  // The first twelve bytes of a longer message; the limit below lets six of them into the queue.
  const LONG_WRITE: Bytes := [68, 0, 0, 0, 100, 0, 1, 0, 0, 0, 90, 0]

  /** The first slice of a write fills the queue, another thread begins to close the handle, and the write is cut. */
  lemma TornRun(request: Bytes) returns (r: Run)
    ensures IsRun(r) && First(r) == Begun(6, request) && TearsWrite(r) && !QueuesLate(r)
    ensures Last(r) == Begun(6, request).(
      closing := true, input := Last(r).input, queue := [LONG_WRITE[..6]],
      history := History([], LONG_WRITE[..6], [], LONG_WRITE[..6], [], [], [], []))
  {
    var s0, half := Begun(6, request), LONG_WRITE[..6];
    var s1 := s0.(producer := Writing(LONG_WRITE, 0));
    assert |LONG_WRITE| == 12 && |half| == 6 && Slice(s1) == half;
    assert [] + half == half && [] + [half] == [half];
    var s2 := s1.(queue := [half], producer := Writing(LONG_WRITE, 6), history := s0.history.(written := half));
    assert EnqueueStep(s1, s2);
    var s3 := s2.(closing := true, input := if request == [] then TERMINATE else request);
    assert CloseStep(s2, s3);
    var s4 := s3.(producer := Idle, history := s3.history.(torn := half));
    assert Progress(s3.producer) == half && |Slice(s3)| == 6;
    assert [half][1..] == [] && |Concat([half])| == 6;
    assert CutWriteStep(s3, s4);
    r := BegunRun(6, request);
    r := NextStep(r, BeginWrite(LONG_WRITE), s1);
    r := NextStep(r, EnqueueSlice, s2);
    r := NextStep(r, Close, s3);
    r := NextStep(r, CutWrite, s4);
  }

  /**
   * A torn write does not fail the stream: the next write's ReadyForQuery ends it successfully, and the callback has
   * been given half a message the scanner never saw.
   */
  lemma TornBytesAreDelivered(request: Bytes) returns (r: Run)
    ensures IsRun(r) && First(r).producer == Idle && Last(r).caller == Returned(Completed)
    ensures TearsWrite(r) && !QueuesLate(r) && Last(r).history.response == READY_IDLE
    ensures Last(r).history.delivered == [LONG_WRITE[..6], READY_IDLE]
  {
    hide IsRun, First, Last, FirstReady, CopyAfter, TearsWrite, QueuesLate;
    ReadyIdleEndsResponse();
    r := TornRun(request);
    r := PopAccepted(r);
    r := QueueWrite(r, READY_IDLE);
    r := ScanReady(r);
    r := PopAccepted(r);
    r := LeaveReady(r);
    r := ReturnSuccess(r);
  }

  /** One write, delivered whole: the response and nothing else. */
  lemma ResponseIsDelivered(limit: nat, request: Bytes) returns (r: Run)
    requires Limit(limit) >= 6
    ensures IsRun(r) && First(r).producer == Idle && Last(r).caller == Returned(Completed)
    ensures !TearsWrite(r) && !QueuesLate(r)
    ensures Last(r).history.response == READY_IDLE && Last(r).history.delivered == [READY_IDLE]
  {
    hide IsRun, First, Last, FirstReady, CopyAfter, Limit, TearsWrite, QueuesLate;
    ReadyIdleEndsResponse();
    r := BegunRun(limit, request);
    r := QueueWrite(r, READY_IDLE);
    r := ScanReady(r);
    r := PopAccepted(r);
    r := LeaveReady(r);
    r := ReturnSuccess(r);
  }

  function HalfQueued(request: Bytes): State {
    Begun(6, request).(producer := Writing(READY_IDLE, 3),
                       history := History(READY_IDLE[..3], [], [], [], [], [], [], []))
  }

  lemma HalfQueuedRun(request: Bytes) returns (r: Run)
    ensures IsRun(r) && First(r) == HalfQueued(request) && !TearsWrite(r) && !QueuesLate(r)
    ensures Last(r) == HalfQueued(request).(queue := [READY_IDLE[3..]], producer := Writing(READY_IDLE, 6),
      history := HalfQueued(request).history.(written := READY_IDLE[3..]))
  {
    var s := HalfQueued(request);
    var tail := READY_IDLE[3..];
    assert |READY_IDLE| == 6 && Progress(s.producer) == READY_IDLE[..3];
    assert Slice(s) == tail && [] + [tail] == [tail] && [] + tail == tail;
    r := Start(s);
    r := Then(r, EnqueueSlice, s.(queue := [tail], producer := Writing(READY_IDLE, 6),
      history := s.history.(written := tail)));
  }

  /**
   * A stream that begins while the backend is in the middle of a write: the first half went to the queue of the
   * stream before and was cleared, and the callback is given the second half only.
   */
  lemma CarriedBytesAreMissing(request: Bytes) returns (r: Run)
    ensures IsRun(r) && Last(r).caller == Returned(Completed) && !TearsWrite(r) && !QueuesLate(r)
    ensures Last(r).history.response == READY_IDLE && Last(r).history.carried == READY_IDLE[..3]
    ensures Last(r).history.delivered == [READY_IDLE[3..]]
  {
    hide IsRun, First, Last, FirstReady, CopyAfter, TearsWrite, QueuesLate;
    r := HalfQueuedRun(request);
    r := ScanReady(r);
    r := PopAccepted(r);
    r := LeaveReady(r);
    r := ReturnSuccess(r);
  }
}
