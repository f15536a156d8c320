/**
 * Which error text a thread reports after a failed operation: scopes nest on the thread, while the slots
 * behind them are shared and may be overwritten by any other thread at any time.
 */
module Errors {
  import opened Prelude

  const CAPACITY: nat := 1024

  /** Texts are C strings without their terminator. */
  type Text = Bytes

  /** The process-wide slot, or the slot of one handle. */
  type Slot = nat

  const PROCESS: Slot := 0

  // "unknown native liboliphaunt error"
  const UNKNOWN: Text :=
    [117, 110, 107, 110, 111, 119, 110, 32, 110, 97, 116, 105, 118, 101, 32, 108, 105, 98, 111, 108, 105, 112, 104,
    97, 117, 110, 116, 32, 101, 114, 114, 111, 114]
  // " failed without setting an error"
  const UNSET: Text :=
    [32, 102, 97, 105, 108, 101, 100, 32, 119, 105, 116, 104, 111, 117, 116, 32, 115, 101, 116, 116, 105, 110, 103, 32,
    97, 110, 32, 101, 114, 114, 111, 114]

  function Cut(t: Text): (r: Text)
    ensures |r| < CAPACITY && (r == [] <==> t == []) && (|t| < CAPACITY ==> r == t)
  {
    if |t| < CAPACITY then t else t[..CAPACITY - 1]
  }

  function Normal(message: Option<Text>): Text { if message.Some? then message.value else UNKNOWN }

  // ---------------------------------------------------------------------------
  // Reference: the error of an operation, read off what happened inside it
  // ---------------------------------------------------------------------------

  /**
   * A public operation: what it does, in order, and whether it fails. `others` and `seen` are what a shared
   * slot held at the moment it was read, whoever wrote it.
   */
  datatype Op = Op(slot: Slot, name: Text, events: Events, failed: bool, others: Text)

  datatype Events = Nothing | Then(before: Events, last: Event)

  datatype Event =
    | SetError(slot: Slot, message: Option<Text>)
    | CaptureShared(slot: Slot, seen: Text)
    | Inner(op: Op)

  /** The last own error or failed inner operation; an empty message clears, a capture of a handle's slot fills a gap. */
  function Own(es: Events): (r: Option<Text>)
    ensures r.Some? ==> 0 < |r.value| < CAPACITY
  {
    match es
    case Nothing => None
    case Then(before, last) =>
      match last
      case SetError(_, m) => if Normal(m) == [] then None else Some(Cut(Normal(m)))
      case CaptureShared(slot, seen) =>
        if Own(before).Some? || slot == PROCESS || seen == [] then Own(before) else Some(Cut(seen))
      case Inner(op) => if op.failed then Some(Report(op)) else Own(before)
  }

  /** The shared slot counts only when the operation has no error of its own. */
  function Report(op: Op): (t: Text)
    ensures 0 < |t| < CAPACITY
  {
    if Own(op.events).Some? then Own(op.events).value
    else if op.others != [] then Cut(op.others)
    else Cut(op.name + UNSET)
  }

  /** The event decides the operation's error, whatever came before it. */
  predicate Decides(e: Event) {
    match e
    case SetError(_, _) => true
    case CaptureShared(_, _) => false
    case Inner(op) => op.failed
  }

  function EventList(es: Events): seq<Event> { if es.Nothing? then [] else EventList(es.before) + [es.last] }

  function DecidedText(e: Event): Text
    requires Decides(e)
  {
    if e.SetError? then Cut(Normal(e.message)) else Report(e.op)
  }

  /**
   * In terms of the whole list: after the last deciding event, successful inner operations and captures of a
   * shared slot change nothing once there is an error.
   */
  lemma {:induction false} LastDecides(es: Events, i: nat)
    requires i < |EventList(es)| && Decides(EventList(es)[i]) && DecidedText(EventList(es)[i]) != []
    requires forall k :: i < k < |EventList(es)| ==> !Decides(EventList(es)[k])
    ensures Own(es) == Some(DecidedText(EventList(es)[i]))
  {
    hide Report;
    var all := EventList(es);
    if i < |all| - 1 {
      var before := EventList(es.before);
      assert all[..|all| - 1] == before;
      assert forall k :: 0 <= k < |before| ==> all[k] == before[k];
      LastDecides(es.before, i);
      assert !Decides(all[|all| - 1]);
    } else {
      assert all[i] == es.last;
    }
  }

  /** So that is what the failed operation reports, whatever the shared slots hold by then. */
  lemma LastDecidesReport(op: Op, i: nat)
    requires i < |EventList(op.events)| && Decides(EventList(op.events)[i])
    requires DecidedText(EventList(op.events)[i]) != []
    requires forall k :: i < k < |EventList(op.events)| ==> !Decides(EventList(op.events)[k])
    ensures Report(op) == DecidedText(EventList(op.events)[i])
  {
    LastDecides(op.events, i);
  }

  /** Nothing in it sets, clears, passes on or captures an error. */
  predicate Silent(e: Event) {
    match e
    case SetError(_, _) => false
    case CaptureShared(slot, seen) => slot == 0 || seen == []
    case Inner(op) => !op.failed
  }

  function Shortened(t: Text): Text { t[..Min(|t|, 1023)] }

  lemma CutShortens(t: Text)
    ensures Cut(t) == Shortened(t)
  {
    if |t| < 1024 { assert t[..|t|] == t; }
  }

  lemma {:induction false} SilentOwnsNothing(es: Events)
    requires forall k :: 0 <= k < |EventList(es)| ==> Silent(EventList(es)[k])
    ensures Own(es) == None
  {
    if es.Then? {
      var all, before := EventList(es), EventList(es.before);
      assert all[|before|] == es.last;
      assert forall k :: 0 <= k < |before| ==> all[k] == before[k];
      SilentOwnsNothing(es.before);
    }
  }

  /**
   * Without an error of its own a failed operation reports what the shared slot held, and if that was empty, that it
   * failed without setting an error; either in at most 1023 bytes.
   */
  lemma SilentReportsShared(op: Op)
    requires forall k :: 0 <= k < |EventList(op.events)| ==> Silent(EventList(op.events)[k])
    ensures op.others != [] ==> Report(op) == Shortened(op.others)
    ensures op.others == [] ==> Report(op) == Shortened(op.name + Ascii(" failed without setting an error"))
  {
    SilentOwnsNothing(op.events);
    UnsetText();
    CutShortens(op.others);
    CutShortens(op.name + UNSET);
  }

  lemma UnsetText()
    ensures UNSET == Ascii(" failed without setting an error")
  {
  }

  lemma UnknownText()
    ensures UNKNOWN == Ascii("unknown native liboliphaunt error")
  {
  }

  /** The last event decides as it should: a message, no message, an empty message, a failed inner operation. */
  lemma LastEvent(before: Events, slot: Slot, message: Text, op: Op)
    ensures message != [] ==> Own(Then(before, SetError(slot, Some(message)))) == Some(Shortened(message))
    ensures Own(Then(before, SetError(slot, None))) == Some(Ascii("unknown native liboliphaunt error"))
    ensures Own(Then(before, SetError(slot, Some([])))) == None
    ensures op.failed ==> Own(Then(before, Inner(op))) == Some(Report(op))
    ensures !op.failed ==> Own(Then(before, Inner(op))) == Own(before)
  {
    UnknownText();
    CutShortens(message);
    hide Report, Ascii;
  }

  /** A capture fills a gap from a handle's slot and changes nothing else. */
  lemma CaptureFillsGap(before: Events, slot: Slot, seen: Text)
    ensures var after := Own(Then(before, CaptureShared(slot, seen)));
      if Own(before) == None && slot != 0 && seen != [] then after == Some(Shortened(seen)) else after == Own(before)
  {
    CutShortens(seen);
  }

  // ---------------------------------------------------------------------------
  // One thread's scopes over the shared slots
  // ---------------------------------------------------------------------------

  datatype Scope = Scope(slot: Slot, operation: Text, error: Text, hasError: bool)

  predicate ScopeOk(s: Scope) { (s.hasError <==> s.error != []) && |s.error| < CAPACITY }

  function WithError(s: Scope, e: Option<Text>): Scope {
    if e.Some? then s.(error := e.value, hasError := true) else s.(error := [], hasError := false)
  }

  class ErrorState {
    /** Innermost scope last. */
    var scopes: seq<Scope>
    var completed: Text
    var completedValid: bool
    var slots: map<Slot, Text>

    ghost predicate Valid()
      reads this
    {
      (forall i :: 0 <= i < |scopes| ==> ScopeOk(scopes[i])) && |completed| < CAPACITY
    }

    constructor ()
      ensures Valid() && scopes == [] && !completedValid
    {
      scopes, completed, completedValid, slots := [], [], false, map[];
    }

    /** Another thread writes a shared slot; this thread's own state is out of its reach. */
    method OtherThread(slot: Slot, text: Text)
      modifies this`slots
      ensures slots == old(slots)[slot := Cut(text)]
    {
      slots := slots[slot := Cut(text)];
    }

    method Begin(slot: Slot, operation: Text)
      requires Valid()
      modifies this`scopes, this`completed, this`completedValid
      ensures Valid() && scopes == old(scopes) + [Scope(slot, operation, [], false)]
      ensures if old(scopes) == [] then completed == [] && !completedValid
              else completed == old(completed) && completedValid == old(completedValid)
    {
      if scopes == [] {
        completed, completedValid := [], false;
      }
      scopes := scopes + [Scope(slot, operation, [], false)];
    }

    method Set(slot: Slot, message: Option<Text>)
      requires Valid()
      modifies this
      ensures Valid() && |scopes| == |old(scopes)|
      ensures var t := if Normal(message) == [] then None else Some(Cut(Normal(message)));
        if old(scopes) == [] then scopes == [] && completedValid == t.Some? &&
          completed == (if t.Some? then t.value else [])
        else
          && scopes == old(scopes)[..|scopes| - 1] + [WithError(old(scopes)[|scopes| - 1], t)]
          && completed == old(completed) && completedValid == old(completedValid)
      ensures slots == old(slots)[slot := Cut(Normal(message))]
    {
      hide Normal;
      var normal := Normal(message);
      if scopes != [] {
        var top := scopes[|scopes| - 1];
        var next := if normal == [] then top.(error := [], hasError := false)
                    else top.(error := Cut(normal), hasError := true);
        scopes := scopes[..|scopes| - 1] + [next];
      } else if normal == [] {
        completed, completedValid := [], false;
      } else {
        completed, completedValid := Cut(normal), true;
      }
      slots := slots[slot := Cut(normal)];
    }

    function Shared(slot: Slot): Text
      reads this
    {
      if slot in slots then slots[slot] else []
    }

    /** Fills the current scope from a handle's slot, if there is a scope and it has no error yet. */
    method Capture(slot: Slot)
      requires Valid()
      modifies this`scopes
      ensures Valid() && |scopes| == |old(scopes)|
      ensures old(scopes) != [] ==>
        var top := old(scopes)[|scopes| - 1]; var seen := old(Shared(slot));
        scopes == old(scopes)[..|scopes| - 1] +
          [if top.hasError || slot == PROCESS || seen == [] then top else WithError(top, Some(Cut(seen)))]
    {
      if scopes == [] {
        return;
      }
      var top := scopes[|scopes| - 1];
      if top.hasError || slot == PROCESS || Shared(slot) == [] {
        assert scopes == scopes[..|scopes| - 1] + [top];
        return;
      }
      scopes := scopes[..|scopes| - 1] + [top.(error := Cut(Shared(slot)), hasError := true)];
    }

    /** What a failing scope reports, given what its shared slot holds. */
    static function Final(s: Scope, shared: Text): (t: Text)
      ensures 0 < |t| < CAPACITY || !ScopeOk(s)
    {
      if s.hasError then s.error else if shared != [] then Cut(shared) else Cut(s.operation + UNSET)
    }

    /** The error moves to the enclosing scope, or becomes the thread's completed error. */
    method End(failed: bool)
      requires Valid() && scopes != []
      modifies this
      ensures Valid()
      ensures var n := |old(scopes)| - 1; var top := old(scopes)[n];
        var t := Final(top, old(Shared(top.slot)));
        if !failed then scopes == old(scopes)[..n] && completed == old(completed) &&
          completedValid == old(completedValid)
        else if n == 0 then scopes == [] && completed == t && completedValid
        else
          && scopes == old(scopes)[..n - 1] + [WithError(old(scopes)[n - 1], Some(t))]
          && completed == old(completed) && completedValid == old(completedValid)
      ensures var top := old(scopes)[|old(scopes)| - 1];
        slots == if failed && !top.hasError && old(Shared(top.slot)) == []
                 then old(slots)[top.slot := Cut(top.operation + UNSET)] else old(slots)
    {
      var n := |scopes| - 1;
      var top := scopes[n];
      if failed && !top.hasError {
        var shared := Cut(Shared(top.slot));
        top := top.(error := shared, hasError := shared != []);
      }
      if failed && !top.hasError {
        var missing := Cut(top.operation + UNSET);
        top := top.(error := missing, hasError := true);
        slots := slots[top.slot := missing];
      }
      scopes := scopes[..n];
      if !failed {
        return;
      }
      if n > 0 {
        assert scopes[..n - 1] == old(scopes)[..n - 1] && scopes[n - 1] == old(scopes)[n - 1];
        scopes := scopes[..n - 1] + [scopes[n - 1].(error := top.error, hasError := true)];
      } else {
        completed, completedValid := top.error, true;
      }
    }

    /**
     * The text a caller gets, and its full length: the innermost error, else the completed one, else a shared slot,
     * the handle's only if a call on it can still be opened and the process-wide one for any other pointer.
     */
    method CopyLast(slot: Slot, live: bool, capacity: nat) returns (out: Text, length: nat)
      requires Valid()
      ensures var t := if scopes != [] && scopes[|scopes| - 1].hasError then scopes[|scopes| - 1].error
                       else if completedValid then completed
                       else Shared(if live then slot else PROCESS);
        length == |t| && out == if capacity == 0 then [] else t[..Min(|t|, capacity - 1)]
    {
      var source := Shared(if live then slot else PROCESS);
      if scopes != [] && scopes[|scopes| - 1].hasError {
        source := scopes[|scopes| - 1].error;
      } else if completedValid {
        source := completed;
      }
      length := |source|;
      out := if capacity == 0 then [] else source[..Min(length, capacity - 1)];
    }

    // -------------------------------------------------------------------------
    // Every tree of operations
    // -------------------------------------------------------------------------

    /**
     * Running an operation, with every operation inside it, while other threads write what they like before
     * each shared read: afterwards the thread's scopes are as before, and the operation's error, exactly
     * that of the reference, is the completed one or the enclosing scope's. A success leaves no trace.
     */
    method Run(op: Op)
      requires Valid()
      modifies this
      ensures Valid()
      ensures old(scopes) == [] ==>
        scopes == [] && completedValid == op.failed && completed == (if op.failed then Report(op) else [])
      ensures old(scopes) != [] ==> completed == old(completed) && completedValid == old(completedValid)
      ensures old(scopes) != [] ==>
        var n := |old(scopes)| - 1;
        scopes == old(scopes)[..n] + [if op.failed then WithError(old(scopes)[n], Some(Report(op))) else old(scopes)[n]]
      decreases op, 1
    {
      hide Normal, Own;
      ghost var outer := scopes;
      Begin(op.slot, op.name);
      RunEvents(op.events, outer, Scope(op.slot, op.name, [], false));
      OtherThread(op.slot, op.others);
      End(op.failed);
    }

    method RunEvents(es: Events, ghost outer: seq<Scope>, ghost fresh_: Scope)
      requires Valid() && scopes == outer + [fresh_] && !fresh_.hasError && fresh_.error == []
      modifies this
      ensures Valid() && scopes == outer + [WithError(fresh_, Own(es))]
      ensures completed == old(completed) && completedValid == old(completedValid)
      decreases es, 0
    {
      hide Normal, Report;
      if es.Then? {
        RunEvents(es.before, outer, fresh_);
        match es.last
        case SetError(slot, m) => Set(slot, m);
        case CaptureShared(slot, seen) =>
          OtherThread(slot, seen);
          Capture(slot);
        case Inner(op) => Run(op);
      }
    }

    /**
     * A failed outermost operation, then any number of writes by other threads, then a read: the text is the
     * operation's own, whole, whatever handle it is asked for.
     */
    method FailAndRead(op: Op, writes: seq<(Slot, Text)>, slot: Slot, live: bool) returns (text: Text, length: nat)
      requires Valid() && scopes == [] && op.failed
      modifies this
      ensures Valid() && text == Report(op) && length == |text| > 0
    {
      hide Own;
      Run(op);
      for i := 0 to |writes|
        invariant Valid() && scopes == [] && completedValid && completed == Report(op)
      {
        OtherThread(writes[i].0, writes[i].1);
      }
      text, length := CopyLast(slot, live, CAPACITY);
      assert completed[..|completed|] == completed;
    }
  }
}
