/**
 * Entering and leaving PostgreSQL's backup mode around a physical backup, and what becomes of the handle
 * when leaving cannot be confirmed.
 */
module BackupMode {
  import opened Prelude
  import opened Requests
  import opened TarHeader
  import opened ArchiveRoundTrip
  import opened PgData
  import opened PgBackup
  import Replies

  // "SELECT 1"
  const ONE_ROW_SELECTED: Bytes := [83, 69, 76, 69, 67, 84, 32, 49]
  const UINT64_MAX: nat := 0xFFFF_FFFF_FFFF_FFFF

  /** A query either failed in the runtime, with unknown effect, or came back with a response. */
  datatype Reply = Lost | Response(bytes: Bytes)

  datatype Mode = NotEntered | ExitRequired | ExitConfirmed | ExitUnconfirmed

  datatype Attempt = Start(reply: Reply) | Stop(reply: Reply)

  /** A well-formed response that holds an error. */
  ghost predicate Erred(r: Reply) {
    r.Response? && Framed(r.bytes) && Replies.HasTag(Messages(r.bytes), Replies.ERROR)
  }

  /** A well-formed response without errors that completes its command. */
  ghost predicate Succeeded(r: Reply) {
    r.Response? && Framed(r.bytes) && Replies.Confirmed(Messages(r.bytes))
  }

  /**
   * PostgreSQL itself. A start that reports an error has not entered backup mode; a stop that reports success has
   * left it, and only backup mode can be left. Nothing else can be concluded from what comes back, or from nothing
   * coming back.
   */
  class Server {
    var inBackup: bool
    /** Starts, and queries of both kinds, that have been handed to it. */
    ghost var started: nat
    ghost var asked: nat

    constructor ()
      ensures !inBackup
    {
      inBackup, started, asked := false, 0, 0;
    }

    method BackupStart() returns (r: Reply)
      modifies this
      ensures Erred(r) ==> inBackup == old(inBackup)
      ensures started == old(started) + 1 && asked == old(asked) + 1
    {
      hide Replies.HasTag, Framed, Messages;
      r := *;
      var entered: bool := *;
      var erred := None;
      if r.Response? { erred := Replies.ContainsError(r.bytes); }
      if erred != Some(true) { inBackup := entered; }
      started, asked := started + 1, asked + 1;
    }

    method BackupStop() returns (r: Reply)
      modifies this
      ensures Succeeded(r) ==> old(inBackup) && !inBackup
      ensures inBackup ==> old(inBackup)
      ensures started == old(started) && asked == old(asked) + 1
    {
      hide Replies.Confirmed, Replies.OnlyCommand, Framed, Messages;
      r := *;
      var left: bool := *;
      if r.Response? {
        var confirmed, _ := Replies.Confirms(r.bytes, ONE_ROW_SELECTED);
        if confirmed && !inBackup { r := Lost; }
        left := left || confirmed;
      }
      if left { inBackup := false; }
      asked := asked + 1;
    }
  }

  // ---------------------------------------------------------------------------
  // What the two rows say
  // ---------------------------------------------------------------------------

  function Decimal(s: Bytes): Option<nat> {
    if s == [] then Some(0)
    else
      match Decimal(s[..|s| - 1])
      case None => None
      case Some(high) =>
        var d := s[|s| - 1];
        if 48 <= d <= 57 then Some(10 * high + (d as nat - 48)) else None
  }

  /** Digits only, not zero, at most 64 bits. */
  function SegmentSize(text: Bytes): (r: Option<nat>)
    ensures r.Some? ==> 0 < r.value <= UINT64_MAX
  {
    match Decimal(text)
    case Some(n) => if text != [] && 0 < n <= UINT64_MAX then Some(n) else None
    case None => None
  }

  datatype StartFacts = StartFacts(wal: Bytes, segmentSize: nat)
  datatype StopFacts = StopFacts(wal: Bytes, labelFile: Bytes, tablespaceMap: Bytes)

  /** A column as the runtime uses it: a C string, and nothing for a null. */
  function Text(v: Replies.Value): Bytes { if v.None? then [] else CString(v.value) }

  function StartRow(vs: seq<Replies.Value>): Option<StartFacts>
    requires |vs| == 2
  {
    var size := SegmentSize(Text(vs[1]));
    if Text(vs[0]) == [] || Text(vs[1]) == [] || size.None? then None else Some(StartFacts(Text(vs[0]), size.value))
  }

  function StopRow(vs: seq<Replies.Value>): Option<StopFacts>
    requires |vs| == 3
  {
    if Text(vs[0]) == [] || Text(vs[1]) == [] then None else Some(StopFacts(Text(vs[0]), Text(vs[1]), Text(vs[2])))
  }

  /** The response completes one SELECT of one row, and that row is `vs`. */
  ghost predicate Answers(r: Reply, columns: nat, vs: seq<Replies.Value>) {
    && Succeeded(r) && Replies.OnlyCommand(Messages(r.bytes), ONE_ROW_SELECTED + [0])
    && Replies.SingleRow(Messages(r.bytes), columns, vs) && |vs| == columns
  }

  ghost predicate StartsWith(r: Reply, f: StartFacts) {
    exists vs :: Answers(r, 2, vs) && StartRow(vs) == Some(f)
  }

  ghost predicate StopsWith(r: Reply, f: StopFacts) {
    exists vs :: Answers(r, 3, vs) && StopRow(vs) == Some(f)
  }

  lemma StartsUnique(r: Reply, f: StartFacts, g: StartFacts)
    requires StartsWith(r, f) && StartsWith(r, g)
    ensures f == g
  {
    hide Framed, Messages, Replies.Confirmed, Replies.OnlyCommand, Replies.SingleRow, StartRow;
    var vs :| Answers(r, 2, vs) && StartRow(vs) == Some(f);
    var ws :| Answers(r, 2, ws) && StartRow(ws) == Some(g);
    Replies.SingleRowUnique(Messages(r.bytes), 2, vs, ws);
  }

  lemma StopsUnique(r: Reply, f: StopFacts, g: StopFacts)
    requires StopsWith(r, f) && StopsWith(r, g)
    ensures f == g
  {
    hide Framed, Messages, Replies.Confirmed, Replies.OnlyCommand, Replies.SingleRow, StopRow;
    var vs :| Answers(r, 3, vs) && StopRow(vs) == Some(f);
    var ws :| Answers(r, 3, ws) && StopRow(ws) == Some(g);
    Replies.SingleRowUnique(Messages(r.bytes), 3, vs, ws);
  }

  /** With the row at hand there is only one thing a reply can say. */
  lemma RowDecides(r: Reply, vs: seq<Replies.Value>)
    ensures Answers(r, 2, vs) ==> ((exists f :: StartsWith(r, f)) <==> StartRow(vs).Some?)
    ensures Answers(r, 3, vs) ==> ((exists f :: StopsWith(r, f)) <==> StopRow(vs).Some?)
  {
    hide Framed, Messages, Replies.Confirmed, Replies.OnlyCommand, Replies.SingleRow, StartRow, StopRow;
    if Answers(r, 2, vs) {
      if f :| StartsWith(r, f) {
        var ws :| Answers(r, 2, ws) && StartRow(ws) == Some(f);
        Replies.SingleRowUnique(Messages(r.bytes), 2, vs, ws);
      }
      if StartRow(vs).Some? { assert StartsWith(r, StartRow(vs).value); }
    }
    if Answers(r, 3, vs) {
      if f :| StopsWith(r, f) {
        var ws :| Answers(r, 3, ws) && StopRow(ws) == Some(f);
        Replies.SingleRowUnique(Messages(r.bytes), 3, vs, ws);
      }
      if StopRow(vs).Some? { assert StopsWith(r, StopRow(vs).value); }
    }
  }

  function Facts(a: StartFacts, b: StopFacts): BackupFacts {
    BackupFacts(a.wal, b.wal, a.segmentSize, b.labelFile, b.tablespaceMap)
  }

  /** Both replies say what is needed, and with it the whole archive can be written. */
  ghost predicate Complete(tree: Listing, started: Reply, stopped: Reply) {
    exists a, b :: StartsWith(started, a) && StopsWith(stopped, b) && BackupBytes(tree, Facts(a, b)).Some?
  }

  lemma CompleteIff(tree: Listing, started: Reply, stopped: Reply, a: StartFacts, b: StopFacts)
    requires StartsWith(started, a) && StopsWith(stopped, b)
    ensures Complete(tree, started, stopped) <==> BackupBytes(tree, Facts(a, b)).Some?
  {
    hide StartsWith, StopsWith, BackupBytes;
    if Complete(tree, started, stopped) {
      var c, d :| StartsWith(started, c) && StopsWith(stopped, d) && BackupBytes(tree, Facts(c, d)).Some?;
      StartsUnique(started, a, c);
      StopsUnique(stopped, b, d);
    }
  }

  lemma IncompleteData(tree: Listing, started: Reply, stopped: Reply)
    requires DataPart(tree).None?
    ensures !Complete(tree, started, stopped)
  {
    hide StartsWith, StopsWith, BackupBytes, DataPart, ClosingPart;
    if Complete(tree, started, stopped) {
      var a, b :| StartsWith(started, a) && StopsWith(stopped, b) && BackupBytes(tree, Facts(a, b)).Some?;
      BackupParts(tree, Facts(a, b));
    }
  }

  // ---------------------------------------------------------------------------
  // The handle
  // ---------------------------------------------------------------------------

  /** The attempts of one backup: one start first, at most two stops, and none after a confirmed one. */
  ghost predicate AttemptsOk(ts: seq<Attempt>) {
    && |ts| <= 3
    && (forall i :: 0 <= i < |ts| ==> (ts[i].Start? <==> i == 0))
    && (forall i :: 0 <= i < |ts| - 1 ==> !(ts[i].Stop? && Succeeded(ts[i].reply)))
  }

  ghost predicate EndsUnconfirmed(ts: seq<Attempt>) {
    ts != [] && ts[|ts| - 1].Stop? && !Succeeded(ts[|ts| - 1].reply)
  }

  /** What other threads have made of the handle by the time it is looked at; they may change it at any time. */
  datatype Flags = Flags(
    callable: bool,         // a call on the handle can be opened: it is current and nobody is retiring it
    streaming: bool,
    logicalActive: bool,
    backendExited: bool,
    inputBusy: bool)        // the input slot holds unread bytes

  /** What a buffered query checks, apart from poison, before it is handed to the backend. */
  predicate Admits(f: Flags) {
    f.callable && !f.streaming && f.logicalActive && !f.backendExited && !f.inputBusy
  }

  class Handle {
    const server: Server
    /** Backup-mode exit is unconfirmed: queries, streams and backups are refused from now on. */
    var poisoned: bool
    ghost var attempts: seq<Attempt>

    /** Unless the handle is poisoned, PostgreSQL is not in backup mode. */
    ghost predicate Safe()
      reads this, server
    {
      !poisoned ==> !server.inBackup
    }

    /** PostgreSQL is as it was. */
    ghost predicate Untouched(inBackup: bool, started: nat, asked: nat)
      reads this, server
    {
      server.inBackup == inBackup && server.started == started && server.asked == asked
    }

    constructor (server: Server)
      requires !server.inBackup
      ensures this.server == server && !poisoned && Safe()
    {
      this.server := server;
      poisoned := false;
      attempts := [];
    }

    predicate Accepts(now: Flags)
      reads this
    {
      !poisoned && Admits(now)
    }

    method QueryStart(now: Flags) returns (r: Reply)
      modifies server, this`attempts
      ensures attempts == old(attempts) + [Start(r)]
      ensures !old(Accepts(now)) ==> r == Lost && Untouched(old(server.inBackup), old(server.started), old(server.asked))
      ensures old(Accepts(now)) ==> server.started == old(server.started) + 1 && server.asked == old(server.asked) + 1
      ensures server.started > old(server.started) <==>
        && !poisoned && now.callable && !now.streaming && now.logicalActive && !now.backendExited && !now.inputBusy
      ensures Erred(r) ==> server.inBackup == old(server.inBackup)
    {
      if Accepts(now) {
        r := server.BackupStart();
      } else {
        r := Lost;
      }
      attempts := attempts + [Start(r)];
    }

    method QueryStop(now: Flags) returns (r: Reply)
      modifies server, this`attempts
      ensures attempts == old(attempts) + [Stop(r)]
      ensures !old(Accepts(now)) ==> r == Lost && Untouched(old(server.inBackup), old(server.started), old(server.asked))
      ensures old(Accepts(now)) ==> server.started == old(server.started) && server.asked == old(server.asked) + 1
      ensures server.asked > old(server.asked) <==>
        && !poisoned && now.callable && !now.streaming && now.logicalActive && !now.backendExited && !now.inputBusy
      ensures Succeeded(r) ==> old(server.inBackup) && !server.inBackup
      ensures server.inBackup ==> old(server.inBackup)
    {
      if Accepts(now) {
        r := server.BackupStop();
      } else {
        r := Lost;
      }
      attempts := attempts + [Stop(r)];
    }

    /** The mode afterwards: not entered only if PostgreSQL said so. */
    method StartBackup(now: Flags) returns (mode: Mode, facts: Option<StartFacts>)
      modifies server, this`attempts
      ensures |attempts| == |old(attempts)| + 1 && attempts[..|old(attempts)|] == old(attempts)
      ensures var last := attempts[|attempts| - 1];
        && last.Start?
        && (mode == NotEntered <==> Erred(last.reply))
        && (mode == NotEntered ==> server.inBackup == old(server.inBackup))
        && mode != ExitConfirmed
        && (facts.Some? ==> mode == ExitRequired && StartsWith(last.reply, facts.value))
        && (facts.Some? <==> exists f :: StartsWith(last.reply, f))
        && (!old(Accepts(now)) ==>
              && last.reply == Lost && mode == ExitUnconfirmed
              && Untouched(old(server.inBackup), old(server.started), old(server.asked)))
      ensures old(Accepts(now)) ==> server.started == old(server.started) + 1 && server.asked == old(server.asked) + 1
    {
      hide Framed, Messages, Replies.Confirmed, Replies.OnlyCommand, Replies.SingleRow, Replies.HasTag, StartRow;
      var r := QueryStart(now);
      if r.Lost? {
        return ExitUnconfirmed, None;
      }
      var erred := Replies.ContainsError(r.bytes);
      if erred.None? {
        return ExitRequired, None;
      }
      if erred.value {
        ConfirmedHasNoError(r.bytes);
        return NotEntered, None;
      }
      var confirmed, matches := Replies.Confirms(r.bytes, ONE_ROW_SELECTED);
      if !confirmed || !matches {
        return ExitRequired, None;
      }
      var row := Replies.CopySingleRow(r.bytes, 2);
      if row.None? {
        return ExitRequired, None;
      }
      assert Answers(r, 2, row.value);
      RowDecides(r, row.value);
      mode, facts := ExitRequired, StartRow(row.value);
    }

    method StopBackup(now: Flags) returns (mode: Mode, facts: Option<StopFacts>)
      modifies server, this`attempts
      ensures |attempts| == |old(attempts)| + 1 && attempts[..|old(attempts)|] == old(attempts)
      ensures var last := attempts[|attempts| - 1];
        && last.Stop?
        && mode == (if Succeeded(last.reply) then ExitConfirmed else ExitUnconfirmed)
        && (mode == ExitConfirmed ==> old(server.inBackup) && !server.inBackup)
        && (facts.Some? ==> mode == ExitConfirmed && StopsWith(last.reply, facts.value))
        && (facts.Some? <==> exists f :: StopsWith(last.reply, f))
        && (!old(Accepts(now)) ==>
              last.reply == Lost && Untouched(old(server.inBackup), old(server.started), old(server.asked)))
      ensures old(Accepts(now)) ==> server.started == old(server.started) && server.asked == old(server.asked) + 1
      ensures server.inBackup ==> old(server.inBackup)
    {
      hide Framed, Messages, Replies.Confirmed, Replies.OnlyCommand, Replies.SingleRow, Replies.HasTag, StopRow;
      var r := QueryStop(now);
      if r.Lost? {
        return ExitUnconfirmed, None;
      }
      var erred := Replies.ContainsError(r.bytes);
      if erred.None? {
        return ExitUnconfirmed, None;
      }
      var confirmed, matches := Replies.Confirms(r.bytes, ONE_ROW_SELECTED);
      if !erred.value && confirmed {
        mode := ExitConfirmed;
      } else {
        ConfirmedHasNoError(r.bytes);
        mode := ExitUnconfirmed;
      }
      if erred.value || !confirmed || !matches {
        return mode, None;
      }
      var row := Replies.CopySingleRow(r.bytes, 3);
      if row.None? {
        return mode, None;
      }
      assert Answers(r, 3, row.value);
      RowDecides(r, row.value);
      facts := StopRow(row.value);
    }

    /** One more stop, if leaving backup mode is still outstanding; poison the handle if that is not confirmed. */
    method CleanUp(mode: Mode, now: Flags)
      modifies server, this`attempts, this`poisoned
      ensures mode == NotEntered || mode == ExitConfirmed ==>
        && attempts == old(attempts) && poisoned == old(poisoned)
        && Untouched(old(server.inBackup), old(server.started), old(server.asked))
      ensures mode == ExitRequired || mode == ExitUnconfirmed ==>
        && |attempts| == |old(attempts)| + 1 && attempts[..|old(attempts)|] == old(attempts)
        && var last := attempts[|attempts| - 1];
           && last.Stop? && poisoned == (old(poisoned) || !Succeeded(last.reply))
           && (Succeeded(last.reply) ==> old(server.inBackup) && !server.inBackup)
           && (!old(Accepts(now)) ==>
                 last.reply == Lost && Untouched(old(server.inBackup), old(server.started), old(server.asked)))
           && (old(Accepts(now)) ==> server.asked == old(server.asked) + 1)
      ensures server.started == old(server.started) && (server.inBackup ==> old(server.inBackup))
    {
      if mode == NotEntered || mode == ExitConfirmed {
        return;
      }
      var after, facts := StopBackup(now);
      if facts.None? && after != ExitConfirmed {
        poisoned := true;
      }
    }

    /** What is stored in backup mode, then the stop; a failure to store leaves the mode to be left. */
    method CopyAndStop(tree: Listing, archive: ArchiveBuffer, now: Flags) returns (mode: Mode, stop: Option<StopFacts>)
      requires archive.data == []
      modifies server, this`attempts, archive
      ensures DataPart(tree).None? ==>
        && attempts == old(attempts) && mode == ExitRequired && stop.None?
        && Untouched(old(server.inBackup), old(server.started), old(server.asked))
      ensures DataPart(tree).Some? ==>
        && archive.data == DataPart(tree).value
        && |attempts| == |old(attempts)| + 1 && attempts[..|old(attempts)|] == old(attempts)
        && var last := attempts[|attempts| - 1];
           && last.Stop? && mode == (if Succeeded(last.reply) then ExitConfirmed else ExitUnconfirmed)
           && (mode == ExitConfirmed ==> !server.inBackup)
           && (stop.Some? ==> mode == ExitConfirmed && StopsWith(last.reply, stop.value))
           && (stop.Some? <==> exists f :: StopsWith(last.reply, f))
           && (!old(Accepts(now)) ==>
                 last.reply == Lost && Untouched(old(server.inBackup), old(server.started), old(server.asked)))
      ensures server.started == old(server.started) && server.asked >= old(server.asked)
    {
      hide Succeeded, StopsWith, DataPart;
      var ok := AppendDataFiles(archive, tree);
      if !ok {
        return ExitRequired, None;
      }
      assert [] + DataPart(tree).value == DataPart(tree).value;
      mode, stop := StopBackup(now);
    }

    /**
     * A whole backup. Unless the handle ends up poisoned PostgreSQL is not left in backup mode, however the
     * queries went and wherever the archive failed; a success is the archive of the tree with the facts the
     * two queries returned. The handle is poisoned exactly when its last stop was not confirmed, and needlessly,
     * with no start handed to PostgreSQL, exactly when the start query found the handle refusing it. Other threads
     * may change the handle throughout: it is seen four times, as each argument says.
     */
    method Backup(tree: Listing, archive: ArchiveBuffer, seen: Flags, atStart: Flags, atStop: Flags, atCleanUp: Flags)
      returns (facts: Option<BackupFacts>)
      requires Safe() && archive.data == []
      modifies server, this`attempts, this`poisoned, archive
      ensures Safe() && |old(attempts)| <= |attempts| && attempts[..|old(attempts)|] == old(attempts)
      ensures var ts := attempts[|old(attempts)|..];
        && AttemptsOk(ts)
        && (poisoned <==> old(poisoned) || EndsUnconfirmed(ts))
        && (ts == [] <==> old(poisoned) || seen.streaming)
        && (facts.Some? ==>
              && |ts| == 2 && !poisoned
              && BackupBytes(tree, facts.value) == Some(archive.data)
              && exists a, b :: StartsWith(ts[0].reply, a) && StopsWith(ts[1].reply, b) && facts.value == Facts(a, b))
        && (facts.Some? <==> |ts| == 2 && Complete(tree, ts[0].reply, ts[1].reply))
      ensures !old(poisoned) ==>
        (poisoned && server.started == old(server.started) <==> !seen.streaming && !Admits(atStart))
      ensures !old(poisoned) ==>
        (poisoned && server.asked == old(server.asked) <==>
           !seen.streaming && !Admits(atStart) && !Admits(atCleanUp))
      ensures !old(poisoned) && server.started == old(server.started) ==> !server.inBackup
    {
      hide Erred, Framed, Messages, Replies.Confirmed, StartsWith, StopsWith, BackupBytes, DataPart, ClosingPart,
        Finished, Admits;
      ghost var n := |attempts|;
      assert attempts[n..] == [];
      facts := None;
      if seen.streaming || poisoned {
        return;
      }
      var mode, start := StartBackup(atStart);
      ghost var first := attempts[n];
      assert attempts[n..] == [first];
      if start.None? {
        CleanUp(mode, atCleanUp);
        assert attempts[n..] == if |attempts| == n + 1 then [first] else [first, attempts[n + 1]];
        return;
      }
      facts := FinishBackup(tree, archive, start.value, first, atStop, atCleanUp);
      assert attempts[n..][0] == first && attempts[n..][1..] == attempts[n + 1..];
    }

    /** The rest of a backup, once backup mode has been entered. */
    method FinishBackup(tree: Listing, archive: ArchiveBuffer, start: StartFacts, ghost first: Attempt, atStop: Flags,
                        atCleanUp: Flags)
      returns (facts: Option<BackupFacts>)
      requires !poisoned && archive.data == [] && first.Start? && StartsWith(first.reply, start)
      modifies server, this`attempts, this`poisoned, archive
      ensures Safe() && |old(attempts)| <= |attempts| && attempts[..|old(attempts)|] == old(attempts)
      ensures var ts := attempts[|old(attempts)|..];
        && 1 <= |ts| <= 2 && (forall i :: 0 <= i < |ts| ==> ts[i].Stop?)
        && (|ts| == 2 ==> !Succeeded(ts[0].reply))
        && (poisoned <==> !Succeeded(ts[|ts| - 1].reply))
        && (facts.Some? ==>
              && |ts| == 1 && !poisoned
              && BackupBytes(tree, facts.value) == Some(archive.data)
              && exists a, b :: StartsWith(first.reply, a) && StopsWith(ts[0].reply, b) && facts.value == Facts(a, b))
        && (facts.Some? <==> |ts| == 1 && Complete(tree, first.reply, ts[0].reply))
      ensures server.started == old(server.started) && server.asked >= old(server.asked)
    {
      hide Succeeded, StartsWith, StopsWith, BackupBytes, DataPart, ClosingPart, Finished, Admits, Facts;
      ghost var n := |attempts|;
      facts := None;
      var mode, stop := CopyAndStop(tree, archive, atStop);
      ghost var sofar := attempts[n..];
      assert sofar == if |attempts| == n then [] else [attempts[n]];
      if stop.None? {
        CleanUp(mode, atCleanUp);
        assert attempts[n..] == if |attempts| == n + |sofar| then sofar else sofar + [attempts[|attempts| - 1]];
        if DataPart(tree).None? { IncompleteData(tree, first.reply, attempts[n].reply); }
        return;
      }
      facts := CloseBackup(tree, archive, start, stop.value, [first] + sofar);
    }

    /** What is stored once backup mode has been left. */
    method CloseBackup(tree: Listing, archive: ArchiveBuffer, start: StartFacts, stop: StopFacts,
                       ghost ts: seq<Attempt>)
      returns (facts: Option<BackupFacts>)
      requires DataPart(tree) == Some(archive.data)
      requires |ts| == 2 && StartsWith(ts[0].reply, start) && StopsWith(ts[1].reply, stop)
      modifies archive
      ensures facts.Some? ==>
        && BackupBytes(tree, facts.value) == Some(archive.data)
        && exists a, b :: StartsWith(ts[0].reply, a) && StopsWith(ts[1].reply, b) && facts.value == Facts(a, b)
      ensures facts.Some? <==> Complete(tree, ts[0].reply, ts[1].reply)
    {
      hide StartsWith, StopsWith, BackupBytes, DataPart, ClosingPart, Finished;
      var all := Facts(start, stop);
      BackupParts(tree, all);
      CompleteIff(tree, ts[0].reply, ts[1].reply, start, stop);
      var ok := AppendClosingFiles(archive, tree, all);
      facts := if ok then Some(all) else None;
    }
  }

  lemma ConfirmedHasNoError(s: Bytes)
    requires Framed(s)
    ensures Replies.Confirmed(Messages(s)) ==> !Replies.HasTag(Messages(s), Replies.ERROR)
  {
  }
}
