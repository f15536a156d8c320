/** Writing an archive, and reading back exactly what was written. */
module ArchiveRoundTrip {
  import opened Prelude
  import opened TarOctal
  import opened TarHeader
  import opened ArchivePath
  import opened ArchiveCheck
  import opened Archive

  // ---------------------------------------------------------------------------
  // The writer
  // ---------------------------------------------------------------------------

  predicate SafePath(path: Bytes) {
    path != [] && path[0] != SLASH && DOTDOT !in Components(path)
  }

  /** Header, contents, zero padding; None when the path is unsafe or does not fit the header. */
  function EncodeEntry(e: Entry): Option<Bytes> {
    if !SafePath(e.path) then None
    else
      match SplitName(HeaderPath(e.path, e.kind))
      case None => None
      case Some(names) =>
        Some(Record(HeaderBytes(names, e.kind, |e.content|), e.content))
  }

  function Record(header: Bytes, content: Bytes): Bytes {
    header + content + Fill(NUL, Padded(|content|) - |content|)
  }

  function EncodeAll(es: seq<Entry>): Option<Bytes> {
    if es == [] then Some([])
    else
      match (EncodeEntry(es[0]), EncodeAll(es[1..]))
      case (Some(first), Some(rest)) => Some(first + rest)
      case _ => None
  }

  /** Two zero blocks close the archive. */
  function Finished(body: Bytes): Bytes { body + Fill(NUL, 1024) }

  class ArchiveBuffer {
    var data: Bytes

    constructor ()
      ensures data == []
    {
      data := [];
    }

    method AppendZeros(len: nat)
      modifies this
      ensures data == old(data) + Fill(NUL, len)
    {
      var left := len;
      while left > 0
        invariant 0 <= left <= len
        invariant data == old(data) + Fill(NUL, len - left)
      {
        var take := Min(left, 512);
        data := data + Fill(NUL, take);
        left := left - take;
      }
    }

    method AppendEntry(e: Entry) returns (ok: bool)
      modifies this
      ensures ok == EncodeEntry(e).Some?
      ensures data == old(data) + if ok then EncodeEntry(e).value else []
    {
      if !SafePath(e.path) {
        return false;
      }
      var header := BuildHeader(e.path, e.kind, |e.content|);
      if header.None? {
        return false;
      }
      AppendRecord(header.value, e.content);
      ok := true;
    }

    method AppendRecord(header: Bytes, content: Bytes)
      modifies this
      ensures data == old(data) + Record(header, content)
    {
      data := data + header;
      data := data + content;
      AppendZeros((512 - |content| % 512) % 512);
    }

    method Finish()
      modifies this
      ensures data == Finished(old(data))
    {
      AppendZeros(1024);
    }
  }

  // ---------------------------------------------------------------------------
  // Round trip
  // ---------------------------------------------------------------------------

  /** What a backup stores: canonical paths inside the tree, sizes the header can hold. */
  predicate Storable(e: Entry) {
    && Canonical(e.path) == Some(e.path) == Canonical(e.path + [SLASH])
    && e.path != [] && e.path[|e.path| - 1] != SLASH
    && NoNul(e.path) && !ProcessState(e.path)
    && |e.content| < Pow8(11) && (e.kind == Directory ==> e.content == [])
  }

  /** A directory whose slash-terminated path has 101 to 156 bytes. */
  predicate Unreadable(e: Entry) {
    e.kind == Directory && EmptyNameLength(|e.path| + 1)
  }

  lemma WrittenHeaderAnnounces(e: Entry)
    requires Storable(e) && SafePath(e.path) && SplitName(HeaderPath(e.path, e.kind)).Some?
    ensures var block := HeaderBytes(SplitName(HeaderPath(e.path, e.kind)).value, e.kind, |e.content|);
      && !AllNul(block)
      && Announced(block) == if Unreadable(e) then None else Some(Parsed(e.path, e.kind, |e.content|))
  {
    hide ParseHeader, HeaderBytes, SplitName, Components;
    var names := SplitName(HeaderPath(e.path, e.kind)).value;
    TextSlices(names, e.kind, |e.content|);
    var block := HeaderBytes(names, e.kind, |e.content|);
    assert block[257] == block[257..263][0] == MAGIC[0];
    WrittenPathReadsBackIff(e.path, e.kind, |e.content|);
  }

  /** `b` is `e` in an archive, whatever follows it. */
  ghost predicate ReadsAs(b: Bytes, e: Entry) {
    forall rest: Bytes :: NextEntry(b + rest) == if Unreadable(e) then Refuse else Take(e, |b|)
  }

  lemma RecordReads(header: Bytes, e: Entry, rest: Bytes)
    requires |header| == 512 && !AllNul(header)
    requires Announced(header) == if Unreadable(e) then None else Some(Parsed(e.path, e.kind, |e.content|))
    ensures NextEntry(Record(header, e.content) + rest) ==
            if Unreadable(e) then Refuse else Take(e, |Record(header, e.content)|)
  {
    hide Announced;
    var data := Record(header, e.content) + rest;
    assert data == header + (e.content + (Fill(NUL, Padded(|e.content|) - |e.content|) + rest));
    assert data[..512] == header;
    assert data[512..][..|e.content|] == e.content;
  }

  /** The reader finds a written entry at the front of whatever follows, or refuses it for its name. */
  lemma WrittenReads(e: Entry)
    requires Storable(e) && EncodeEntry(e).Some?
    ensures ReadsAs(EncodeEntry(e).value, e)
  {
    WrittenHeaderAnnounces(e);
    var header := HeaderBytes(SplitName(HeaderPath(e.path, e.kind)).value, e.kind, |e.content|);
    forall rest: Bytes ensures NextEntry(Record(header, e.content) + rest) ==
                               if Unreadable(e) then Refuse else Take(e, |Record(header, e.content)|) {
      RecordReads(header, e, rest);
    }
  }

  lemma ConsistentPrefix(a: seq<Entry>, b: seq<Entry>)
    requires Consistent(a + b)
    ensures Consistent(a)
  {
    assert forall i :: 0 <= i < |a| ==> (a + b)[i] == a[i];
  }

  lemma FinishReads(fs: Fs, done: seq<Entry>)
    ensures ReadArchive(Finished([]), done, fs) == Some(fs)
  {
    var data := Finished([]);
    assert AllNul(data[..512]) && TrailerOk(data[512..]);
  }

  lemma FirstReads(b: Bytes, e: Entry, rest: Bytes, done: seq<Entry>, fs: Fs)
    requires ReadsAs(b, e)
    ensures ReadArchive(b + rest, done, fs) ==
            if Unreadable(e) || !Consistent(done + [e]) || WriteEntry(fs, e).None? then None
            else ReadArchive(rest, done + [e], WriteEntry(fs, e).value)
  {
    assert (b + rest)[|b|..] == rest;
  }

  ghost predicate Accepted(es: seq<Entry>, done: seq<Entry>) {
    Consistent(done + es) && forall i :: 0 <= i < |es| ==> !Unreadable(es[i])
  }

  lemma AcceptedCons(es: seq<Entry>, done: seq<Entry>)
    requires es != []
    ensures Accepted(es, done) <==>
            !Unreadable(es[0]) && Consistent(done + [es[0]]) && Accepted(es[1..], done + [es[0]])
  {
    assert (done + [es[0]]) + es[1..] == done + es;
    if Consistent(done + es) { ConsistentPrefix(done + [es[0]], es[1..]); }
    assert es == [es[0]] + es[1..];
  }

  /** Reading the records of some entries, one after the other. */
  lemma {:induction false} ReadRecords(es: seq<Entry>, records: seq<Bytes>, done: seq<Entry>, fs: Fs)
    requires |records| == |es| && (forall i :: 0 <= i < |es| ==> ReadsAs(records[i], es[i]))
    requires Represents(fs, done)
    ensures var r := ReadArchive(Finished(Concat(records)), done, fs);
      && (r.Some? && es != [] ==> Accepted(es, done))
      && (Accepted(es, done) ==> r.Some? && Represents(r.value, done + es))
    decreases |es|
  {
    hide NextEntry;
    if es == [] {
      FinishReads(fs, done);
      assert done + es == done;
    } else {
      var e := es[0];
      var rest := Finished(Concat(records[1..]));
      assert Finished(Concat(records)) == records[0] + rest;
      FirstReads(records[0], e, rest, done, fs);
      AcceptedCons(es, done);
      if !Unreadable(e) && Consistent(done + [e]) {
        WriteEntryRepresents(fs, done, e);
        var next := WriteEntry(fs, e).value;
        ReadRecords(es[1..], records[1..], done + [e], next);
        assert (done + [e]) + es[1..] == done + es;
        if es[1..] == [] { AcceptedNone(done + [e]); }
      }
    }
  }

  lemma AcceptedNone(done: seq<Entry>)
    ensures Accepted([], done) <==> Consistent(done)
  {
    assert done + [] == done;
  }

  function Records(es: seq<Entry>): seq<Bytes>
    requires EncodeAll(es).Some?
  {
    if es == [] then [] else [EncodeEntry(es[0]).value] + Records(es[1..])
  }

  lemma {:induction false} RecordsRead(es: seq<Entry>)
    requires (forall i :: 0 <= i < |es| ==> Storable(es[i])) && EncodeAll(es).Some?
    ensures |Records(es)| == |es| && Concat(Records(es)) == EncodeAll(es).value
    ensures forall i :: 0 <= i < |es| ==> ReadsAs(Records(es)[i], es[i])
  {
    hide Storable, ReadsAs, EncodeEntry;
    if es != [] {
      WrittenReads(es[0]);
      RecordsRead(es[1..]);
      assert Records(es)[1..] == Records(es[1..]);
      forall i | 0 <= i < |es| ensures ReadsAs(Records(es)[i], es[i]) {
        if i > 0 { assert Records(es)[i] == Records(es[1..])[i - 1]; }
      }
    }
  }

  /**
   * Reading a finished archive: it is accepted exactly when its entries are consistent and none is
   * unreadable, and then the restored tree is exactly the one they call for.
   */
  lemma ReadWhatWasWritten(es: seq<Entry>)
    requires (forall i :: 0 <= i < |es| ==> Storable(es[i])) && EncodeAll(es).Some?
    ensures var r := ReadArchive(Finished(EncodeAll(es).value), [], map[]);
      && (r.Some? <==> Consistent(es) && forall i :: 0 <= i < |es| ==> !Unreadable(es[i]))
      && (r.Some? ==> Represents(r.value, es))
  {
    hide NextEntry, EncodeEntry, Storable, Records, ReadArchive;
    RecordsRead(es);
    ReadRecords(es, Records(es), [], map[]);
    assert [] + es == es;
    if es == [] { FinishReads(map[], []); }
  }
}
