/**
 * What the rows of the two backup queries say, column by column, and what a successful backup makes of them.
 */
module BackupRows {
  import opened Prelude
  import opened Frames
  import opened Requests
  import opened TarHeader
  import opened PgBackup
  import opened BackupMode

  /** `t` is `w` up to its first zero byte. */
  predicate UpToNul(w: Bytes, t: Bytes) {
    t <= w && (forall i :: 0 <= i < |t| ==> t[i] != 0) && (t == w || w[|t|] == 0)
  }

  function Pow10(n: nat): nat { if n == 0 then 1 else 10 * Pow10(n - 1) }

  predicate AllDigits(d: Bytes) { forall i :: 0 <= i < |d| ==> 48 <= d[i] <= 57 }

  /** The value of decimal digits by their places, the first digit counting most. */
  function PlaceValue(d: Bytes): nat
    requires AllDigits(d)
  {
    if d == [] then 0 else (d[0] as nat - 48) * Pow10(|d| - 1) + PlaceValue(d[1..])
  }

  /** Some data row of the response has these columns, as PostgreSQL encodes them. */
  ghost predicate Returns(r: Reply, vs: seq<Replies.Value>)
    requires |vs| < 256 && forall i :: 0 <= i < |vs| ==> Replies.ValueFits(vs[i])
  {
    && r.Response? && Framed(r.bytes)
    && Message(68, [0, |vs| as byte] + Replies.EncodeValues(vs)) in Messages(r.bytes)
  }

  lemma {:induction false} CutsAtNul(w: Bytes)
    ensures UpToNul(w, CString(w))
  {
    if w != [] && w[0] != 0 {
      CutsAtNul(w[1..]);
      var t := CString(w[1..]);
      assert w == [w[0]] + w[1..];
      assert CString(w) == [w[0]] + t;
    }
  }

  lemma UpToNulUnique(w: Bytes, s: Bytes, t: Bytes)
    requires UpToNul(w, s) && UpToNul(w, t)
    ensures s == t
  {
    assert s == w[..|s|] && t == w[..|t|];
  }

  // ---------------------------------------------------------------------------
  // Decimal numbers
  // ---------------------------------------------------------------------------

  lemma {:induction false} PlaceValueSnoc(d: Bytes, c: byte)
    requires AllDigits(d + [c])
    ensures AllDigits(d) && 48 <= c <= 57 && PlaceValue(d + [c]) == 10 * PlaceValue(d) + (c as nat - 48)
  {
    var all := d + [c];
    assert all[|d|] == c && forall i :: 0 <= i < |d| ==> d[i] == all[i];
    if d == [] {
      assert all == [c] && all[1..] == [];
    } else {
      assert all[1..] == d[1..] + [c];
      PlaceValueSnoc(d[1..], c);
      assert Pow10(|d|) == 10 * Pow10(|d| - 1);
      TimesTen(d[0] as nat - 48, Pow10(|d| - 1), PlaceValue(d[1..]));
    }
  }

  lemma TimesTen(x: nat, p: nat, y: nat)
    ensures x * (10 * p) + 10 * y == 10 * (x * p + y)
  {
  }

  lemma {:induction false} DecimalIsPlaceValue(d: Bytes)
    ensures Decimal(d).Some? <==> AllDigits(d)
    ensures AllDigits(d) ==> Decimal(d) == Some(PlaceValue(d))
  {
    if d != [] {
      var front, c := d[..|d| - 1], d[|d| - 1];
      assert d == front + [c];
      DecimalIsPlaceValue(front);
      if AllDigits(d) { PlaceValueSnoc(front, c); }
      if AllDigits(front) && 48 <= c <= 57 { assert AllDigits(d); }
    }
  }

  /** A segment size is a nonzero number of at most 64 bits in plain digits. */
  lemma SizeIff(d: Bytes)
    ensures SegmentSize(d).Some? <==> AllDigits(d) && 0 < PlaceValue(d) <= 0xFFFF_FFFF_FFFF_FFFF
    ensures SegmentSize(d).Some? ==> SegmentSize(d).value == PlaceValue(d)
  {
    DecimalIsPlaceValue(d);
  }

  // ---------------------------------------------------------------------------
  // The columns
  // ---------------------------------------------------------------------------

  lemma RowOf(r: Reply, columns: nat, vs: seq<Replies.Value>, ws: seq<Replies.Value>)
    requires |vs| == columns < 256 && forall i :: 0 <= i < |vs| ==> Replies.ValueFits(vs[i])
    requires Returns(r, vs) && Answers(r, columns, ws)
    ensures ws == vs
  {
    hide Framed, Messages, Replies.Confirmed, Replies.OnlyCommand, Replies.Values, Replies.EncodeValues;
    var ms, body := Messages(r.bytes), [0, columns as byte] + Replies.EncodeValues(vs);
    var k :| 0 <= k < |ms| && ms[k] == Message(68, body);
    var own :| Replies.OneRow(ms, own) && Replies.Row(own, columns) == Some(ws);
    Replies.RowPlace(ms, own, k);
    assert body[2..] == Replies.EncodeValues(vs) && body[0] == 0 && body[1] == columns as byte;
    Replies.ValuesRoundTrip(vs);
  }

  /** The start query returns the name of the first WAL file, then the segment size in decimal. */
  lemma StartColumns(r: Reply, wal: Bytes, size: Bytes, f: StartFacts)
    requires Replies.ValueFits(Some(wal)) && Replies.ValueFits(Some(size))
    requires Returns(r, [Some(wal), Some(size)]) && StartsWith(r, f)
    ensures UpToNul(wal, f.wal) && f.wal != []
    ensures exists d :: UpToNul(size, d) && AllDigits(d) && f.segmentSize == PlaceValue(d)
  {
    hide Framed, Messages, Succeeded, Replies.OnlyCommand, Replies.SingleRow, Returns, PlaceValue, SegmentSize, CString;
    var vs :| Answers(r, 2, vs) && StartRow(vs) == Some(f);
    RowOf(r, 2, [Some(wal), Some(size)], vs);
    CutsAtNul(wal);
    CutsAtNul(size);
    SizeIff(CString(size));
  }

  /** The stop query returns the name of the last WAL file, the label, then the tablespace map, which may be null. */
  lemma StopColumns(r: Reply, wal: Bytes, labelFile: Bytes, spaces: Replies.Value, f: StopFacts)
    requires Replies.ValueFits(Some(wal)) && Replies.ValueFits(Some(labelFile)) && Replies.ValueFits(spaces)
    requires Returns(r, [Some(wal), Some(labelFile), spaces]) && StopsWith(r, f)
    ensures UpToNul(wal, f.wal) && f.wal != [] && UpToNul(labelFile, f.labelFile) && f.labelFile != []
    ensures if spaces.None? then f.tablespaceMap == [] else UpToNul(spaces.value, f.tablespaceMap)
  {
    hide Framed, Messages, Succeeded, Replies.OnlyCommand, Replies.SingleRow, Returns, CString;
    var vs :| Answers(r, 3, vs) && StopRow(vs) == Some(f);
    RowOf(r, 3, [Some(wal), Some(labelFile), spaces], vs);
    CutsAtNul(wal);
    CutsAtNul(labelFile);
    if spaces.Some? { CutsAtNul(spaces.value); }
  }

  /** A row is enough exactly if its names, label and size are there. */
  lemma RowsSuffice(wal: Bytes, size: Bytes, last: Bytes, labelFile: Bytes, spaces: Replies.Value)
    ensures StartRow([Some(wal), Some(size)]).Some? <==>
      && !UpToNul(wal, [])
      && exists d :: UpToNul(size, d) && AllDigits(d) && 0 < PlaceValue(d) <= 0xFFFF_FFFF_FFFF_FFFF
    ensures StopRow([Some(last), Some(labelFile), spaces]).Some? <==> !UpToNul(last, []) && !UpToNul(labelFile, [])
    ensures StartRow([None, Some(size)]).None? && StartRow([Some(wal), None]).None?
    ensures StopRow([None, Some(labelFile), spaces]).None? && StopRow([Some(last), None, spaces]).None?
  {
    hide CString, UpToNul, SegmentSize, PlaceValue, AllDigits;
    CutsAtNul(wal);
    CutsAtNul(size);
    CutsAtNul(last);
    CutsAtNul(labelFile);
    SizeIff(CString(size));
    NoSize();
    if UpToNul(wal, []) { UpToNulUnique(wal, [], CString(wal)); }
    if UpToNul(last, []) { UpToNulUnique(last, [], CString(last)); }
    if UpToNul(labelFile, []) { UpToNulUnique(labelFile, [], CString(labelFile)); }
    forall d | UpToNul(size, d) ensures d == CString(size) { UpToNulUnique(size, d, CString(size)); }
  }

  lemma NoSize()
    ensures PlaceValue([]) == 0 && AllDigits([]) && SegmentSize([]).None?
  {
  }

  /**
   * A successful backup, from the rows of its two replies: the archive is the one for these WAL files, this segment
   * size, this label and this map.
   */
  lemma SuccessFacts(started: Reply, stopped: Reply, b: BackupFacts, wal: Bytes, size: Bytes, last: Bytes,
                     labelFile: Bytes, spaces: Replies.Value)
    requires Replies.ValueFits(Some(wal)) && Replies.ValueFits(Some(size)) && Replies.ValueFits(Some(last))
    requires Replies.ValueFits(Some(labelFile)) && Replies.ValueFits(spaces)
    requires Returns(started, [Some(wal), Some(size)]) && Returns(stopped, [Some(last), Some(labelFile), spaces])
    requires exists f, g :: StartsWith(started, f) && StopsWith(stopped, g) && b == Facts(f, g)
    ensures UpToNul(wal, b.startWal) && UpToNul(last, b.stopWal) && UpToNul(labelFile, b.labelFile)
    ensures if spaces.None? then b.tablespaceMap == [] else UpToNul(spaces.value, b.tablespaceMap)
    ensures exists d :: UpToNul(size, d) && AllDigits(d) && b.segmentSize == PlaceValue(d)
  {
    hide Returns, UpToNul, StartsWith, StopsWith, AllDigits, PlaceValue;
    var f, g :| StartsWith(started, f) && StopsWith(stopped, g) && b == Facts(f, g);
    StartColumns(started, wal, size, f);
    StopColumns(stopped, last, labelFile, spaces, g);
  }
}
