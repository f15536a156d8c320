/**
 * Reading complete backend responses: errors, command completion, and a single data row.
 */
module Replies {
  import opened Prelude
  import opened Frames
  import opened Requests

  const ROW: byte := 68
  const COMMAND: byte := 67
  const ERROR: byte := 69
  const READY: byte := 90

  // ---------------------------------------------------------------------------
  // Walking a response that may be malformed
  // ---------------------------------------------------------------------------

  /** `off` bytes of `s` are the messages `ms`; nothing is known of the rest. */
  ghost predicate Walked(s: Bytes, off: nat, ms: seq<Message>) {
    && off <= |s|
    && (Framed(s) <==> Framed(s[off..]))
    && (Framed(s) ==> Messages(s) == ms + Messages(s[off..]))
  }

  lemma WalkedStart(s: Bytes)
    ensures Walked(s, 0, [])
  {
    assert s[0..] == s;
    if Framed(s) { assert [] + Messages(s) == Messages(s); }
  }

  function Here(s: Bytes, off: nat): Message
    requires off <= |s| && FrontOf(s[off..]).Whole?
  {
    Message(s[off], s[off + 5..off + FrontOf(s[off..]).size])
  }

  lemma WalkedNext(s: Bytes, off: nat, ms: seq<Message>)
    requires Walked(s, off, ms) && FrontOf(s[off..]).Whole?
    ensures Walked(s, off + FrontOf(s[off..]).size, ms + [Here(s, off)])
  {
    hide FrontOf;
    var t, n := s[off..], FrontOf(s[off..]).size;
    assert t[n..] == s[off + n..];
    assert t[5..n] == s[off + 5..off + n];
    if Framed(s) {
      var rest := Messages(t[n..]);
      assert Messages(t) == [Here(s, off)] + rest;
      assert ms + ([Here(s, off)] + rest) == ms + [Here(s, off)] + rest;
    }
  }

  lemma WalkedStuck(s: Bytes, off: nat, ms: seq<Message>)
    requires Walked(s, off, ms) && off < |s| && !FrontOf(s[off..]).Whole?
    ensures !Framed(s)
  {
    hide FrontOf;
  }

  lemma WalkedEnd(s: Bytes, ms: seq<Message>)
    requires Walked(s, |s|, ms)
    ensures Framed(s) && Messages(s) == ms
  {
    assert s[|s|..] == [];
    assert ms + [] == ms;
  }

  /** The size of the message at `off`, as every one of the loops below computes it. */
  method FrontSize(s: Bytes, off: nat) returns (n: Option<nat>)
    requires off < |s|
    ensures n.Some? <==> FrontOf(s[off..]).Whole?
    ensures n.Some? ==> n.value == FrontOf(s[off..]).size
  {
    hide Number;
    if |s| - off < 5 {
      return None;
    }
    assert s[off..][1..5] == s[off + 1..off + 5];
    var length := Number(s[off + 1..off + 5]);
    if length < 4 || length + 1 > |s| - off {
      return None;
    }
    n := Some(length + 1);
  }

  // ---------------------------------------------------------------------------
  // Errors
  // ---------------------------------------------------------------------------

  ghost predicate HasTag(ms: seq<Message>, tag: byte) { exists i :: 0 <= i < |ms| && ms[i].tag == tag }

  lemma HasTagSnoc(ms: seq<Message>, m: Message, tag: byte)
    ensures HasTag(ms + [m], tag) <==> HasTag(ms, tag) || m.tag == tag
  {
    assert (ms + [m])[|ms|] == m;
    if HasTag(ms, tag) {
      var i :| 0 <= i < |ms| && ms[i].tag == tag;
      assert (ms + [m])[i].tag == tag;
    }
  }

  /** None when the response is malformed, even after an error. */
  method ContainsError(s: Bytes) returns (r: Option<bool>)
    ensures r.Some? <==> Framed(s)
    ensures r.Some? ==> (r.value <==> HasTag(Messages(s), ERROR))
  {
    hide Framed, Messages, FrontOf, Walked, HasTag;
    var off, found := 0, false;
    ghost var ms: seq<Message> := [];
    WalkedStart(s);
    HasTagNone(ERROR);
    while off < |s|
      invariant 0 <= off <= |s| && Walked(s, off, ms)
      invariant found <==> HasTag(ms, ERROR)
      decreases |s| - off
    {
      var n := FrontSize(s, off);
      if n.None? {
        WalkedStuck(s, off, ms);
        return None;
      }
      WalkedNext(s, off, ms);
      HasTagSnoc(ms, Here(s, off), ERROR);
      ms := ms + [Here(s, off)];
      if s[off] == ERROR {
        found := true;
      }
      off := off + n.value;
    }
    WalkedEnd(s, ms);
    r := Some(found);
  }

  lemma HasTagNone(tag: byte)
    ensures !HasTag([], tag)
  {
  }

  // ---------------------------------------------------------------------------
  // Command completion
  // ---------------------------------------------------------------------------

  predicate ReadyStatus(m: Message) {
    m.tag == READY && |m.body| == 1 && (m.body[0] == 73 || m.body[0] == 84 || m.body[0] == 69)
  }

  /** A finished command: completed, no error, and nothing after a well-formed ReadyForQuery. */
  ghost predicate Confirmed(ms: seq<Message>) {
    && ms != [] && ReadyStatus(ms[|ms| - 1]) && !HasTag(ms, ERROR)
    && HasTag(ms, COMMAND) && !HasTag(ms[..|ms| - 1], READY)
  }

  /** Exactly one command completed, and its tag is `text`. */
  ghost predicate OnlyCommand(ms: seq<Message>, text: Bytes) {
    exists i :: 0 <= i < |ms| && ms[i] == Message(COMMAND, text) && !HasTag(ms[..i], COMMAND) &&
      !HasTag(ms[i + 1..], COMMAND)
  }

  /** No error or ReadyForQuery so far; the two flags are those of the loop. */
  ghost predicate Confirming(ms: seq<Message>, text: Bytes, saw: bool, matches: bool) {
    && !HasTag(ms, ERROR) && !HasTag(ms, READY)
    && (saw <==> HasTag(ms, COMMAND)) && (matches <==> OnlyCommand(ms, text))
  }

  lemma OnlyCommandMore(ms: seq<Message>, m: Message, text: Bytes)
    requires OnlyCommand(ms, text) && m.tag != COMMAND
    ensures OnlyCommand(ms + [m], text)
  {
    hide HasTag;
    var all := ms + [m];
    var i :| 0 <= i < |ms| && ms[i] == Message(COMMAND, text) && !HasTag(ms[..i], COMMAND) &&
      !HasTag(ms[i + 1..], COMMAND);
    assert all[..i] == ms[..i] && all[i + 1..] == ms[i + 1..] + [m] && all[i] == ms[i];
    HasTagSnoc(ms[i + 1..], m, COMMAND);
  }

  lemma OnlyCommandLess(ms: seq<Message>, m: Message, text: Bytes)
    requires OnlyCommand(ms + [m], text) && m.tag != COMMAND
    ensures OnlyCommand(ms, text)
  {
    hide HasTag;
    var all := ms + [m];
    var i :| 0 <= i < |all| && all[i] == Message(COMMAND, text) && !HasTag(all[..i], COMMAND) &&
      !HasTag(all[i + 1..], COMMAND);
    assert all[..i] == ms[..i] && all[i + 1..] == ms[i + 1..] + [m] && all[i] == ms[i];
    HasTagSnoc(ms[i + 1..], m, COMMAND);
  }

  lemma OnlyCommandFirst(ms: seq<Message>, m: Message)
    requires m.tag == COMMAND && !HasTag(ms, COMMAND)
    ensures OnlyCommand(ms + [m], m.body)
  {
    hide HasTag;
    var all := ms + [m];
    assert all[|ms|] == Message(COMMAND, m.body) && all[..|ms|] == ms && all[|ms| + 1..] == [];
    HasTagNone(COMMAND);
  }

  /** If the last message is a command, it is the only one. */
  lemma OnlyCommandLast(ms: seq<Message>, m: Message, text: Bytes)
    requires OnlyCommand(ms + [m], text) && m.tag == COMMAND
    ensures !HasTag(ms, COMMAND) && m.body == text
  {
    hide HasTag;
    var all := ms + [m];
    var i :| 0 <= i < |all| && all[i] == Message(COMMAND, text) && !HasTag(all[..i], COMMAND) &&
      !HasTag(all[i + 1..], COMMAND);
    assert all[|ms|] == m && all[..|ms|] == ms;
    if i < |ms| { TagAfter(all, i, |ms|); }
  }

  lemma OnlyCommandSnoc(ms: seq<Message>, m: Message, text: Bytes)
    ensures m.tag != COMMAND ==> (OnlyCommand(ms + [m], text) <==> OnlyCommand(ms, text))
    ensures m.tag == COMMAND ==> (OnlyCommand(ms + [m], text) <==> !HasTag(ms, COMMAND) && m.body == text)
  {
    hide HasTag, OnlyCommand;
    if m.tag != COMMAND {
      if OnlyCommand(ms, text) { OnlyCommandMore(ms, m, text); }
      if OnlyCommand(ms + [m], text) { OnlyCommandLess(ms, m, text); }
    } else {
      if OnlyCommand(ms + [m], text) { OnlyCommandLast(ms, m, text); }
      if !HasTag(ms, COMMAND) { OnlyCommandFirst(ms, m); }
    }
  }

  lemma HasTagAt(ms: seq<Message>, i: nat)
    requires i < |ms|
    ensures HasTag(ms, ms[i].tag)
  {
  }

  lemma ConfirmingNext(ms: seq<Message>, m: Message, text: Bytes, saw: bool, matches: bool)
    requires Confirming(ms, text, saw, matches) && m.tag != ERROR && m.tag != READY
    ensures Confirming(ms + [m], text, saw || m.tag == COMMAND,
                       if m.tag == COMMAND then !saw && m.body == text else matches)
  {
    hide HasTag, OnlyCommand;
    HasTagSnoc(ms, m, ERROR);
    HasTagSnoc(ms, m, READY);
    HasTagSnoc(ms, m, COMMAND);
    OnlyCommandSnoc(ms, m, text);
  }

  /** A ReadyForQuery decides: it must be the last message. */
  lemma ConfirmingReady(ms: seq<Message>, m: Message, rest: seq<Message>, text: Bytes, saw: bool, matches: bool)
    requires Confirming(ms, text, saw, matches) && m.tag == READY
    ensures var all := ms + [m] + rest;
      && (Confirmed(all) <==> rest == [] && saw && ReadyStatus(m))
      && (Confirmed(all) ==> (OnlyCommand(all, text) <==> matches))
  {
    hide OnlyCommand;
    var all := ms + [m] + rest;
    assert all[|ms|] == m;
    if rest == [] {
      assert all == ms + [m] && all[..|all| - 1] == ms;
      HasTagSnoc(ms, m, ERROR);
      HasTagSnoc(ms, m, COMMAND);
      OnlyCommandSnoc(ms, m, text);
    } else {
      assert all[..|all| - 1][|ms|] == m;
    }
  }

  lemma ErrorRefutes(ms: seq<Message>, m: Message, rest: seq<Message>)
    requires m.tag == ERROR
    ensures !Confirmed(ms + [m] + rest)
  {
    assert (ms + [m] + rest)[|ms|] == m;
  }

  lemma ConfirmingStart(text: Bytes)
    ensures Confirming([], text, false, false)
  {
  }

  lemma ErrorInside(s: Bytes, next: nat, ms: seq<Message>, m: Message)
    requires Framed(s) && Walked(s, next, ms + [m]) && m.tag == ERROR
    ensures !Confirmed(Messages(s))
  {
    hide Framed, Messages, Confirmed;
    ErrorRefutes(ms, m, Messages(s[next..]));
  }

  lemma ReadyDecides(s: Bytes, next: nat, ms: seq<Message>, m: Message, text: Bytes, saw: bool, matches: bool)
    requires Walked(s, next, ms + [m]) && Confirming(ms, text, saw, matches) && m.tag == READY
    ensures Framed(s) && Confirmed(Messages(s)) <==> next == |s| && saw && ReadyStatus(m)
    ensures Framed(s) && Confirmed(Messages(s)) ==> (OnlyCommand(Messages(s), text) <==> matches)
  {
    hide Confirming, Confirmed, OnlyCommand, FrontOf, ReadyStatus;
    if next == |s| { WalkedEnd(s, ms + [m]); }
    if Framed(s) {
      ConfirmingReady(ms, m, Messages(s[next..]), text, saw, matches);
    }
  }

  lemma NoReadyRefutes(ms: seq<Message>, text: Bytes, saw: bool, matches: bool)
    requires Confirming(ms, text, saw, matches)
    ensures !Confirmed(ms)
  {
    if ms != [] { HasTagAt(ms, |ms| - 1); }
  }

  /** `expected` is the command tag without its terminating zero byte. */
  method Confirms(s: Bytes, expected: Bytes) returns (confirmed: bool, matches: bool)
    ensures confirmed <==> Framed(s) && Confirmed(Messages(s))
    ensures matches <==> confirmed && OnlyCommand(Messages(s), expected + [0])
  {
    hide Framed, Messages, FrontOf, Walked, Confirming, Confirmed, OnlyCommand;
    var off, saw, tagMatches := 0, false, false;
    ghost var ms: seq<Message> := [];
    WalkedStart(s);
    ConfirmingStart(expected + [0]);
    while off < |s|
      invariant 0 <= off <= |s| && Walked(s, off, ms)
      invariant Confirming(ms, expected + [0], saw, tagMatches)
      decreases |s| - off
    {
      var n := FrontSize(s, off);
      if n.None? {
        WalkedStuck(s, off, ms);
        return false, false;
      }
      WalkedNext(s, off, ms);
      var next := off + n.value;
      ghost var m := Here(s, off);
      if s[off] == ERROR {
        if Framed(s) { ErrorInside(s, next, ms, m); }
        return false, false;
      }
      if s[off] == READY {
        confirmed := saw && n.value == 6 && next == |s| && (s[off + 5] == 73 || s[off + 5] == 84 || s[off + 5] == 69);
        ReadyDecides(s, next, ms, m, expected + [0], saw, tagMatches);
        return confirmed, confirmed && tagMatches;
      }
      ConfirmingNext(ms, m, expected + [0], saw, tagMatches);
      if s[off] == COMMAND {
        tagMatches := !saw && s[off + 5..next] == expected + [0];
        saw := true;
      }
      ms := ms + [m];
      off := next;
    }
    WalkedEnd(s, ms);
    NoReadyRefutes(ms, expected + [0], saw, tagMatches);
    return false, false;
  }

  // ---------------------------------------------------------------------------
  // Data rows
  // ---------------------------------------------------------------------------

  type Value = Option<Bytes>

  const NULL_LENGTH: nat := 0xFFFF_FFFF
  const SIGN_BIT: nat := 0x8000_0000

  /** The given number of columns and nothing more; a length of minus one is a null. */
  function Values(s: Bytes, columns: nat): (r: Option<seq<Value>>)
    ensures r.Some? ==> |r.value| == columns
    decreases columns
  {
    if columns == 0 then (if s == [] then Some([]) else None)
    else if |s| < 4 then None
    else
      var n := Number(s[..4]);
      if n == NULL_LENGTH then Prepend(None, Values(s[4..], columns - 1))
      else if n >= SIGN_BIT || n > |s| - 4 then None
      else Prepend(Some(s[4..4 + n]), Values(s[4 + n..], columns - 1))
  }

  function Prepend(v: Value, rest: Option<seq<Value>>): Option<seq<Value>> {
    if rest.Some? then Some([v] + rest.value) else None
  }

  function Row(body: Bytes, columns: nat): (r: Option<seq<Value>>)
    ensures r.Some? ==> |r.value| == columns
  {
    if |body| < 2 || body[0] as nat * 0x100 + body[1] as nat != columns then None else Values(body[2..], columns)
  }

  predicate ValueFits(v: Value) { v.Some? ==> |v.value| < SIGN_BIT }

  function EncodeValues(vs: seq<Value>): Bytes
    requires forall i :: 0 <= i < |vs| ==> ValueFits(vs[i])
  {
    if vs == [] then []
    else
      assert ValueFits(vs[0]);
      (if vs[0].None? then Digits(NULL_LENGTH) else Digits(|vs[0].value|) + vs[0].value) + EncodeValues(vs[1..])
  }

  /** Every row PostgreSQL can send is read back as it was. */
  lemma {:induction false} ValuesRoundTrip(vs: seq<Value>)
    requires forall i :: 0 <= i < |vs| ==> ValueFits(vs[i])
    ensures Values(EncodeValues(vs), |vs|) == Some(vs)
  {
    hide Number, Digits;
    if vs != [] {
      ValuesRoundTrip(vs[1..]);
      var s, rest := EncodeValues(vs), EncodeValues(vs[1..]);
      assert vs == [vs[0]] + vs[1..];
      if vs[0].None? {
        assert s[..4] == Digits(NULL_LENGTH) && s[4..] == rest;
      } else {
        var n := |vs[0].value|;
        assert s == Digits(n) + vs[0].value + rest;
        assert s[..4] == Digits(n) && s[4..4 + n] == vs[0].value && s[4 + n..] == rest;
      }
    }
  }

  /** Bounds only: what copying the row relies on. */
  method ValidateRow(body: Bytes, columns: nat) returns (ok: bool)
    ensures ok <==> Row(body, columns).Some?
  {
    hide Number;
    if |body| < 2 || body[0] as nat * 0x100 + body[1] as nat != columns {
      return false;
    }
    var off, column := 2, 0;
    while column < columns
      invariant 0 <= column <= columns && 2 <= off <= |body|
      invariant Row(body, columns).Some? <==> Values(body[off..], columns - column).Some?
    {
      if |body| - off < 4 {
        return false;
      }
      ghost var rest := body[off..];
      assert rest[..4] == body[off..off + 4] && rest[4..] == body[off + 4..];
      var n := Number(body[off..off + 4]);
      off, column := off + 4, column + 1;
      if n == NULL_LENGTH {
        continue;
      }
      if n >= SIGN_BIT || n > |body| - off {
        return false;
      }
      assert rest[4 + n..] == body[off + n..];
      off := off + n;
    }
    ok := off == |body|;
  }

  function Joined(copied: seq<Value>, rest: Option<seq<Value>>): Option<seq<Value>> {
    if rest.Some? then Some(copied + rest.value) else None
  }

  lemma JoinedNext(copied: seq<Value>, v: Value, rest: Option<seq<Value>>)
    ensures Joined(copied, Prepend(v, rest)) == Joined(copied + [v], rest)
  {
    if rest.Some? { assert copied + ([v] + rest.value) == copied + [v] + rest.value; }
  }

  /** One column, at the front of the part not copied yet. */
  lemma ValuesNext(s: Bytes, columns: nat)
    requires columns > 0 && Values(s, columns).Some?
    ensures |s| >= 4
    ensures var n := Number(s[..4]);
      if n == NULL_LENGTH then Values(s, columns) == Prepend(None, Values(s[4..], columns - 1))
      else 4 + n <= |s| && Values(s, columns) == Prepend(Some(s[4..4 + n]), Values(s[4 + n..], columns - 1))
  {
    hide Number;
  }

  /** The copy loop, on a row that passed `ValidateRow`. */
  method CopyRow(body: Bytes, columns: nat) returns (values: seq<Value>)
    requires Row(body, columns).Some?
    ensures Some(values) == Row(body, columns)
  {
    hide Number, Values, Prepend;
    var off, column := 2, 0;
    values := [];
    JoinedStart(Values(body[2..], columns));
    while column < columns
      invariant 0 <= column <= columns && 2 <= off <= |body|
      invariant Joined(values, Values(body[off..], columns - column)) == Row(body, columns)
    {
      ghost var rest := body[off..];
      ValuesNext(rest, columns - column);
      assert rest[..4] == body[off..off + 4] && rest[4..] == body[off + 4..];
      var n := Number(body[off..off + 4]);
      off, column := off + 4, column + 1;
      if n == NULL_LENGTH {
        JoinedNext(values, None, Values(body[off..], columns - column));
        values := values + [None];
      } else {
        assert rest[4..4 + n] == body[off..off + n] && rest[4 + n..] == body[off + n..];
        JoinedNext(values, Some(body[off..off + n]), Values(body[off + n..], columns - column));
        values := values + [Some(body[off..off + n])];
        off := off + n;
      }
    }
    assert values + [] == values;
  }

  lemma JoinedStart(rest: Option<seq<Value>>)
    ensures Joined([], rest) == rest
  {
    if rest.Some? { assert [] + rest.value == rest.value; }
  }

  /** The one row of a response without errors. */
  ghost predicate OneRow(ms: seq<Message>, body: Bytes) {
    exists i :: 0 <= i < |ms| && ms[i] == Message(ROW, body) && !HasTag(ms[..i], ROW) && !HasTag(ms[i + 1..], ROW)
  }

  ghost predicate SingleRow(ms: seq<Message>, columns: nat, values: seq<Value>) {
    !HasTag(ms, ERROR) && exists body :: OneRow(ms, body) && Row(body, columns) == Some(values)
  }

  /** `row` is the only data row so far, if there was one. */
  ghost predicate Collecting(ms: seq<Message>, columns: nat, row: Option<seq<Value>>) {
    && !HasTag(ms, ERROR)
    && (row.None? ==> !HasTag(ms, ROW))
    && (row.Some? ==> SingleRow(ms, columns, row.value))
  }

  lemma TagBefore(ms: seq<Message>, k: nat, i: nat)
    requires k < i <= |ms|
    ensures HasTag(ms[..i], ms[k].tag)
  {
    assert ms[..i][k] == ms[k];
  }

  lemma TagAfter(ms: seq<Message>, i: nat, k: nat)
    requires i < k < |ms|
    ensures HasTag(ms[i + 1..], ms[k].tag)
  {
    assert ms[i + 1..][k - i - 1] == ms[k];
  }

  /** Wherever a row stands, it is the one row. */
  lemma RowPlace(ms: seq<Message>, body: Bytes, k: nat)
    requires OneRow(ms, body) && k < |ms| && ms[k].tag == ROW
    ensures ms[k].body == body && !HasTag(ms[..k], ROW)
  {
    hide HasTag;
    var i :| 0 <= i < |ms| && ms[i] == Message(ROW, body) && !HasTag(ms[..i], ROW) && !HasTag(ms[i + 1..], ROW);
    if k < i { TagBefore(ms, k, i); }
    if i < k { TagAfter(ms, i, k); }
  }

  lemma OneRowUnique(ms: seq<Message>, a: Bytes, b: Bytes)
    requires OneRow(ms, a) && OneRow(ms, b)
    ensures a == b
  {
    var j :| 0 <= j < |ms| && ms[j] == Message(ROW, b) && !HasTag(ms[..j], ROW) && !HasTag(ms[j + 1..], ROW);
    RowPlace(ms, a, j);
  }

  lemma OneRowMore(ms: seq<Message>, m: Message, body: Bytes)
    requires OneRow(ms, body) && m.tag != ROW
    ensures OneRow(ms + [m], body)
  {
    hide HasTag;
    var all := ms + [m];
    var i :| 0 <= i < |ms| && ms[i] == Message(ROW, body) && !HasTag(ms[..i], ROW) && !HasTag(ms[i + 1..], ROW);
    assert all[..i] == ms[..i] && all[i + 1..] == ms[i + 1..] + [m] && all[i] == ms[i];
    HasTagSnoc(ms[i + 1..], m, ROW);
  }

  lemma OneRowFirst(ms: seq<Message>, m: Message)
    requires m.tag == ROW && !HasTag(ms, ROW)
    ensures OneRow(ms + [m], m.body)
  {
    hide HasTag;
    var all := ms + [m];
    assert all[|ms|] == Message(ROW, m.body) && all[..|ms|] == ms && all[|ms| + 1..] == [];
    HasTagNone(ROW);
  }

  lemma CollectingNext(ms: seq<Message>, m: Message, columns: nat, row: Option<seq<Value>>)
    requires Collecting(ms, columns, row) && m.tag != ERROR
    ensures m.tag != ROW ==> Collecting(ms + [m], columns, row)
    ensures m.tag == ROW && row.None? && Row(m.body, columns).Some? ==>
      Collecting(ms + [m], columns, Row(m.body, columns))
  {
    hide HasTag, OneRow, Row;
    HasTagSnoc(ms, m, ERROR);
    HasTagSnoc(ms, m, ROW);
    if m.tag != ROW && row.Some? {
      var body :| OneRow(ms, body) && Row(body, columns) == row;
      OneRowMore(ms, m, body);
    }
    if m.tag == ROW && row.None? { OneRowFirst(ms, m); }
  }

  /** Errors, a second row and an invalid row rule a single row out, whatever follows. */
  lemma RefusedInside(ms: seq<Message>, m: Message, rest: seq<Message>, columns: nat, row: Option<seq<Value>>,
    values: seq<Value>)
    requires Collecting(ms, columns, row)
    requires m.tag == ERROR || (m.tag == ROW && (row.Some? || Row(m.body, columns).None?))
    ensures !SingleRow(ms + [m] + rest, columns, values)
  {
    hide Row, HasTag, OneRow;
    var all := ms + [m] + rest;
    assert all[|ms|] == m && all[..|ms|] == ms;
    HasTagAt(all, |ms|);
    if row.Some? { RowSeen(ms, columns, row.value); }
    if m.tag == ROW && SingleRow(all, columns, values) {
      var body :| OneRow(all, body) && Row(body, columns) == Some(values);
      RowPlace(all, body, |ms|);
    }
  }

  lemma RowSeen(ms: seq<Message>, columns: nat, values: seq<Value>)
    requires SingleRow(ms, columns, values)
    ensures HasTag(ms, ROW)
  {
    hide Row;
    var body :| OneRow(ms, body) && Row(body, columns) == Some(values);
    var i :| 0 <= i < |ms| && ms[i] == Message(ROW, body);
  }

  /** A response holds at most one way to be a single row. */
  lemma SingleRowUnique(ms: seq<Message>, columns: nat, a: seq<Value>, b: seq<Value>)
    requires SingleRow(ms, columns, a) && SingleRow(ms, columns, b)
    ensures a == b
  {
    hide Row, OneRow;
    var x :| OneRow(ms, x) && Row(x, columns) == Some(a);
    var y :| OneRow(ms, y) && Row(y, columns) == Some(b);
    OneRowUnique(ms, x, y);
  }

  lemma CollectingStart(columns: nat)
    ensures Collecting([], columns, None)
  {
  }

  lemma RefusedHere(s: Bytes, next: nat, ms: seq<Message>, m: Message, columns: nat, row: Option<seq<Value>>)
    requires Walked(s, next, ms + [m]) && Collecting(ms, columns, row)
    requires m.tag == ERROR || (m.tag == ROW && (row.Some? || Row(m.body, columns).None?))
    ensures !(Framed(s) && exists vs :: SingleRow(Messages(s), columns, vs))
  {
    hide SingleRow, Collecting, Row, Framed, Messages;
    if Framed(s) {
      forall vs ensures !SingleRow(Messages(s), columns, vs) {
        RefusedInside(ms, m, Messages(s[next..]), columns, row, vs);
      }
    }
  }

  lemma NothingCollected(ms: seq<Message>, columns: nat)
    requires Collecting(ms, columns, None)
    ensures forall vs :: !SingleRow(ms, columns, vs)
  {
    hide Row, HasTag;
    forall vs ensures !SingleRow(ms, columns, vs) {
      if SingleRow(ms, columns, vs) { RowSeen(ms, columns, vs); }
    }
  }

  /** The values of the only data row of a well-formed response without errors. */
  method CopySingleRow(s: Bytes, columns: nat) returns (r: Option<seq<Value>>)
    ensures r.Some? <==> Framed(s) && exists vs :: SingleRow(Messages(s), columns, vs)
    ensures r.Some? ==> SingleRow(Messages(s), columns, r.value) && |r.value| == columns
  {
    hide Framed, Messages, FrontOf, Walked, Collecting, SingleRow, Row;
    var off := 0;
    var row: Option<seq<Value>> := None;
    ghost var ms: seq<Message> := [];
    WalkedStart(s);
    CollectingStart(columns);
    while off < |s|
      invariant 0 <= off <= |s| && Walked(s, off, ms)
      invariant Collecting(ms, columns, row) && (row.Some? ==> |row.value| == columns)
      decreases |s| - off
    {
      var n := FrontSize(s, off);
      if n.None? {
        WalkedStuck(s, off, ms);
        return None;
      }
      WalkedNext(s, off, ms);
      var next := off + n.value;
      ghost var m := Here(s, off);
      if s[off] == ERROR || (s[off] == ROW && row.Some?) {
        RefusedHere(s, next, ms, m, columns, row);
        return None;
      }
      CollectingNext(ms, m, columns, row);
      if s[off] == ROW {
        var valid := ValidateRow(s[off + 5..next], columns);
        if !valid {
          RefusedHere(s, next, ms, m, columns, row);
          return None;
        }
        var values := CopyRow(s[off + 5..next], columns);
        row := Some(values);
      }
      ms := ms + [m];
      off := next;
    }
    WalkedEnd(s, ms);
    if row.None? {
      NothingCollected(ms, columns);
      return None;
    }
    CollectedRow(ms, columns, row);
    r := row;
  }

  lemma CollectedRow(ms: seq<Message>, columns: nat, row: Option<seq<Value>>)
    requires Collecting(ms, columns, row) && row.Some?
    ensures SingleRow(ms, columns, row.value)
  {
  }
}
