/**
 * Complete backend responses against PostgreSQL messages, with type bytes spelled out: which response completes a
 * command, and how a data row is laid out.
 */
module ReplyRules {
  import opened Prelude
  import opened Frames
  import opened Requests
  import opened Replies
  import BackupMode

  /**
   * A response completes its command if ReadyForQuery ('Z') with status idle, in transaction or failed ('I', 'T', 'E')
   * is its last message and only one, some command completed ('C') and there is no error ('E').
   */
  lemma ConfirmedIff(ms: seq<Message>)
    ensures Confirmed(ms) <==>
      && ms != []
      && (exists status :: status in {73, 84, 69} && ms[|ms| - 1] == Message(90, [status]))
      && (forall i :: 0 <= i < |ms| - 1 ==> ms[i].tag != 90)
      && (forall i :: 0 <= i < |ms| ==> ms[i].tag != 69)
      && (exists i :: 0 <= i < |ms| && ms[i].tag == 67)
  {
    if ms != [] {
      var front, last := ms[..|ms| - 1], ms[|ms| - 1];
      assert forall i :: 0 <= i < |ms| - 1 ==> front[i] == ms[i];
      if ReadyStatus(last) { assert last == Message(90, [last.body[0]]); }
    }
  }

  /** The message at `i`, and no other, has this type. */
  ghost predicate OnlyAt(ms: seq<Message>, i: nat, tag: byte)
    requires i < |ms|
  {
    ms[i].tag == tag && forall k :: 0 <= k < |ms| && k != i ==> ms[k].tag != tag
  }

  /** The only completed command has this tag. */
  lemma OnlyCommandIff(ms: seq<Message>, text: Bytes)
    ensures OnlyCommand(ms, text) <==>
      exists i :: 0 <= i < |ms| && OnlyAt(ms, i, 67) && ms[i].body == text
  {
    forall i | 0 <= i < |ms|
      ensures (!HasTag(ms[..i], COMMAND) && !HasTag(ms[i + 1..], COMMAND)) <==>
        forall k :: 0 <= k < |ms| && k != i ==> ms[k].tag != 67
    {
      OthersHaveNot(ms, i, 67);
    }
    if i :| 0 <= i < |ms| && OnlyAt(ms, i, 67) && ms[i].body == text { assert ms[i] == Message(67, text); }
  }

  lemma OthersHaveNot(ms: seq<Message>, i: nat, tag: byte)
    requires i < |ms|
    ensures (!HasTag(ms[..i], tag) && !HasTag(ms[i + 1..], tag)) <==>
      forall k :: 0 <= k < |ms| && k != i ==> ms[k].tag != tag
  {
    var a, b := ms[..i], ms[i + 1..];
    assert forall k :: 0 <= k < i ==> a[k] == ms[k];
    assert forall k :: i < k < |ms| ==> b[k - i - 1] == ms[k];
    if forall k :: 0 <= k < |ms| && k != i ==> ms[k].tag != tag {
      assert forall k :: 0 <= k < |b| ==> b[k] == ms[k + i + 1];
    }
  }

  /** Both backup queries return one row each. */
  lemma RowTag()
    ensures BackupMode.ONE_ROW_SELECTED == Ascii("SELECT 1")
  {
  }

  /** A single row: exactly one DataRow ('D') and no error. */
  lemma SingleRowIff(ms: seq<Message>, columns: nat, values: seq<Value>)
    ensures SingleRow(ms, columns, values) <==>
      && (forall k :: 0 <= k < |ms| ==> ms[k].tag != 69)
      && exists i :: 0 <= i < |ms| && OnlyAt(ms, i, 68) && Row(ms[i].body, columns) == Some(values)
  {
    hide Row;
    forall i | 0 <= i < |ms|
      ensures (!HasTag(ms[..i], ROW) && !HasTag(ms[i + 1..], ROW)) <==>
        forall k :: 0 <= k < |ms| && k != i ==> ms[k].tag != 68
    {
      OthersHaveNot(ms, i, 68);
    }
    if i :| 0 <= i < |ms| && OnlyAt(ms, i, 68) && Row(ms[i].body, columns) == Some(values) {
      assert ms[i] == Message(68, ms[i].body);
      assert OneRow(ms, ms[i].body);
    }
  }

  /** A column: its length in four bytes and its bytes, or a length of minus one for a null. */
  lemma ColumnBytes(v: Bytes, rest: seq<Value>)
    requires ValueFits(Some(v)) && forall i :: 0 <= i < |rest| ==> ValueFits(rest[i])
    ensures EncodeValues([None] + rest) == [255, 255, 255, 255] + EncodeValues(rest)
    ensures EncodeValues([Some(v)] + rest) == Digits(|v|) + v + EncodeValues(rest)
    ensures |v| < 2_147_483_648
  {
    assert Digits(0xFFFF_FFFF) == [255, 255, 255, 255];
    assert ([None] + rest)[1..] == rest && ([Some(v)] + rest)[1..] == rest;
    assert forall i :: 0 < i <= |rest| ==> ([None] + rest)[i] == rest[i - 1] && ([Some(v)] + rest)[i] == rest[i - 1];
  }

  /** A row: the number of columns in two bytes, then the columns, and nothing else. */
  lemma RowIff(body: Bytes, vs: seq<Value>)
    requires |vs| < 65536 && forall i :: 0 <= i < |vs| ==> ValueFits(vs[i])
    ensures Row(body, |vs|) == Some(vs) <==>
      |body| >= 2 && 256 * body[0] as nat + body[1] as nat == |vs| && body[2..] == EncodeValues(vs)
  {
    hide Values, EncodeValues;
    ValuesRoundTrip(vs);
    if |body| >= 2 && Values(body[2..], |vs|) == Some(vs) { ValuesBack(body[2..], vs); }
  }

  lemma {:induction false} ValuesBack(s: Bytes, vs: seq<Value>)
    requires Values(s, |vs|) == Some(vs) && forall i :: 0 <= i < |vs| ==> ValueFits(vs[i])
    ensures s == EncodeValues(vs)
    decreases |vs|
  {
    hide Number, Digits;
    if vs != [] {
      var n := Number(s[..4]);
      NumberInjective(s[..4], Digits(n));
      if n == NULL_LENGTH {
        assert vs[1..] == Values(s[4..], |vs| - 1).value;
        ValuesBack(s[4..], vs[1..]);
        assert s == s[..4] + s[4..];
      } else {
        assert vs[1..] == Values(s[4 + n..], |vs| - 1).value;
        ValuesBack(s[4 + n..], vs[1..]);
        assert s == s[..4] + s[4..4 + n] + s[4 + n..];
      }
    }
  }
}
