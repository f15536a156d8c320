/**
 * Archive paths: splitting into components, the reader's canonical form, and the
 * one-pass duplicate and file-versus-tree checks.
 */
module ArchivePath {
  import opened Prelude
  import opened TarHeader

  const DOT: Bytes := [46]
  const DOTDOT: Bytes := [46, 46]
  const PGDATA: Bytes := [112, 103, 100, 97, 116, 97]                             // "pgdata"
  const METADATA: Bytes := [46, 111, 108, 105, 112, 104, 97, 117, 110, 116]       // ".oliphaunt"
  const MANIFEST_NAME: Bytes :=                                                   // "backup-manifest.properties"
    [98, 97, 99, 107, 117, 112, 45, 109, 97, 110, 105, 102, 101, 115, 116, 46,
     112, 114, 111, 112, 101, 114, 116, 105, 101, 115]

  // ---------------------------------------------------------------------------
  // Components
  // ---------------------------------------------------------------------------

  predicate NoSlash(c: Bytes) { forall i :: 0 <= i < |c| ==> c[i] != SLASH }

  predicate IsComponent(c: Bytes) { c != [] && NoSlash(c) }

  predicate AllComponents(cs: seq<Bytes>) { forall i :: 0 <= i < |cs| ==> IsComponent(cs[i]) }

  /** Length of the run of non-slash bytes at the front. */
  function RunLength(p: Bytes): (n: nat)
    ensures n <= |p| && NoSlash(p[..n]) && (n < |p| ==> p[n] == SLASH)
  {
    if p == [] || p[0] == SLASH then 0
    else
      var n := 1 + RunLength(p[1..]);
      assert forall i :: 0 <= i < n ==> p[..n][i] == if i == 0 then p[0] else p[1..][..n - 1][i - 1];
      n
  }

  function Components(p: Bytes): (cs: seq<Bytes>)
    ensures AllComponents(cs)
    decreases |p|
  {
    if p == [] then []
    else if p[0] == SLASH then Components(p[1..])
    else var n := RunLength(p); [p[..n]] + Components(p[n..])
  }

  function Join(cs: seq<Bytes>): Bytes {
    if cs == [] then [] else if |cs| == 1 then cs[0] else cs[0] + [SLASH] + Join(cs[1..])
  }

  lemma {:induction false} JoinSnoc(cs: seq<Bytes>, c: Bytes)
    ensures Join(cs + [c]) == if cs == [] then c else Join(cs) + [SLASH] + c
  {
    if |cs| > 0 {
      assert (cs + [c])[1..] == cs[1..] + [c];
      JoinSnoc(cs[1..], c);
    }
  }

  lemma RunStops(p: Bytes, n: nat)
    requires n <= |p| && NoSlash(p[..n]) && (n < |p| ==> p[n] == SLASH)
    ensures RunLength(p) == n
  {
    assert forall i :: 0 <= i < n ==> p[..n][i] == p[i];
    assert forall i :: 0 <= i < RunLength(p) ==> p[..RunLength(p)][i] == p[i];
  }

  lemma ComponentThenRest(c: Bytes, rest: Bytes)
    requires IsComponent(c) && (rest == [] || rest[0] == SLASH)
    ensures Components(c + rest) == [c] + Components(rest)
  {
    var p := c + rest;
    assert p[..|c|] == c && p[|c|..] == rest;
    RunStops(p, |c|);
  }

  /** Splitting undoes joining. */
  lemma {:induction false} ComponentsOfJoin(cs: seq<Bytes>)
    requires AllComponents(cs)
    ensures Components(Join(cs)) == cs
  {
    if |cs| == 1 {
      assert cs[0] + [] == cs[0];
      ComponentThenRest(cs[0], []);
    } else if |cs| > 1 {
      var rest := [SLASH] + Join(cs[1..]);
      assert Join(cs) == cs[0] + rest;
      assert rest[1..] == Join(cs[1..]);
      ComponentThenRest(cs[0], rest);
      ComponentsOfJoin(cs[1..]);
    }
  }

  lemma JoinInjective(a: seq<Bytes>, b: seq<Bytes>)
    requires AllComponents(a) && AllComponents(b) && Join(a) == Join(b)
    ensures a == b
  {
    ComponentsOfJoin(a);
    ComponentsOfJoin(b);
  }

  // ---------------------------------------------------------------------------
  // Canonical form
  // ---------------------------------------------------------------------------

  function Kept(cs: seq<Bytes>): (ks: seq<Bytes>)
    ensures AllComponents(cs) ==> AllComponents(ks)
    ensures DOT !in ks
  {
    if cs == [] then []
    else if cs[|cs| - 1] == DOT then Kept(cs[..|cs| - 1])
    else Kept(cs[..|cs| - 1]) + [cs[|cs| - 1]]
  }

  /** The archive holds one tree and one manifest. */
  predicate InsideArchive(ks: seq<Bytes>) {
    ks != [] && (ks[0] == PGDATA || ks == [METADATA, MANIFEST_NAME])
  }

  /** Dots and repeated or trailing slashes vanish; absolute paths, dot-dot and anything outside are refused. */
  function Canonical(p: Bytes): Option<Bytes> {
    var ks := Kept(Components(p));
    if p == [] || p[0] == SLASH || DOTDOT in ks || !InsideArchive(ks) then None else Some(Join(ks))
  }

  /** The last check of the C function, on the joined bytes. */
  predicate NamesTree(out: Bytes) {
    || StartsWithComponent(out, PGDATA)
    || out == METADATA + [SLASH] + MANIFEST_NAME
  }

  predicate StartsWithComponent(out: Bytes, c: Bytes) {
    out == c || (|out| > |c| && out[..|c| + 1] == c + [SLASH])
  }

  lemma FirstComponent(ks: seq<Bytes>, c: Bytes)
    requires AllComponents(ks) && ks != [] && IsComponent(c)
    ensures StartsWithComponent(Join(ks), c) <==> ks[0] == c
  {
    var out := Join(ks);
    if ks[0] == c && |ks| > 1 {
      assert out[..|c| + 1] == c + [SLASH];
    }
    if StartsWithComponent(out, c) {
      ComponentsOfJoin(ks);
      var rest := out[|c|..];
      assert out == c + rest;
      assert rest != [] ==> rest[0] == out[..|c| + 1][|c|];
      ComponentThenRest(c, rest);
    }
  }

  lemma NamesTreeIff(ks: seq<Bytes>)
    requires AllComponents(ks) && ks != []
    ensures NamesTree(Join(ks)) <==> InsideArchive(ks)
  {
    FirstComponent(ks, PGDATA);
    var manifest := [METADATA, MANIFEST_NAME];
    assert AllComponents(manifest);
    assert Join(manifest) == METADATA + [SLASH] + MANIFEST_NAME by { assert manifest[1..] == [MANIFEST_NAME]; }
    if Join(ks) == Join(manifest) { JoinInjective(ks, manifest); }
  }

  lemma {:induction false} KeptSnoc(cs: seq<Bytes>, c: Bytes)
    ensures Kept(cs + [c]) == if c == DOT then Kept(cs) else Kept(cs) + [c]
  {
    assert (cs + [c])[..|cs|] == cs;
  }

  lemma {:induction false} KeptFixed(ks: seq<Bytes>)
    requires DOT !in ks
    ensures Kept(ks) == ks
  {
    if ks != [] {
      KeptFixed(ks[..|ks| - 1]);
      assert ks == ks[..|ks| - 1] + [ks[|ks| - 1]];
    }
  }

  lemma JoinStartsWithFirst(ks: seq<Bytes>)
    requires AllComponents(ks) && ks != []
    ensures Join(ks) != [] && Join(ks)[0] != SLASH
  {
    assert IsComponent(ks[0]) && Join(ks)[0] == ks[0][0];
  }

  /** Canonicalising twice is canonicalising once. */
  lemma CanonicalIdempotent(p: Bytes)
    requires Canonical(p).Some?
    ensures Canonical(Canonical(p).value) == Canonical(p)
  {
    var ks := Kept(Components(p));
    ComponentsOfJoin(ks);
    KeptFixed(ks);
    JoinStartsWithFirst(ks);
  }

  /** A joined component list without dots inside the tree is its own canonical form, with or without a final slash. */
  lemma CanonicalOfJoin(ks: seq<Bytes>)
    requires AllComponents(ks) && DOT !in ks && DOTDOT !in ks && InsideArchive(ks)
    ensures Canonical(Join(ks)) == Some(Join(ks)) == Canonical(Join(ks) + [SLASH])
  {
    ComponentsOfJoin(ks);
    ComponentsSlash(Join(ks));
    KeptFixed(ks);
    JoinStartsWithFirst(ks);
  }

  lemma {:induction false} ComponentsSlash(p: Bytes)
    ensures Components(p + [SLASH]) == Components(p)
    decreases |p|
  {
    if p == [] {
      assert ([] + [SLASH])[1..] == [];
    } else if p[0] == SLASH {
      assert (p + [SLASH])[1..] == p[1..] + [SLASH];
      ComponentsSlash(p[1..]);
    } else {
      var n := RunLength(p);
      assert p[..n] + (p[n..] + [SLASH]) == p + [SLASH];
      ComponentThenRest(p[..n], p[n..] + [SLASH]);
      ComponentsSlash(p[n..]);
    }
  }

  lemma SkipSlash(path: Bytes, at: nat)
    requires at < |path| && path[at] == SLASH
    ensures Components(path[at..]) == Components(path[at + 1..])
  {
    assert path[at..][1..] == path[at + 1..];
  }

  lemma TakeComponent(path: Bytes, from: nat, to: nat)
    requires from < to <= |path| && (forall i :: from <= i < to ==> path[i] != SLASH)
    requires to < |path| ==> path[to] == SLASH
    ensures IsComponent(path[from..to])
    ensures Components(path[from..]) == [path[from..to]] + Components(path[to..])
  {
    assert path[from..] == path[from..to] + path[to..];
    ComponentThenRest(path[from..to], path[to..]);
  }

  /** `done` are the components of `path` before position `p`. */
  ghost predicate Scanned(path: Bytes, p: nat, done: seq<Bytes>) {
    p <= |path| && Components(path) == done + Components(path[p..])
  }

  /** The scan from one component to the next. */
  method NextComponent(path: Bytes, start: nat) returns (from: nat, to: nat)
    requires start < |path|
    ensures start <= from <= to <= |path| && start < to
    ensures from == to ==> to == |path| && Components(path[start..]) == []
    ensures from < to ==> Components(path[start..]) == [path[from..to]] + Components(path[to..])
    ensures from < to ==> IsComponent(path[from..to])
  {
    from := start;
    while from < |path| && path[from] == SLASH
      invariant start <= from <= |path|
      invariant Components(path[start..]) == Components(path[from..])
    {
      SkipSlash(path, from);
      from := from + 1;
    }
    to := from;
    while to < |path| && path[to] != SLASH
      invariant from <= to <= |path|
      invariant forall i :: from <= i < to ==> path[i] != SLASH
    {
      to := to + 1;
    }
    if from < to {
      TakeComponent(path, from, to);
    }
  }

  /** What the loop has established about the components consumed so far. */
  ghost predicate Progress(done: seq<Bytes>, out: Bytes, count: nat) {
    && AllComponents(done)
    && out == Join(Kept(done)) && count == |Kept(done)|
    && DOTDOT !in Kept(done)
    && (count > 0 ==> Kept(done)[0] == PGDATA || Kept(done)[0] == METADATA)
  }

  lemma KeepsComponent(done: seq<Bytes>, out: Bytes, count: nat, c: Bytes)
    requires Progress(done, out, count) && IsComponent(c) && c != DOTDOT
    requires c != DOT && count == 0 ==> c == PGDATA || c == METADATA
    ensures c == DOT ==> Progress(done + [c], out, count)
    ensures c != DOT ==> Progress(done + [c], (if |out| > 0 then out + [SLASH] else out) + c, count + 1)
  {
    hide Join, Kept;
    KeptSnoc(done, c);
    JoinSnoc(Kept(done), c);
    JoinNonempty(Kept(done));
  }

  lemma RefusesComponent(path: Bytes, done: seq<Bytes>, c: Bytes, rest: seq<Bytes>)
    requires Components(path) == done + [c] + rest
    requires c == DOTDOT || (Kept(done) == [] && c != DOT && c != PGDATA && c != METADATA)
    ensures Canonical(path) == None
  {
    KeptContains(done, c, rest);
    if Kept(done) == [] { KeptHead(done, c, rest); }
  }

  method CanonicalRelativePath(path: Bytes) returns (r: Option<Bytes>)
    ensures r == Canonical(path)
  {
    if path == [] || path[0] == SLASH {
      return None;
    }
    var out: Bytes := [];
    var count := 0;
    var p := 0;
    ghost var done: seq<Bytes> := [];
    assert path[0..] == path;
    while p < |path|
      invariant Scanned(path, p, done) && Progress(done, out, count)
    {
      var from, to := NextComponent(path, p);
      if from < to {
        var c := path[from..to];
        assert done + ([c] + Components(path[to..])) == (done + [c]) + Components(path[to..]);
        if c == DOTDOT || (c != DOT && count == 0 && c != PGDATA && c != METADATA) {
          RefusesComponent(path, done, c, Components(path[to..]));
          return None;
        }
        KeepsComponent(done, out, count, c);
        if c != DOT {
          out := (if |out| > 0 then out + [SLASH] else out) + c;
          count := count + 1;
        }
        done := done + [c];
      }
      p := to;
    }
    assert path[p..] == [] && done == Components(path);
    if count == 0 {
      return None;
    }
    NamesTreeIff(Kept(done));
    r := if NamesTree(out) then Some(out) else None;
  }

  lemma JoinNonempty(ks: seq<Bytes>)
    requires AllComponents(ks)
    ensures |Join(ks)| > 0 <==> ks != []
  {
    if ks != [] { JoinStartsWithFirst(ks); }
  }

  lemma {:induction false} KeptAppend(a: seq<Bytes>, b: seq<Bytes>)
    ensures Kept(a + b) == Kept(a) + Kept(b)
  {
    assert Kept([]) == [];
    hide Kept, AllComponents;
    if b == [] {
      assert a + b == a && Kept(a) + [] == Kept(a);
    } else {
      var front, last := b[..|b| - 1], b[|b| - 1];
      KeptAppend(a, front);
      assert a + b == (a + front) + [last] && b == front + [last];
      KeptSnoc(a + front, last);
      KeptSnoc(front, last);
      assert Kept(a) + (Kept(front) + [last]) == Kept(a) + Kept(front) + [last];
    }
  }

  lemma KeptContains(a: seq<Bytes>, c: Bytes, b: seq<Bytes>)
    requires c != DOT
    ensures c in Kept(a + [c] + b)
  {
    KeptAppend(a + [c], b);
    KeptSnoc(a, c);
  }

  lemma KeptHead(a: seq<Bytes>, c: Bytes, b: seq<Bytes>)
    requires c != DOT && Kept(a) == []
    ensures Kept(a + [c] + b) != [] && Kept(a + [c] + b)[0] == c
  {
    KeptAppend(a + [c], b);
    KeptSnoc(a, c);
  }
}
