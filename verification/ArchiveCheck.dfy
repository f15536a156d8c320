/** The reader's one-pass path checks, and what they decide about a whole archive. */
module ArchiveCheck {
  import opened Prelude
  import opened TarHeader

  datatype Entry = Entry(path: Bytes, kind: Kind, content: Bytes)

  /** `a` is a proper directory prefix of `p`. */
  predicate IsAncestor(a: Bytes, p: Bytes) {
    |a| < |p| && p[..|a|] == a && p[|a|] == SLASH
  }

  predicate Clash(x: Entry, y: Entry) {
    || x.path == y.path
    || (x.kind == RegularFile && IsAncestor(x.path, y.path))
    || (y.kind == RegularFile && IsAncestor(y.path, x.path))
  }

  /** Paths are distinct and no file is a proper ancestor of another entry. */
  ghost predicate Consistent(es: seq<Entry>) {
    forall i, j :: 0 <= i < j < |es| ==> !Clash(es[i], es[j])
  }

  lemma ConsistentSnoc(es: seq<Entry>, e: Entry)
    ensures Consistent(es + [e]) <==> Consistent(es) && forall i :: 0 <= i < |es| ==> !Clash(es[i], e)
  {
    var all := es + [e];
    assert forall i :: 0 <= i < |es| ==> all[i] == es[i];
    if Consistent(all) {
      forall i | 0 <= i < |es| ensures !Clash(es[i], e) { assert !Clash(all[i], all[|es|]); }
    }
  }

  class PathTracker {
    var seen: seq<Bytes>
    var files: seq<Bytes>
    var ancestors: seq<Bytes>
    ghost var entries: seq<Entry>

    /** The lists hold exactly what the admitted entries call for. */
    ghost predicate Valid()
      reads this
    {
      && Consistent(entries)
      && (forall p :: p in seen <==> exists i :: 0 <= i < |entries| && entries[i].path == p)
      && (forall p :: p in files <==>
            exists i :: 0 <= i < |entries| && entries[i].kind == RegularFile && entries[i].path == p)
      && (forall a :: a in ancestors <==> exists i :: 0 <= i < |entries| && IsAncestor(a, entries[i].path))
    }

    constructor ()
      ensures Valid() && entries == []
    {
      seen, files, ancestors, entries := [], [], [], [];
    }

    /** One entry of the archive, admitted exactly when the whole list stays consistent. */
    method Admit(e: Entry) returns (ok: bool)
      requires Valid()
      modifies this
      ensures ok <==> Consistent(old(entries) + [e])
      ensures ok ==> Valid() && entries == old(entries) + [e]
    {
      ConsistentSnoc(entries, e);
      var duplicate := Contains(seen, e.path);
      if duplicate {
        return false;
      }
      seen := seen + [e.path];
      var nested := HasFileAncestor(files, e.path);
      if nested {
        return false;
      }
      if e.kind == RegularFile {
        var parent := Contains(ancestors, e.path);
        if parent {
          return false;
        }
        files := files + [e.path];
      }
      var more := RememberAncestors(ancestors, e.path);
      ancestors := more;
      ghost var before := entries;
      entries := entries + [e];
      assert forall i :: 0 <= i < |before| ==> entries[i] == before[i];
      assert entries[|before|] == e;
      ok := true;
    }
  }

  method Contains(items: seq<Bytes>, value: Bytes) returns (found: bool)
    ensures found <==> value in items
  {
    for i := 0 to |items|
      invariant forall k :: 0 <= k < i ==> items[k] != value
    {
      if items[i] == value {
        return true;
      }
    }
    found := false;
  }

  method HasFileAncestor(files: seq<Bytes>, path: Bytes) returns (found: bool)
    ensures found <==> exists f :: f in files && IsAncestor(f, path)
  {
    for i := 0 to |files|
      invariant forall k :: 0 <= k < i ==> !IsAncestor(files[k], path)
    {
      if IsAncestor(files[i], path) {
        return true;
      }
    }
    found := false;
  }

  method RememberAncestors(known: seq<Bytes>, path: Bytes) returns (all: seq<Bytes>)
    ensures forall a :: a in all <==> a in known || IsAncestor(a, path)
  {
    all := known;
    for i := 0 to |path|
      invariant forall a :: a in all <==> a in known || (IsAncestor(a, path) && |a| < i)
    {
      if path[i] == SLASH {
        var present := Contains(all, path[..i]);
        if !present {
          all := all + [path[..i]];
        }
        assert IsAncestor(path[..i], path);
      }
      assert forall a :: IsAncestor(a, path) && |a| == i ==> a == path[..i] && path[i] == SLASH;
    }
  }

  // ---------------------------------------------------------------------------
  // The verdict does not depend on the order
  // ---------------------------------------------------------------------------

  lemma OccursTwice(es: seq<Entry>, x: Entry) returns (i: nat, j: nat)
    requires multiset(es)[x] >= 2
    ensures i < j < |es| && es[i] == x && es[j] == x
  {
    i :| i < |es| && es[i] == x;
    var rest := es[..i] + es[i + 1..];
    assert es == es[..i] + [x] + es[i + 1..];
    assert multiset(rest)[x] >= 1;
    assert x in rest;
    var k :| 0 <= k < |rest| && rest[k] == x;
    var other := if k < i then k else k + 1;
    if other < i { i, j := other, i; } else { j := other; }
  }

  lemma OccursOnce(es: seq<Entry>, i: nat, j: nat)
    requires i < j < |es| && es[i] == es[j]
    ensures multiset(es)[es[i]] >= 2
  {
    assert es == es[..j] + [es[j]] + es[j + 1..];
    assert es[i] in es[..j];
  }

  lemma ClashSymmetric(x: Entry, y: Entry)
    ensures Clash(x, y) == Clash(y, x)
  {
  }

  lemma ClashAnywhere(es: seq<Entry>, i: nat, j: nat)
    requires i < |es| && j < |es| && i != j && Clash(es[i], es[j])
    ensures !Consistent(es)
  {
    if j < i { ClashSymmetric(es[i], es[j]); }
  }

  lemma InconsistentCarries(a: seq<Entry>, b: seq<Entry>)
    requires multiset(a) == multiset(b) && !Consistent(a)
    ensures !Consistent(b)
  {
    var i, j :| 0 <= i < j < |a| && Clash(a[i], a[j]);
    if a[i] == a[j] {
      OccursOnce(a, i, j);
      var k, l := OccursTwice(b, a[i]);
      ClashAnywhere(b, k, l);
    } else {
      assert a[i] in multiset(a) && a[j] in multiset(a);
      assert a[i] in b && a[j] in b;
      var k :| 0 <= k < |b| && b[k] == a[i];
      var l :| 0 <= l < |b| && b[l] == a[j];
      ClashAnywhere(b, k, l);
    }
  }

  /** The one-pass verdict is the same for every order of the same entries. */
  lemma VerdictIgnoresOrder(a: seq<Entry>, b: seq<Entry>)
    requires multiset(a) == multiset(b)
    ensures Consistent(a) <==> Consistent(b)
  {
    if !Consistent(a) { InconsistentCarries(a, b); }
    if !Consistent(b) { InconsistentCarries(b, a); }
  }
}
