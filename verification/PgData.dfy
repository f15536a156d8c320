/**
 * The data directory as a finite tree, and what a physical backup takes from it.
 */
module PgData {
  import opened Prelude
  import opened TarHeader
  import opened ArchivePath
  import opened ArchiveCheck
  import opened Archive

  // ".DS_Store"
  const DS_STORE: Bytes := [46, 68, 83, 95, 83, 116, 111, 114, 101]
  // "backup_label"
  const BACKUP_LABEL: Bytes := [98, 97, 99, 107, 117, 112, 95, 108, 97, 98, 101, 108]
  // "backup_manifest"
  const BACKUP_MANIFEST: Bytes :=
    [98, 97, 99, 107, 117, 112, 95, 109, 97, 110, 105, 102, 101, 115, 116]
  // "current_logfiles.tmp"
  const LOGFILES_TMP: Bytes :=
    [99, 117, 114, 114, 101, 110, 116, 95, 108, 111, 103, 102, 105, 108, 101, 115, 46, 116,
    109, 112]
  // "postgresql.auto.conf.tmp"
  const AUTO_CONF_TMP: Bytes :=
    [112, 111, 115, 116, 103, 114, 101, 115, 113, 108, 46, 97, 117, 116, 111, 46, 99, 111,
    110, 102, 46, 116, 109, 112]
  // "tablespace_map"
  const TABLESPACE_MAP: Bytes := [116, 97, 98, 108, 101, 115, 112, 97, 99, 101, 95, 109, 97, 112]
  // "global"
  const GLOBAL: Bytes := [103, 108, 111, 98, 97, 108]
  // "pg_control"
  const PG_CONTROL: Bytes := [112, 103, 95, 99, 111, 110, 116, 114, 111, 108]
  // "pg_internal.init"
  const INTERNAL_INIT: Bytes :=
    [112, 103, 95, 105, 110, 116, 101, 114, 110, 97, 108, 46, 105, 110, 105, 116]
  // "pgsql_tmp"
  const PGSQL_TMP: Bytes := [112, 103, 115, 113, 108, 95, 116, 109, 112]
  // "pg_dynshmem"
  const PG_DYNSHMEM: Bytes := [112, 103, 95, 100, 121, 110, 115, 104, 109, 101, 109]
  // "pg_notify"
  const PG_NOTIFY: Bytes := [112, 103, 95, 110, 111, 116, 105, 102, 121]
  // "pg_replslot"
  const PG_REPLSLOT: Bytes := [112, 103, 95, 114, 101, 112, 108, 115, 108, 111, 116]
  // "pg_serial"
  const PG_SERIAL: Bytes := [112, 103, 95, 115, 101, 114, 105, 97, 108]
  // "pg_snapshots"
  const PG_SNAPSHOTS: Bytes := [112, 103, 95, 115, 110, 97, 112, 115, 104, 111, 116, 115]
  // "pg_stat_tmp"
  const PG_STAT_TMP: Bytes := [112, 103, 95, 115, 116, 97, 116, 95, 116, 109, 112]
  // "pg_subtrans"
  const PG_SUBTRANS: Bytes := [112, 103, 95, 115, 117, 98, 116, 114, 97, 110, 115]
  // "pg_wal"
  const PG_WAL: Bytes := [112, 103, 95, 119, 97, 108]
  /** The identity text of a native physical archive, five property lines. */
  const MANIFEST_CORE: Bytes :=
    Ascii("archiveLayout=oliphaunt-physical-archive-v1\nproduct=oliphaunt\nengineFamily=native\n")
    + Ascii("physicalFormat=native-pg18-v1\npostgresMajor=18\n")

  // ---------------------------------------------------------------------------
  // The tree
  // ---------------------------------------------------------------------------

  /** `Special` stands for a symbolic link or any other node that is not a file or directory. */
  datatype Node = File(content: Bytes) | Dir(children: Listing) | Special

  /** A directory listing, in the order it was read. */
  datatype Listing = End | Item(name: Bytes, node: Node, rest: Listing)

  function Names(l: Listing): set<Bytes> {
    match l
    case End => {}
    case Item(n, _, rest) => {n} + Names(rest)
  }

  /** What a file system guarantees of a name. */
  predicate GoodName(n: Bytes) {
    IsComponent(n) && NoNul(n) && n != DOT && n != DOTDOT
  }

  predicate WellFormed(l: Listing) {
    match l
    case End => true
    case Item(n, node, rest) =>
      && GoodName(n) && n !in Names(rest) && WellFormed(rest)
      && (node.Dir? ==> WellFormed(node.children))
  }

  /** The node at a relative path. */
  function Lookup(l: Listing, rel: seq<Bytes>): Option<Node>
    decreases l
  {
    match l
    case End => None
    case Item(n, node, rest) =>
      if rel == [] then None
      else if n != rel[0] then Lookup(rest, rel)
      else if |rel| == 1 then Some(node)
      else if node.Dir? then Lookup(node.children, rel[1..])
      else None
  }

  // ---------------------------------------------------------------------------
  // What a backup leaves out
  // ---------------------------------------------------------------------------

  predicate HasPrefix(s: Bytes, prefix: Bytes) {
    |prefix| <= |s| && s[..|prefix|] == prefix
  }

  predicate TopLevelTransient(n: Bytes) {
    || n == BACKUP_LABEL || n == BACKUP_MANIFEST || n == LOGFILES_TMP || n == AUTO_CONF_TMP
    || n == POSTMASTER_OPTS || n == POSTMASTER_PID || n == TABLESPACE_MAP
  }

  predicate TransientDirectory(n: Bytes) {
    || n == PG_DYNSHMEM || n == PG_NOTIFY || n == PG_REPLSLOT || n == PG_SERIAL || n == PG_SNAPSHOTS
    || n == PG_STAT_TMP || n == PG_SUBTRANS || n == PG_WAL
  }

  /** The skip filter, without the contents of pg_wal. */
  predicate Skip(rel: seq<Bytes>)
    requires rel != []
  {
    var name := rel[|rel| - 1];
    || name == DS_STORE
    || (|rel| == 1 && TopLevelTransient(name))
    || rel == [GLOBAL, PG_CONTROL]
    || HasPrefix(name, INTERNAL_INIT) || HasPrefix(name, PGSQL_TMP)
    || (|rel| > 1 && TransientDirectory(rel[0]))
  }

  /** No step on the way from `base` down to `base + rel` is skipped. */
  predicate Visible(base: seq<Bytes>, rel: seq<Bytes>)
    decreases |rel|
  {
    rel == [] || (!Skip(base + [rel[0]]) && Visible(base + [rel[0]], rel[1..]))
  }

  // ---------------------------------------------------------------------------
  // The walk
  // ---------------------------------------------------------------------------

  /** An archive entry by its path components. */
  datatype Found = Found(at: seq<Bytes>, kind: Kind, content: Bytes)

  function At(rel: seq<Bytes>): seq<Bytes> { [PGDATA] + rel }

  function ToEntry(f: Found): Entry { Entry(Join(f.at), f.kind, f.content) }

  function FoundOf(rel: seq<Bytes>, node: Node): Found {
    match node
    case File(c) => Found(At(rel), RegularFile, c)
    case _ => Found(At(rel), Directory, [])
  }

  /** Every unskipped node below `base`, a directory before its children; None at a special node. */
  function Walk(l: Listing, base: seq<Bytes>): Option<seq<Found>>
    decreases l
  {
    match l
    case End => Some([])
    case Item(n, node, rest) =>
      var here := base + [n];
      if Skip(here) then Walk(rest, base)
      else if node.Special? then None
      else
        var below := if node.Dir? then Walk(node.children, here) else Some([]);
        match (below, Walk(rest, base))
        case (Some(children), Some(others)) => Some([FoundOf(here, node)] + children + others)
        case _ => None
  }

  /** Everything the walk finds lies below `base`, under a name of the listing. */
  predicate Below(x: Found, base: seq<Bytes>, names: set<Bytes>) {
    |x.at| > 1 + |base| && x.at[..1 + |base|] == At(base) && x.at[1 + |base|] in names
  }

  lemma {:induction false} WalkBelow(l: Listing, base: seq<Bytes>, x: Found)
    requires Walk(l, base).Some? && x in Walk(l, base).value
    ensures Below(x, base, Names(l))
    decreases l
  {
    match l
    case End =>
    case Item(n, node, rest) =>
      var here := base + [n];
      if Skip(here) {
        WalkBelow(rest, base, x);
      } else {
        if x == FoundOf(here, node) {
        } else if x in Walk(rest, base).value {
          WalkBelow(rest, base, x);
        } else {
          WalkBelow(node.children, here, x);
          assert x.at[..1 + |base|] == x.at[..1 + |here|][..1 + |base|];
        }
      }
  }

  /** `x` is the node at `rel` below `base`: found in `l`, visible, and not special. */
  predicate IsAt(l: Listing, base: seq<Bytes>, rel: seq<Bytes>, x: Found) {
    && Lookup(l, rel).Some? && !Lookup(l, rel).value.Special?
    && x == FoundOf(base + rel, Lookup(l, rel).value) && Visible(base, rel)
  }

  /** The same node, seen from the directory that holds it. */
  lemma IsAtParent(n: Bytes, node: Node, rest: Listing, base: seq<Bytes>, rel: seq<Bytes>, x: Found)
    requires node.Dir? && !Skip(base + [n]) && rel != [] && rel[0] == n && |rel| > 1
    requires IsAt(node.children, base + [n], rel[1..], x)
    ensures IsAt(Item(n, node, rest), base, rel, x)
  {
    hide Skip;
    assert base + [n] + rel[1..] == base + rel;
  }

  /** The same node, behind another name. */
  lemma IsAtBehind(n: Bytes, node: Node, rest: Listing, base: seq<Bytes>, rel: seq<Bytes>, x: Found)
    requires rel != [] && rel[0] != n && IsAt(rest, base, rel, x)
    ensures IsAt(Item(n, node, rest), base, rel, x)
  {
    hide Skip, Visible;
  }

  lemma IsAtHere(n: Bytes, node: Node, rest: Listing, base: seq<Bytes>)
    requires !Skip(base + [n]) && !node.Special?
    ensures IsAt(Item(n, node, rest), base, [n], FoundOf(base + [n], node))
  {
    hide Skip;
    assert [n][1..] == [];
    assert Visible(base + [n], [n][1..]) && Visible(base, [n]);
    assert Lookup(Item(n, node, rest), [n]) == Some(node);
  }

  /** What the walk found is in the tree, at that path, with that content, and visible. */
  lemma {:induction false} WalkSound(l: Listing, base: seq<Bytes>, x: Found)
    requires WellFormed(l) && Walk(l, base).Some? && x in Walk(l, base).value
    ensures Below(x, base, Names(l)) && IsAt(l, base, x.at[1 + |base|..], x)
    decreases l
  {
    hide Skip, IsAt, GoodName;
    WalkBelow(l, base, x);
    var rel := x.at[1 + |base|..];
    match l
    case End =>
    case Item(n, node, rest) =>
      var here := base + [n];
      if !Skip(here) && x == FoundOf(here, node) {
        assert rel == [n];
        IsAtHere(n, node, rest, base);
      } else if x in Walk(rest, base).value {
        WalkBelow(rest, base, x);
        WalkSound(rest, base, x);
        IsAtBehind(n, node, rest, base, rel, x);
      } else {
        WalkBelow(node.children, here, x);
        WalkSound(node.children, here, x);
        assert x.at[1 + |here|..] == rel[1..];
        assert x.at[1 + |base|] == x.at[..1 + |here|][1 + |base|] == n;
        IsAtParent(n, node, rest, base, rel, x);
      }
  }

  /** Every visible file and directory of the tree is found. */
  lemma {:induction false} WalkComplete(l: Listing, base: seq<Bytes>, rel: seq<Bytes>)
    requires Walk(l, base).Some? && rel != [] && Lookup(l, rel).Some? && Visible(base, rel)
    ensures FoundOf(base + rel, Lookup(l, rel).value) in Walk(l, base).value
    decreases l
  {
    match l
    case End =>
    case Item(n, node, rest) =>
      var here := base + [n];
      if n != rel[0] {
        WalkComplete(rest, base, rel);
      } else if |rel| == 1 {
        assert rel == [n];
      } else {
        WalkComplete(node.children, here, rel[1..]);
        assert here + rel[1..] == base + rel;
      }
  }

  predicate IsParent(p: Found, x: Found) { p.kind == Directory && x.at != [] && p.at == x.at[..|x.at| - 1] }

  /** The entry stands directly below `base`, or its directory stands before it. */
  ghost predicate ParentBefore(xs: seq<Found>, i: nat, base: seq<Bytes>)
    requires i < |xs|
  {
    |xs[i].at| == |base| + 2 || exists j :: 0 <= j < i && IsParent(xs[j], xs[i])
  }

  /** Every directory comes before what it holds. */
  ghost predicate ParentsFirst(xs: seq<Found>, base: seq<Bytes>) {
    forall i :: 0 <= i < |xs| ==> ParentBefore(xs, i, base)
  }

  lemma ParentsShift(front: seq<Found>, xs: seq<Found>, back: seq<Found>, i: nat, base: seq<Bytes>)
    requires i < |xs| && ParentBefore(xs, i, base)
    ensures ParentBefore(front + xs + back, |front| + i, base)
  {
    hide IsParent;
    var all := front + xs + back;
    assert all[|front| + i] == xs[i];
    if |xs[i].at| != |base| + 2 {
      var j :| 0 <= j < i && IsParent(xs[j], xs[i]);
      assert all[|front| + j] == xs[j];
    }
  }

  lemma ChildFollows(here: seq<Bytes>, base: seq<Bytes>, head: Found, children: seq<Found>, others: seq<Found>, i: nat)
    requires |here| == |base| + 1 && head.at == At(here) && head.kind == Directory && i < |children|
    requires |children[i].at| > |here| + 1 && children[i].at[..|here| + 1] == At(here)
    requires ParentBefore(children, i, here)
    ensures ParentBefore([head] + children + others, 1 + i, base)
  {
    var all := [head] + children + others;
    assert all[1 + i] == children[i] && all[0] == head;
    if |children[i].at| == |here| + 2 {
      assert IsParent(all[0], all[1 + i]);
    } else {
      var j :| 0 <= j < i && IsParent(children[j], children[i]);
      assert all[1 + j] == children[j];
    }
  }

  lemma ParentsFirstAll(here: seq<Bytes>, base: seq<Bytes>, head: Found, children: seq<Found>, others: seq<Found>)
    requires |here| == |base| + 1 && head.at == At(here) && ParentsFirst(others, base)
    requires children != [] ==> head.kind == Directory
    requires forall x :: x in children ==> |x.at| > |here| + 1 && x.at[..|here| + 1] == At(here)
    requires ParentsFirst(children, here)
    ensures ParentsFirst([head] + children + others, base)
  {
    hide ParentBefore;
    var all := [head] + children + others;
    forall i | 0 <= i < |all| ensures ParentBefore(all, i, base) {
      if i == 0 {
        AtTop(all, base);
      } else if i <= |children| {
        assert children[i - 1] in children;
        ChildFollows(here, base, head, children, others, i - 1);
      } else {
        var k := i - 1 - |children|;
        ParentsShift([head] + children, others, [], k, base);
        assert [head] + children + others + [] == all;
      }
    }
  }

  lemma AtTop(xs: seq<Found>, base: seq<Bytes>)
    requires xs != [] && |xs[0].at| == |base| + 2
    ensures ParentBefore(xs, 0, base)
  {
  }

  /** The walk lists a directory before its contents. */
  lemma {:induction false} WalkParentsFirst(l: Listing, base: seq<Bytes>)
    requires Walk(l, base).Some?
    ensures ParentsFirst(Walk(l, base).value, base)
    decreases l
  {
    hide Skip, ParentsFirst;
    match l
    case End => NoParents(base);
    case Item(n, node, rest) =>
      var here := base + [n];
      WalkParentsFirst(rest, base);
      if !Skip(here) {
        var children := if node.Dir? then Walk(node.children, here).value else [];
        if node.Dir? {
          WalkParentsFirst(node.children, here);
          forall x | x in children ensures Below(x, here, Names(node.children)) { WalkBelow(node.children, here, x); }
        } else {
          NoParents(here);
        }
        ParentsFirstAll(here, base, FoundOf(here, node), children, Walk(rest, base).value);
      }
  }

  lemma NoParents(base: seq<Bytes>)
    ensures ParentsFirst([], base)
  {
  }

  // ---------------------------------------------------------------------------
  // Clashes by components
  // ---------------------------------------------------------------------------

  predicate ProperPrefix(a: seq<Bytes>, b: seq<Bytes>) {
    |a| < |b| && b[..|a|] == a
  }

  predicate Collide(x: Found, y: Found) {
    || x.at == y.at
    || (x.kind == RegularFile && ProperPrefix(x.at, y.at))
    || (y.kind == RegularFile && ProperPrefix(y.at, x.at))
  }

  ghost predicate Harmonious(xs: seq<Found>) {
    forall i, j :: 0 <= i < j < |xs| ==> !Collide(xs[i], xs[j])
  }

  ghost predicate Apart(xs: seq<Found>, ys: seq<Found>) {
    forall x, y :: x in xs && y in ys ==> !Collide(x, y)
  }

  lemma HarmoniousConcat(xs: seq<Found>, ys: seq<Found>)
    requires Harmonious(xs) && Harmonious(ys) && Apart(xs, ys)
    ensures Harmonious(xs + ys)
  {
    var all := xs + ys;
    forall i, j | 0 <= i < j < |all| ensures !Collide(all[i], all[j]) {
      if j < |xs| {
        assert all[i] == xs[i] && all[j] == xs[j];
      } else if i < |xs| {
        assert all[i] in xs && all[j] in ys;
      } else {
        assert all[i] == ys[i - |xs|] && all[j] == ys[j - |xs|];
      }
    }
  }

  lemma NamesKeepApart(x: Found, y: Found, base: seq<Bytes>, n: Bytes, others: set<Bytes>)
    requires Below(x, base, {n}) && Below(y, base, others) && n !in others
    ensures !Collide(x, y)
  {
    var k := 1 + |base|;
    if |x.at| < |y.at| { assert y.at[..|x.at|][k] == y.at[k]; }
    if |y.at| < |x.at| { assert x.at[..|y.at|][k] == x.at[k]; }
  }

  lemma ParentApart(here: seq<Bytes>, node: Node, children: seq<Found>, names: set<Bytes>)
    requires node.Dir? && forall x :: x in children ==> Below(x, here, names)
    ensures Apart([FoundOf(here, node)], children)
  {
    forall x, y | x in [FoundOf(here, node)] && y in children ensures !Collide(x, y) {
      assert Below(y, here, names);
    }
  }

  /** The walk of a tree never collides with itself. */
  lemma {:induction false} WalkHarmonious(l: Listing, base: seq<Bytes>)
    requires WellFormed(l) && Walk(l, base).Some?
    ensures Harmonious(Walk(l, base).value)
    decreases l
  {
    match l
    case End =>
    case Item(n, node, rest) =>
      var here := base + [n];
      WalkHarmonious(rest, base);
      if !Skip(here) {
        var head := [FoundOf(here, node)];
        var children := if node.Dir? then Walk(node.children, here).value else [];
        if node.Dir? {
          WalkHarmonious(node.children, here);
          forall x | x in children ensures Below(x, here, Names(node.children)) { WalkBelow(node.children, here, x); }
          ParentApart(here, node, children, Names(node.children));
        }
        HarmoniousConcat(head, children);
        var others := Walk(rest, base).value;
        forall x, y | x in head + children && y in others ensures !Collide(x, y) {
          WalkBelow(rest, base, y);
          BranchBelow(here, base, n, node, x);
          NamesKeepApart(x, y, base, n, Names(rest));
        }
        HarmoniousConcat(head + children, others);
      }
  }

  lemma BranchBelow(here: seq<Bytes>, base: seq<Bytes>, n: Bytes, node: Node, x: Found)
    requires here == base + [n]
    requires x == FoundOf(here, node) ||
             (node.Dir? && Walk(node.children, here).Some? && x in Walk(node.children, here).value)
    ensures Below(x, base, {n})
  {
    if x != FoundOf(here, node) {
      WalkBelow(node.children, here, x);
      assert x.at[..1 + |base|] == x.at[..1 + |here|][..1 + |base|];
      assert x.at[1 + |base|] == x.at[..1 + |here|][1 + |base|];
    }
  }
}
