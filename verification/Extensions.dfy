/**
 * Resolving requested extensions and their dependencies into an installation order, with the package each
 * one is installed from.
 */
module Extensions {
  import opened Prelude

  /** SQL names, numbered in their own order. */
  type Name = nat

  datatype Package = Package(product: nat, version: Bytes, runtimeVersion: Bytes, resources: seq<Bytes>)

  datatype Ext = Ext(name: Name, package: Option<Package>)

  /** The generated catalog: direct dependencies, and the product each extension ships in. */
  datatype Catalog = Catalog(deps: map<Name, seq<Name>>, product: map<Name, nat>)

  predicate Closed(c: Catalog) {
    && c.product.Keys == c.deps.Keys
    && forall n, i :: n in c.deps && 0 <= i < |c.deps[n]| ==> c.deps[n][i] in c.deps
  }

  type Requested = map<Name, Ext>

  predicate Proper(c: Catalog, req: Requested) {
    Closed(c) && forall n :: n in req ==> n in c.deps && req[n].name == n
  }

  datatype St = St(visiting: set<Name>, visited: set<Name>, resolved: seq<Ext>)

  datatype Outcome = Done(st: St) | Cycle(name: Name) | Conflict(name: Name)

  /** The package a dependent passes on: its own, within one product. */
  function Offer(c: Catalog, e: Ext, d: Name): Option<Package>
    requires Closed(c) && e.name in c.deps && d in c.deps
  {
    if c.product[d] == c.product[e.name] then e.package else None
  }

  function Selected(c: Catalog, req: Requested, e: Ext, d: Name): (s: Ext)
    requires Proper(c, req) && e.name in c.deps && d in c.deps
    ensures s.name == d
  {
    if d in req then req[d] else Ext(d, Offer(c, e, d))
  }

  /** Depth first: dependencies before the extension itself. */
  function Visit(c: Catalog, req: Requested, st: St, e: Ext): (r: Outcome)
    requires Proper(c, req) && e.name in c.deps
    ensures r.Done? ==> r.st.visiting == st.visiting && st.visited <= r.st.visited
    decreases c.deps.Keys - st.visiting - st.visited, 0, 0
  {
    if e.name in st.visited then Done(st)
    else if e.name in st.visiting then Cycle(e.name)
    else
      assert e.name in c.deps.Keys - st.visiting - st.visited;
      match VisitDeps(c, req, st.(visiting := st.visiting + {e.name}), e, 0)
      case Done(after) =>
        Done(St(after.visiting - {e.name}, after.visited + {e.name}, after.resolved + [e]))
      case other => other
  }

  function VisitDeps(c: Catalog, req: Requested, st: St, e: Ext, i: nat): (r: Outcome)
    requires Proper(c, req) && e.name in c.deps && i <= |c.deps[e.name]|
    ensures r.Done? ==> r.st.visiting == st.visiting && st.visited <= r.st.visited
    decreases c.deps.Keys - st.visiting - st.visited, 1, |c.deps[e.name]| - i
  {
    if i == |c.deps[e.name]| then Done(st)
    else
      var d := c.deps[e.name][i];
      var offer, selected := Offer(c, e, d), Selected(c, req, e, d);
      if offer.Some? && selected.package != offer then Conflict(d)
      else
        match Visit(c, req, st, selected)
        case Done(after) => VisitDeps(c, req, after, e, i + 1)
        case other => other
  }

  // ---------------------------------------------------------------------------
  // What a successful visit leaves
  // ---------------------------------------------------------------------------

  function Names(es: seq<Ext>): set<Name> { set i | 0 <= i < |es| :: es[i].name }

  ghost predicate Distinct(es: seq<Ext>) { forall i, j :: 0 <= i < j < |es| ==> es[i].name != es[j].name }

  /** Every dependency stands before its dependent. */
  ghost predicate DepsFirst(c: Catalog, es: seq<Ext>) {
    forall i, k :: 0 <= i < |es| && es[i].name in c.deps && 0 <= k < |c.deps[es[i].name]| ==>
      c.deps[es[i].name][k] in Names(es[..i])
  }

  ghost predicate Ordered(c: Catalog, st: St) {
    && Names(st.resolved) == st.visited && st.visited <= c.deps.Keys
    && Distinct(st.resolved) && DepsFirst(c, st.resolved)
    && st.visiting !! st.visited
  }

  lemma NamesSnoc(es: seq<Ext>, e: Ext)
    ensures Names(es + [e]) == Names(es) + {e.name}
  {
    var all := es + [e];
    assert all[|es|] == e;
    assert forall i :: 0 <= i < |es| ==> all[i] == es[i];
    forall n | n in Names(es) ensures n in Names(all) {
      var i :| 0 <= i < |es| && es[i].name == n;
      assert all[i].name == n;
    }
  }

  lemma OrderedPush(c: Catalog, st: St, e: Ext)
    requires Closed(c) && e.name in c.deps && e.name !in st.visited
    requires Ordered(c, St(st.visiting, st.visited, st.resolved))
    requires forall k :: 0 <= k < |c.deps[e.name]| ==> c.deps[e.name][k] in st.visited
    ensures Ordered(c, St(st.visiting - {e.name}, st.visited + {e.name}, st.resolved + [e]))
  {
    var all := st.resolved + [e];
    NamesSnoc(st.resolved, e);
    forall i, k | 0 <= i < |all| && all[i].name in c.deps && 0 <= k < |c.deps[all[i].name]|
      ensures c.deps[all[i].name][k] in Names(all[..i])
    {
      if i < |st.resolved| { assert all[..i] == st.resolved[..i]; } else { assert all[..i] == st.resolved; }
    }
    forall i | 0 <= i < |st.resolved| ensures all[i].name in Names(st.resolved) { assert all[i] == st.resolved[i]; }
  }

  lemma {:induction false} VisitOrdered(c: Catalog, req: Requested, st: St, e: Ext)
    requires Proper(c, req) && e.name in c.deps && Ordered(c, st)
    ensures var r := Visit(c, req, st, e); r.Done? ==> Ordered(c, r.st) && e.name in r.st.visited
    decreases c.deps.Keys - st.visiting - st.visited, 0, 0
  {
    hide DepsFirst, Distinct;
    if e.name !in st.visited && e.name !in st.visiting {
      assert e.name in c.deps.Keys - st.visiting - st.visited;
      var inner := st.(visiting := st.visiting + {e.name});
      VisitDepsOrdered(c, req, inner, e, 0);
      var r := VisitDeps(c, req, inner, e, 0);
      if r.Done? { OrderedPush(c, r.st, e); }
    }
  }

  lemma {:induction false} VisitDepsOrdered(c: Catalog, req: Requested, st: St, e: Ext, i: nat)
    requires Proper(c, req) && e.name in c.deps && i <= |c.deps[e.name]| && Ordered(c, st)
    ensures var r := VisitDeps(c, req, st, e, i);
      r.Done? ==> Ordered(c, r.st) && forall k :: i <= k < |c.deps[e.name]| ==> c.deps[e.name][k] in r.st.visited
    decreases c.deps.Keys - st.visiting - st.visited, 1, |c.deps[e.name]| - i
  {
    hide Ordered;
    if i < |c.deps[e.name]| {
      var d := c.deps[e.name][i];
      var selected := Selected(c, req, e, d);
      VisitOrdered(c, req, st, selected);
      var r := Visit(c, req, st, selected);
      if r.Done? { VisitDepsOrdered(c, req, r.st, e, i + 1); }
    }
  }

  // ---------------------------------------------------------------------------
  // Dependency paths
  // ---------------------------------------------------------------------------

  predicate Depends(c: Catalog, a: Name, b: Name) { a in c.deps && b in c.deps[a] }

  ghost predicate IsPath(c: Catalog, p: seq<Name>) {
    |p| >= 2 && forall i :: 0 <= i < |p| - 1 ==> Depends(c, p[i], p[i + 1])
  }

  /** `a` depends on `b`, directly or through others. */
  ghost predicate Plus(c: Catalog, a: Name, b: Name) {
    exists p :: IsPath(c, p) && p[0] == a && p[|p| - 1] == b
  }

  ghost predicate Reaches(c: Catalog, a: Name, b: Name) { a == b || Plus(c, a, b) }

  lemma PlusNext(c: Catalog, a: Name, b: Name, d: Name)
    requires Reaches(c, a, b) && Depends(c, b, d)
    ensures Plus(c, a, d)
  {
    if a == b {
      assert IsPath(c, [a, d]);
    } else {
      var p :| IsPath(c, p) && p[0] == a && p[|p| - 1] == b;
      assert IsPath(c, p + [d]);
    }
  }

  /** Some requested extension is or depends on `n`. */
  ghost predicate Rooted(c: Catalog, req: Requested, n: Name) { exists q :: q in req && Reaches(c, q, n) }

  lemma RootedNext(c: Catalog, req: Requested, n: Name, d: Name)
    requires Rooted(c, req, n) && Depends(c, n, d)
    ensures Rooted(c, req, d)
  {
    var q :| q in req && Reaches(c, q, n);
    PlusNext(c, q, n, d);
  }

  /** A cycle error names an extension that the request reaches and that depends on itself. */
  ghost predicate RealCycle(c: Catalog, req: Requested, n: Name) { Plus(c, n, n) && Rooted(c, req, n) }

  lemma {:induction false} VisitCycle(c: Catalog, req: Requested, st: St, e: Ext)
    requires Proper(c, req) && e.name in c.deps && forall v :: v in st.visiting ==> Plus(c, v, e.name)
    requires Rooted(c, req, e.name)
    ensures var r := Visit(c, req, st, e); r.Cycle? ==> RealCycle(c, req, r.name)
    decreases c.deps.Keys - st.visiting - st.visited, 0, 0
  {
    hide Plus, Rooted;
    if e.name !in st.visited && e.name !in st.visiting {
      assert e.name in c.deps.Keys - st.visiting - st.visited;
      VisitDepsCycle(c, req, st.(visiting := st.visiting + {e.name}), e, 0);
    }
  }

  lemma {:induction false} VisitDepsCycle(c: Catalog, req: Requested, st: St, e: Ext, i: nat)
    requires Proper(c, req) && e.name in c.deps && i <= |c.deps[e.name]|
    requires (forall v :: v in st.visiting ==> Reaches(c, v, e.name)) && Rooted(c, req, e.name)
    ensures var r := VisitDeps(c, req, st, e, i); r.Cycle? ==> RealCycle(c, req, r.name)
    decreases c.deps.Keys - st.visiting - st.visited, 1, |c.deps[e.name]| - i
  {
    hide Reaches, Plus, Rooted, RealCycle;
    if i < |c.deps[e.name]| {
      var d := c.deps[e.name][i];
      forall v | v in st.visiting ensures Plus(c, v, d) { PlusNext(c, v, e.name, d); }
      RootedNext(c, req, e.name, d);
      var selected := Selected(c, req, e, d);
      VisitCycle(c, req, st, selected);
      var r := Visit(c, req, st, selected);
      if r.Done? { VisitDepsCycle(c, req, r.st, e, i + 1); }
    }
  }

  // ---------------------------------------------------------------------------
  // Where packages come from
  // ---------------------------------------------------------------------------

  /** Requested extensions keep their package; any other package was requested for something in the same product. */
  ghost predicate Sound(c: Catalog, req: Requested, e: Ext)
    requires Closed(c)
  {
    && e.name in c.deps
    && (e.name in req ==> e == req[e.name])
    && Rooted(c, req, e.name)
    && (e.package.Some? ==> exists r :: Source(c, req, r, e))
  }

  ghost predicate Source(c: Catalog, req: Requested, r: Name, e: Ext)
    requires Closed(c) && e.name in c.deps
  {
    r in req && r in c.deps && req[r].package == e.package && c.product[r] == c.product[e.name] && Reaches(c, r, e.name)
  }

  lemma RequestedIsSound(c: Catalog, req: Requested, n: Name)
    requires Proper(c, req) && n in req
    ensures Sound(c, req, req[n])
  {
    assert Reaches(c, n, n);
    assert Source(c, req, n, req[n]);
  }

  lemma SelectedIsSound(c: Catalog, req: Requested, e: Ext, d: Name)
    requires Proper(c, req) && Sound(c, req, e) && Depends(c, e.name, d) && d in c.deps
    ensures Sound(c, req, Selected(c, req, e, d))
  {
    hide Reaches;
    if d in req {
      RequestedIsSound(c, req, d);
    } else {
      RootedNext(c, req, e.name, d);
      if Offer(c, e, d).Some? {
        var q :| Source(c, req, q, e);
        ReachesNext(c, q, e.name, d);
        assert Source(c, req, q, Ext(d, Offer(c, e, d)));
      }
    }
  }

  lemma ReachesNext(c: Catalog, a: Name, b: Name, d: Name)
    requires Reaches(c, a, b) && Depends(c, b, d)
    ensures Reaches(c, a, d)
  {
    PlusNext(c, a, b, d);
  }

  /** A conflict: `d` was requested with another package than a requested dependent of the same product. */
  ghost predicate RealConflict(c: Catalog, req: Requested, d: Name)
    requires Closed(c)
  {
    d in req && d in c.deps && exists r :: ClashesWith(c, req, r, d)
  }

  ghost predicate ClashesWith(c: Catalog, req: Requested, r: Name, d: Name)
    requires Closed(c) && d in req && d in c.deps
  {
    && r in req && r in c.deps && c.product[r] == c.product[d] && Reaches(c, r, d)
    && req[r].package.Some? && req[r].package != req[d].package
  }

  lemma ConflictIsReal(c: Catalog, req: Requested, e: Ext, d: Name)
    requires Proper(c, req) && Sound(c, req, e) && Depends(c, e.name, d) && d in c.deps
    requires Offer(c, e, d).Some? && Selected(c, req, e, d).package != Offer(c, e, d)
    ensures RealConflict(c, req, d)
  {
    hide Reaches;
    var r :| Source(c, req, r, e);
    ReachesNext(c, r, e.name, d);
    assert ClashesWith(c, req, r, d);
  }

  lemma {:induction false} VisitSound(c: Catalog, req: Requested, st: St, e: Ext)
    requires Proper(c, req) && e.name in c.deps && Sound(c, req, e)
    ensures var r := Visit(c, req, st, e);
      && (r.Conflict? ==> RealConflict(c, req, r.name))
      && (r.Done? ==> Grew(c, req, st.resolved, r.st.resolved))
    decreases c.deps.Keys - st.visiting - st.visited, 0, 0
  {
    hide Sound, RealConflict;
    if e.name !in st.visited && e.name !in st.visiting {
      assert e.name in c.deps.Keys - st.visiting - st.visited;
      VisitDepsSound(c, req, st.(visiting := st.visiting + {e.name}), e, 0);
    }
  }

  /** More sound extensions at the end. */
  ghost predicate Grew(c: Catalog, req: Requested, before: seq<Ext>, after: seq<Ext>)
    requires Closed(c)
  {
    before <= after && forall k :: |before| <= k < |after| ==> Sound(c, req, after[k])
  }

  lemma {:induction false} VisitDepsSound(c: Catalog, req: Requested, st: St, e: Ext, i: nat)
    requires Proper(c, req) && Sound(c, req, e) && e.name in c.deps && i <= |c.deps[e.name]|
    ensures var r := VisitDeps(c, req, st, e, i);
      && (r.Conflict? ==> RealConflict(c, req, r.name))
      && (r.Done? ==> Grew(c, req, st.resolved, r.st.resolved))
    decreases c.deps.Keys - st.visiting - st.visited, 1, |c.deps[e.name]| - i
  {
    hide Sound, RealConflict, Offer, Selected;
    if i < |c.deps[e.name]| {
      var d := c.deps[e.name][i];
      var selected := Selected(c, req, e, d);
      SelectedIsSound(c, req, e, d);
      if Offer(c, e, d).Some? && selected.package != Offer(c, e, d) {
        ConflictIsReal(c, req, e, d);
      } else {
        VisitSound(c, req, st, selected);
        var r := Visit(c, req, st, selected);
        if r.Done? { VisitDepsSound(c, req, r.st, e, i + 1); }
      }
    }
  }

  /** `x` is a direct dependency of `p` with the package `p` passes on. */
  predicate Offers(c: Catalog, p: Ext, x: Ext)
    requires Closed(c)
  {
    Depends(c, p.name, x.name) && x.name in c.deps && x.package == Offer(c, p, x.name)
  }

  ghost predicate ParentIn(c: Catalog, x: Ext, es: seq<Ext>)
    requires Closed(c)
  {
    exists j :: 0 <= j < |es| && Offers(c, es[j], x)
  }

  /** What was not requested got its package from one of its dependents. */
  ghost predicate Inherited(c: Catalog, req: Requested, x: Ext, es: seq<Ext>)
    requires Closed(c)
  {
    x.name in req || ParentIn(c, x, es)
  }

  lemma InheritedMore(c: Catalog, req: Requested, x: Ext, es: seq<Ext>, more: seq<Ext>)
    requires Closed(c) && Inherited(c, req, x, es) && es <= more
    ensures Inherited(c, req, x, more)
  {
    if x.name !in req {
      var j :| 0 <= j < |es| && Offers(c, es[j], x);
      assert more[j] == es[j];
    }
  }

  lemma {:induction false} VisitInherits(c: Catalog, req: Requested, st: St, e: Ext)
    requires Proper(c, req) && e.name in c.deps
    ensures var r := Visit(c, req, st, e);
      && (r.Done? ==> st.resolved <= r.st.resolved)
      && (r.Done? ==> forall k :: |st.resolved| <= k < |r.st.resolved| ==>
            r.st.resolved[k] == e || Inherited(c, req, r.st.resolved[k], r.st.resolved))
    decreases c.deps.Keys - st.visiting - st.visited, 0, 0
  {
    hide Inherited, Offers;
    if e.name !in st.visited && e.name !in st.visiting {
      assert e.name in c.deps.Keys - st.visiting - st.visited;
      var inner := st.(visiting := st.visiting + {e.name});
      VisitDepsInherits(c, req, inner, e, 0);
      var r := VisitDeps(c, req, inner, e, 0);
      if r.Done? {
        var es := r.st.resolved;
        forall k | |st.resolved| <= k < |es| ensures Inherited(c, req, es[k], es + [e]) {
          if Offers(c, e, es[k]) {
            OfferedByLast(c, req, es, e, es[k]);
          } else {
            InheritedMore(c, req, es[k], es, es + [e]);
          }
        }
      }
    }
  }

  lemma OfferedByLast(c: Catalog, req: Requested, es: seq<Ext>, e: Ext, x: Ext)
    requires Closed(c) && Offers(c, e, x)
    ensures Inherited(c, req, x, es + [e])
  {
    assert (es + [e])[|es|] == e;
  }

  lemma {:induction false} VisitDepsInherits(c: Catalog, req: Requested, st: St, e: Ext, i: nat)
    requires Proper(c, req) && e.name in c.deps && i <= |c.deps[e.name]|
    ensures var r := VisitDeps(c, req, st, e, i);
      && (r.Done? ==> st.resolved <= r.st.resolved)
      && (r.Done? ==> forall k :: |st.resolved| <= k < |r.st.resolved| ==>
            Offers(c, e, r.st.resolved[k]) || Inherited(c, req, r.st.resolved[k], r.st.resolved))
    decreases c.deps.Keys - st.visiting - st.visited, 1, |c.deps[e.name]| - i
  {
    hide Inherited, Offers;
    if i < |c.deps[e.name]| {
      var d := c.deps[e.name][i];
      var selected := Selected(c, req, e, d);
      VisitInherits(c, req, st, selected);
      var r := Visit(c, req, st, selected);
      if r.Done? {
        VisitDepsInherits(c, req, r.st, e, i + 1);
        var s := VisitDeps(c, req, r.st, e, i + 1);
        if s.Done? {
          forall k | |st.resolved| <= k < |r.st.resolved|
            ensures Offers(c, e, s.st.resolved[k]) || Inherited(c, req, s.st.resolved[k], s.st.resolved)
          {
            assert s.st.resolved[k] == r.st.resolved[k];
            if r.st.resolved[k] == selected {
              SelectedInherits(c, req, e, d, s.st.resolved);
            } else {
              InheritedMore(c, req, r.st.resolved[k], r.st.resolved, s.st.resolved);
            }
          }
        }
      }
    }
  }

  lemma SelectedInherits(c: Catalog, req: Requested, e: Ext, d: Name, es: seq<Ext>)
    requires Proper(c, req) && Depends(c, e.name, d) && d in c.deps
    ensures var s := Selected(c, req, e, d); Offers(c, e, s) || Inherited(c, req, s, es)
  {
  }

  // ---------------------------------------------------------------------------
  // Packages of requested dependencies
  // ---------------------------------------------------------------------------

  /** `e` has no direct dependency of its own product that was requested with another package. */
  predicate AgreesOn(c: Catalog, req: Requested, e: Ext, d: Name)
    requires Proper(c, req)
  {
    e.name in c.deps && d in c.deps[e.name] && d in req && c.product[d] == c.product[e.name] && e.package.Some? ==>
      req[d].package == e.package
  }

  ghost predicate Agrees(c: Catalog, req: Requested, e: Ext)
    requires Proper(c, req)
  {
    forall d :: AgreesOn(c, req, e, d)
  }

  /** More agreeing extensions at the end. */
  ghost predicate GrewAgreeing(c: Catalog, req: Requested, before: seq<Ext>, after: seq<Ext>)
    requires Proper(c, req)
  {
    before <= after && forall k :: |before| <= k < |after| ==> Agrees(c, req, after[k])
  }

  lemma {:induction false} VisitAgrees(c: Catalog, req: Requested, st: St, e: Ext)
    requires Proper(c, req) && e.name in c.deps
    ensures var r := Visit(c, req, st, e); r.Done? ==> GrewAgreeing(c, req, st.resolved, r.st.resolved)
    decreases c.deps.Keys - st.visiting - st.visited, 0, 0
  {
    hide AgreesOn;
    if e.name !in st.visited && e.name !in st.visiting {
      assert e.name in c.deps.Keys - st.visiting - st.visited;
      var inner := st.(visiting := st.visiting + {e.name});
      VisitDepsAgree(c, req, inner, e, 0);
      if VisitDeps(c, req, inner, e, 0).Done? { AgreesOnAll(c, req, e); }
    }
  }

  lemma AgreesOnAll(c: Catalog, req: Requested, e: Ext)
    requires Proper(c, req) && e.name in c.deps
    requires forall k :: 0 <= k < |c.deps[e.name]| ==> AgreesOn(c, req, e, c.deps[e.name][k])
    ensures Agrees(c, req, e)
  {
    forall d ensures AgreesOn(c, req, e, d) {
      if d in c.deps[e.name] {
        var k :| 0 <= k < |c.deps[e.name]| && c.deps[e.name][k] == d;
      }
    }
  }

  lemma {:induction false} VisitDepsAgree(c: Catalog, req: Requested, st: St, e: Ext, i: nat)
    requires Proper(c, req) && e.name in c.deps && i <= |c.deps[e.name]|
    ensures var r := VisitDeps(c, req, st, e, i);
      && (r.Done? ==> GrewAgreeing(c, req, st.resolved, r.st.resolved))
      && (r.Done? ==> forall k :: i <= k < |c.deps[e.name]| ==> AgreesOn(c, req, e, c.deps[e.name][k]))
    decreases c.deps.Keys - st.visiting - st.visited, 1, |c.deps[e.name]| - i
  {
    hide Agrees;
    if i < |c.deps[e.name]| {
      var d := c.deps[e.name][i];
      var selected := Selected(c, req, e, d);
      if !(Offer(c, e, d).Some? && selected.package != Offer(c, e, d)) {
        assert AgreesOn(c, req, e, d);
        hide AgreesOn;
        VisitAgrees(c, req, st, selected);
        var r := Visit(c, req, st, selected);
        if r.Done? { VisitDepsAgree(c, req, r.st, e, i + 1); }
      }
    }
  }

  // ---------------------------------------------------------------------------
  // All requested extensions
  // ---------------------------------------------------------------------------

  function VisitRoots(c: Catalog, req: Requested, st: St, keys: seq<Name>): Outcome
    requires Proper(c, req) && forall i :: 0 <= i < |keys| ==> keys[i] in req
    decreases |keys|
  {
    if keys == [] then Done(st)
    else
      match Visit(c, req, st, req[keys[0]])
      case Done(after) => VisitRoots(c, req, after, keys[1..])
      case other => other
  }

  const START: St := St({}, {}, [])

  /** Everything a resolution promises of its result. */
  ghost predicate Resolution(c: Catalog, req: Requested, es: seq<Ext>)
    requires Closed(c)
  {
    && Distinct(es) && DepsFirst(c, es) && req.Keys <= Names(es)
    && forall k :: 0 <= k < |es| ==> Sound(c, req, es[k]) && Inherited(c, req, es[k], es)
  }

  ghost predicate Partway(c: Catalog, req: Requested, st: St)
    requires Closed(c)
  {
    && Ordered(c, st) && st.visiting == {}
    && forall k :: 0 <= k < |st.resolved| ==>
         Sound(c, req, st.resolved[k]) && Inherited(c, req, st.resolved[k], st.resolved)
  }

  lemma RootStep(c: Catalog, req: Requested, st: St, n: Name)
    requires Proper(c, req) && n in req && Partway(c, req, st)
    ensures var r := Visit(c, req, st, req[n]);
      && (r.Done? ==> Partway(c, req, r.st) && n in r.st.visited)
      && (r.Cycle? ==> RealCycle(c, req, r.name))
      && (r.Conflict? ==> RealConflict(c, req, r.name))
  {
    hide Sound, Inherited, Ordered, RealConflict, Plus, RealCycle;
    var e := req[n];
    RequestedIsSound(c, req, n);
    assert Reaches(c, n, n);
    VisitOrdered(c, req, st, e);
    VisitCycle(c, req, st, e);
    VisitSound(c, req, st, e);
    VisitInherits(c, req, st, e);
    var r := Visit(c, req, st, e);
    if r.Done? {
      forall k | 0 <= k < |r.st.resolved|
        ensures Sound(c, req, r.st.resolved[k]) && Inherited(c, req, r.st.resolved[k], r.st.resolved)
      {
        if k < |st.resolved| {
          assert r.st.resolved[k] == st.resolved[k];
          InheritedMore(c, req, st.resolved[k], st.resolved, r.st.resolved);
        } else if r.st.resolved[k] == e {
          RequestedInherits(c, req, n, r.st.resolved);
        }
      }
    }
  }

  lemma RequestedInherits(c: Catalog, req: Requested, n: Name, es: seq<Ext>)
    requires Proper(c, req) && n in req
    ensures Inherited(c, req, req[n], es)
  {
  }

  lemma {:induction false} RootsResolve(c: Catalog, req: Requested, st: St, keys: seq<Name>)
    requires Proper(c, req) && Partway(c, req, st) && forall i :: 0 <= i < |keys| ==> keys[i] in req
    ensures var r := VisitRoots(c, req, st, keys);
      && (r.Done? ==> Partway(c, req, r.st) && st.visited <= r.st.visited)
      && (r.Done? ==> forall i :: 0 <= i < |keys| ==> keys[i] in r.st.visited)
      && (r.Cycle? ==> RealCycle(c, req, r.name))
      && (r.Conflict? ==> RealConflict(c, req, r.name))
    decreases |keys|
  {
    hide Partway, RealConflict, RealCycle, Visit;
    if keys != [] {
      RootStep(c, req, st, keys[0]);
      var r := Visit(c, req, st, req[keys[0]]);
      if r.Done? { RootsResolve(c, req, r.st, keys[1..]); }
    }
  }

  // ---------------------------------------------------------------------------
  // The requested map and its order
  // ---------------------------------------------------------------------------

  /** A package must belong to the extension's product and name its versions and resources. */
  predicate ValidPackage(c: Catalog, e: Ext)
    requires Closed(c) && e.name in c.deps
  {
    e.package.Some? ==>
      var p := e.package.value;
      p.product == c.product[e.name] && p.version != [] && p.runtimeVersion != [] && p.resources != []
  }

  ghost predicate Known(c: Catalog, direct: seq<Ext>) { forall i :: 0 <= i < |direct| ==> direct[i].name in c.deps }

  ghost predicate Agree(direct: seq<Ext>) {
    forall i, j :: 0 <= i < |direct| && 0 <= j < |direct| && direct[i].name == direct[j].name ==> direct[i] == direct[j]
  }

  /** What the caller may ask for: valid packages, and one package per extension. */
  ghost predicate Askable(c: Catalog, direct: seq<Ext>)
    requires Closed(c) && Known(c, direct)
  {
    (forall i :: 0 <= i < |direct| ==> ValidPackage(c, direct[i])) && Agree(direct)
  }

  /** `req` is the request as a map. */
  ghost predicate Gathers(req: Requested, direct: seq<Ext>) {
    && (forall i :: 0 <= i < |direct| ==> direct[i].name in req && req[direct[i].name] == direct[i])
    && (forall n :: n in req ==> req[n].name == n && req[n] in direct)
  }

  lemma GathersUnique(a: Requested, b: Requested, direct: seq<Ext>, other: seq<Ext>)
    requires Gathers(a, direct) && Gathers(b, other) && forall e :: e in direct <==> e in other
    ensures a == b
  {
    forall n | n in a ensures n in b && b[n] == a[n] {
      assert a[n] in other;
      var i :| 0 <= i < |other| && other[i] == a[n];
    }
    forall n | n in b ensures n in a {
      assert b[n] in direct;
      var i :| 0 <= i < |direct| && direct[i] == b[n];
    }
    assert a.Keys == b.Keys;
  }

  ghost predicate Ascending(keys: seq<Name>) { forall i, j :: 0 <= i < j < |keys| ==> keys[i] < keys[j] }

  ghost predicate KeysOf(keys: seq<Name>, req: Requested) {
    Ascending(keys) && forall n :: n in keys <==> n in req
  }

  lemma {:induction false} AscendingUnique(a: seq<Name>, b: seq<Name>)
    requires Ascending(a) && Ascending(b) && forall n :: n in a <==> n in b
    ensures a == b
    decreases |a|
  {
    assert a != [] ==> a[0] in a;
    assert b != [] ==> b[0] in b;
    if a != [] && b != [] {
      assert a[0] in b && b[0] in a;
      assert a[0] == b[0];
      forall n | n in a[1..] ensures n in b[1..] {
        assert n in b && n != b[0];
      }
      forall n | n in b[1..] ensures n in a[1..] {
        assert n in a && n != a[0];
      }
      AscendingUnique(a[1..], b[1..]);
    }
  }

  /** Inserting into the ordered keys, as the map does. */
  method InsertKey(keys: seq<Name>, n: Name) returns (out: seq<Name>)
    requires Ascending(keys)
    ensures Ascending(out) && forall x :: x in out <==> x in keys || x == n
  {
    var i := 0;
    while i < |keys| && keys[i] < n
      invariant 0 <= i <= |keys| && forall j :: 0 <= j < i ==> keys[j] < n
    {
      i := i + 1;
    }
    if i < |keys| && keys[i] == n {
      return keys;
    }
    out := keys[..i] + [n] + keys[i..];
    assert keys == keys[..i] + keys[i..];
    assert out[i] == n;
    forall x | x in keys ensures x in out {
      if x in keys[..i] { } else { assert x in keys[i..]; }
    }
  }

  datatype Result =
    | Resolved(extensions: seq<Ext>)
    | InvalidPackage(name: Name)
    | ConflictingPackages(name: Name)
    | CyclicDependency(name: Name)

  function ResultOf(r: Outcome): Result {
    match r
    case Done(st) => Resolved(st.resolved)
    case Cycle(n) => CyclicDependency(n)
    case Conflict(n) => ConflictingPackages(n)
  }

  /** `r` names the first request that cannot be met, and why: its own package, or another one asked for before. */
  ghost predicate FirstBad(c: Catalog, direct: seq<Ext>, i: nat, r: Result)
    requires Closed(c) && Known(c, direct) && i < |direct|
  {
    && (forall k :: 0 <= k < i ==> Acceptable(c, direct[k])) && Agree(direct[..i])
    && if !Acceptable(c, direct[i]) then r == InvalidPackage(direct[i].name)
       else r == ConflictingPackages(direct[i].name) && !Agree(direct[..i + 1])
  }

  /** No package, or one for the extension's product, with both versions and some resources. */
  predicate Acceptable(c: Catalog, e: Ext)
    requires Closed(c) && e.name in c.deps
  {
    match e.package
    case None => true
    case Some(p) =>
      p.product == c.product[e.name] && |p.version| > 0 && |p.runtimeVersion| > 0 && |p.resources| > 0
  }

  lemma AcceptableIff(c: Catalog, e: Ext)
    requires Closed(c) && e.name in c.deps
    ensures Acceptable(c, e) <==> ValidPackage(c, e)
  {
  }

  /** A request can be answered exactly if every package is acceptable and no extension is asked for in two ways. */
  lemma AskableIff(c: Catalog, direct: seq<Ext>)
    requires Closed(c) && Known(c, direct)
    ensures Askable(c, direct) <==>
      && (forall i :: 0 <= i < |direct| ==> Acceptable(c, direct[i]))
      && forall e, g :: e in direct && g in direct && e.name == g.name ==> e == g
  {
    if Agree(direct) {
      forall e, g | e in direct && g in direct && e.name == g.name ensures e == g {
        var i :| 0 <= i < |direct| && direct[i] == e;
        var j :| 0 <= j < |direct| && direct[j] == g;
      }
    }
    if forall e, g :: e in direct && g in direct && e.name == g.name ==> e == g {
      forall i, j | 0 <= i < |direct| && 0 <= j < |direct| && direct[i].name == direct[j].name
        ensures direct[i] == direct[j]
      {
        assert direct[i] in direct && direct[j] in direct;
      }
    }
  }

  method Gather(c: Catalog, direct: seq<Ext>) returns (error: Option<Result>, req: Requested, keys: seq<Name>)
    requires Closed(c) && Known(c, direct)
    ensures error.None? <==> Askable(c, direct)
    ensures error.None? ==> Gathers(req, direct) && KeysOf(keys, req)
    ensures error.Some? ==> exists i :: 0 <= i < |direct| && FirstBad(c, direct, i, error.value)
  {
    req, keys, error := map[], [], None;
    var i := 0;
    while i < |direct|
      invariant 0 <= i <= |direct| && Gathers(req, direct[..i]) && KeysOf(keys, req)
      invariant forall k :: 0 <= k < i ==> ValidPackage(c, direct[k])
    {
      var e := direct[i];
      GathersAgree(req, direct[..i]);
      if !ValidPackage(c, e) {
        assert FirstBad(c, direct, i, InvalidPackage(e.name));
        return Some(InvalidPackage(e.name)), req, keys;
      }
      assert direct[..i + 1] == direct[..i] + [e];
      if e.name in req && req[e.name].package != e.package {
        assert req[e.name] in direct[..i];
        Disagree(direct, i, req[e.name]);
        Disagree(direct[..i + 1], i, req[e.name]);
        assert FirstBad(c, direct, i, ConflictingPackages(e.name));
        return Some(ConflictingPackages(e.name)), req, keys;
      }
      GathersNext(req, direct[..i], e);
      keys := InsertKey(keys, e.name);
      req := req[e.name := e];
      i := i + 1;
    }
    assert direct[..i] == direct;
    GathersAgree(req, direct);
  }

  lemma Disagree(direct: seq<Ext>, i: nat, earlier: Ext)
    requires i < |direct| && earlier in direct[..i] && earlier.name == direct[i].name && earlier != direct[i]
    ensures !Agree(direct)
  {
    var j :| 0 <= j < i && direct[j] == earlier;
  }

  lemma GathersNext(req: Requested, direct: seq<Ext>, e: Ext)
    requires Gathers(req, direct) && (e.name in req ==> req[e.name].package == e.package)
    ensures Gathers(req[e.name := e], direct + [e])
  {
    var all, next := direct + [e], req[e.name := e];
    forall i | 0 <= i < |all| ensures all[i].name in next && next[all[i].name] == all[i] {
      if i < |direct| { assert all[i] == direct[i]; }
    }
    forall n | n in next ensures next[n] in all {
      if n != e.name { assert req[n] in direct; } else { assert all[|direct|] == e; }
    }
  }

  lemma GathersAgree(req: Requested, direct: seq<Ext>)
    requires Gathers(req, direct)
    ensures Agree(direct)
  {
  }

  lemma GathersProper(c: Catalog, req: Requested, direct: seq<Ext>)
    requires Closed(c) && Known(c, direct) && Gathers(req, direct)
    ensures Proper(c, req)
  {
    forall n | n in req ensures n in c.deps {
      assert req[n] in direct;
    }
  }

  // ---------------------------------------------------------------------------
  // The resolver
  // ---------------------------------------------------------------------------

  class Resolver {
    const catalog: Catalog
    const requested: Requested
    var visiting: set<Name>
    var visited: set<Name>
    var resolved: seq<Ext>

    ghost function State(): St
      reads this
    {
      St(visiting, visited, resolved)
    }

    constructor (catalog: Catalog, requested: Requested)
      ensures this.catalog == catalog && this.requested == requested && State() == START
    {
      this.catalog, this.requested := catalog, requested;
      visiting, visited, resolved := {}, {}, [];
    }

    /** The result of a visit, or what stopped it. */
    method VisitExtension(e: Ext) returns (error: Option<Result>)
      requires Proper(catalog, requested) && e.name in catalog.deps
      modifies this`visiting, this`visited, this`resolved
      ensures var r := Visit(catalog, requested, old(State()), e);
        if r.Done? then error.None? && State() == r.st else error == Some(ResultOf(r))
      decreases catalog.deps.Keys - visiting - visited
    {
      if e.name in visited {
        return None;
      }
      if e.name in visiting {
        return Some(CyclicDependency(e.name));
      }
      ghost var before := State();
      assert e.name in catalog.deps.Keys - visiting - visited;
      visiting := visiting + {e.name};
      ghost var inner := State();
      var i := 0;
      while i < |catalog.deps[e.name]|
        invariant 0 <= i <= |catalog.deps[e.name]|
        invariant visiting == before.visiting + {e.name} && before.visited <= visited
        invariant VisitDeps(catalog, requested, inner, e, 0) == VisitDeps(catalog, requested, State(), e, i)
      {
        var d := catalog.deps[e.name][i];
        var offer, selected := Offer(catalog, e, d), Selected(catalog, requested, e, d);
        if offer.Some? && selected.package != offer {
          return Some(ConflictingPackages(d));
        }
        error := VisitExtension(selected);
        if error.Some? {
          return;
        }
        i := i + 1;
      }
      visiting := visiting - {e.name};
      visited := visited + {e.name};
      resolved := resolved + [e];
      error := None;
    }
  }

  /** The answer to a request, as a function of the request map and its ordered keys. */
  function Answer(c: Catalog, req: Requested, keys: seq<Name>): Result
    requires Proper(c, req) && forall i :: 0 <= i < |keys| ==> keys[i] in req
  {
    ResultOf(VisitRoots(c, req, START, keys))
  }

  ghost predicate Answered(c: Catalog, direct: seq<Ext>, r: Result)
    requires Closed(c) && Known(c, direct)
  {
    exists req, keys :: Gathers(req, direct) && KeysOf(keys, req) && Proper(c, req) && r == Answer(c, req, keys)
  }

  method Resolve(c: Catalog, direct: seq<Ext>) returns (r: Result)
    requires Closed(c) && Known(c, direct)
    ensures if Askable(c, direct) then Answered(c, direct, r)
            else exists i :: 0 <= i < |direct| && FirstBad(c, direct, i, r)
  {
    hide Askable, Gathers, Visit;
    var error, req, keys := Gather(c, direct);
    if error.Some? {
      return error.value;
    }
    GathersProper(c, req, direct);
    var resolver := new Resolver(c, req);
    var i := 0;
    assert keys[0..] == keys;
    while i < |keys|
      invariant 0 <= i <= |keys|
      invariant VisitRoots(c, req, START, keys) == VisitRoots(c, req, resolver.State(), keys[i..])
    {
      assert keys[i..][1..] == keys[i + 1..];
      error := resolver.VisitExtension(req[keys[i]]);
      if error.Some? {
        r := error.value;
        assert r == Answer(c, req, keys);
        return;
      }
      i := i + 1;
    }
    r := Resolved(resolver.resolved);
    assert r == Answer(c, req, keys);
  }

  /** The order and repetition of the request do not matter: the same extensions give the same answer. */
  lemma OrderDoesNotMatter(c: Catalog, direct: seq<Ext>, other: seq<Ext>, r: Result, s: Result)
    requires Closed(c) && Known(c, direct) && Known(c, other) && forall e :: e in direct <==> e in other
    requires Answered(c, direct, r) && Answered(c, other, s)
    ensures r == s
  {
    hide Answer, Gathers, Ascending, Closed;
    var req, keys :| Gathers(req, direct) && KeysOf(keys, req) && Proper(c, req) && r == Answer(c, req, keys);
    var req', keys' :| Gathers(req', other) && KeysOf(keys', req') && Proper(c, req') && s == Answer(c, req', keys');
    GathersUnique(req, req', direct, other);
    AscendingUnique(keys, keys');
  }

  lemma AnswerIsRight(c: Catalog, req: Requested, keys: seq<Name>)
    requires Proper(c, req) && KeysOf(keys, req)
    ensures var r := Answer(c, req, keys);
      && (r.Resolved? ==> Resolution(c, req, r.extensions))
      && (r.CyclicDependency? ==> RealCycle(c, req, r.name))
      && (r.ConflictingPackages? ==> RealConflict(c, req, r.name))
      && !r.InvalidPackage?
  {
    hide Sound, Inherited, RealConflict, RealCycle;
    assert Partway(c, req, START);
    RootsResolve(c, req, START, keys);
    var r := VisitRoots(c, req, START, keys);
    if r.Done? {
      forall n | n in req ensures n in r.st.visited {
        assert n in keys;
        var i :| 0 <= i < |keys| && keys[i] == n;
      }
    }
  }

  /** Whatever the installed set reaches is in it. */
  lemma {:induction false} PathStays(c: Catalog, es: seq<Ext>, p: seq<Name>, i: nat)
    requires IsPath(c, p) && DepsFirst(c, es) && i < |es| && es[i].name == p[0]
    ensures exists j :: 0 <= j < i && es[j].name == p[|p| - 1]
    decreases |p|
  {
    assert Depends(c, p[0], p[1]);
    var k :| 0 <= k < |c.deps[p[0]]| && c.deps[p[0]][k] == p[1];
    assert p[1] in Names(es[..i]);
    var j :| 0 <= j < i && es[..i][j].name == p[1];
    assert es[j].name == p[1];
    if |p| > 2 {
      assert forall m :: 0 <= m < |p| - 2 ==> p[1..][m] == p[m + 1];
      PathNext(c, p);
      PathStays(c, es, p[1..], j);
    }
  }

  lemma PathNext(c: Catalog, p: seq<Name>)
    requires IsPath(c, p) && |p| > 2
    ensures IsPath(c, p[1..])
  {
    forall i | 0 <= i < |p[1..]| - 1 ensures Depends(c, p[1..][i], p[1..][i + 1]) {
      assert Depends(c, p[i + 1], p[i + 2]);
    }
  }

  lemma InstalledIsReached(c: Catalog, req: Requested, es: seq<Ext>, n: Name)
    requires Proper(c, req) && Resolution(c, req, es) && n in Names(es)
    ensures Rooted(c, req, n)
  {
    hide Inherited, Reaches, DepsFirst, Distinct;
    var i :| 0 <= i < |es| && es[i].name == n;
    assert Sound(c, req, es[i]);
  }

  lemma ReachedIsInstalled(c: Catalog, req: Requested, es: seq<Ext>, r: Name, n: Name)
    requires Proper(c, req) && Resolution(c, req, es) && r in req && Reaches(c, r, n)
    ensures n in Names(es)
  {
    hide Inherited, Sound, DepsFirst, Distinct;
    var i :| 0 <= i < |es| && es[i].name == r;
    if r != n {
      var p :| IsPath(c, p) && p[0] == r && p[|p| - 1] == n;
      PathStays(c, es, p, i);
    }
  }

  lemma RootedIsInstalled(c: Catalog, req: Requested, es: seq<Ext>, n: Name)
    requires Proper(c, req) && Resolution(c, req, es) && Rooted(c, req, n)
    ensures n in Names(es)
  {
    hide Resolution, Reaches, Names;
    var r :| r in req && Reaches(c, r, n);
    ReachedIsInstalled(c, req, es, r, n);
  }

  /** Neither does anything installed depend on itself: its path would have to end before it begins. */
  lemma NoSelfDependency(c: Catalog, req: Requested, es: seq<Ext>, n: Name)
    requires Proper(c, req) && Resolution(c, req, es) && n in Names(es)
    ensures !Plus(c, n, n)
  {
    hide Inherited, Sound, DepsFirst;
    var i :| 0 <= i < |es| && es[i].name == n;
    if Plus(c, n, n) {
      var p :| IsPath(c, p) && p[0] == n && p[|p| - 1] == n;
      PathStays(c, es, p, i);
    }
  }

  /**
   * A resolution is exactly the requested extensions and everything they depend on, each once, and none of
   * them depends on itself.
   */
  lemma ResolutionIsReachable(c: Catalog, req: Requested, es: seq<Ext>)
    requires Proper(c, req) && Resolution(c, req, es)
    ensures forall n :: n in Names(es) <==> Rooted(c, req, n)
    ensures forall n :: n in Names(es) ==> !Plus(c, n, n)
  {
    hide *;
    forall n ensures n in Names(es) <==> Rooted(c, req, n) {
      if n in Names(es) { InstalledIsReached(c, req, es, n); }
      if Rooted(c, req, n) { RootedIsInstalled(c, req, es, n); }
    }
    forall n | n in Names(es) ensures !Plus(c, n, n) { NoSelfDependency(c, req, es, n); }
  }

  lemma {:induction false} RootsAgree(c: Catalog, req: Requested, st: St, keys: seq<Name>)
    requires Proper(c, req) && forall i :: 0 <= i < |keys| ==> keys[i] in req
    ensures var r := VisitRoots(c, req, st, keys); r.Done? ==> GrewAgreeing(c, req, st.resolved, r.st.resolved)
    decreases |keys|
  {
    hide Agrees, Visit;
    if keys != [] {
      VisitAgrees(c, req, st, req[keys[0]]);
      var r := Visit(c, req, st, req[keys[0]]);
      if r.Done? { RootsAgree(c, req, r.st, keys[1..]); }
    }
  }

  /**
   * A conflict does not go unnoticed: whatever is installed with a package, each direct dependency of the same
   * product that was requested was requested with that package.
   */
  lemma ResolvedAgrees(c: Catalog, req: Requested, keys: seq<Name>, j: nat, d: Name)
    requires Proper(c, req) && KeysOf(keys, req) && Answer(c, req, keys).Resolved?
    requires var es := Answer(c, req, keys).extensions; j < |es| && es[j].name in c.deps && d in c.deps[es[j].name]
    requires d in req && c.product[d] == c.product[Answer(c, req, keys).extensions[j].name]
    ensures var e := Answer(c, req, keys).extensions[j]; e.package.Some? ==> req[d].package == e.package
  {
    RootsAgree(c, req, START, keys);
    var e := Answer(c, req, keys).extensions[j];
    assert Agrees(c, req, e);
    assert AgreesOn(c, req, e, d);
  }

  /** So two requested extensions of one product, one depending directly on the other, must come from one package. */
  lemma DirectConflictIsRefused(c: Catalog, req: Requested, keys: seq<Name>, n: Name, d: Name)
    requires Proper(c, req) && KeysOf(keys, req) && n in req && d in req && d in c.deps[n]
    requires c.product[n] == c.product[d] && req[n].package.Some? && req[d].package != req[n].package
    ensures var r := Answer(c, req, keys); r.ConflictingPackages? || r.CyclicDependency?
  {
    hide Answer, DepsFirst, Distinct, Inherited, RealConflict, RealCycle, Rooted, Source;
    AnswerIsRight(c, req, keys);
    var r := Answer(c, req, keys);
    if r.Resolved? {
      var j := PlaceOf(r.extensions, n);
      assert Sound(c, req, r.extensions[j]);
      ResolvedAgrees(c, req, keys, j, d);
    }
  }

  lemma PlaceOf(es: seq<Ext>, n: Name) returns (j: nat)
    requires n in Names(es)
    ensures j < |es| && es[j].name == n
  {
    j :| 0 <= j < |es| && es[j].name == n;
  }

  // ---------------------------------------------------------------------------
  // Shared dependencies
  // ---------------------------------------------------------------------------

  /** Every installed dependent of every dependency that was not requested passes on the package it has. */
  ghost predicate AllFit(c: Catalog, req: Requested, es: seq<Ext>)
    requires Closed(c)
  {
    forall i, j :: 0 <= i < |es| && 0 <= j < |es| && es[i].name !in req && Depends(c, es[j].name, es[i].name) ==>
      Offers(c, es[j], es[i])
  }

  /**
   * Packages for everything the request reaches, such that requested extensions have theirs and every other one
   * has what each of its dependents passes on. Only the catalog and the request are looked at.
   */
  ghost predicate Assigns(c: Catalog, req: Requested, pkg: map<Name, Option<Package>>)
    requires Proper(c, req)
  {
    && (forall n :: Rooted(c, req, n) ==> n in pkg)
    && (forall n :: n in req && n in pkg ==> pkg[n] == req[n].package)
    && (forall p, x :: Rooted(c, req, p) && x !in req && Depends(c, p, x) && p in pkg && x in pkg ==>
          Offers(c, Ext(p, pkg[p]), Ext(x, pkg[x])))
  }

  ghost predicate Assignable(c: Catalog, req: Requested)
    requires Proper(c, req)
  {
    exists pkg :: Assigns(c, req, pkg)
  }

  /** The packages of a list of extensions. */
  function PackagesOf(es: seq<Ext>): map<Name, Option<Package>> {
    if es == [] then map[] else PackagesOf(es[..|es| - 1])[es[|es| - 1].name := es[|es| - 1].package]
  }

  lemma {:induction false} PackagesOfEach(es: seq<Ext>, i: nat)
    requires Distinct(es) && i < |es|
    ensures es[i].name in PackagesOf(es) && PackagesOf(es)[es[i].name] == es[i].package
  {
    if i < |es| - 1 {
      assert es[..|es| - 1][i] == es[i];
      PackagesOfEach(es[..|es| - 1], i);
    }
  }

  lemma {:induction false} PackagesOfNames(es: seq<Ext>)
    ensures forall n :: n in PackagesOf(es) ==> exists i :: 0 <= i < |es| && es[i].name == n
  {
    if es != [] {
      var front := es[..|es| - 1];
      PackagesOfNames(front);
      forall n | n in PackagesOf(es) ensures exists i :: 0 <= i < |es| && es[i].name == n {
        if n != es[|es| - 1].name {
          assert n in PackagesOf(front);
          var i :| 0 <= i < |front| && front[i].name == n;
          assert es[i].name == n;
        }
      }
    }
  }

  lemma FittingAssigns(c: Catalog, req: Requested, es: seq<Ext>)
    requires Proper(c, req) && Resolution(c, req, es) && AllFit(c, req, es)
    ensures Assigns(c, req, PackagesOf(es))
  {
    hide Offers, Inherited, Reaches, DepsFirst, PackagesOf, Rooted, Source;
    var pkg := PackagesOf(es);
    PackagesOfNames(es);
    forall i | 0 <= i < |es| ensures es[i].name in pkg && pkg[es[i].name] == es[i].package { PackagesOfEach(es, i); }
    forall n | Rooted(c, req, n) ensures n in pkg {
      RootedIsInstalled(c, req, es, n);
      var i :| 0 <= i < |es| && es[i].name == n;
    }
    forall n | n in req && n in pkg ensures pkg[n] == req[n].package {
      var i :| 0 <= i < |es| && es[i].name == n;
      assert Sound(c, req, es[i]);
    }
    forall p, x | Rooted(c, req, p) && x !in req && Depends(c, p, x) && p in pkg && x in pkg
      ensures Offers(c, Ext(p, pkg[p]), Ext(x, pkg[x]))
    {
      var j :| 0 <= j < |es| && es[j].name == p;
      var i :| 0 <= i < |es| && es[i].name == x;
      assert es[j] == Ext(p, pkg[p]) && es[i] == Ext(x, pkg[x]);
    }
  }

  /** The dependent an inherited package came from stands behind it. */
  lemma ParentIsLater(c: Catalog, req: Requested, es: seq<Ext>, i: nat) returns (j: nat)
    requires Proper(c, req) && Resolution(c, req, es) && i < |es| && es[i].name !in req
    ensures i < j < |es| && Offers(c, es[j], es[i]) && Rooted(c, req, es[j].name)
  {
    hide Reaches, Source, Rooted, Offer;
    assert Inherited(c, req, es[i], es);
    j :| 0 <= j < |es| && Offers(c, es[j], es[i]);
    assert Sound(c, req, es[j]);
    var k :| 0 <= k < |c.deps[es[j].name]| && c.deps[es[j].name][k] == es[i].name;
    assert es[i].name in Names(es[..j]);
    var m :| 0 <= m < j && es[..j][m].name == es[i].name;
    assert es[m].name == es[i].name;
  }

  /** Any assignment is the one the resolution made: from the last extension backwards. */
  lemma {:induction false} AssignmentIsResult(c: Catalog, req: Requested, es: seq<Ext>,
      pkg: map<Name, Option<Package>>, i: nat)
    requires Proper(c, req) && Resolution(c, req, es) && Assigns(c, req, pkg) && i < |es|
    ensures es[i].name in pkg && pkg[es[i].name] == es[i].package && Rooted(c, req, es[i].name)
    decreases |es| - i
  {
    assert Sound(c, req, es[i]);
    hide Sound, Resolution, Rooted;
    var x := es[i].name;
    if x !in req {
      var j := ParentIsLater(c, req, es, i);
      AssignmentIsResult(c, req, es, pkg, j);
      assert Offers(c, Ext(es[j].name, pkg[es[j].name]), Ext(x, pkg[x]));
    }
  }

  /**
   * A dependency that was not requested keeps the first package it was offered, and a disagreement is not reported.
   * The packages of a resolution fit together if and only if the request leaves room for an assignment that does.
   */
  lemma AllFitIffAssignable(c: Catalog, req: Requested, es: seq<Ext>)
    requires Proper(c, req) && Resolution(c, req, es)
    ensures AllFit(c, req, es) <==> Assignable(c, req)
  {
    hide Resolution, Assigns, Offers, Depends;
    if AllFit(c, req, es) { FittingAssigns(c, req, es); }
    if Assignable(c, req) {
      var pkg :| Assigns(c, req, pkg);
      forall i, j | 0 <= i < |es| && 0 <= j < |es| && es[i].name !in req && Depends(c, es[j].name, es[i].name)
        ensures Offers(c, es[j], es[i])
      {
        AssignmentIsResult(c, req, es, pkg, i);
        AssignmentIsResult(c, req, es, pkg, j);
        AssignedFits(c, req, es[j], es[i], pkg);
      }
    }
  }

  lemma AssignedFits(c: Catalog, req: Requested, p: Ext, x: Ext, pkg: map<Name, Option<Package>>)
    requires Proper(c, req) && Assigns(c, req, pkg) && Rooted(c, req, p.name) && x.name !in req
    requires Depends(c, p.name, x.name)
    requires p.name in pkg && x.name in pkg && pkg[p.name] == p.package && pkg[x.name] == x.package
    ensures Offers(c, p, x)
  {
    hide Rooted;
    assert Ext(p.name, pkg[p.name]) == p && Ext(x.name, pkg[x.name]) == x;
  }

  // Two requested extensions of one product, from different packages, sharing a dependency.
  const SHARED: Catalog := Catalog(map[0 := [2], 1 := [2], 2 := []], map[0 := 7, 1 := 7, 2 := 7])
  const OLDER: Package := Package(7, [49], [49], [[1]])
  const NEWER: Package := Package(7, [50], [49], [[1]])
  const BOTH: Requested := map[0 := Ext(0, Some(OLDER)), 1 := Ext(1, Some(NEWER))]

  lemma BothIsProper()
    ensures Proper(SHARED, BOTH) && OLDER != NEWER
    ensures SHARED.deps[0] == SHARED.deps[1] == [2] && SHARED.deps[2] == []
  {
    assert OLDER.version != NEWER.version;
  }

  const FIRST: Ext := Ext(0, Some(OLDER))
  const SECOND: Ext := Ext(1, Some(NEWER))
  const COMMON: Ext := Ext(2, Some(OLDER))

  lemma CommonVisit()
    ensures Proper(SHARED, BOTH)
    ensures Visit(SHARED, BOTH, St({0}, {}, []), COMMON) == Done(St({0}, {2}, [COMMON]))
  {
    BothIsProper();
    assert VisitDeps(SHARED, BOTH, St({0, 2}, {}, []), COMMON, 0) == Done(St({0, 2}, {}, []));
    assert {0} + {2} == {0, 2} && {0, 2} - {2} == {0};
  }

  lemma FirstVisit()
    ensures Proper(SHARED, BOTH) && Visit(SHARED, BOTH, START, FIRST) == Done(St({}, {0, 2}, [COMMON, FIRST]))
  {
    BothIsProper();
    CommonVisit();
    assert Selected(SHARED, BOTH, FIRST, 2) == COMMON;
    assert VisitDeps(SHARED, BOTH, St({0}, {}, []), FIRST, 0) ==
           VisitDeps(SHARED, BOTH, St({0}, {2}, [COMMON]), FIRST, 1);
    assert {} + {0} == {0} && {0} - {0} == {} && {2} + {0} == {0, 2};
  }

  lemma SecondVisit()
    ensures Proper(SHARED, BOTH)
    ensures Visit(SHARED, BOTH, St({}, {0, 2}, [COMMON, FIRST]), SECOND) ==
            Done(St({}, {0, 1, 2}, [COMMON, FIRST, SECOND]))
  {
    BothIsProper();
    var inner := St({1}, {0, 2}, [COMMON, FIRST]);
    var again := Selected(SHARED, BOTH, SECOND, 2);
    assert again.name == 2 && Visit(SHARED, BOTH, inner, again) == Done(inner);
    assert VisitDeps(SHARED, BOTH, inner, SECOND, 0) == VisitDeps(SHARED, BOTH, inner, SECOND, 1) == Done(inner);
    assert {} + {1} == {1} && {1} - {1} == {} && {0, 2} + {1} == {0, 1, 2};
  }

  /** The shared dependency is installed from the first package, under a dependent that comes from the second. */
  lemma DisagreementIsSilent()
    ensures Proper(SHARED, BOTH)
    ensures Answer(SHARED, BOTH, [0, 1]) == Resolved([COMMON, FIRST, SECOND])
    ensures !Offers(SHARED, SECOND, COMMON)
  {
    BothIsProper();
    FirstVisit();
    SecondVisit();
    hide Visit;
    assert [0, 1][1..] == [1] && [1][1..] == [];
    var end := St({}, {0, 1, 2}, [COMMON, FIRST, SECOND]);
    assert VisitRoots(SHARED, BOTH, end, []) == Done(end);
  }

  lemma BothKeys()
    ensures KeysOf([0, 1], BOTH) && 2 !in BOTH && Depends(SHARED, 1, 2)
  {
    assert SHARED.deps[1][0] == 2;
  }

  /** Nor is there any other way: that request has no assignment at all. */
  lemma DisagreementIsUnassignable()
    ensures Proper(SHARED, BOTH) && !Assignable(SHARED, BOTH)
  {
    hide *;
    DisagreementIsSilent();
    BothKeys();
    AnswerIsRight(SHARED, BOTH, [0, 1]);
    AllFitIffAssignable(SHARED, BOTH, [COMMON, FIRST, SECOND]);
    NotAllFit();
  }

  lemma NotAllFit()
    requires Proper(SHARED, BOTH)
    ensures !AllFit(SHARED, BOTH, [COMMON, FIRST, SECOND])
  {
    DisagreementIsSilent();
    BothKeys();
    hide Offers, Depends, Answer, KeysOf;
    var es := [COMMON, FIRST, SECOND];
    assert es[0] == COMMON && es[2] == SECOND && COMMON.name == 2 && SECOND.name == 1;
  }
}
