/** The validator of the catalog, and what an empty problem list means. */
module CatalogValidate {
  import opened Prelude
  import opened Digraph
  import opened CatalogModel
  import opened CatalogRules
  import opened CatalogReport
  import CatalogCycles
  import CatalogOrder
  import opened CatalogClean
  import opened SupersedeGroups

  // ---- the checks ----------------------------------------------------------

  /** The tables hold exactly the edges of e. */
  ghost predicate Tracks(supersedes: map<string, set<string>>, superseded: set<string>, e: Rel) {
    && Edges(supersedes) == e
    && (forall a :: a in supersedes ==> supersedes[a] != {})
    && superseded == set p | p in e :: p.1
  }

  /** A table entry exists exactly for the bundles that supersede one. */
  lemma TracksKeys(supersedes: map<string, set<string>>, superseded: set<string>, e: Rel, a: string)
    requires Tracks(supersedes, superseded, e)
    ensures a in supersedes <==> Supersedes(e, a)
  {
    if a in supersedes {
      var x :| x in supersedes[a];
      assert (a, x) in Edges(supersedes);
    }
  }

  lemma TracksAdd(supersedes: map<string, set<string>>, superseded: set<string>, e: Rel, id: string, older: string)
    requires Tracks(supersedes, superseded, e)
    ensures var held := if id in supersedes then supersedes[id] else {};
      Tracks(supersedes[id := held + {older}], superseded + {older}, e + {(id, older)})
  {
    var held := if id in supersedes then supersedes[id] else {};
    var grown := supersedes[id := held + {older}];
    assert Edges(grown) == e + {(id, older)};
  }

  function BundleRel(b: Bundle, n: nat): Rel
    requires n <= |b.supersedes|
  {
    set older | older in b.supersedes[..n] :: (b.id, older)
  }

  lemma RelGrows(fs: seq<Placed>, p: Placed)
    ensures SupersedesRel(fs + [p]) == SupersedesRel(fs) + BundleRel(p.b, |p.b.supersedes|)
  {
    var gs := fs + [p];
    assert forall q :: q in gs <==> q in fs || q == p;
    assert p.b.supersedes[..|p.b.supersedes|] == p.b.supersedes;
  }

  /** The `supersedes` table read ahead of the walk: which bundle stands in for which. */
  method CollectSupersedes(us: seq<Usecase>) returns (supersedes: map<string, set<string>>, superseded: set<string>)
    ensures Tracks(supersedes, superseded, SupersedesRel(Flat(us)))
  {
    supersedes, superseded := map[], {};
    for ui := 0 to |us|
      invariant Tracks(supersedes, superseded, SupersedesRel(Flat(us[..ui])))
    {
      supersedes, superseded := CollectUsecase(ui, us[ui].bundles, supersedes, superseded, Flat(us[..ui]));
      FlatStep(us, ui);
    }
    assert us[..|us|] == us;
  }

  /** The bundles of one usecase. */
  method CollectUsecase(ui: nat, bundles: seq<Bundle>, supersedes: map<string, set<string>>, superseded: set<string>,
      ghost fs: seq<Placed>)
      returns (supersedes': map<string, set<string>>, superseded': set<string>)
    requires Tracks(supersedes, superseded, SupersedesRel(fs))
    ensures Tracks(supersedes', superseded', SupersedesRel(fs + PlacedIn(ui, bundles)))
  {
    supersedes', superseded' := supersedes, superseded;
    ghost var placed := PlacedIn(ui, bundles);
    assert fs + placed[..0] == fs;
    for bi := 0 to |bundles|
      invariant Tracks(supersedes', superseded', SupersedesRel(fs + placed[..bi]))
    {
      ghost var e := SupersedesRel(fs + placed[..bi]);
      supersedes', superseded' := CollectBundle(bundles[bi], supersedes', superseded', e);
      RelGrows(fs + placed[..bi], Placed(ui, bundles[bi]));
      assert fs + placed[..bi + 1] == fs + placed[..bi] + [Placed(ui, bundles[bi])];
    }
    assert placed[..|bundles|] == placed;
  }

  /** One bundle's list. */
  method CollectBundle(b: Bundle, supersedes: map<string, set<string>>, superseded: set<string>, ghost e: Rel)
      returns (supersedes': map<string, set<string>>, superseded': set<string>)
    requires Tracks(supersedes, superseded, e)
    ensures Tracks(supersedes', superseded', e + BundleRel(b, |b.supersedes|))
  {
    supersedes', superseded' := supersedes, superseded;
    assert e + BundleRel(b, 0) == e;
    for si := 0 to |b.supersedes|
      invariant Tracks(supersedes', superseded', e + BundleRel(b, si))
    {
      var older := b.supersedes[si];
      TracksAdd(supersedes', superseded', e + BundleRel(b, si), b.id, older);
      BundleRelNext(b, si, e);
      supersedes' := supersedes'[b.id := (if b.id in supersedes' then supersedes'[b.id] else {}) + {older}];
      superseded' := superseded' + {older};
    }
  }

  lemma BundleRelNext(b: Bundle, si: nat, e: Rel)
    requires si < |b.supersedes|
    ensures e + BundleRel(b, si + 1) == e + BundleRel(b, si) + {(b.id, b.supersedes[si])}
  {
    var older := b.supersedes[si];
    assert b.supersedes[..si + 1] == b.supersedes[..si] + [older];
    assert BundleRel(b, si + 1) == BundleRel(b, si) + {(b.id, older)};
  }

  /** Holder i may not share with the claimant, and every one before it may. */
  ghost predicate FirstOutsider(e: Rel, bundleId: string, holders: seq<string>, i: nat) {
    i < |holders| && !Shares(e, bundleId, holders[i]) && forall j :: 0 <= j < i ==> Shares(e, bundleId, holders[j])
  }

  /** The first holder of a handle the claimant may not share it with, or "" when there is none. */
  method HolderNotSharing(holders: seq<string>, bundleId: string, supersedes: map<string, set<string>>)
      returns (prev: string)
    ensures prev != "" ==> prev in holders && !Shares(Edges(supersedes), bundleId, prev)
    ensures prev == "" ==> "" in holders || forall h :: h in holders ==> Shares(Edges(supersedes), bundleId, h)
    ensures if forall h :: h in holders ==> Shares(Edges(supersedes), bundleId, h) then prev == ""
            else exists i: nat :: FirstOutsider(Edges(supersedes), bundleId, holders, i) && prev == holders[i]
    ensures prev == Outsider(Edges(supersedes), bundleId, holders)
  {
    assert holders[0..] == holders;
    for i := 0 to |holders|
      invariant Outsider(Edges(supersedes), bundleId, holders[i..]) == Outsider(Edges(supersedes), bundleId, holders)
      invariant forall j :: 0 <= j < i ==> Shares(Edges(supersedes), bundleId, holders[j])
    {
      var h := holders[i];
      assert holders[i..][0] == h && holders[i..][1..] == holders[i + 1..];
      if !((bundleId in supersedes && h in supersedes[bundleId]) || (h in supersedes && bundleId in supersedes[h])) {
        assert FirstOutsider(Edges(supersedes), bundleId, holders, i) && h in holders;
        return h;
      }
    }
    return "";
  }

  // ---- tables --------------------------------------------------------------

  /** With unique ids the table relation is the declared one. */
  lemma RequiresIsDeps(us: seq<Usecase>, byId: map<string, nat>)
    requires forall ui :: 0 <= ui < |us| ==> UsecaseFine(us, ui)
    requires forall id :: id in byId ==> byId[id] < |us| && us[byId[id]].id == id
    requires forall j :: 0 <= j < |us| ==> us[j].id in byId
    ensures InRange(us, byId) && Requires(us, byId) == DepsRel(us)
    ensures forall j :: 0 <= j < |us| ==> byId[us[j].id] == j
  {
    forall j | 0 <= j < |us|
      ensures byId[us[j].id] == j
    {
      var i := byId[us[j].id];
      assert UsecaseFine(us, i) && UsecaseFine(us, j);
    }
    forall p | p in DepsRel(us)
      ensures p in Requires(us, byId)
    {
      var u, dep :| u in us && dep in u.deps && p == (u.id, dep);
      var j :| 0 <= j < |us| && us[j] == u;
      assert byId[us[j].id] == j;
    }
    forall p | p in Requires(us, byId)
      ensures p in DepsRel(us)
    {
      assert us[byId[p.0]] in us;
    }
  }

  /** The id table resolves exactly the dependencies of the first usecase of each id. */
  lemma RequiresIsResolved(us: seq<Usecase>, byId: map<string, nat>)
    requires UsecaseRows(byId, us, |us|)
    ensures InRange(us, byId) && Requires(us, byId) == ResolvedRel(us)
    ensures forall id :: id in byId <==> Requirable(us, id)
  {
    forall id | Requirable(us, id)
      ensures id in byId
    {
      var w :| w in us && w.id == id;
      var ui := PositionOf(us, w);
    }
    forall id | id in byId
      ensures Requirable(us, id)
    {
      assert us[byId[id]] in us;
    }
    forall p | p in Requires(us, byId)
      ensures p in ResolvedRel(us)
    {
      assert us[byId[p.0]].id == p.0;
    }
    forall p | p in ResolvedRel(us)
      ensures p in Requires(us, byId)
    {
      var ui, dep :| 0 <= ui < |us| && IsSlug(us[ui].id) && FirstOfId(us, ui) && dep in us[ui].deps &&
        p == (us[ui].id, dep);
      OneFirst(us, ui, byId[us[ui].id]);
    }
  }

  lemma OneFirst(us: seq<Usecase>, i: nat, j: nat)
    requires i < |us| && j < |us| && us[i].id == us[j].id && FirstOfId(us, i) && FirstOfId(us, j)
    ensures i == j
  {
  }

  lemma RowsGrow(byId: map<string, nat>, us: seq<Usecase>, ui: nat)
    requires ui < |us| && UsecaseRows(byId, us, ui)
    ensures UsecaseRows(if IdFaults(us, ui) == [] then byId[us[ui].id := ui] else byId, us, ui + 1)
    ensures IsSlug(us[ui].id) ==> (us[ui].id in byId <==> !FirstOfId(us, ui))
  {
  }

  /** The handles whose owner the given usecase reaches. */
  ghost function HandlesReached(r: Rel, types: map<string, string>, id: string): set<string> {
    set k | k in types && Reaches(r, id, types[k])
  }

  lemma ReachedIsLinkable(us: seq<Usecase>, known: set<string>, xkeys: map<string, seq<string>>,
      types: map<string, string>, id: string)
    requires ClaimRows(xkeys, types, us, SupersedesRel(Flat(us)), known, Flat(us))
    ensures known + HandlesReached(ResolvedRel(us), types, id) == LinkableFrom(us, known, id)
  {
    forall k
      ensures k in HandlesReached(ResolvedRel(us), types, id) <==> Reachable(us, known, id, k)
    {
      var e, fs := SupersedesRel(Flat(us)), Flat(us);
      assert HasClaims(xkeys, types, k, ClaimsOf(us, e, known, fs)(k));
    }
    forall k
      ensures k in LinkableFrom(us, known, id) <==> Linked(us, known, id, k)
    {
      LinkableIff(us, known, id, k);
    }
  }

  lemma UpToNext<T>(a: seq<T>, f: nat -> seq<T>, i: nat)
    ensures a + UpTo(f, i + 1) == (a + UpTo(f, i)) + f(i)
  {
    Regroup(a, UpTo(f, i), f(i));
  }

  lemma ThreeParts<T>(a: seq<T>, b: seq<T>, c: seq<T>, d: seq<T>)
    ensures ((a + b) + c) + d == a + ((b + c) + d)
  {
  }

  ghost predicate FaultOfDep(u: Usecase, f: nat -> seq<Problem>, i: nat) {
    i < |u.deps| ==> f(i) == DepFault(u, i)
  }

  /** The first i elements of s. */
  function Among(s: seq<string>, i: nat): set<string>
    requires i <= |s|
  {
    set x | x in s[..i]
  }

  lemma AmongNext(s: seq<string>, i: nat)
    requires i < |s|
    ensures Among(s, 0) == {} && Among(s, i + 1) == Among(s, i) + {s[i]}
  {
    assert s[..i + 1] == s[..i] + [s[i]];
  }

  lemma FieldParts(a: seq<Problem>, us: seq<Usecase>, ui: nat)
    requires ui < |us|
    ensures ((a + IdFaults(us, ui)) + BundlesMissing(us[ui])) + UpTo(DepFaults(us[ui]), |us[ui].deps|) ==
      a + UsecaseFaults(us, ui)
  {
    ThreeParts(a, IdFaults(us, ui), BundlesMissing(us[ui]), UpTo(DepFaults(us[ui]), |us[ui].deps|));
  }

  lemma BundleInParts(a: seq<Problem>, us: seq<Usecase>, e: Rel, known: set<string>, fs: seq<Placed>, p: Placed)
    requires p.ui < |us|
    ensures
      ((a + BundleIdFaults(us, fs, p.b.id)) + DeclarationFaults(us, e, known, fs, p)) + SupersedesFaults(us, e, p) ==
      a + BundleFaults(us, e, known, fs, p)
  {
    ThreeParts(a, BundleIdFaults(us, fs, p.b.id), DeclarationFaults(us, e, known, fs, p), SupersedesFaults(us, e, p));
  }

  // ---- the walk --------------------------------------------------------------

  class Validator {
    const usecases: seq<Usecase>
    const known: set<string>
    const supersedes: map<string, set<string>>
    const superseded: set<string>
    var byId: map<string, nat>
    var bundleIds: map<string, string>
    var xkeys: map<string, seq<string>>
    var types: map<string, string>
    var problems: seq<Problem>

    /** The supersedes edges of the whole catalog. */
    ghost const edges: Rel

    constructor (usecases: seq<Usecase>, known: set<string>, supersedes: map<string, set<string>>,
        superseded: set<string>, ghost edges: Rel)
      requires Tracks(supersedes, superseded, edges)
      ensures this.usecases == usecases && this.known == known
      ensures this.supersedes == supersedes && this.superseded == superseded && this.edges == edges
      ensures problems == [] && byId == map[] && Mirrors([])
    {
      this.usecases, this.known, this.supersedes, this.superseded := usecases, known, supersedes, superseded;
      this.edges := edges;
      byId, bundleIds, xkeys, types, problems := map[], map[], map[], map[], [];
    }

    /** The bundle and handle tables hold what the bundles listed so far put there. */
    ghost predicate Mirrors(fs: seq<Placed>)
      reads this
    {
      BundleRows(bundleIds, usecases, fs) && ClaimRows(xkeys, types, usecases, edges, known, fs)
    }

    method CheckBundleId(ui: nat, b: Bundle, ghost fs: seq<Placed>)
      requires ui < |usecases| && BundleRows(bundleIds, usecases, fs)
      modifies this`problems, this`bundleIds
      ensures problems == old(problems) + BundleIdFaults(usecases, fs, b.id)
      ensures problems == old(problems) <==> IsBundleId(b.id) && forall j :: 0 <= j < |fs| ==> fs[j].b.id != b.id
      ensures BundleRows(bundleIds, usecases, fs + [Placed(ui, b)])
    {
      BundleRowsGrow(bundleIds, usecases, fs, Placed(ui, b));
      if !IsBundleId(b.id) {
        problems := problems + [Problem(BadId, [b.id])];
      } else if b.id in bundleIds {
        problems := problems + [Problem(Duplicate, [b.id, bundleIds[b.id]])];
      } else {
        bundleIds := bundleIds[b.id := usecases[ui].id];
      }
    }

    /** One handle against the claims so far: what is wrong with it, or its claim on record. */
    method CheckHandle(ui: nat, id: string, k: string, ghost cs: seq<Claim>)
      requires ui < |usecases| && Edges(supersedes) == edges && HasClaims(xkeys, types, k, cs)
      modifies this`problems, this`xkeys, this`types
      ensures problems == old(problems) + HandleFaults(edges, known, cs, id, k)
      ensures HasClaims(xkeys, types, k, Tried(edges, known, cs, k, Claim(id, usecases[ui].id)))
      ensures xkeys - {k} == old(xkeys) - {k} && types - {k} == old(types) - {k}
      ensures forall fs :: Complete(fs, k, cs) ==> (problems == old(problems) <==> FreeHandle(edges, known, fs, id, k))
    {
      ghost var xs, ts, c := xkeys, types, Claim(id, usecases[ui].id);
      var holders := if k in xkeys then xkeys[k] else [];
      var prev := HolderNotSharing(holders, id, supersedes);
      HoldersAre(xkeys, types, k, cs);
      if !IsHandle(k) {
        problems := problems + [Problem(BadId, [k])];
      } else if k in known {
        problems := problems + [Problem(Duplicate, [k])];
      } else if prev != "" {
        problems := problems + [Problem(Duplicate, [k, prev])];
      } else {
        xkeys := xkeys[k := holders + [id]];
        types := types[k := usecases[ui].id];
        ClaimAdded(xs, ts, k, cs, c);
      }
      forall fs | Complete(fs, k, cs)
        ensures HandleFaults(edges, known, cs, id, k) == [] <==> FreeHandle(edges, known, fs, id, k)
      {
        NoHandleFault(edges, known, fs, cs, id, k);
      }
    }

    /** A type's or a collection's declaration. */
    method CheckDeclaration(ui: nat, id: string, d: Option<Declaration>, ghost before: string -> seq<Claim>)
      requires ui < |usecases| && Edges(supersedes) == edges && Rows(xkeys, types, before)
      modifies this`problems, this`xkeys, this`types
      ensures problems == old(problems) +
        if d.None? then [] else HandleFaults(edges, known, before(d.value.xKey), id, d.value.xKey)
      ensures Rows(xkeys, types, TakenAfter(edges, known, before, d, Claim(id, usecases[ui].id)))
    {
      if d.Some? {
        ghost var xs, ts := xkeys, types;
        CheckHandle(ui, id, d.value.xKey, before(d.value.xKey));
        RowsNext(xs, ts, xkeys, types, edges, known, before, d.value, Claim(id, usecases[ui].id));
      }
    }

    /** Both declarations of a bundle; a root that defines a type and a collection is itself a problem. */
    method CheckDeclarations(ui: nat, b: Bundle, ghost fs: seq<Placed>)
      requires ui < |usecases| && Edges(supersedes) == edges && ClaimRows(xkeys, types, usecases, edges, known, fs)
      modifies this`problems, this`xkeys, this`types
      ensures problems == old(problems) + DeclarationFaults(usecases, edges, known, fs, Placed(ui, b))
      ensures ClaimRows(xkeys, types, usecases, edges, known, fs + [Placed(ui, b)])
    {
      ghost var p, e, before := Placed(ui, b), edges, problems;
      ghost var both := if b.typeDecl.Some? && b.collection.Some? then [Problem(BadField, [b.id])] else [];
      if b.typeDecl.Some? && b.collection.Some? {
        problems := problems + [Problem(BadField, [b.id])];
      }
      assert problems == before + both;
      CheckDeclaration(ui, b.id, b.typeDecl, ClaimsOf(usecases, e, known, fs));
      HalfIsTaken(usecases, e, known, fs, p, xkeys, types);
      CheckDeclaration(ui, b.id, b.collection, HalfOf(usecases, e, known, fs, p));
      WholeIsTaken(usecases, e, known, fs, p, xkeys, types);
      ThreeParts(before, both, TypeFaults(usecases, e, known, fs, p), CollectionFaults(usecases, e, known, fs, p));
    }

    /** One entry of a supersedes list, after the entries in seenOld. */
    method CheckOld(u: Usecase, b: Bundle, si: nat, seenOld: set<string>)
      requires si < |b.supersedes| && seenOld == Among(b.supersedes, si)
      requires Tracks(supersedes, superseded, edges)
      modifies this`problems
      ensures problems == old(problems) + OldFaults(u, edges, b)(si)
    {
      var older := b.supersedes[si];
      TracksKeys(supersedes, superseded, edges, older);
      if older == b.id {
        problems := problems + [Problem(CycleFound, [older])];
      } else if older in seenOld {
        problems := problems + [Problem(Duplicate, [older])];
      } else if !InUsecase(u, older) {
        problems := problems + [Problem(BrokenLink, [older])];
      } else if older in supersedes {
        problems := problems + [Problem(BadField, [older])];
      }
    }

    method CheckSupersedes(ui: nat, b: Bundle)
      requires ui < |usecases| && Tracks(supersedes, superseded, edges)
      modifies this`problems
      ensures problems == old(problems) + SupersedesFaults(usecases, edges, Placed(ui, b))
      ensures problems == old(problems) <==> SupersedesFine(usecases[ui], edges, b)
    {
      CheckEachOld(usecases[ui], b, OldFaults(usecases[ui], edges, b));
      NoSupersedesFault(usecases, edges, Placed(ui, b));
    }

    method CheckEachOld(u: Usecase, b: Bundle, ghost f: nat -> seq<Problem>)
      requires Tracks(supersedes, superseded, edges)
      requires forall i: nat :: i < |b.supersedes| ==> f(i) == OldFaults(u, edges, b)(i)
      modifies this`problems
      ensures problems == old(problems) + UpTo(f, |b.supersedes|)
    {
      var seenOld := {};
      for si := 0 to |b.supersedes|
        invariant seenOld == Among(b.supersedes, si)
        invariant problems == old(problems) + UpTo(f, si)
      {
        UpToNext(old(problems), f, si);
        AmongNext(b.supersedes, si);
        CheckOld(u, b, si, seenOld);
        seenOld := seenOld + {b.supersedes[si]};
      }
    }

    method CheckBundle(ui: nat, b: Bundle, ghost fs: seq<Placed>)
      requires ui < |usecases| && Tracks(supersedes, superseded, edges) && Mirrors(fs)
      modifies this`problems, this`bundleIds, this`xkeys, this`types
      ensures Mirrors(fs + [Placed(ui, b)])
      ensures problems == old(problems) + BundleFaults(usecases, edges, known, fs, Placed(ui, b))
    {
      ghost var before, p := problems, Placed(ui, b);
      CheckBundleId(ui, b, fs);
      CheckDeclarations(ui, b, fs);
      CheckSupersedes(ui, b);
      BundleInParts(before, usecases, edges, known, fs, p);
    }

    method CheckUsecaseId(ui: nat)
      requires ui < |usecases| && UsecaseRows(byId, usecases, ui)
      modifies this`problems, this`byId
      ensures UsecaseRows(byId, usecases, ui + 1)
      ensures problems == old(problems) + IdFaults(usecases, ui)
    {
      var id := usecases[ui].id;
      RowsGrow(byId, usecases, ui);
      if !IsSlug(id) {
        problems := problems + [Problem(BadId, [id])];
      } else if id in byId {
        problems := problems + [Problem(Duplicate, [id])];
      } else {
        byId := byId[id := ui];
      }
    }

    /** One entry of a requires list, after the entries in seenReq. */
    method CheckDep(u: Usecase, ri: nat, seenReq: set<string>, ghost f: nat -> seq<Problem>)
      requires ri < |u.deps| && seenReq == Among(u.deps, ri) && forall i: nat :: FaultOfDep(u, f, i)
      modifies this`problems
      ensures problems == old(problems) + f(ri)
    {
      assert FaultOfDep(u, f, ri);
      Regroup(problems, SelfFault(u, ri), AgainFault(u, ri));
      if u.deps[ri] == u.id {
        problems := problems + [Problem(CycleFound, [u.deps[ri]])];
      }
      if u.deps[ri] in seenReq {
        problems := problems + [Problem(Duplicate, [u.deps[ri]])];
      }
    }

    method CheckDeps(u: Usecase, ghost f: nat -> seq<Problem>)
      requires forall i: nat :: FaultOfDep(u, f, i)
      modifies this`problems
      ensures problems == old(problems) + UpTo(f, |u.deps|)
    {
      var seenReq := {};
      for ri := 0 to |u.deps|
        invariant seenReq == Among(u.deps, ri)
        invariant problems == old(problems) + UpTo(f, ri)
      {
        UpToNext(old(problems), f, ri);
        AmongNext(u.deps, ri);
        CheckDep(u, ri, seenReq, f);
        seenReq := seenReq + {u.deps[ri]};
      }
    }

    /** One usecase of the walk: its own fields, then each of its bundles. */
    method CheckUsecase(ui: nat, ghost fs: seq<Placed>)
      requires ui < |usecases| && Tracks(supersedes, superseded, edges) && UsecaseRows(byId, usecases, ui)
      requires Mirrors(fs)
      modifies this
      ensures UsecaseRows(byId, usecases, ui + 1) && Mirrors(fs + PlacedIn(ui, usecases[ui].bundles))
      ensures problems == old(problems) + UsecaseWalk(usecases, edges, known, fs, ui)
    {
      var u := usecases[ui];
      ghost var before := problems;
      CheckUsecaseFields(ui);
      CheckBundles(ui, u.bundles, fs, BundlesAt(usecases, edges, known, fs, ui));
      Regroup(before, UsecaseFaults(usecases, ui), UpTo(BundlesAt(usecases, edges, known, fs, ui), |u.bundles|));
    }

    method CheckUsecaseFields(ui: nat)
      requires ui < |usecases| && UsecaseRows(byId, usecases, ui)
      modifies this`problems, this`byId
      ensures UsecaseRows(byId, usecases, ui + 1)
      ensures problems == old(problems) + UsecaseFaults(usecases, ui)
    {
      var u := usecases[ui];
      ghost var before := problems;
      CheckUsecaseId(ui);
      if u.bundles == [] {
        problems := problems + [Problem(Missing, [u.id])];
      }
      assert problems == (before + IdFaults(usecases, ui)) + BundlesMissing(u);
      forall i: nat
        ensures FaultOfDep(u, DepFaults(u), i)
      {
      }
      CheckDeps(u, DepFaults(u));
      FieldParts(before, usecases, ui);
    }

    method CheckBundles(ui: nat, bundles: seq<Bundle>, ghost fs: seq<Placed>, ghost f: nat -> seq<Problem>)
      requires ui < |usecases| && Tracks(supersedes, superseded, edges) && Mirrors(fs)
      requires forall bi: nat :: bi < |bundles| ==>
        f(bi) == BundleFaults(usecases, edges, known, Onto(fs, ui, bundles, bi), Placed(ui, bundles[bi]))
      modifies this`problems, this`bundleIds, this`xkeys, this`types
      ensures Mirrors(fs + PlacedIn(ui, bundles))
      ensures problems == old(problems) + UpTo(f, |bundles|)
    {
      OntoEnds(fs, ui, bundles);
      for bi := 0 to |bundles|
        invariant Mirrors(Onto(fs, ui, bundles, bi))
        invariant problems == old(problems) + UpTo(f, bi)
      {
        OntoNext(fs, ui, bundles, bi);
        UpToNext(old(problems), f, bi);
        CheckBundle(ui, bundles[bi], Onto(fs, ui, bundles, bi));
      }
    }

    /** The table has exactly the ids that can be required. */
    ghost predicate Resolves()
      reads this`byId
    {
      forall id :: id in byId <==> Requirable(usecases, id)
    }

    /** Every `requires` entry names a usecase of the table. */
    method CheckResolves(ghost f: nat -> seq<Problem>)
      requires Resolves()
      requires forall ui: nat :: ui < |usecases| ==> f(ui) == UnknownIn(usecases, usecases[ui])
      modifies this`problems
      ensures problems == old(problems) + UpTo(f, |usecases|)
    {
      for ui := 0 to |usecases|
        invariant problems == old(problems) + UpTo(f, ui)
      {
        UpToNext(old(problems), f, ui);
        CheckResolve(usecases[ui]);
      }
    }

    method CheckResolve(u: Usecase)
      requires Resolves()
      modifies this`problems
      ensures problems == old(problems) + UnknownIn(usecases, u)
    {
      for ri := 0 to |u.deps|
        invariant problems == old(problems) + UpTo(DepsUnknown(usecases, u), ri)
      {
        UpToNext(old(problems), DepsUnknown(usecases, u), ri);
        if u.deps[ri] !in byId {
          problems := problems + [Problem(UnknownUsecase, [u.deps[ri]])];
        }
      }
    }

    /** The handles declared by usecases the given one reaches. */
    method ReachableHandles(u: Usecase) returns (reach: set<string>)
      requires InRange(usecases, byId)
      ensures reach == HandlesReached(Requires(usecases, byId), types, u.id)
    {
      var deps := CatalogOrder.Closure(usecases, byId, u.id);
      reach := {};
      for i := 0 to |deps|
        invariant forall k :: k in reach <==> k in types && types[k] in deps[..i]
      {
        assert deps[..i + 1] == deps[..i] + [deps[i]];
        reach := reach + set k | k in types && types[k] == deps[i];
      }
      assert deps[..|deps|] == deps;
    }

    /** Every relation target of one usecase is built in or reachable. */
    method CheckTargets(u: Usecase)
      requires InRange(usecases, byId)
      modifies this`problems
      ensures problems == old(problems) +
        TargetFaults(known + HandlesReached(Requires(usecases, byId), types, u.id), u.bundles)
    {
      var reach := ReachableHandles(u);
      CheckTargetsIn(u.bundles, reach, BundleTargetsAt(known + reach, u.bundles));
    }

    method CheckTargetsIn(bundles: seq<Bundle>, reach: set<string>, ghost f: nat -> seq<Problem>)
      requires forall i: nat :: i < |bundles| ==>
        f(i) == UpTo(TargetListAt(known + reach, Targets(bundles[i])), |Targets(bundles[i])|)
      modifies this`problems
      ensures problems == old(problems) + UpTo(f, |bundles|)
    {
      for bi := 0 to |bundles|
        invariant problems == old(problems) + UpTo(f, bi)
      {
        UpToNext(old(problems), f, bi);
        CheckBundleTargets(Targets(bundles[bi]), reach);
      }
    }

    method CheckBundleTargets(props: seq<seq<string>>, reach: set<string>)
      modifies this`problems
      ensures problems == old(problems) + UpTo(TargetListAt(known + reach, props), |props|)
    {
      for pi := 0 to |props|
        invariant problems == old(problems) + UpTo(TargetListAt(known + reach, props), pi)
      {
        UpToNext(old(problems), TargetListAt(known + reach, props), pi);
        CheckTargetList(props[pi], reach);
      }
    }

    method CheckTargetList(targets: seq<string>, reach: set<string>)
      modifies this`problems
      ensures problems == old(problems) + UpTo(TargetAt(known + reach, targets), |targets|)
      ensures problems == old(problems) <==> forall t :: t in targets ==> t in known || t in reach
    {
      for ti := 0 to |targets|
        invariant problems == old(problems) + UpTo(TargetAt(known + reach, targets), ti)
      {
        UpToNext(old(problems), TargetAt(known + reach, targets), ti);
        if targets[ti] !in reach && targets[ti] !in known {
          problems := problems + [Problem(BrokenLink, [targets[ti]])];
        }
      }
      NoOneFault(known + reach, targets);
    }
  }

  // ---- the validator --------------------------------------------------------

  /** The walk over all usecases and their bundles. */
  method CheckAll(v: Validator, ghost before: nat -> seq<Placed>, ghost f: nat -> seq<Problem>)
    requires v.byId == map[] && v.Mirrors([]) && Tracks(v.supersedes, v.superseded, v.edges)
    requires Growing(v.usecases, before)
    requires forall ui: nat :: ui < |v.usecases| ==>
      f(ui) == UsecaseWalk(v.usecases, v.edges, v.known, before(ui), ui)
    modifies v
    ensures UsecaseRows(v.byId, v.usecases, |v.usecases|) && v.Mirrors(before(|v.usecases|))
    ensures v.problems == old(v.problems) + UpTo(f, |v.usecases|)
  {
    for ui := 0 to |v.usecases|
      invariant UsecaseRows(v.byId, v.usecases, ui) && v.Mirrors(before(ui))
      invariant v.problems == old(v.problems) + UpTo(f, ui)
    {
      UpToNext(old(v.problems), f, ui);
      v.CheckUsecase(ui, before(ui));
    }
  }

  /** Dependencies resolve and the graph is acyclic. */
  method CheckGraph(v: Validator) returns (ghost cycles: seq<Problem>)
    requires UsecaseRows(v.byId, v.usecases, |v.usecases|)
    modifies v`problems
    ensures v.problems == old(v.problems) + UnknownFaults(v.usecases) + cycles && CycleReports(v.usecases, cycles)
  {
    RequiresIsResolved(v.usecases, v.byId);
    v.CheckResolves(UnknownAt(v.usecases));
    var found := CatalogCycles.FindCycles(v.usecases, v.byId);
    cycles := found;
    v.problems := v.problems + found;
  }

  /** Relation targets are reachable, for every usecase that has a table entry. */
  method CheckLinks(v: Validator, ghost f: nat -> seq<Problem>)
    requires InRange(v.usecases, v.byId) && forall ui: nat :: FaultOfLinks(v, f, ui)
    modifies v`problems
    ensures v.problems == old(v.problems) + UpTo(f, |v.usecases|)
  {
    for ui := 0 to |v.usecases|
      invariant v.problems == old(v.problems) + UpTo(f, ui)
    {
      UpToNext(old(v.problems), f, ui);
      assert FaultOfLinks(v, f, ui);
      if v.usecases[ui].id in v.byId {
        v.CheckTargets(v.usecases[ui]);
      }
    }
  }

  /** The targets of a usecase that the tables do not reach. */
  ghost function UnlinkedIn(v: Validator, u: Usecase): seq<Problem>
    requires InRange(v.usecases, v.byId)
    reads v`byId, v`types
  {
    TargetFaults(v.known + HandlesReached(Requires(v.usecases, v.byId), v.types, u.id), u.bundles)
  }

  ghost predicate FaultOfLinks(v: Validator, f: nat -> seq<Problem>, ui: nat)
    requires InRange(v.usecases, v.byId)
    reads v`byId, v`types
  {
    ui < |v.usecases| ==> f(ui) == if v.usecases[ui].id in v.byId then UnlinkedIn(v, v.usecases[ui]) else []
  }

  /** With the tables in order these are the broken links of the report. */
  lemma UnlinkedAre(v: Validator)
    requires UsecaseRows(v.byId, v.usecases, |v.usecases|) && v.Mirrors(Flat(v.usecases))
    requires v.edges == SupersedesRel(Flat(v.usecases))
    ensures InRange(v.usecases, v.byId)
    ensures forall ui: nat :: FaultOfLinks(v, LinksAt(v.usecases, v.known), ui)
  {
    RequiresIsResolved(v.usecases, v.byId);
    forall ui: nat
      ensures FaultOfLinks(v, LinksAt(v.usecases, v.known), ui)
    {
      if ui < |v.usecases| {
        assert v.usecases[ui].id in v.byId <==> IsSlug(v.usecases[ui].id);
        ReachedIsLinkable(v.usecases, v.known, v.xkeys, v.types, v.usecases[ui].id);
      }
    }
  }

  lemma IdsOfFine(us: seq<Usecase>, byId: map<string, nat>)
    requires (forall ui :: 0 <= ui < |us| ==> UsecaseFine(us, ui)) && UsecaseRows(byId, us, |us|)
    ensures (forall j :: 0 <= j < |us| ==> us[j].id in byId) && InRange(us, byId) && Requires(us, byId) == DepsRel(us)
  {
    forall j | 0 <= j < |us|
      ensures us[j].id in byId
    {
      assert UsecaseFine(us, j);
    }
    RequiresIsDeps(us, byId);
  }

  /** A well-formed catalog's tables can be trusted. */
  lemma TablesOfFine(us: seq<Usecase>, known: set<string>, byId: map<string, nat>)
    requires WellFormed(us, known) && UsecaseRows(byId, us, |us|)
    ensures CatalogOrder.Trustworthy(us, byId) && forall j :: 0 <= j < |us| ==> us[j].id in byId
  {
    IdsOfFine(us, byId);
    forall id, dep | id in byId && dep in us[byId[id]].deps
      ensures dep in byId
    {
      assert us[byId[id]] in us && Names(us, dep);
    }
  }

  lemma RowAt(us: seq<Usecase>, e: Rel, known: set<string>, fs: seq<Placed>, xkeys: map<string, seq<string>>,
      types: map<string, string>, t: string, owner: string)
    requires ClaimRows(xkeys, types, us, e, known, fs) && LastOwner(us, e, known, fs, t, owner)
    ensures t in types && types[t] == owner
  {
    assert HasClaims(xkeys, types, t, ClaimsOf(us, e, known, fs)(t));
  }

  lemma TypesOfFine(us: seq<Usecase>, known: set<string>, xkeys: map<string, seq<string>>, types: map<string, string>,
      w: Usecase, t: string)
    requires BundlesFine(us, known, SupersedesRel(Flat(us)), Flat(us)) && w in us && Declares(w, t)
    requires ClaimRows(xkeys, types, us, SupersedesRel(Flat(us)), known, Flat(us))
    ensures t in types && types[t] == w.id
  {
    OwnerIsDeclarer(us, known, w, t);
    RowAt(us, SupersedesRel(Flat(us)), known, Flat(us), xkeys, types, t, w.id);
  }

  /** What the finished walk means. */
  lemma ReportAndTables(us: seq<Usecase>, known: set<string>, problems: seq<Problem>, byId: map<string, nat>,
      xkeys: map<string, seq<string>>, types: map<string, string>)
    requires IsReport(us, known, problems) && UsecaseRows(byId, us, |us|)
    requires ClaimRows(xkeys, types, us, SupersedesRel(Flat(us)), known, Flat(us))
    ensures problems == [] <==> WellFormed(us, known)
    ensures problems == [] ==> CatalogOrder.Trustworthy(us, byId) && forall j :: 0 <= j < |us| ==> us[j].id in byId
    ensures problems == [] ==> forall w, t :: w in us && Declares(w, t) ==> t in types && types[t] == w.id
  {
    NothingToReport(us, known, problems);
    if problems == [] {
      TablesOfFine(us, known, byId);
      forall w, t | w in us && Declares(w, t)
        ensures t in types && types[t] == w.id
      {
        TypesOfFine(us, known, xkeys, types, w, t);
      }
    }
  }

  /** All checks, on the tables as they start out. */
  method RunChecks(v: Validator)
    requires v.problems == [] && v.byId == map[] && v.Mirrors([]) && Tracks(v.supersedes, v.superseded, v.edges)
    requires v.edges == SupersedesRel(Flat(v.usecases))
    modifies v
    ensures IsReport(v.usecases, v.known, v.problems)
    ensures v.problems == [] <==> WellFormed(v.usecases, v.known)
    ensures v.problems == [] ==> CatalogOrder.Trustworthy(v.usecases, v.byId)
    ensures v.problems == [] ==> forall j :: 0 <= j < |v.usecases| ==> v.usecases[j].id in v.byId
    ensures v.problems == [] ==>
      forall w, t :: w in v.usecases && Declares(w, t) ==> t in v.types && v.types[t] == w.id
  {
    if v.usecases == [] {
      v.problems := v.problems + [Problem(Missing, [])];
    }
    FlatIsGrowing(v.usecases);
    CheckAll(v, FlatTo(v.usecases), WalkAt(v.usecases, v.edges, v.known, FlatTo(v.usecases)));
    assert v.problems == WalkFaults(v.usecases, v.known);
    ghost var cycles := CheckGraph(v);
    UnlinkedAre(v);
    CheckLinks(v, LinksAt(v.usecases, v.known));
    ReportAndTables(v.usecases, v.known, v.problems, v.byId, v.xkeys, v.types);
  }

  /** The lookup tables of a loaded catalog. */
  datatype Tables = Tables(byId: map<string, nat>, types: map<string, string>, superseded: set<string>)

  const BUILT_IN: set<string> := {"any", "type", "collection"}

  /** The walk and the tables it leaves. */
  method CheckedTables(usecases: seq<Usecase>, known: set<string>, supersedes: map<string, set<string>>,
      superseded: set<string>, ghost edges: Rel)
      returns (problems: seq<Problem>, tables: Tables)
    requires edges == SupersedesRel(Flat(usecases)) && Tracks(supersedes, superseded, edges)
    ensures IsReport(usecases, known, problems) && tables.superseded == superseded
    ensures problems == [] <==> WellFormed(usecases, known)
    ensures problems == [] ==> CatalogOrder.Trustworthy(usecases, tables.byId)
    ensures problems == [] ==> forall j :: 0 <= j < |usecases| ==> usecases[j].id in tables.byId
    ensures problems == [] ==>
      forall w, t :: w in usecases && Declares(w, t) ==> t in tables.types && tables.types[t] == w.id
  {
    var v := new Validator(usecases, known, supersedes, superseded, edges);
    RunChecks(v);
    problems, tables := v.problems, Tables(v.byId, v.types, superseded);
  }

  /** The checks against all the handles that are known beforehand. */
  method ValidateAgainst(usecases: seq<Usecase>, known: set<string>)
      returns (problems: seq<Problem>, tables: Tables, groups: map<string, SupersedeGroup>)
    ensures IsReport(usecases, known, problems)
    ensures problems == [] <==> WellFormed(usecases, known)
    ensures problems == [] ==> CatalogOrder.Trustworthy(usecases, tables.byId)
    ensures problems == [] ==> forall j :: 0 <= j < |usecases| ==> usecases[j].id in tables.byId
    ensures problems == [] ==>
      forall w, t :: w in usecases && Declares(w, t) ==> t in tables.types && tables.types[t] == w.id
    ensures tables.superseded == set p | p in SupersedesRel(Flat(usecases)) :: p.1
    ensures IsGrouping(groups, BundleIds(usecases), SupersedesRel(Flat(usecases)), tables.superseded)
  {
    var supersedes, superseded := CollectSupersedes(usecases);
    groups := GroupSupersedes(usecases, supersedes, superseded);
    problems, tables := CheckedTables(usecases, known, supersedes, superseded, SupersedesRel(Flat(usecases)));
  }

  /**
   * The problems are the report, in order; there are none exactly for well-formed catalogs, and the tables
   * of such a catalog can be trusted. The supersede groups are right for every catalog.
   */
  method Validate(usecases: seq<Usecase>, knownTypeIds: set<string>)
      returns (problems: seq<Problem>, tables: Tables, groups: map<string, SupersedeGroup>)
    ensures IsReport(usecases, {"any", "type", "collection"} + knownTypeIds, problems)
    ensures problems == [] <==> WellFormed(usecases, {"any", "type", "collection"} + knownTypeIds)
    ensures problems == [] ==> CatalogOrder.Trustworthy(usecases, tables.byId)
    ensures problems == [] ==> forall j :: 0 <= j < |usecases| ==> usecases[j].id in tables.byId
    ensures problems == [] ==>
      forall w, t :: w in usecases && Declares(w, t) ==> t in tables.types && tables.types[t] == w.id
    ensures tables.superseded == set p | p in SupersedesRel(Flat(usecases)) :: p.1
    ensures IsGrouping(groups, BundleIds(usecases), SupersedesRel(Flat(usecases)), tables.superseded)
  {
    problems, tables, groups := ValidateAgainst(usecases, BUILT_IN + knownTypeIds);
  }
}
