/** What the report says about the catalog: it is empty exactly for a well-formed one. */
module CatalogClean {
  import opened Prelude
  import opened Digraph
  import opened CatalogModel
  import opened CatalogRules
  import opened CatalogReport

  lemma {:induction false} UpToEmpty<T>(f: nat -> seq<T>, n: nat)
    ensures UpTo(f, n) == [] <==> forall i: nat :: i < n ==> f(i) == []
  {
    if n > 0 {
      UpToEmpty(f, n - 1);
    }
  }

  /** Each contribution is empty exactly when what held before it still holds after. */
  ghost predicate Stepwise(f: nat -> seq<Problem>, good: nat -> bool, n: nat) {
    forall i: nat, j: nat :: j == i + 1 <= n ==> (good(j) <==> good(i) && f(i) == [])
  }

  lemma {:induction false} EmptyWhile(f: nat -> seq<Problem>, good: nat -> bool, n: nat)
    requires good(0) && Stepwise(f, good, n)
    ensures UpTo(f, n) == [] <==> good(n)
    decreases n
  {
    if n > 0 {
      var i := n - 1;
      assert good(n) <==> good(i) && f(i) == [];
      EmptyWhile(f, good, i);
    }
  }

  // ---- bundles that are fine so far ----------------------------------------------------

  /** Every bundle of every usecase has its place in the flat list. */
  lemma {:induction false} FlatHas(us: seq<Usecase>, ui: nat, b: Bundle)
    requires ui < |us| && b in us[ui].bundles
    ensures Placed(ui, b) in Flat(us)
  {
    var n := |us| - 1;
    if ui < n {
      FlatHas(us[..n], ui, b);
    } else {
      var i :| 0 <= i < |us[n].bundles| && us[n].bundles[i] == b;
      assert PlacedIn(n, us[n].bundles)[i] == Placed(ui, b);
    }
  }

  /** Ids are unique across the flat list. */
  lemma OneById(us: seq<Usecase>, known: set<string>, e: Rel, fs: seq<Placed>, i: nat, j: nat)
    requires BundlesFine(us, known, e, fs) && i < |fs| && j < |fs| && fs[i].b.id == fs[j].b.id
    ensures i == j
  {
  }

  /** A supersedes edge between two listed bundles stays inside one usecase and is declared by its source. */
  lemma EdgeStaysInside(us: seq<Usecase>, known: set<string>, i: nat, j: nat)
    requires BundlesFine(us, known, SupersedesRel(Flat(us)), Flat(us))
    requires i < |Flat(us)| && j < |Flat(us)|
    requires (Flat(us)[i].b.id, Flat(us)[j].b.id) in SupersedesRel(Flat(us))
    ensures Flat(us)[i].ui == Flat(us)[j].ui && Flat(us)[j].b.id in Flat(us)[i].b.supersedes
    ensures SupersedesFine(us[Flat(us)[i].ui], SupersedesRel(Flat(us)), Flat(us)[i].b)
  {
    var fs, e := Flat(us), SupersedesRel(Flat(us));
    var p :| p in fs && p.b.id == fs[i].b.id && fs[j].b.id in p.b.supersedes;
    var m := PositionOf(fs, p);
    OneById(us, known, e, fs, i, m);
    assert BundleFine(us[fs[i].ui], known, e, fs[i].b);
    assert InUsecase(us[fs[i].ui], fs[j].b.id);
    var c :| c in us[fs[i].ui].bundles && c.id == fs[j].b.id;
    FlatHas(us, fs[i].ui, c);
    var n := PositionOf(fs, Placed(fs[i].ui, c));
    OneById(us, known, e, fs, j, n);
  }

  /** All declarations of one handle sit in one usecase. */
  lemma HandleInOneUsecase(us: seq<Usecase>, known: set<string>, i: nat, j: nat, k: string)
    requires BundlesFine(us, known, SupersedesRel(Flat(us)), Flat(us))
    requires i < |Flat(us)| && j < |Flat(us)| && k in Handles(Flat(us)[i].b) && k in Handles(Flat(us)[j].b)
    ensures Flat(us)[i].ui == Flat(us)[j].ui
  {
    var fs, e := Flat(us), SupersedesRel(Flat(us));
    if i != j {
      assert PairFine(e, fs[if i < j then i else j].b, fs[if i < j then j else i].b);
      if (fs[i].b.id, fs[j].b.id) in e {
        EdgeStaysInside(us, known, i, j);
      } else {
        EdgeStaysInside(us, known, j, i);
      }
    }
  }

  lemma FinePrefix(us: seq<Usecase>, known: set<string>, e: Rel, fs: seq<Placed>, p: Placed)
    ensures BundlesFine(us, known, e, fs + [p]) ==> BundlesFine(us, known, e, fs)
  {
    var gs := fs + [p];
    assert forall j :: 0 <= j < |fs| ==> gs[j] == fs[j];
  }

  lemma FineGrows(us: seq<Usecase>, known: set<string>, e: Rel, fs: seq<Placed>, p: Placed)
    requires BundlesFine(us, known, e, fs) && p.ui < |us|
    ensures BundlesFine(us, known, e, fs + [p]) <==>
      BundleFine(us[p.ui], known, e, p.b) && forall j :: 0 <= j < |fs| ==> PairFine(e, fs[j].b, p.b)
  {
    var gs := fs + [p];
    assert gs[|fs|] == p && forall j :: 0 <= j < |fs| ==> gs[j] == fs[j];
  }

  // ---- one bundle --------------------------------------------------------------------

  /** Some listed bundle with id h declares handle k. */
  ghost predicate Holds(fs: seq<Placed>, k: string, h: string) {
    exists j :: 0 <= j < |fs| && fs[j].b.id == h && k in Handles(fs[j].b)
  }

  lemma HoldsGrows(fs: seq<Placed>, p: Placed, k: string, h: string)
    ensures Holds(fs + [p], k, h) <==> Holds(fs, k, h) || (p.b.id == h && k in Handles(p.b))
  {
    var gs := fs + [p];
    assert gs[|fs|] == p;
    if Holds(fs, k, h) {
      var j :| 0 <= j < |fs| && fs[j].b.id == h && k in Handles(fs[j].b);
      assert gs[j] == fs[j];
    }
  }

  /** A handle is well formed, not built-in, and free or shared only across supersedes edges. */
  ghost predicate FreeHandle(e: Rel, known: set<string>, fs: seq<Placed>, id: string, k: string) {
    && IsHandle(k) && k !in known
    && forall j :: 0 <= j < |fs| && k in Handles(fs[j].b) ==> Shares(e, id, fs[j].b.id)
  }

  lemma {:induction false} OutsiderNone(e: Rel, id: string, holders: seq<string>)
    requires forall i :: 0 <= i < |holders| ==> holders[i] != ""
    ensures Outsider(e, id, holders) == "" <==> forall i :: 0 <= i < |holders| ==> Shares(e, id, holders[i])
  {
    if holders != [] {
      var rest := holders[1..];
      OutsiderNone(e, id, rest);
      if Shares(e, id, holders[0]) {
        assert forall i :: 0 < i < |holders| ==> holders[i] == rest[i - 1];
      }
    }
  }

  /** The claims on k are those of the listed bundles, all of them, and none has an empty id. */
  ghost predicate Complete(fs: seq<Placed>, k: string, cs: seq<Claim>) {
    && (forall j :: 0 <= j < |fs| ==> fs[j].b.id != "")
    && (forall i :: 0 <= i < |cs| ==> Holds(fs, k, cs[i].bundle))
    && (forall h :: Holds(fs, k, h) ==> exists i :: 0 <= i < |cs| && cs[i].bundle == h)
  }

  /** With every listed bundle's claim on record, nothing is wrong with a handle exactly when it is free. */
  lemma NoHandleFault(e: Rel, known: set<string>, fs: seq<Placed>, cs: seq<Claim>, id: string, k: string)
    requires Complete(fs, k, cs)
    ensures HandleFaults(e, known, cs, id, k) == [] <==> FreeHandle(e, known, fs, id, k)
  {
    var holders := Holders(cs);
    assert forall i :: 0 <= i < |cs| ==> holders[i] == cs[i].bundle && Holds(fs, k, cs[i].bundle);
    OutsiderNone(e, id, holders);
    if forall i :: 0 <= i < |holders| ==> Shares(e, id, holders[i]) {
      forall j | 0 <= j < |fs| && k in Handles(fs[j].b)
        ensures Shares(e, id, fs[j].b.id)
      {
        assert Holds(fs, k, fs[j].b.id);
        var i :| 0 <= i < |cs| && cs[i].bundle == fs[j].b.id;
        assert Shares(e, id, holders[i]);
      }
    } else {
      var i :| 0 <= i < |holders| && !Shares(e, id, holders[i]);
      var j :| 0 <= j < |fs| && fs[j].b.id == cs[i].bundle && k in Handles(fs[j].b);
    }
  }

  ghost predicate AllComplete(us: seq<Usecase>, e: Rel, known: set<string>, fs: seq<Placed>) {
    forall k :: Complete(fs, k, Claims(us, e, known, fs, k))
  }

  ghost predicate DeclarationsFine(e: Rel, known: set<string>, fs: seq<Placed>, b: Bundle) {
    !(b.typeDecl.Some? && b.collection.Some?) && forall k :: k in Handles(b) ==> FreeHandle(e, known, fs, b.id, k)
  }

  lemma NoDeclarationFault(us: seq<Usecase>, e: Rel, known: set<string>, fs: seq<Placed>, p: Placed)
    requires AllComplete(us, e, known, fs)
    ensures DeclarationFaults(us, e, known, fs, p) == [] <==> DeclarationsFine(e, known, fs, p.b)
  {
    if !(p.b.typeDecl.Some? && p.b.collection.Some?) {
      if p.b.typeDecl.Some? {
        var k := p.b.typeDecl.value.xKey;
        assert Handles(p.b) == {k};
        NoHandleFault(e, known, fs, Claims(us, e, known, fs, k), p.b.id, k);
      }
      if p.b.collection.Some? {
        var k := p.b.collection.value.xKey;
        assert Handles(p.b) == {k};
        NoHandleFault(e, known, fs, Claims(us, e, known, fs, k), p.b.id, k);
      }
    }
  }

  /** A faultless bundle claims each of its handles. */
  lemma FaultlessClaims(us: seq<Usecase>, e: Rel, known: set<string>, fs: seq<Placed>, p: Placed, k: string)
    requires DeclarationFaults(us, e, known, fs, p) == []
    ensures Claims(us, e, known, fs + [p], k) ==
      Claims(us, e, known, fs, k) + if k in Handles(p.b) then [ClaimOf(us, p)] else []
  {
    ClaimsNext(us, e, known, fs, p, k);
    assert TypeFaults(us, e, known, fs, p) == [] && CollectionFaults(us, e, known, fs, p) == [];
  }

  lemma CompleteGrows(fs: seq<Placed>, p: Placed, k: string, cs: seq<Claim>, c: Claim)
    requires Complete(fs, k, cs) && p.b.id != "" && c.bundle == p.b.id
    ensures Complete(fs + [p], k, cs + if k in Handles(p.b) then [c] else [])
  {
    var gs, ds := fs + [p], cs + if k in Handles(p.b) then [c] else [];
    assert gs[|fs|] == p && forall j :: 0 <= j < |fs| ==> gs[j] == fs[j];
    assert forall i :: 0 <= i < |cs| ==> ds[i] == cs[i];
    forall i | 0 <= i < |ds|
      ensures Holds(gs, k, ds[i].bundle)
    {
      HoldsGrows(fs, p, k, ds[i].bundle);
    }
    forall h | Holds(gs, k, h)
      ensures exists i :: 0 <= i < |ds| && ds[i].bundle == h
    {
      HoldsGrows(fs, p, k, h);
      if Holds(fs, k, h) {
        var i :| 0 <= i < |cs| && cs[i].bundle == h;
        assert ds[i].bundle == h;
      } else {
        assert ds[|cs|].bundle == h;
      }
    }
  }

  /** While every bundle is fine, the claims are complete. */
  lemma {:induction false} FineIsComplete(us: seq<Usecase>, e: Rel, known: set<string>, fs: seq<Placed>)
    requires BundlesFine(us, known, e, fs)
    ensures AllComplete(us, e, known, fs)
    decreases |fs|
  {
    if fs != [] {
      var n := |fs| - 1;
      var before, p := fs[..n], fs[n];
      assert fs == before + [p];
      FinePrefix(us, known, e, before, p);
      FineIsComplete(us, e, known, before);
      FineGrows(us, known, e, before, p);
      NoDeclarationFault(us, e, known, before, p);
      FineIsDeclared(us, known, e, before, p);
      forall k
        ensures Complete(fs, k, Claims(us, e, known, fs, k))
      {
        FaultlessClaims(us, e, known, before, p, k);
        CompleteGrows(before, p, k, Claims(us, e, known, before, k), ClaimOf(us, p));
      }
    }
  }

  lemma FineIsDeclared(us: seq<Usecase>, known: set<string>, e: Rel, fs: seq<Placed>, p: Placed)
    requires p.ui < |us| && BundleFine(us[p.ui], known, e, p.b)
    requires forall j :: 0 <= j < |fs| ==> PairFine(e, fs[j].b, p.b)
    ensures DeclarationsFine(e, known, fs, p.b) && p.b.id != ""
  {
  }

  lemma NoBundleIdFault(us: seq<Usecase>, fs: seq<Placed>, id: string)
    ensures BundleIdFaults(us, fs, id) == [] <==> IsBundleId(id) && forall j :: 0 <= j < |fs| ==> fs[j].b.id != id
  {
  }

  lemma NoOldFault(us: seq<Usecase>, e: Rel, p: Placed, i: nat)
    requires p.ui < |us| && i < |p.b.supersedes|
    ensures OldFaults(us[p.ui], e, p.b)(i) == [] <==>
      p.b.supersedes[i] !in p.b.supersedes[..i] && OldFine(us[p.ui], e, p.b.id, p.b.supersedes[i])
  {
  }

  lemma NoSupersedesFault(us: seq<Usecase>, e: Rel, p: Placed)
    requires p.ui < |us|
    ensures SupersedesFaults(us, e, p) == [] <==> SupersedesFine(us[p.ui], e, p.b)
  {
    var s, f := p.b.supersedes, OldFaults(us[p.ui], e, p.b);
    UpToEmpty(f, |s|);
    forall i: nat | i < |s|
      ensures f(i) == [] <==> s[i] !in s[..i] && OldFine(us[p.ui], e, p.b.id, s[i])
    {
      NoOldFault(us, e, p, i);
    }
    FirstsAndFine(us[p.ui], e, p.b, s);
  }

  lemma FirstsAndFine(u: Usecase, e: Rel, b: Bundle, s: seq<string>)
    ensures (forall i: nat :: i < |s| ==> s[i] !in s[..i] && OldFine(u, e, b.id, s[i])) <==>
      Distinct(s) && forall older :: older in s ==> OldFine(u, e, b.id, older)
  {
    forall i: nat, j: nat | i < j < |s|
      ensures s[i] in s[..j]
    {
      assert s[..j][i] == s[i];
    }
  }

  /** The rules for one more bundle, in the terms of the checks. */
  lemma FineSplits(us: seq<Usecase>, known: set<string>, e: Rel, fs: seq<Placed>, p: Placed)
    requires p.ui < |us|
    ensures
      BundleFine(us[p.ui], known, e, p.b) && (forall j :: 0 <= j < |fs| ==> PairFine(e, fs[j].b, p.b)) <==>
      && IsBundleId(p.b.id) && (forall j :: 0 <= j < |fs| ==> fs[j].b.id != p.b.id)
      && DeclarationsFine(e, known, fs, p.b) && SupersedesFine(us[p.ui], e, p.b)
  {
  }

  /** A bundle after fine ones has no fault exactly when all are fine. */
  lemma NoBundleFault(us: seq<Usecase>, e: Rel, known: set<string>, fs: seq<Placed>, p: Placed)
    requires p.ui < |us| && BundlesFine(us, known, e, fs)
    ensures BundleFaults(us, e, known, fs, p) == [] <==> BundlesFine(us, known, e, fs + [p])
  {
    FineIsComplete(us, e, known, fs);
    NoBundleIdFault(us, fs, p.b.id);
    NoDeclarationFault(us, e, known, fs, p);
    NoSupersedesFault(us, e, p);
    FineSplits(us, known, e, fs, p);
    FineGrows(us, known, e, fs, p);
  }

  // ---- one usecase -------------------------------------------------------------------

  lemma NoDepFaultAt(u: Usecase, i: nat)
    requires i < |u.deps|
    ensures DepFaults(u)(i) == [] <==> u.deps[i] != u.id && u.deps[i] !in u.deps[..i]
  {
  }

  lemma FirstsAreDistinct(s: seq<string>)
    ensures (forall i: nat :: i < |s| ==> s[i] !in s[..i]) <==> Distinct(s)
  {
    forall i: nat, j: nat | i < j < |s|
      ensures s[i] in s[..j]
    {
      assert s[..j][i] == s[i];
    }
  }

  lemma NoDepFault(u: Usecase)
    ensures UpTo(DepFaults(u), |u.deps|) == [] <==> u.id !in u.deps && Distinct(u.deps)
  {
    UpToEmpty(DepFaults(u), |u.deps|);
    forall i: nat | i < |u.deps|
      ensures DepFaults(u)(i) == [] <==> u.deps[i] != u.id && u.deps[i] !in u.deps[..i]
    {
      NoDepFaultAt(u, i);
    }
    FirstsAreDistinct(u.deps);
  }

  lemma NoUsecaseFault(us: seq<Usecase>, ui: nat)
    requires ui < |us|
    ensures UsecaseFaults(us, ui) == [] <==> UsecaseFine(us, ui)
  {
    NoDepFault(us[ui]);
  }

  lemma OntoNext(fs: seq<Placed>, ui: nat, bs: seq<Bundle>, bi: nat)
    requires bi < |bs|
    ensures Onto(fs, ui, bs, bi + 1) == Onto(fs, ui, bs, bi) + [Placed(ui, bs[bi])]
  {
    var here := PlacedIn(ui, bs);
    assert here[..bi + 1] == here[..bi] + [Placed(ui, bs[bi])];
    Regroup(fs, here[..bi], [Placed(ui, bs[bi])]);
  }

  lemma OntoEnds(fs: seq<Placed>, ui: nat, bs: seq<Bundle>)
    ensures Onto(fs, ui, bs, 0) == fs && Onto(fs, ui, bs, |bs|) == fs + PlacedIn(ui, bs)
  {
  }

  ghost function FineOnto(us: seq<Usecase>, e: Rel, known: set<string>, fs: seq<Placed>, ui: nat, bs: seq<Bundle>):
      nat -> bool
  {
    (n: nat) => n <= |bs| && BundlesFine(us, known, e, Onto(fs, ui, bs, n))
  }

  lemma OneMore(us: seq<Usecase>, e: Rel, known: set<string>, fs: seq<Placed>, ui: nat, bs: seq<Bundle>, i: nat, j: nat)
    requires ui < |us| && bs == us[ui].bundles && j == i + 1 <= |bs|
    ensures FineOnto(us, e, known, fs, ui, bs)(j) <==>
      FineOnto(us, e, known, fs, ui, bs)(i) && BundlesAt(us, e, known, fs, ui)(i) == []
  {
    var before, p := Onto(fs, ui, bs, i), Placed(ui, bs[i]);
    OntoNext(fs, ui, bs, i);
    FinePrefix(us, known, e, before, p);
    if BundlesFine(us, known, e, before) {
      NoBundleFault(us, e, known, before, p);
    }
  }

  lemma BundlesStepwise(us: seq<Usecase>, e: Rel, known: set<string>, fs: seq<Placed>, ui: nat, bs: seq<Bundle>)
    requires ui < |us| && bs == us[ui].bundles
    ensures Stepwise(BundlesAt(us, e, known, fs, ui), FineOnto(us, e, known, fs, ui, bs), |bs|)
  {
    forall i: nat, j: nat | j == i + 1 <= |bs|
      ensures FineOnto(us, e, known, fs, ui, bs)(j) <==>
        FineOnto(us, e, known, fs, ui, bs)(i) && BundlesAt(us, e, known, fs, ui)(i) == []
    {
      OneMore(us, e, known, fs, ui, bs, i, j);
    }
  }

  lemma NoBundlesFault(us: seq<Usecase>, e: Rel, known: set<string>, fs: seq<Placed>, ui: nat)
    requires ui < |us| && BundlesFine(us, known, e, fs)
    ensures UpTo(BundlesAt(us, e, known, fs, ui), |us[ui].bundles|) == [] <==>
      BundlesFine(us, known, e, fs + PlacedIn(ui, us[ui].bundles))
  {
    var bs := us[ui].bundles;
    OntoEnds(fs, ui, bs);
    BundlesStepwise(us, e, known, fs, ui, bs);
    EmptyWhile(BundlesAt(us, e, known, fs, ui), FineOnto(us, e, known, fs, ui, bs), |bs|);
  }

  /** The lists of bundles before each usecase: each is the one before with a usecase's bundles after it. */
  ghost predicate Growing(us: seq<Usecase>, before: nat -> seq<Placed>) {
    && before(0) == []
    && forall i: nat, j: nat :: j == i + 1 <= |us| ==> before(j) == before(i) + PlacedIn(i, us[i].bundles)
  }

  lemma FlatIsGrowing(us: seq<Usecase>)
    ensures Growing(us, FlatTo(us)) && FlatTo(us)(|us|) == Flat(us)
  {
    assert us[..0] == [] && us[..|us|] == us;
    forall i: nat, j: nat | j == i + 1 <= |us|
      ensures FlatTo(us)(j) == FlatTo(us)(i) + PlacedIn(i, us[i].bundles)
    {
      FlatStep(us, i);
    }
  }

  /** What the walk over the first n usecases decides, with before(n) listed. */
  ghost predicate FineUpTo(us: seq<Usecase>, e: Rel, known: set<string>, before: nat -> seq<Placed>, n: nat)
    requires n <= |us|
  {
    (forall ui :: 0 <= ui < n ==> UsecaseFine(us, ui)) && BundlesFine(us, known, e, before(n))
  }

  lemma FineBefore(us: seq<Usecase>, e: Rel, known: set<string>, fs: seq<Placed>, gs: seq<Placed>)
    requires BundlesFine(us, known, e, fs + gs)
    ensures BundlesFine(us, known, e, fs)
  {
    assert forall j :: 0 <= j < |fs| ==> (fs + gs)[j] == fs[j];
  }

  lemma WalkStep(us: seq<Usecase>, e: Rel, known: set<string>, fs: seq<Placed>, ui: nat)
    requires ui < |us|
    ensures UsecaseWalk(us, e, known, fs, ui) == [] && BundlesFine(us, known, e, fs) <==>
      UsecaseFine(us, ui) && BundlesFine(us, known, e, fs + PlacedIn(ui, us[ui].bundles))
  {
    var bs := us[ui].bundles;
    NoUsecaseFault(us, ui);
    if BundlesFine(us, known, e, fs + PlacedIn(ui, bs)) {
      FineBefore(us, e, known, fs, PlacedIn(ui, bs));
    }
    if BundlesFine(us, known, e, fs) {
      NoBundlesFault(us, e, known, fs, ui);
    }
  }

  ghost function FineFor(us: seq<Usecase>, e: Rel, known: set<string>, before: nat -> seq<Placed>): nat -> bool {
    (n: nat) => n <= |us| && FineUpTo(us, e, known, before, n)
  }

  lemma FineNext(us: seq<Usecase>, e: Rel, known: set<string>, before: nat -> seq<Placed>, i: nat, j: nat)
    requires j == i + 1 <= |us| && before(j) == before(i) + PlacedIn(i, us[i].bundles)
    ensures FineUpTo(us, e, known, before, j) <==>
      && (forall ui :: 0 <= ui < i ==> UsecaseFine(us, ui)) && UsecaseFine(us, i)
      && BundlesFine(us, known, e, before(i) + PlacedIn(i, us[i].bundles))
  {
  }

  lemma OneStep(us: seq<Usecase>, e: Rel, known: set<string>, before: nat -> seq<Placed>, i: nat, j: nat)
    requires j == i + 1 <= |us| && before(j) == before(i) + PlacedIn(i, us[i].bundles)
    ensures FineUpTo(us, e, known, before, j) <==>
      FineUpTo(us, e, known, before, i) && UsecaseWalk(us, e, known, before(i), i) == []
  {
    FineNext(us, e, known, before, i, j);
    WalkStep(us, e, known, before(i), i);
  }

  lemma FineForStep(us: seq<Usecase>, e: Rel, known: set<string>, before: nat -> seq<Placed>, i: nat, j: nat)
    requires j == i + 1 <= |us| && before(j) == before(i) + PlacedIn(i, us[i].bundles)
    ensures FineFor(us, e, known, before)(j) <==>
      FineFor(us, e, known, before)(i) && WalkAt(us, e, known, before)(i) == []
  {
    OneStep(us, e, known, before, i, j);
    assert FineFor(us, e, known, before)(j) <==> FineUpTo(us, e, known, before, j);
    assert FineFor(us, e, known, before)(i) <==> FineUpTo(us, e, known, before, i);
    assert WalkAt(us, e, known, before)(i) == UsecaseWalk(us, e, known, before(i), i);
  }

  lemma WalkIsStepwise(us: seq<Usecase>, e: Rel, known: set<string>, before: nat -> seq<Placed>)
    requires Growing(us, before)
    ensures Stepwise(WalkAt(us, e, known, before), FineFor(us, e, known, before), |us|)
  {
    forall i: nat, j: nat | j == i + 1 <= |us|
      ensures FineFor(us, e, known, before)(j) <==>
        FineFor(us, e, known, before)(i) && WalkAt(us, e, known, before)(i) == []
    {
      FineForStep(us, e, known, before, i, j);
    }
  }

  lemma NoWalkFault(us: seq<Usecase>, e: Rel, known: set<string>, before: nat -> seq<Placed>)
    requires Growing(us, before)
    ensures UpTo(WalkAt(us, e, known, before), |us|) == [] <==> FineUpTo(us, e, known, before, |us|)
  {
    WalkIsStepwise(us, e, known, before);
    EmptyWhile(WalkAt(us, e, known, before), FineFor(us, e, known, before), |us|);
  }

  // ---- links -------------------------------------------------------------------------

  ghost predicate Basics(us: seq<Usecase>, known: set<string>) {
    && us != []
    && (forall ui :: 0 <= ui < |us| ==> UsecaseFine(us, ui))
    && BundlesFine(us, known, SupersedesRel(Flat(us)), Flat(us))
  }

  lemma WalkIsBasics(us: seq<Usecase>, known: set<string>)
    ensures WalkFaults(us, known) == [] <==> Basics(us, known)
  {
    FlatIsGrowing(us);
    NoWalkFault(us, SupersedesRel(Flat(us)), known, FlatTo(us));
  }

  lemma NoUnknownFault(us: seq<Usecase>)
    requires forall ui :: 0 <= ui < |us| ==> UsecaseFine(us, ui)
    ensures UnknownFaults(us) == [] <==> DepsResolve(us)
  {
    forall id
      ensures Requirable(us, id) <==> Names(us, id)
    {
      if w :| w in us && w.id == id {
        var ui := PositionOf(us, w);
        assert UsecaseFine(us, ui);
      }
    }
    UpToEmpty(UnknownAt(us), |us|);
    forall ui: nat | ui < |us|
      ensures UnknownAt(us)(ui) == [] <==> forall dep :: dep in us[ui].deps ==> Names(us, dep)
    {
      NoUnknownDep(us, us[ui]);
    }
    if DepsResolve(us) {
      assert forall ui: nat :: ui < |us| ==> us[ui] in us;
    }
  }

  lemma NoUnknownDep(us: seq<Usecase>, u: Usecase)
    requires forall id :: Requirable(us, id) <==> Names(us, id)
    ensures UpTo(DepsUnknown(us, u), |u.deps|) == [] <==> forall dep :: dep in u.deps ==> Names(us, dep)
  {
    var f := DepsUnknown(us, u);
    UpToEmpty(f, |u.deps|);
    assert forall i: nat :: i < |u.deps| ==> (f(i) == [] <==> Names(us, u.deps[i]));
    if forall i: nat :: i < |u.deps| ==> f(i) == [] {
      forall dep | dep in u.deps
        ensures Names(us, dep)
      {
        var i := PositionOf(u.deps, dep);
        assert f(i) == [];
      }
    }
  }

  /** With unique slugs the resolved dependencies are the declared ones. */
  lemma ResolvedIsDeps(us: seq<Usecase>)
    requires forall ui :: 0 <= ui < |us| ==> UsecaseFine(us, ui)
    ensures ResolvedRel(us) == DepsRel(us)
  {
    forall p | p in DepsRel(us)
      ensures p in ResolvedRel(us)
    {
      var u, dep :| u in us && dep in u.deps && p == (u.id, dep);
      var ui := PositionOf(us, u);
      assert UsecaseFine(us, ui) && FirstOfId(us, ui);
    }
    forall p | p in ResolvedRel(us)
      ensures p in DepsRel(us)
    {
      var ui, dep :| 0 <= ui < |us| && IsSlug(us[ui].id) && FirstOfId(us, ui) && dep in us[ui].deps &&
        p == (us[ui].id, dep);
      assert us[ui] in us;
    }
  }

  /** A claim is a listed bundle's. */
  lemma {:induction false} ClaimsOwned(us: seq<Usecase>, e: Rel, known: set<string>, fs: seq<Placed>, k: string, i: nat)
      returns (j: nat)
    requires i < |Claims(us, e, known, fs, k)|
    ensures j < |fs| && k in Handles(fs[j].b) && Claims(us, e, known, fs, k)[i] == ClaimOf(us, fs[j])
    decreases |fs|
  {
    var n := |fs| - 1;
    if i < |Claims(us, e, known, fs[..n], k)| {
      j := ClaimsOwned(us, e, known, fs[..n], k, i);
    } else {
      j := n;
    }
  }

  /** The last claim on the handle is for a usecase of that id. */
  ghost predicate LastOwner(us: seq<Usecase>, e: Rel, known: set<string>, fs: seq<Placed>, k: string, owner: string) {
    var cs := Claims(us, e, known, fs, k);
    cs != [] && cs[|cs| - 1].usecase == owner
  }

  lemma HeldIsClaimed(fs: seq<Placed>, t: string, cs: seq<Claim>, i: nat)
    requires Complete(fs, t, cs) && i < |fs| && t in Handles(fs[i].b)
    ensures cs != []
  {
    assert Holds(fs, t, fs[i].b.id);
  }

  /** When a handle is declared in one usecase only, that one is the owner. */
  lemma OneOwner(us: seq<Usecase>, e: Rel, known: set<string>, fs: seq<Placed>, t: string, i: nat)
    requires BundlesFine(us, known, e, fs) && i < |fs| && fs[i].ui < |us| && t in Handles(fs[i].b)
    requires forall j :: 0 <= j < |fs| && t in Handles(fs[j].b) ==> fs[j].ui == fs[i].ui
    ensures LastOwner(us, e, known, fs, t, us[fs[i].ui].id)
  {
    var cs := Claims(us, e, known, fs, t);
    FineIsComplete(us, e, known, fs);
    HeldIsClaimed(fs, t, cs, i);
    var j := ClaimsOwned(us, e, known, fs, t, |cs| - 1);
  }

  lemma PlaceOfDeclarer(us: seq<Usecase>, w: Usecase, t: string) returns (i: nat)
    requires w in us && Declares(w, t)
    ensures i < |Flat(us)| && Flat(us)[i].ui < |us| && us[Flat(us)[i].ui] == w && t in Handles(Flat(us)[i].b)
  {
    var ui := PositionOf(us, w);
    var b :| b in w.bundles && t in Handles(b);
    FlatHas(us, ui, b);
    i := PositionOf(Flat(us), Placed(ui, b));
  }

  /** Where all bundles are fine, the last claim on a handle names the usecase of every declaration of it. */
  lemma OwnerIsDeclarer(us: seq<Usecase>, known: set<string>, w: Usecase, t: string)
    requires BundlesFine(us, known, SupersedesRel(Flat(us)), Flat(us)) && w in us && Declares(w, t)
    ensures LastOwner(us, SupersedesRel(Flat(us)), known, Flat(us), t, w.id)
  {
    var i := PlaceOfDeclarer(us, w, t);
    forall j | 0 <= j < |Flat(us)| && t in Handles(Flat(us)[j].b)
      ensures Flat(us)[j].ui == Flat(us)[i].ui
    {
      HandleInOneUsecase(us, known, i, j, t);
    }
    OneOwner(us, SupersedesRel(Flat(us)), known, Flat(us), t, i);
  }

  lemma LinkableIff(us: seq<Usecase>, known: set<string>, id: string, t: string)
    ensures t in LinkableFrom(us, known, id) <==> Linked(us, known, id, t)
  {
    if Reachable(us, known, id, t) {
      var e, fs := SupersedesRel(Flat(us)), Flat(us);
      var j := ClaimsOwned(us, e, known, fs, t, 0);
      assert fs[j] in fs;
    }
  }

  lemma ReachableIsDeclared(us: seq<Usecase>, known: set<string>, id: string, t: string)
    requires Reachable(us, known, id, t)
    ensures exists w :: w in us && Reaches(ResolvedRel(us), id, w.id) && Declares(w, t)
  {
    var e, fs := SupersedesRel(Flat(us)), Flat(us);
    var cs := Claims(us, e, known, fs, t);
    var j := ClaimsOwned(us, e, known, fs, t, |cs| - 1);
    var w := us[fs[j].ui];
    assert w in us && fs[j].b in w.bundles && Declares(w, t);
  }

  lemma DeclaredIsReachable(us: seq<Usecase>, known: set<string>, id: string, w: Usecase, t: string)
    requires BundlesFine(us, known, SupersedesRel(Flat(us)), Flat(us)) && w in us && Declares(w, t)
    requires Reaches(ResolvedRel(us), id, w.id)
    ensures Reachable(us, known, id, t)
  {
    OwnerIsDeclarer(us, known, w, t);
  }

  /** With the rest in order, a handle can be named exactly when it is built in or declared in the closure. */
  lemma LinkedIsFine(us: seq<Usecase>, known: set<string>, u: Usecase, t: string)
    requires Basics(us, known)
    ensures Linked(us, known, u.id, t) <==> TargetFine(us, known, u, t)
  {
    ResolvedIsDeps(us);
    if Reachable(us, known, u.id, t) {
      ReachableIsDeclared(us, known, u.id, t);
    }
    forall w | w in us && Reaches(ResolvedRel(us), u.id, w.id) && Declares(w, t)
      ensures Reachable(us, known, u.id, t)
    {
      DeclaredIsReachable(us, known, u.id, w, t);
    }
  }

  lemma NoTargetFault(ok: set<string>, bs: seq<Bundle>)
    ensures TargetFaults(ok, bs) == [] <==> forall b, ts, t :: b in bs && ts in Targets(b) && t in ts ==> t in ok
  {
    UpToEmpty(BundleTargetsAt(ok, bs), |bs|);
    forall i: nat | i < |bs|
      ensures BundleTargetsAt(ok, bs)(i) == [] <==> forall ts, t :: ts in Targets(bs[i]) && t in ts ==> t in ok
    {
      NoListFault(ok, Targets(bs[i]));
    }
    if TargetFaults(ok, bs) == [] {
      forall b, ts, t | b in bs && ts in Targets(b) && t in ts
        ensures t in ok
      {
        var i := PositionOf(bs, b);
        assert BundleTargetsAt(ok, bs)(i) == [];
      }
    } else {
      var i: nat :| i < |bs| && BundleTargetsAt(ok, bs)(i) != [];
      assert bs[i] in bs;
    }
  }

  lemma NoListFault(ok: set<string>, props: seq<seq<string>>)
    ensures UpTo(TargetListAt(ok, props), |props|) == [] <==> forall ts, t :: ts in props && t in ts ==> t in ok
  {
    UpToEmpty(TargetListAt(ok, props), |props|);
    forall i: nat | i < |props|
      ensures TargetListAt(ok, props)(i) == [] <==> forall t :: t in props[i] ==> t in ok
    {
      NoOneFault(ok, props[i]);
    }
    if UpTo(TargetListAt(ok, props), |props|) == [] {
      forall ts, t | ts in props && t in ts
        ensures t in ok
      {
        var i := PositionOf(props, ts);
        assert TargetListAt(ok, props)(i) == [];
      }
    } else {
      var i: nat :| i < |props| && TargetListAt(ok, props)(i) != [];
      assert props[i] in props;
    }
  }

  lemma NoOneFault(ok: set<string>, ts: seq<string>)
    ensures UpTo(TargetAt(ok, ts), |ts|) == [] <==> forall t :: t in ts ==> t in ok
  {
    UpToEmpty(TargetAt(ok, ts), |ts|);
    if forall i: nat :: i < |ts| ==> TargetAt(ok, ts)(i) == [] {
      forall t | t in ts
        ensures t in ok
      {
        var i := PositionOf(ts, t);
        assert TargetAt(ok, ts)(i) == [];
      }
    }
  }

  lemma NoLinkFault(us: seq<Usecase>, known: set<string>)
    requires Basics(us, known)
    ensures LinkFaults(us, known) == [] <==> forall u :: u in us ==> TargetsFine(us, known, u)
  {
    UpToEmpty(LinksAt(us, known), |us|);
    forall ui: nat | ui < |us|
      ensures LinksAt(us, known)(ui) == [] <==> TargetsFine(us, known, us[ui])
    {
      assert UsecaseFine(us, ui);
      NoTargetFault(LinkableFrom(us, known, us[ui].id), us[ui].bundles);
      forall t
        ensures t in LinkableFrom(us, known, us[ui].id) <==> TargetFine(us, known, us[ui], t)
      {
        LinkableIff(us, known, us[ui].id, t);
        LinkedIsFine(us, known, us[ui], t);
      }
    }
    if LinkFaults(us, known) == [] {
      forall u | u in us
        ensures TargetsFine(us, known, u)
      {
        var ui := PositionOf(us, u);
        assert LinksAt(us, known)(ui) == [];
      }
    } else {
      var ui: nat :| ui < |us| && LinksAt(us, known)(ui) != [];
      assert us[ui] in us;
    }
  }

  // ---- the whole report ----------------------------------------------------------------

  /** Nothing to report exactly for a well-formed catalog. */
  lemma NothingToReport(us: seq<Usecase>, known: set<string>, problems: seq<Problem>)
    requires IsReport(us, known, problems)
    ensures problems == [] <==> WellFormed(us, known)
  {
    var cycles :| problems == WalkFaults(us, known) + UnknownFaults(us) + cycles + LinkFaults(us, known) &&
      CycleReports(us, cycles);
    WalkIsBasics(us, known);
    if Basics(us, known) {
      NoUnknownFault(us);
      ResolvedIsDeps(us);
      NoLinkFault(us, known);
    }
  }
}
