/** Why each problem is reported: for every code, the faults of the catalog that are reported under it. */
module CatalogReasons {
  import opened Prelude
  import opened Digraph
  import opened CatalogModel
  import opened CatalogRules
  import opened CatalogReport
  import opened CatalogClean

  // ---- where a problem comes from ------------------------------------------------------

  /** Bundle bi of usecase ui has its place in the flat list, after exactly the earlier ones. */
  lemma {:induction false} PlaceOf(us: seq<Usecase>, ui: nat, bi: nat) returns (j: nat)
    requires ui < |us| && bi < |us[ui].bundles|
    ensures j < |Flat(us)| && Flat(us)[j] == Placed(ui, us[ui].bundles[bi])
    ensures Flat(us)[..j] == Onto(Flat(us[..ui]), ui, us[ui].bundles, bi)
    decreases |us|
  {
    var n := |us| - 1;
    if ui < n {
      j := PlaceOf(us[..n], ui, bi);
      assert us[..n][..ui] == us[..ui];
      assert Flat(us)[..j] == Flat(us[..n])[..j];
    } else {
      j := |Flat(us[..n])| + bi;
      assert Flat(us)[..j] == Flat(us[..n]) + PlacedIn(n, us[n].bundles)[..bi];
    }
  }

  lemma {:induction false} PlaceAt(us: seq<Usecase>, j: nat) returns (ui: nat, bi: nat)
    requires j < |Flat(us)|
    ensures ui < |us| && bi < |us[ui].bundles|
    ensures Flat(us)[j] == Placed(ui, us[ui].bundles[bi])
    ensures Flat(us)[..j] == Onto(Flat(us[..ui]), ui, us[ui].bundles, bi)
    decreases |us|
  {
    var n := |us| - 1;
    if j < |Flat(us[..n])| {
      ui, bi := PlaceAt(us[..n], j);
      assert us[..n][..ui] == us[..ui];
      assert Flat(us)[..j] == Flat(us[..n])[..j];
    } else {
      ui, bi := n, j - |Flat(us[..n])|;
      assert Flat(us)[..j] == Flat(us[..n]) + PlacedIn(n, us[n].bundles)[..bi];
    }
  }

  /** A fault of the j-th bundle listed. */
  ghost predicate BundleHas(us: seq<Usecase>, known: set<string>, j: nat, p: Problem) {
    j < |Flat(us)| && p in BundleFaults(us, SupersedesRel(Flat(us)), known, Flat(us)[..j], Flat(us)[j])
  }

  ghost predicate UsecaseHas(us: seq<Usecase>, ui: nat, p: Problem) { ui < |us| && p in UsecaseFaults(us, ui) }

  ghost function Bundles(us: seq<Usecase>, known: set<string>, ui: nat): nat -> seq<Problem>
    requires ui < |us|
  {
    BundlesAt(us, SupersedesRel(Flat(us)), known, Flat(us[..ui]), ui)
  }

  lemma BundlesHave(us: seq<Usecase>, known: set<string>, ui: nat, p: Problem)
    requires ui < |us|
    ensures p in UpTo(Bundles(us, known, ui), |us[ui].bundles|) ==> exists j: nat :: BundleHas(us, known, j, p)
  {
    UpToMembers(Bundles(us, known, ui), |us[ui].bundles|, p);
    if bi: nat :| bi < |us[ui].bundles| && p in Bundles(us, known, ui)(bi) {
      var j := PlaceOf(us, ui, bi);
      assert BundleHas(us, known, j, p);
    }
  }

  lemma HasBundle(us: seq<Usecase>, known: set<string>, j: nat, p: Problem) returns (ui: nat)
    requires BundleHas(us, known, j, p)
    ensures ui < |us| && p in UpTo(Bundles(us, known, ui), |us[ui].bundles|)
  {
    var bi;
    ui, bi := PlaceAt(us, j);
    UpToMembers(Bundles(us, known, ui), |us[ui].bundles|, p);
    assert p in Bundles(us, known, ui)(bi);
  }

  ghost function Walked(us: seq<Usecase>, known: set<string>): nat -> seq<Problem> {
    WalkAt(us, SupersedesRel(Flat(us)), known, FlatTo(us))
  }

  lemma WalkedIs(us: seq<Usecase>, known: set<string>, ui: nat)
    requires ui < |us|
    ensures Walked(us, known)(ui) == UsecaseFaults(us, ui) + UpTo(Bundles(us, known, ui), |us[ui].bundles|)
  {
    assert FlatTo(us)(ui) == Flat(us[..ui]);
  }

  lemma InEither<T>(a: seq<T>, b: seq<T>, x: T)
    ensures x in a + b <==> x in a || x in b
  {
  }

  lemma WalkedHas(us: seq<Usecase>, known: set<string>, ui: nat, p: Problem)
    requires ui < |us|
    ensures p in Walked(us, known)(ui) <==>
      UsecaseHas(us, ui, p) || p in UpTo(Bundles(us, known, ui), |us[ui].bundles|)
  {
    WalkedIs(us, known, ui);
    InEither(UsecaseFaults(us, ui), UpTo(Bundles(us, known, ui), |us[ui].bundles|), p);
  }

  lemma UsecaseOrBundle(us: seq<Usecase>, known: set<string>, ui: nat, p: Problem)
    requires ui < |us| && p in Walked(us, known)(ui)
    ensures UsecaseHas(us, ui, p) || exists j: nat :: BundleHas(us, known, j, p)
  {
    WalkedHas(us, known, ui, p);
    BundlesHave(us, known, ui, p);
  }

  lemma FromUsecase(us: seq<Usecase>, known: set<string>, ui: nat, p: Problem)
    requires UsecaseHas(us, ui, p)
    ensures p in UpTo(Walked(us, known), |us|)
  {
    WalkedHas(us, known, ui, p);
    UpToMembers(Walked(us, known), |us|, p);
  }

  lemma FromBundle(us: seq<Usecase>, known: set<string>, j: nat, p: Problem)
    requires BundleHas(us, known, j, p)
    ensures p in UpTo(Walked(us, known), |us|)
  {
    var ui := HasBundle(us, known, j, p);
    WalkedHas(us, known, ui, p);
    UpToMembers(Walked(us, known), |us|, p);
  }

  lemma WalkHas(us: seq<Usecase>, known: set<string>, p: Problem)
    ensures p in WalkFaults(us, known) <==>
      || (us == [] && p == Problem(Missing, []))
      || (exists ui: nat :: UsecaseHas(us, ui, p))
      || (exists j: nat :: BundleHas(us, known, j, p))
  {
    assert p in WalkFaults(us, known) <==>
      (us == [] && p == Problem(Missing, [])) || p in UpTo(Walked(us, known), |us|);
    UpToMembers(Walked(us, known), |us|, p);
    if ui: nat :| ui < |us| && p in Walked(us, known)(ui) {
      UsecaseOrBundle(us, known, ui, p);
    }
    if j: nat :| BundleHas(us, known, j, p) {
      FromBundle(us, known, j, p);
    }
    if ui: nat :| UsecaseHas(us, ui, p) {
      FromUsecase(us, known, ui, p);
    }
  }

  lemma UsecaseParts(us: seq<Usecase>, ui: nat, p: Problem)
    requires ui < |us|
    ensures p in UsecaseFaults(us, ui) <==>
      || p in IdFaults(us, ui) || p in BundlesMissing(us[ui])
      || exists i: nat :: i < |us[ui].deps| && p in DepFault(us[ui], i)
  {
    UpToMembers(DepFaults(us[ui]), |us[ui].deps|, p);
    assert forall i: nat :: i < |us[ui].deps| ==> DepFaults(us[ui])(i) == DepFault(us[ui], i);
  }

  ghost predicate OldHas(u: Usecase, e: Rel, b: Bundle, i: nat, p: Problem) {
    i < |b.supersedes| && p in OldFaults(u, e, b)(i)
  }

  lemma BundleParts(us: seq<Usecase>, known: set<string>, fs: seq<Placed>, q: Placed, p: Problem)
    requires q.ui < |us|
    ensures var e := SupersedesRel(Flat(us));
      p in BundleFaults(us, e, known, fs, q) <==>
      || p in BundleIdFaults(us, fs, q.b.id)
      || p in DeclarationFaults(us, e, known, fs, q)
      || exists i :: OldHas(us[q.ui], e, q.b, i, p)
  {
    var e := SupersedesRel(Flat(us));
    UpToMembers(OldFaults(us[q.ui], e, q.b), |q.b.supersedes|, p);
    if i: nat :| i < |q.b.supersedes| && p in OldFaults(us[q.ui], e, q.b)(i) {
      assert OldHas(us[q.ui], e, q.b, i, p);
    }
  }

  /** An entry of the requires lists that names no usecase. */
  ghost predicate UnknownDep(us: seq<Usecase>, u: Usecase, x: string) {
    u in us && x in u.deps && !(IsSlug(x) && exists w :: w in us && w.id == x)
  }

  lemma UnknownHas(us: seq<Usecase>, p: Problem)
    ensures p in UnknownFaults(us) <==>
      p.code == UnknownUsecase && |p.detail| == 1 && exists u :: UnknownDep(us, u, p.detail[0])
  {
    UpToMembers(UnknownAt(us), |us|, p);
    forall ui: nat | ui < |us|
      ensures p in UnknownAt(us)(ui) <==>
        p.code == UnknownUsecase && |p.detail| == 1 && UnknownDep(us, us[ui], p.detail[0])
    {
      UnknownFrom(us, us[ui], p);
    }
    if u :| p.code == UnknownUsecase && |p.detail| == 1 && UnknownDep(us, u, p.detail[0]) {
      var ui := PositionOf(us, u);
      UnknownFrom(us, us[ui], p);
      assert p in UnknownAt(us)(ui);
    }
  }

  lemma UnknownFrom(us: seq<Usecase>, u: Usecase, p: Problem)
    requires u in us
    ensures p in UpTo(DepsUnknown(us, u), |u.deps|) <==>
      p.code == UnknownUsecase && |p.detail| == 1 && UnknownDep(us, u, p.detail[0])
  {
    UpToMembers(DepsUnknown(us, u), |u.deps|, p);
    forall i: nat | i < |u.deps|
      ensures p in DepsUnknown(us, u)(i) <==>
        !Requirable(us, u.deps[i]) && p.code == UnknownUsecase && |p.detail| == 1 && p.detail[0] == u.deps[i]
    {
      OneIs(p, UnknownUsecase, u.deps[i]);
    }
  }

  /** A relation target that is neither built in nor reached. */
  ghost predicate BrokenTarget(us: seq<Usecase>, known: set<string>, u: Usecase, x: string) {
    u in us && IsSlug(u.id) && !Linked(us, known, u.id, x) &&
      exists b, ts :: b in u.bundles && ts in Targets(b) && x in ts
  }

  lemma LinkHas(us: seq<Usecase>, known: set<string>, p: Problem)
    ensures p in LinkFaults(us, known) <==>
      p.code == BrokenLink && |p.detail| == 1 && exists u :: BrokenTarget(us, known, u, p.detail[0])
  {
    UpToMembers(LinksAt(us, known), |us|, p);
    forall ui: nat | ui < |us|
      ensures p in LinksAt(us, known)(ui) <==>
        p.code == BrokenLink && |p.detail| == 1 && BrokenTarget(us, known, us[ui], p.detail[0])
    {
      TargetsHave(LinkableFrom(us, known, us[ui].id), us[ui].bundles, p);
      if |p.detail| == 1 {
        LinkableIff(us, known, us[ui].id, p.detail[0]);
      }
    }
    if u :| p.code == BrokenLink && |p.detail| == 1 && BrokenTarget(us, known, u, p.detail[0]) {
      var ui := PositionOf(us, u);
      assert p in LinksAt(us, known)(ui);
    }
  }

  ghost predicate NamesTarget(props: seq<seq<string>>, x: string) { exists ts :: ts in props && x in ts }

  lemma TargetsHave(ok: set<string>, bs: seq<Bundle>, p: Problem)
    ensures p in TargetFaults(ok, bs) <==>
      p.code == BrokenLink && |p.detail| == 1 && p.detail[0] !in ok &&
        exists b, ts :: b in bs && ts in Targets(b) && p.detail[0] in ts
  {
    var f := BundleTargetsAt(ok, bs);
    UpToMembers(f, |bs|, p);
    forall i: nat | i < |bs|
      ensures p in f(i) <==>
        p.code == BrokenLink && |p.detail| == 1 && p.detail[0] !in ok && NamesTarget(Targets(bs[i]), p.detail[0])
    {
      ListsHave(ok, Targets(bs[i]), p);
    }
    if |p.detail| == 1 {
      forall b, ts | b in bs && ts in Targets(b) && p.detail[0] in ts
        ensures exists i: nat :: i < |bs| && NamesTarget(Targets(bs[i]), p.detail[0])
      {
        var i := PositionOf(bs, b);
        assert NamesTarget(Targets(bs[i]), p.detail[0]);
      }
    }
  }

  lemma ListsHave(ok: set<string>, props: seq<seq<string>>, p: Problem)
    ensures p in UpTo(TargetListAt(ok, props), |props|) <==>
      p.code == BrokenLink && |p.detail| == 1 && p.detail[0] !in ok && NamesTarget(props, p.detail[0])
  {
    var f := TargetListAt(ok, props);
    UpToMembers(f, |props|, p);
    forall i: nat | i < |props|
      ensures p in f(i) <==> p.code == BrokenLink && |p.detail| == 1 && p.detail[0] !in ok && p.detail[0] in props[i]
    {
      ListHas(ok, props[i], p);
    }
    if |p.detail| == 1 && NamesTarget(props, p.detail[0]) {
      var ts :| ts in props && p.detail[0] in ts;
      var i := PositionOf(props, ts);
    }
  }

  lemma OneIs(p: Problem, code: Code, x: string)
    ensures p == Problem(code, [x]) <==> p.code == code && |p.detail| == 1 && p.detail[0] == x
  {
    if |p.detail| == 1 {
      assert p.detail == [p.detail[0]];
    }
  }

  lemma ListHas(ok: set<string>, ts: seq<string>, p: Problem)
    ensures p in UpTo(TargetAt(ok, ts), |ts|) <==>
      p.code == BrokenLink && |p.detail| == 1 && p.detail[0] !in ok && p.detail[0] in ts
  {
    UpToMembers(TargetAt(ok, ts), |ts|, p);
    forall i: nat | i < |ts|
      ensures p in TargetAt(ok, ts)(i) <==>
        ts[i] !in ok && p.code == BrokenLink && |p.detail| == 1 && p.detail[0] == ts[i]
    {
      OneIs(p, BrokenLink, ts[i]);
    }
  }

  // ---- the reasons of one usecase and of one bundle ---------------------------------------

  ghost predicate Repeats(s: seq<string>, x: string) { exists i, j :: 0 <= i < j < |s| && s[i] == x && s[j] == x }

  lemma RepeatsIff(s: seq<string>, x: string)
    ensures Repeats(s, x) <==> exists j :: 0 <= j < |s| && s[j] == x && x in s[..j]
  {
    if j :| 0 <= j < |s| && s[j] == x && x in s[..j] {
      var i := PositionOf(s[..j], x);
      assert s[i] == x;
    }
    if i, j :| 0 <= i < j < |s| && s[i] == x && s[j] == x {
      assert s[..j][i] == x;
    }
  }

  ghost predicate UsecaseReason(us: seq<Usecase>, ui: nat, p: Problem)
    requires ui < |us|
  {
    var u := us[ui];
    || (p == Problem(BadId, [u.id]) && !IsSlug(u.id))
    || (p == Problem(Duplicate, [u.id]) && IsSlug(u.id) && exists j :: 0 <= j < ui && us[j].id == u.id)
    || (p == Problem(Missing, [u.id]) && u.bundles == [])
    || (p == Problem(CycleFound, [u.id]) && u.id in u.deps)
    || (p.code == Duplicate && |p.detail| == 1 && Repeats(u.deps, p.detail[0]))
  }

  lemma UsecaseReasons(us: seq<Usecase>, ui: nat, p: Problem)
    requires ui < |us|
    ensures UsecaseHas(us, ui, p) <==> UsecaseReason(us, ui, p)
  {
    UsecaseParts(us, ui, p);
    DepReasons(us[ui], p);
  }

  lemma DepReasons(u: Usecase, p: Problem)
    ensures (exists i: nat :: i < |u.deps| && p in DepFault(u, i)) <==>
      || (p == Problem(CycleFound, [u.id]) && u.id in u.deps)
      || (p.code == Duplicate && |p.detail| == 1 && Repeats(u.deps, p.detail[0]))
  {
    forall i: nat | i < |u.deps|
      ensures p in DepFault(u, i) <==>
        || (p == Problem(CycleFound, [u.id]) && u.deps[i] == u.id)
        || (p.code == Duplicate && |p.detail| == 1 && u.deps[i] == p.detail[0] && p.detail[0] in u.deps[..i])
    {
      OneIs(p, Duplicate, u.deps[i]);
    }
    if |p.detail| == 1 {
      RepeatsIff(u.deps, p.detail[0]);
    }
    if p == Problem(CycleFound, [u.id]) && u.id in u.deps {
      var i := PositionOf(u.deps, u.id);
      assert p in DepFault(u, i);
    }
  }

  /** One entry of a supersedes list: itself, not of the usecase, or superseding in turn; or listed twice. */
  ghost predicate OldReason(u: Usecase, e: Rel, b: Bundle, p: Problem) {
    |p.detail| == 1 && var x := p.detail[0];
      || (p.code == CycleFound && x in b.supersedes && x == b.id)
      || (p.code == Duplicate && Repeats(b.supersedes, x) && x != b.id)
      || (p.code == BrokenLink && x in b.supersedes && x != b.id && !InUsecase(u, x))
      || (p.code == BadField && x in b.supersedes && x != b.id && InUsecase(u, x) && Supersedes(e, x))
  }

  /** The first entry that names x. */
  lemma FirstEntry(s: seq<string>, x: string) returns (i: nat)
    requires x in s
    ensures i < |s| && s[i] == x && x !in s[..i]
  {
    i := IndexOf(s, x);
  }

  lemma OldAt(u: Usecase, e: Rel, b: Bundle, i: nat, p: Problem)
    requires i < |b.supersedes|
    ensures p in OldFaults(u, e, b)(i) ==> OldReason(u, e, b, p)
  {
    var x := b.supersedes[i];
    RepeatsIff(b.supersedes, x);
  }

  lemma OldFirst(u: Usecase, e: Rel, b: Bundle, p: Problem) returns (i: nat)
    requires OldReason(u, e, b, p) && p.code != Duplicate
    ensures OldHas(u, e, b, i, p)
  {
    assert p == Problem(p.code, [p.detail[0]]);
    i := FirstEntry(b.supersedes, p.detail[0]);
  }

  lemma OldAgain(u: Usecase, e: Rel, b: Bundle, p: Problem) returns (j: nat)
    requires OldReason(u, e, b, p) && p.code == Duplicate
    ensures OldHas(u, e, b, j, p)
  {
    assert p == Problem(p.code, [p.detail[0]]);
    RepeatsIff(b.supersedes, p.detail[0]);
    j :| 0 <= j < |b.supersedes| && b.supersedes[j] == p.detail[0] && p.detail[0] in b.supersedes[..j];
  }

  lemma OldReasons(u: Usecase, e: Rel, b: Bundle, p: Problem)
    ensures (exists i :: OldHas(u, e, b, i, p)) <==> OldReason(u, e, b, p)
  {
    if i :| OldHas(u, e, b, i, p) {
      OldAt(u, e, b, i, p);
    }
    if OldReason(u, e, b, p) {
      var i: nat;
      if p.code == Duplicate {
        i := OldAgain(u, e, b, p);
      } else {
        i := OldFirst(u, e, b, p);
      }
    }
  }

  /** Bundle j tries to claim k, after the claims cs. */
  ghost predicate Tries(us: seq<Usecase>, known: set<string>, j: nat, k: string, cs: seq<Claim>) {
    j < |Flat(us)| && var e, fs, q := SupersedesRel(Flat(us)), Flat(us)[..j], Flat(us)[j];
      || (q.b.typeDecl.Some? && q.b.typeDecl.value.xKey == k && cs == Claims(us, e, known, fs, k))
      || (q.b.collection.Some? && q.b.collection.value.xKey == k && cs == HalfClaims(us, e, known, fs, q, k))
  }

  /** An ill-formed handle, a built-in one, or one held by a bundle that is no supersedes neighbour. */
  ghost predicate HandleReason(e: Rel, known: set<string>, cs: seq<Claim>, id: string, k: string, p: Problem) {
    || (p == Problem(BadId, [k]) && !IsHandle(k))
    || (p == Problem(Duplicate, [k]) && IsHandle(k) && k in known)
    || (IsHandle(k) && k !in known && Outsider(e, id, Holders(cs)) != "" &&
        p == Problem(Duplicate, [k, Outsider(e, id, Holders(cs))]))
  }

  ghost predicate ClaimRefused(us: seq<Usecase>, known: set<string>, j: nat, k: string, cs: seq<Claim>, p: Problem) {
    Tries(us, known, j, k, cs) && HandleReason(SupersedesRel(Flat(us)), known, cs, Flat(us)[j].b.id, k, p)
  }

  lemma DeclarationReasons(us: seq<Usecase>, known: set<string>, j: nat, p: Problem)
    requires j < |Flat(us)|
    ensures p in DeclarationFaults(us, SupersedesRel(Flat(us)), known, Flat(us)[..j], Flat(us)[j]) <==>
      || (p == Problem(BadField, [Flat(us)[j].b.id]) && Flat(us)[j].b.typeDecl.Some? && Flat(us)[j].b.collection.Some?)
      || exists k, cs :: ClaimRefused(us, known, j, k, cs, p)
  {
    var e, fs, q := SupersedesRel(Flat(us)), Flat(us)[..j], Flat(us)[j];
    if q.b.typeDecl.Some? {
      var k := q.b.typeDecl.value.xKey;
      var cs := Claims(us, e, known, fs, k);
      assert Tries(us, known, j, k, cs);
      assert p in TypeFaults(us, e, known, fs, q) <==> ClaimRefused(us, known, j, k, cs, p);
    }
    if q.b.collection.Some? {
      var k := q.b.collection.value.xKey;
      var cs := HalfClaims(us, e, known, fs, q, k);
      assert Tries(us, known, j, k, cs);
      assert p in CollectionFaults(us, e, known, fs, q) <==> ClaimRefused(us, known, j, k, cs, p);
    }
  }

  /** Bundle i is the first listed with that id. */
  ghost predicate FirstWithId(us: seq<Usecase>, i: nat, id: string) {
    i < |Flat(us)| && Flat(us)[i].b.id == id && forall h :: 0 <= h < i ==> Flat(us)[h].b.id != id
  }

  /** Bundle j has the id of bundle i, the first listed with it; the problem names the usecase of that one. */
  ghost predicate ListedBefore(us: seq<Usecase>, i: nat, j: nat, p: Problem) {
    && i < j < |Flat(us)| && FirstWithId(us, i, Flat(us)[j].b.id) && IsBundleId(Flat(us)[j].b.id)
    && p == Problem(Duplicate, [Flat(us)[j].b.id, us[Flat(us)[i].ui].id])
  }

  ghost predicate BundleReason(us: seq<Usecase>, known: set<string>, j: nat, p: Problem)
    requires j < |Flat(us)|
  {
    var q := Flat(us)[j];
    || (p == Problem(BadId, [q.b.id]) && !IsBundleId(q.b.id))
    || (exists i: nat :: ListedBefore(us, i, j, p))
    || (p == Problem(BadField, [q.b.id]) && q.b.typeDecl.Some? && q.b.collection.Some?)
    || (exists k, cs :: ClaimRefused(us, known, j, k, cs, p))
    || OldReason(us[q.ui], SupersedesRel(Flat(us)), q.b, p)
  }

  lemma IdReasons(us: seq<Usecase>, j: nat, p: Problem)
    requires j < |Flat(us)|
    ensures var q := Flat(us)[j];
      p in BundleIdFaults(us, Flat(us)[..j], q.b.id) <==>
      || (p == Problem(BadId, [q.b.id]) && !IsBundleId(q.b.id))
      || (exists i: nat :: ListedBefore(us, i, j, p))
  {
    var all, q := Flat(us), Flat(us)[j];
    var fs := all[..j];
    var i := FirstListed(fs, q.b.id);
    assert forall h :: 0 <= h < j ==> fs[h] == all[h];
    if i < j {
      assert FirstWithId(us, i, q.b.id) && UsecaseOf(us, fs[i]) == us[all[i].ui].id;
      assert forall h: nat :: ListedBefore(us, h, j, p) ==> h == i;
      assert p == Problem(Duplicate, [q.b.id, us[all[i].ui].id]) && IsBundleId(q.b.id) ==> ListedBefore(us, i, j, p);
    } else {
      assert forall h: nat :: !ListedBefore(us, h, j, p);
    }
  }

  lemma BundleReasons(us: seq<Usecase>, known: set<string>, j: nat, p: Problem)
    requires j < |Flat(us)|
    ensures BundleHas(us, known, j, p) <==> BundleReason(us, known, j, p)
  {
    var q := Flat(us)[j];
    BundleParts(us, known, Flat(us)[..j], q, p);
    IdReasons(us, j, p);
    DeclarationReasons(us, known, j, p);
    OldReasons(us[q.ui], SupersedesRel(Flat(us)), q.b, p);
  }

  // ---- code by code --------------------------------------------------------------------

  /** What the walk and the link checks say; cycles of the graph come on top. */
  ghost predicate Said(us: seq<Usecase>, known: set<string>, p: Problem) {
    || (us == [] && p == Problem(Missing, []))
    || (exists ui: nat :: ui < |us| && UsecaseReason(us, ui, p))
    || (exists j: nat :: j < |Flat(us)| && BundleReason(us, known, j, p))
    || (p.code == UnknownUsecase && |p.detail| == 1 && exists u :: UnknownDep(us, u, p.detail[0]))
    || (p.code == BrokenLink && |p.detail| == 1 && exists u :: BrokenTarget(us, known, u, p.detail[0]))
  }

  lemma UsecasesSaid(us: seq<Usecase>, p: Problem)
    ensures (exists ui: nat :: UsecaseHas(us, ui, p)) <==> exists ui: nat :: ui < |us| && UsecaseReason(us, ui, p)
  {
    forall ui: nat | ui < |us|
      ensures UsecaseHas(us, ui, p) <==> UsecaseReason(us, ui, p)
    {
      UsecaseReasons(us, ui, p);
    }
  }

  lemma BundlesSaid(us: seq<Usecase>, known: set<string>, p: Problem)
    ensures (exists j: nat :: BundleHas(us, known, j, p)) <==>
      exists j: nat :: j < |Flat(us)| && BundleReason(us, known, j, p)
  {
    forall j: nat | j < |Flat(us)|
      ensures BundleHas(us, known, j, p) <==> BundleReason(us, known, j, p)
    {
      BundleReasons(us, known, j, p);
    }
  }

  lemma SaidIff(us: seq<Usecase>, known: set<string>, p: Problem)
    ensures Said(us, known, p) <==>
      p in WalkFaults(us, known) || p in UnknownFaults(us) || p in LinkFaults(us, known)
  {
    WalkHas(us, known, p);
    UnknownHas(us, p);
    LinkHas(us, known, p);
    UsecasesSaid(us, p);
    BundlesSaid(us, known, p);
  }

  lemma ReportedIff(us: seq<Usecase>, known: set<string>, problems: seq<Problem>, p: Problem)
    requires IsReport(us, known, problems) && p.code != CycleFound
    ensures p in problems <==> Said(us, known, p)
  {
    SaidIff(us, known, p);
    var cycles :| problems == WalkFaults(us, known) + UnknownFaults(us) + cycles + LinkFaults(us, known) &&
      CycleReports(us, cycles);
  }

  /** Whoever declares a handle tries to claim it. */
  lemma TriesToClaim(us: seq<Usecase>, known: set<string>, j: nat, k: string) returns (cs: seq<Claim>)
    requires j < |Flat(us)| && k in Handles(Flat(us)[j].b)
    ensures Tries(us, known, j, k, cs)
  {
    var e, fs, q := SupersedesRel(Flat(us)), Flat(us)[..j], Flat(us)[j];
    if q.b.typeDecl.Some? && q.b.typeDecl.value.xKey == k {
      cs := Claims(us, e, known, fs, k);
    } else {
      cs := HalfClaims(us, e, known, fs, q, k);
    }
  }

  lemma TriedIsDeclared(us: seq<Usecase>, known: set<string>, j: nat, k: string, cs: seq<Claim>)
    requires Tries(us, known, j, k, cs)
    ensures j < |Flat(us)| && k in Handles(Flat(us)[j].b) && Flat(us)[j] in Flat(us)
  {
  }

  /** An id or a handle outside its grammar. */
  ghost predicate IllFormed(us: seq<Usecase>, x: string) {
    || (exists u :: u in us && u.id == x && !IsSlug(x))
    || (exists q :: q in Flat(us) && q.b.id == x && !IsBundleId(x))
    || (exists q :: q in Flat(us) && x in Handles(q.b) && !IsHandle(x))
  }

  lemma BadIdSound(us: seq<Usecase>, known: set<string>, p: Problem)
    requires Said(us, known, p) && p.code == BadId
    ensures |p.detail| == 1 && IllFormed(us, p.detail[0])
  {
    if ui: nat :| ui < |us| && UsecaseReason(us, ui, p) {
      assert us[ui] in us;
    } else {
      var j: nat :| j < |Flat(us)| && BundleReason(us, known, j, p);
      assert Flat(us)[j] in Flat(us);
      if k, cs :| ClaimRefused(us, known, j, k, cs, p) {
        TriedIsDeclared(us, known, j, k, cs);
      }
    }
  }

  lemma BadIdComplete(us: seq<Usecase>, known: set<string>, x: string)
    requires IllFormed(us, x)
    ensures Said(us, known, Problem(BadId, [x]))
  {
    var p := Problem(BadId, [x]);
    if u :| u in us && u.id == x && !IsSlug(x) {
      var ui := PositionOf(us, u);
      assert UsecaseReason(us, ui, p);
    } else if q :| q in Flat(us) && q.b.id == x && !IsBundleId(x) {
      var j := PositionOf(Flat(us), q);
      assert BundleReason(us, known, j, p);
    } else {
      var q :| q in Flat(us) && x in Handles(q.b) && !IsHandle(x);
      var j := PositionOf(Flat(us), q);
      var cs := TriesToClaim(us, known, j, x);
      assert ClaimRefused(us, known, j, x, cs, p);
      assert BundleReason(us, known, j, p);
    }
  }

  /** BadId: exactly the ids of usecases and bundles, and the handles, that are outside their grammar. */
  lemma BadIds(us: seq<Usecase>, known: set<string>, problems: seq<Problem>, d: seq<string>)
    requires IsReport(us, known, problems)
    ensures Problem(BadId, d) in problems <==> |d| == 1 && IllFormed(us, d[0])
  {
    ReportedIff(us, known, problems, Problem(BadId, d));
    if Said(us, known, Problem(BadId, d)) {
      BadIdSound(us, known, Problem(BadId, d));
    }
    if |d| == 1 && IllFormed(us, d[0]) {
      BadIdComplete(us, known, d[0]);
      assert d == [d[0]];
    }
  }

  /** What a bundle is never reported for. */
  lemma BundleCodes(us: seq<Usecase>, known: set<string>, j: nat, p: Problem)
    requires j < |Flat(us)| && BundleReason(us, known, j, p)
    ensures p.code != Missing && p.code != UnknownUsecase
  {
  }

  lemma MissingSound(us: seq<Usecase>, known: set<string>, p: Problem)
    requires Said(us, known, p) && p.code == Missing
    ensures (us == [] && p.detail == []) || exists u :: u in us && u.bundles == [] && p.detail == [u.id]
  {
    if ui: nat :| ui < |us| && UsecaseReason(us, ui, p) {
      assert us[ui] in us;
    } else if j: nat :| j < |Flat(us)| && BundleReason(us, known, j, p) {
      BundleCodes(us, known, j, p);
    }
  }

  lemma MissingComplete(us: seq<Usecase>, known: set<string>, u: Usecase)
    requires u in us && u.bundles == []
    ensures Said(us, known, Problem(Missing, [u.id]))
  {
    var ui := PositionOf(us, u);
    assert UsecaseReason(us, ui, Problem(Missing, [u.id]));
  }

  /** Missing: an empty catalog, and exactly the usecases without bundles. */
  lemma Missings(us: seq<Usecase>, known: set<string>, problems: seq<Problem>, d: seq<string>)
    requires IsReport(us, known, problems)
    ensures Problem(Missing, d) in problems <==>
      (us == [] && d == []) || exists u :: u in us && u.bundles == [] && d == [u.id]
  {
    ReportedIff(us, known, problems, Problem(Missing, d));
    if Said(us, known, Problem(Missing, d)) {
      MissingSound(us, known, Problem(Missing, d));
    }
    if u :| u in us && u.bundles == [] && d == [u.id] {
      MissingComplete(us, known, u);
    }
  }

  lemma UnknownSound(us: seq<Usecase>, known: set<string>, p: Problem)
    requires p.code == UnknownUsecase
    ensures Said(us, known, p) <==> |p.detail| == 1 && exists u :: UnknownDep(us, u, p.detail[0])
  {
    forall j: nat | j < |Flat(us)|
      ensures !BundleReason(us, known, j, p)
    {
      if BundleReason(us, known, j, p) {
        BundleCodes(us, known, j, p);
      }
    }
  }

  /** UnknownUsecase: exactly the entries of requires lists that name no usecase with a slug for an id. */
  lemma UnknownUsecases(us: seq<Usecase>, known: set<string>, problems: seq<Problem>, d: seq<string>)
    requires IsReport(us, known, problems)
    ensures Problem(UnknownUsecase, d) in problems <==> |d| == 1 && exists u :: UnknownDep(us, u, d[0])
  {
    ReportedIff(us, known, problems, Problem(UnknownUsecase, d));
    UnknownSound(us, known, Problem(UnknownUsecase, d));
  }

  // ---- supersedes lists, double definitions and targets ----------------------------------

  /** Some bundle of that id supersedes another. */
  ghost predicate StandsIn(us: seq<Usecase>, x: string) {
    exists r :: r in Flat(us) && r.b.id == x && r.b.supersedes != []
  }

  lemma StandsInIff(us: seq<Usecase>, x: string)
    ensures Supersedes(SupersedesRel(Flat(us)), x) <==> StandsIn(us, x)
  {
    if y :| (x, y) in SupersedesRel(Flat(us)) {
      var r, older :| r in Flat(us) && older in r.b.supersedes && (x, y) == (r.b.id, older);
    }
    if r :| r in Flat(us) && r.b.id == x && r.b.supersedes != [] {
      assert r.b.supersedes[0] in r.b.supersedes;
      assert (x, r.b.supersedes[0]) in SupersedesRel(Flat(us));
    }
  }

  /** The bundle defines both, or it supersedes a bundle of its usecase that supersedes in turn. */
  ghost predicate BadFieldAt(us: seq<Usecase>, q: Placed, x: string) {
    && q in Flat(us) && q.ui < |us|
    && ((q.b.id == x && q.b.typeDecl.Some? && q.b.collection.Some?) ||
        (x in q.b.supersedes && x != q.b.id && (exists b :: b in us[q.ui].bundles && b.id == x) && StandsIn(us, x)))
  }

  /** The reasons of a bundle that are about its list, and the one about its declarations. */
  lemma ListReasons(us: seq<Usecase>, known: set<string>, j: nat, p: Problem)
    requires j < |Flat(us)| && (p.code == BadField || p.code == BrokenLink || p.code == CycleFound)
    ensures var q := Flat(us)[j];
      BundleReason(us, known, j, p) <==>
      || (p == Problem(BadField, [q.b.id]) && q.b.typeDecl.Some? && q.b.collection.Some?)
      || OldReason(us[q.ui], SupersedesRel(Flat(us)), q.b, p)
  {
  }

  lemma OldByCode(u: Usecase, e: Rel, b: Bundle, x: string)
    ensures OldReason(u, e, b, Problem(BrokenLink, [x])) <==>
      x in b.supersedes && x != b.id && forall c :: c in u.bundles ==> c.id != x
    ensures OldReason(u, e, b, Problem(BadField, [x])) <==>
      x in b.supersedes && x != b.id && (exists c :: c in u.bundles && c.id == x) && Supersedes(e, x)
    ensures OldReason(u, e, b, Problem(CycleFound, [x])) <==> x in b.supersedes && x == b.id
  {
    assert forall code :: Problem(code, [x]).detail[0] == x;
  }

  lemma BundleBadField(us: seq<Usecase>, known: set<string>, j: nat, x: string)
    requires j < |Flat(us)|
    ensures BundleReason(us, known, j, Problem(BadField, [x])) <==> BadFieldAt(us, Flat(us)[j], x)
  {
    var q := Flat(us)[j];
    ListReasons(us, known, j, Problem(BadField, [x]));
    OldByCode(us[q.ui], SupersedesRel(Flat(us)), q.b, x);
    StandsInIff(us, x);
    SameOne(BadField, q.b.id, x);
    assert q in Flat(us);
  }

  lemma SameOne(code: Code, x: string, y: string)
    ensures Problem(code, [x]) == Problem(code, [y]) <==> x == y
  {
    assert [x][0] == x && [y][0] == y;
  }

  /** Every reason but a missing or misplaced usecase is one string, or two for a duplicate. */
  lemma BundleDetail(us: seq<Usecase>, known: set<string>, j: nat, p: Problem)
    requires j < |Flat(us)| && BundleReason(us, known, j, p) && p.code != Duplicate
    ensures |p.detail| == 1 && p.detail == [p.detail[0]]
  {
  }

  lemma BadFieldSound(us: seq<Usecase>, known: set<string>, p: Problem)
    requires Said(us, known, p) && p.code == BadField
    ensures |p.detail| == 1 && exists q :: BadFieldAt(us, q, p.detail[0])
  {
    var j: nat :| j < |Flat(us)| && BundleReason(us, known, j, p);
    BundleDetail(us, known, j, p);
    BundleBadField(us, known, j, p.detail[0]);
  }

  lemma BadFieldComplete(us: seq<Usecase>, known: set<string>, q: Placed, x: string)
    requires BadFieldAt(us, q, x)
    ensures Said(us, known, Problem(BadField, [x]))
  {
    var j := PositionOf(Flat(us), q);
    BundleBadField(us, known, j, x);
  }

  /** BadField: bundles that define both a type and a collection, and superseded bundles that supersede in turn. */
  lemma BadFields(us: seq<Usecase>, known: set<string>, problems: seq<Problem>, d: seq<string>)
    requires IsReport(us, known, problems)
    ensures Problem(BadField, d) in problems <==> |d| == 1 && exists q :: BadFieldAt(us, q, d[0])
  {
    ReportedIff(us, known, problems, Problem(BadField, d));
    if Said(us, known, Problem(BadField, d)) {
      BadFieldSound(us, known, Problem(BadField, d));
    }
    if |d| == 1 {
      if q :| BadFieldAt(us, q, d[0]) {
        BadFieldComplete(us, known, q, d[0]);
        assert d == [d[0]];
      }
    }
  }

  /** The bundle supersedes an id that is no bundle of its usecase. */
  ghost predicate BrokenAt(us: seq<Usecase>, q: Placed, x: string) {
    && q in Flat(us) && q.ui < |us| && x in q.b.supersedes && x != q.b.id
    && forall b :: b in us[q.ui].bundles ==> b.id != x
  }

  /** A superseded id that is no bundle of the usecase, or a target that is neither built in nor reached. */
  ghost predicate BrokenReason(us: seq<Usecase>, known: set<string>, x: string) {
    (exists q :: BrokenAt(us, q, x)) || exists u :: BrokenTarget(us, known, u, x)
  }

  lemma BundleBroken(us: seq<Usecase>, known: set<string>, j: nat, x: string)
    requires j < |Flat(us)|
    ensures BundleReason(us, known, j, Problem(BrokenLink, [x])) <==> BrokenAt(us, Flat(us)[j], x)
  {
    var q := Flat(us)[j];
    ListReasons(us, known, j, Problem(BrokenLink, [x]));
    OldByCode(us[q.ui], SupersedesRel(Flat(us)), q.b, x);
    assert q in Flat(us);
  }

  lemma BrokenSound(us: seq<Usecase>, known: set<string>, p: Problem)
    requires Said(us, known, p) && p.code == BrokenLink
    ensures |p.detail| == 1 && BrokenReason(us, known, p.detail[0])
  {
    if j: nat :| j < |Flat(us)| && BundleReason(us, known, j, p) {
      BundleDetail(us, known, j, p);
      BundleBroken(us, known, j, p.detail[0]);
    }
  }

  lemma BrokenComplete(us: seq<Usecase>, known: set<string>, x: string)
    requires BrokenReason(us, known, x)
    ensures Said(us, known, Problem(BrokenLink, [x]))
  {
    if q :| BrokenAt(us, q, x) {
      var j := PositionOf(Flat(us), q);
      BundleBroken(us, known, j, x);
    } else {
      assert Problem(BrokenLink, [x]).detail[0] == x;
    }
  }

  /** BrokenLink: superseded ids that are no bundle of the usecase, and targets neither built in nor reached. */
  lemma BrokenLinks(us: seq<Usecase>, known: set<string>, problems: seq<Problem>, d: seq<string>)
    requires IsReport(us, known, problems)
    ensures Problem(BrokenLink, d) in problems <==> |d| == 1 && BrokenReason(us, known, d[0])
  {
    ReportedIff(us, known, problems, Problem(BrokenLink, d));
    if Said(us, known, Problem(BrokenLink, d)) {
      BrokenSound(us, known, Problem(BrokenLink, d));
    }
    if |d| == 1 && BrokenReason(us, known, d[0]) {
      BrokenComplete(us, known, d[0]);
      assert d == [d[0]];
    }
  }

  // ---- duplicates ----------------------------------------------------------------------

  /** A slug of two usecases, an entry repeated in a list, or a handle that is built in. */
  ghost predicate Twice(us: seq<Usecase>, known: set<string>, x: string) {
    || (IsSlug(x) && exists i, j :: 0 <= i < j < |us| && us[i].id == x && us[j].id == x)
    || (exists u :: u in us && Repeats(u.deps, x))
    || (exists q :: q in Flat(us) && x != q.b.id && Repeats(q.b.supersedes, x))
    || (IsHandle(x) && x in known && exists q :: q in Flat(us) && x in Handles(q.b))
  }

  /** Two bundles with one well-formed id, where y is the usecase of the first listed. */
  ghost predicate ListedTwice(us: seq<Usecase>, x: string, y: string) {
    IsBundleId(x) && exists i: nat, j: nat :: SecondListing(us, i, j, x) && us[Flat(us)[i].ui].id == y
  }

  ghost predicate SecondListing(us: seq<Usecase>, i: nat, j: nat, x: string) {
    i < j < |Flat(us)| && FirstWithId(us, i, x) && Flat(us)[j].b.id == x
  }

  /** The i-th claim on x is y's, no supersedes neighbour of the claimant, and all before it are neighbours. */
  ghost predicate FirstStranger(e: Rel, cs: seq<Claim>, id: string, y: string, i: nat) {
    && i < |cs| && cs[i].bundle == y && !Shares(e, id, y)
    && forall h :: 0 <= h < i ==> Shares(e, id, cs[h].bundle)
  }

  lemma {:induction false} OutsiderIs(e: Rel, id: string, holders: seq<string>, i: nat)
    requires i < |holders| && !Shares(e, id, holders[i]) && forall h :: 0 <= h < i ==> Shares(e, id, holders[h])
    ensures Outsider(e, id, holders) == holders[i]
  {
    if i > 0 {
      OutsiderIs(e, id, holders[1..], i - 1);
    }
  }

  lemma {:induction false} OutsiderFound(e: Rel, id: string, holders: seq<string>) returns (i: nat)
    requires Outsider(e, id, holders) != ""
    ensures i < |holders| && holders[i] == Outsider(e, id, holders) && !Shares(e, id, holders[i])
    ensures forall h :: 0 <= h < i ==> Shares(e, id, holders[h])
  {
    i := 0;
    if Shares(e, id, holders[0]) {
      i := OutsiderFound(e, id, holders[1..]);
      i := i + 1;
    }
  }

  lemma StrangerIff(e: Rel, cs: seq<Claim>, id: string, y: string)
    requires y != ""
    ensures Outsider(e, id, Holders(cs)) == y <==> exists i: nat :: FirstStranger(e, cs, id, y, i)
  {
    assert forall h :: 0 <= h < |cs| ==> Holders(cs)[h] == cs[h].bundle;
    if Outsider(e, id, Holders(cs)) == y {
      var i := OutsiderFound(e, id, Holders(cs));
      assert FirstStranger(e, cs, id, y, i);
    }
    if i: nat :| FirstStranger(e, cs, id, y, i) {
      OutsiderIs(e, id, Holders(cs), i);
    }
  }

  /** A bundle tries to claim x while y, no supersedes neighbour of it, is the first such holder on record. */
  ghost predicate HeldBy(us: seq<Usecase>, known: set<string>, x: string, y: string) {
    IsHandle(x) && x !in known && y != "" && exists j: nat, cs, i: nat ::
      Tries(us, known, j, x, cs) && FirstStranger(SupersedesRel(Flat(us)), cs, Flat(us)[j].b.id, y, i)
  }

  /** A bundle's duplicates: its own list, an id listed before, or a refused claim. */
  lemma BundleTwice(us: seq<Usecase>, known: set<string>, j: nat, p: Problem)
    requires j < |Flat(us)| && BundleReason(us, known, j, p) && p.code == Duplicate
    ensures DuplicateReason(us, known, p.detail)
  {
    assert Flat(us)[j] in Flat(us);
    if i: nat :| ListedBefore(us, i, j, p) {
      assert SecondListing(us, i, j, p.detail[0]) && ListedTwice(us, p.detail[0], p.detail[1]);
    } else if k, cs :| ClaimRefused(us, known, j, k, cs, p) {
      RefusedSound(us, known, j, k, cs, p);
    }
  }

  ghost predicate DuplicateReason(us: seq<Usecase>, known: set<string>, d: seq<string>) {
    || (|d| == 1 && Twice(us, known, d[0]))
    || (|d| == 2 && (ListedTwice(us, d[0], d[1]) || HeldBy(us, known, d[0], d[1])))
  }

  lemma TwiceSound(us: seq<Usecase>, known: set<string>, p: Problem)
    requires Said(us, known, p) && p.code == Duplicate
    ensures DuplicateReason(us, known, p.detail)
  {
    if ui: nat :| ui < |us| && UsecaseReason(us, ui, p) {
      assert us[ui] in us;
    } else {
      var j: nat :| j < |Flat(us)| && BundleReason(us, known, j, p);
      BundleTwice(us, known, j, p);
    }
  }

  lemma RefusedSound(us: seq<Usecase>, known: set<string>, j: nat, k: string, cs: seq<Claim>, p: Problem)
    requires ClaimRefused(us, known, j, k, cs, p) && p.code == Duplicate
    ensures (|p.detail| == 1 && Twice(us, known, p.detail[0])) ||
            (|p.detail| == 2 && HeldBy(us, known, p.detail[0], p.detail[1]))
  {
    TriedIsDeclared(us, known, j, k, cs);
    if k !in known {
      var e, id := SupersedesRel(Flat(us)), Flat(us)[j].b.id;
      var y := Outsider(e, id, Holders(cs));
      StrangerIff(e, cs, id, y);
      var i: nat :| FirstStranger(e, cs, id, y, i);
      assert HeldBy(us, known, k, y);
    }
  }

  lemma TwiceComplete(us: seq<Usecase>, known: set<string>, x: string)
    requires Twice(us, known, x)
    ensures Said(us, known, Problem(Duplicate, [x]))
  {
    var p := Problem(Duplicate, [x]);
    if i, j :| IsSlug(x) && 0 <= i < j < |us| && us[i].id == x && us[j].id == x {
      assert UsecaseReason(us, j, p);
    } else if u :| u in us && Repeats(u.deps, x) {
      var ui := PositionOf(us, u);
      assert UsecaseReason(us, ui, p);
    } else if q :| q in Flat(us) && x != q.b.id && Repeats(q.b.supersedes, x) {
      var j := PositionOf(Flat(us), q);
      assert BundleReason(us, known, j, p);
    } else {
      var q :| q in Flat(us) && x in Handles(q.b);
      var j := PositionOf(Flat(us), q);
      var cs := TriesToClaim(us, known, j, x);
      assert ClaimRefused(us, known, j, x, cs, p);
      assert BundleReason(us, known, j, p);
    }
  }

  lemma ListedComplete(us: seq<Usecase>, known: set<string>, x: string, y: string)
    requires ListedTwice(us, x, y)
    ensures Said(us, known, Problem(Duplicate, [x, y]))
  {
    var p := Problem(Duplicate, [x, y]);
    var i: nat, j: nat :| SecondListing(us, i, j, x) && us[Flat(us)[i].ui].id == y;
    assert ListedBefore(us, i, j, p);
    assert BundleReason(us, known, j, p);
  }

  lemma HeldComplete(us: seq<Usecase>, known: set<string>, x: string, y: string)
    requires HeldBy(us, known, x, y)
    ensures Said(us, known, Problem(Duplicate, [x, y]))
  {
    var p := Problem(Duplicate, [x, y]);
    var j: nat, cs, i: nat :|
      Tries(us, known, j, x, cs) && FirstStranger(SupersedesRel(Flat(us)), cs, Flat(us)[j].b.id, y, i);
    StrangerIff(SupersedesRel(Flat(us)), cs, Flat(us)[j].b.id, y);
    assert ClaimRefused(us, known, j, x, cs, p);
    assert BundleReason(us, known, j, p);
  }

  lemma DuplicateComplete(us: seq<Usecase>, known: set<string>, d: seq<string>)
    requires DuplicateReason(us, known, d)
    ensures Said(us, known, Problem(Duplicate, d))
  {
    if |d| == 1 {
      assert d == [d[0]];
      TwiceComplete(us, known, d[0]);
    } else {
      assert d == [d[0], d[1]];
      if ListedTwice(us, d[0], d[1]) {
        ListedComplete(us, known, d[0], d[1]);
      } else {
        HeldComplete(us, known, d[0], d[1]);
      }
    }
  }

  /** Duplicate: exactly what is there twice, and handles held by a bundle that may not share them. */
  lemma Duplicates(us: seq<Usecase>, known: set<string>, problems: seq<Problem>, d: seq<string>)
    requires IsReport(us, known, problems)
    ensures Problem(Duplicate, d) in problems <==> DuplicateReason(us, known, d)
  {
    ReportedIff(us, known, problems, Problem(Duplicate, d));
    if Said(us, known, Problem(Duplicate, d)) {
      TwiceSound(us, known, Problem(Duplicate, d));
    }
    if DuplicateReason(us, known, d) {
      DuplicateComplete(us, known, d);
    }
  }

  /** Who is on record: a declaration that nothing is wrong with adds its bundle, any other leaves the claims alone. */
  lemma ClaimsTable(us: seq<Usecase>, e: Rel, known: set<string>, fs: seq<Placed>, p: Placed, k: string)
    requires !(p.b.typeDecl.Some? && p.b.collection.Some?)
    ensures Claims(us, e, known, [], k) == []
    ensures var cs := Claims(us, e, known, fs, k);
      Claims(us, e, known, fs + [p], k) ==
      if k in Handles(p.b) && IsHandle(k) && k !in known && Outsider(e, p.b.id, Holders(cs)) == ""
      then cs + [Claim(p.b.id, UsecaseOf(us, p))] else cs
  {
    ClaimsNext(us, e, known, fs, p, k);
  }

  // ---- cycles --------------------------------------------------------------------------

  /** What requires itself, or supersedes itself. */
  ghost predicate SelfReference(us: seq<Usecase>, x: string) {
    (exists u :: u in us && u.id == x && x in u.deps) || exists q :: q in Flat(us) && q.b.id == x && x in q.b.supersedes
  }

  lemma BundleSelf(us: seq<Usecase>, known: set<string>, j: nat, x: string)
    requires j < |Flat(us)|
    ensures BundleReason(us, known, j, Problem(CycleFound, [x])) <==>
      Flat(us)[j].b.id == x && x in Flat(us)[j].b.supersedes
  {
    ListReasons(us, known, j, Problem(CycleFound, [x]));
    OldByCode(us[Flat(us)[j].ui], SupersedesRel(Flat(us)), Flat(us)[j].b, x);
  }

  lemma SelfSound(us: seq<Usecase>, known: set<string>, p: Problem)
    requires Said(us, known, p) && p.code == CycleFound
    ensures |p.detail| == 1 && SelfReference(us, p.detail[0])
  {
    if ui: nat :| ui < |us| && UsecaseReason(us, ui, p) {
      assert us[ui] in us;
    } else {
      var j: nat :| j < |Flat(us)| && BundleReason(us, known, j, p);
      BundleDetail(us, known, j, p);
      BundleSelf(us, known, j, p.detail[0]);
      assert Flat(us)[j] in Flat(us);
    }
  }

  lemma SelfComplete(us: seq<Usecase>, known: set<string>, x: string)
    requires SelfReference(us, x)
    ensures Said(us, known, Problem(CycleFound, [x]))
  {
    if u :| u in us && u.id == x && x in u.deps {
      var ui := PositionOf(us, u);
      assert UsecaseReason(us, ui, Problem(CycleFound, [x]));
    } else {
      var q :| q in Flat(us) && q.b.id == x && x in q.b.supersedes;
      var j := PositionOf(Flat(us), q);
      BundleSelf(us, known, j, x);
    }
  }

  /** A cycle problem is a self-reference or comes from the search. */
  lemma CycleIs(us: seq<Usecase>, known: set<string>, cycles: seq<Problem>, p: Problem)
    requires CycleReports(us, cycles) && p.code == CycleFound
    ensures p in WalkFaults(us, known) + UnknownFaults(us) + cycles + LinkFaults(us, known) <==>
      (|p.detail| == 1 && SelfReference(us, p.detail[0])) || p in cycles
    ensures p in cycles ==> |p.detail| >= 2 && ClosedWalk(ResolvedRel(us), p.detail)
  {
    SaidIff(us, known, p);
    if Said(us, known, p) {
      SelfSound(us, known, p);
    }
    if |p.detail| == 1 && SelfReference(us, p.detail[0]) {
      SelfComplete(us, known, p.detail[0]);
      assert p == Problem(CycleFound, [p.detail[0]]);
    }
  }

  /** CycleFound: what requires or supersedes itself, and closed walks of the graph when there are any. */
  lemma CyclesFound(us: seq<Usecase>, known: set<string>, problems: seq<Problem>, d: seq<string>)
    requires IsReport(us, known, problems)
    ensures |d| == 1 ==> (Problem(CycleFound, d) in problems <==> SelfReference(us, d[0]))
    ensures |d| != 1 && Problem(CycleFound, d) in problems ==> ClosedWalk(ResolvedRel(us), d)
    ensures (exists w :: |w| != 1 && Problem(CycleFound, w) in problems) <==> Cyclic(ResolvedRel(us))
  {
    var cycles: seq<Problem> :|
      && problems == WalkFaults(us, known) + UnknownFaults(us) + cycles + LinkFaults(us, known)
      && CycleReports(us, cycles);
    forall w
      ensures var p := Problem(CycleFound, w);
        p in problems <==> (|w| == 1 && SelfReference(us, w[0])) || p in cycles
      ensures Problem(CycleFound, w) in cycles ==> |w| >= 2 && ClosedWalk(ResolvedRel(us), w)
    {
      CycleIs(us, known, cycles, Problem(CycleFound, w));
    }
    if cycles != [] {
      var p := cycles[0];
      assert p == Problem(CycleFound, p.detail) && p in cycles;
    }
  }
}
