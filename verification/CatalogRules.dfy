/** The rules of the catalog: its grammars, and what a valid catalog is. */
module CatalogRules {
  import opened Prelude
  import opened Digraph
  import opened CatalogModel

  // ---- grammars -----------------------------------------------------------

  predicate Lower(c: char) { 'a' <= c <= 'z' }

  predicate Digit(c: char) { '0' <= c <= '9' }

  /** `[a-z][a-z0-9-]*` */
  predicate IsSlug(s: string) {
    s != [] && Lower(s[0]) && forall i :: 0 <= i < |s| ==> Lower(s[i]) || Digit(s[i]) || s[i] == '-'
  }

  /** `[a-z][a-z0-9_]*` */
  predicate IsHandle(s: string) {
    s != [] && Lower(s[0]) && forall i :: 0 <= i < |s| ==> Lower(s[i]) || Digit(s[i]) || s[i] == '_'
  }

  /** `/v<n>`, n a positive decimal without a leading zero */
  predicate IsVersion(s: string) {
    |s| >= 3 && s[..2] == "/v" && s[2] != '0' && forall i :: 2 <= i < |s| ==> Digit(s[i])
  }

  /** `system:<slug>/v<n>` */
  predicate IsBundleId(s: string) {
    exists k :: 7 <= k <= |s| && s[..7] == "system:" && IsSlug(s[7..k]) && IsVersion(s[k..])
  }

  /** The parts of a bundle id. */
  predicate BundleIdParts(s: string, slug: string, n: string) {
    && s == "system:" + slug + "/v" + n && IsSlug(slug)
    && n != "" && n[0] != '0' && forall i :: 0 <= i < |n| ==> '0' <= n[i] <= '9'
  }

  lemma CutFour(a: string, b: string, c: string, d: string)
    ensures var s := a + b + c + d;
      && s[..|a|] == a && s[|a|..|a| + |b|] == b && s[|a| + |b|..] == c + d
      && (c + d)[..|c|] == c && (c + d)[|c|..] == d
  {
    var s := a + b + c + d;
    assert s[|a| + |b|..] == c + d;
  }

  lemma Rejoined(s: string, i: nat, k: nat, j: nat)
    requires i <= k <= |s| && j <= |s| - k
    ensures s == s[..i] + s[i..k] + s[k..][..j] + s[k..][j..]
  {
    assert s[k..] == s[k..][..j] + s[k..][j..] && s == s[..i] + s[i..k] + s[k..];
  }

  lemma PartsOfId(s: string, k: nat)
    requires 7 <= k <= |s| && s[..7] == "system:" && IsSlug(s[7..k]) && IsVersion(s[k..])
    ensures BundleIdParts(s, s[7..k], s[k..][2..])
  {
    Rejoined(s, 7, k, 2);
    assert forall i :: 0 <= i < |s[k..][2..]| ==> s[k..][2..][i] == s[k..][i + 2];
  }

  lemma IdOfParts(s: string, slug: string, n: string)
    requires BundleIdParts(s, slug, n)
    ensures IsBundleId(s)
  {
    CutFour("system:", slug, "/v", n);
    var k, v := 7 + |slug|, "/v" + n;
    assert s[k..] == v && v[2] == n[0] && forall i :: 2 <= i < |v| ==> v[i] == n[i - 2];
    assert s[..7] == "system:" && IsSlug(s[7..k]) && IsVersion(s[k..]);
  }

  /** A bundle id is "system:", a slug, "/v" and a positive number. */
  lemma BundleIdForm(s: string)
    ensures IsBundleId(s) <==> exists slug, n :: BundleIdParts(s, slug, n)
  {
    if k :| 7 <= k <= |s| && s[..7] == "system:" && IsSlug(s[7..k]) && IsVersion(s[k..]) {
      PartsOfId(s, k);
    }
    if slug, n :| BundleIdParts(s, slug, n) {
      IdOfParts(s, slug, n);
    }
  }

  /** Slugs and handles, letter by letter. */
  lemma WordForms(s: string)
    ensures IsSlug(s) <==>
      s != "" && 'a' <= s[0] <= 'z' &&
        forall i :: 0 <= i < |s| ==> 'a' <= s[i] <= 'z' || '0' <= s[i] <= '9' || s[i] == '-'
    ensures IsHandle(s) <==>
      s != "" && 'a' <= s[0] <= 'z' &&
        forall i :: 0 <= i < |s| ==> 'a' <= s[i] <= 'z' || '0' <= s[i] <= '9' || s[i] == '_'
  {
  }

  // ---- what a valid catalog is, declaratively ------------------------------

  /** A bundle with the position of the usecase that declares it. */
  datatype Placed = Placed(ui: nat, b: Bundle)

  function PlacedIn(ui: nat, bs: seq<Bundle>): seq<Placed> {
    seq(|bs|, i requires 0 <= i < |bs| => Placed(ui, bs[i]))
  }

  /** Every bundle of the catalog in declaration order. */
  function Flat(us: seq<Usecase>): (fs: seq<Placed>)
    ensures forall j :: 0 <= j < |fs| ==> fs[j].ui < |us| && fs[j].b in us[fs[j].ui].bundles
  {
    if us == [] then [] else Flat(us[..|us| - 1]) + PlacedIn(|us| - 1, us[|us| - 1].bundles)
  }

  /** The supersedes edges of a list of bundles. */
  function SupersedesRel(fs: seq<Placed>): Rel {
    set p, older | p in fs && older in p.b.supersedes :: (p.b.id, older)
  }

  function DepsRel(us: seq<Usecase>): Rel {
    set u, dep | u in us && dep in u.deps :: (u.id, dep)
  }

  function Handles(b: Bundle): set<string> {
    (if b.typeDecl.Some? then {b.typeDecl.value.xKey} else {}) +
    (if b.collection.Some? then {b.collection.value.xKey} else {})
  }

  predicate InUsecase(u: Usecase, id: string) {
    exists b :: b in u.bundles && b.id == id
  }

  predicate Shares(e: Rel, a: string, b: string) {
    (a, b) in e || (b, a) in e
  }

  ghost predicate Supersedes(e: Rel, a: string) {
    exists x :: (a, x) in e
  }

  ghost predicate OldFine(u: Usecase, e: Rel, id: string, older: string) {
    older != id && InUsecase(u, older) && !Supersedes(e, older)
  }

  ghost predicate SupersedesFine(u: Usecase, e: Rel, b: Bundle) {
    Distinct(b.supersedes) && forall older :: older in b.supersedes ==> OldFine(u, e, b.id, older)
  }

  ghost predicate BundleFine(u: Usecase, known: set<string>, e: Rel, b: Bundle) {
    && IsBundleId(b.id)
    && !(b.typeDecl.Some? && b.collection.Some?)
    && (forall k :: k in Handles(b) ==> IsHandle(k) && k !in known)
    && SupersedesFine(u, e, b)
  }

  /** Two bundles of one catalog: different ids, and a handle in common only across a supersedes edge. */
  ghost predicate PairFine(e: Rel, b: Bundle, c: Bundle) {
    && b.id != c.id
    && forall k :: k in Handles(b) && k in Handles(c) ==> Shares(e, b.id, c.id)
  }

  ghost predicate BundlesFine(us: seq<Usecase>, known: set<string>, e: Rel, fs: seq<Placed>) {
    && (forall j :: 0 <= j < |fs| ==> fs[j].ui < |us| && BundleFine(us[fs[j].ui], known, e, fs[j].b))
    && (forall i, j :: 0 <= i < j < |fs| ==> PairFine(e, fs[i].b, fs[j].b))
  }

  predicate UsecaseFine(us: seq<Usecase>, ui: nat)
    requires ui < |us|
  {
    && IsSlug(us[ui].id)
    && (forall j :: 0 <= j < ui ==> us[j].id != us[ui].id)
    && us[ui].id !in us[ui].deps && Distinct(us[ui].deps)
    && us[ui].bundles != []
  }

  predicate Declares(u: Usecase, xKey: string) {
    exists b :: b in u.bundles && xKey in Handles(b)
  }

  /** The relation targets of the properties a bundle declares: its type's, else its collection's. */
  function Targets(b: Bundle): seq<seq<string>> {
    if b.typeDecl.Some? then b.typeDecl.value.targets
    else if b.collection.Some? then b.collection.value.targets
    else []
  }

  /** Target t of usecase u is a built-in, or declared by a usecase u reaches, itself included. */
  ghost predicate TargetFine(us: seq<Usecase>, known: set<string>, u: Usecase, t: string) {
    t in known || exists w :: w in us && Reaches(DepsRel(us), u.id, w.id) && Declares(w, t)
  }

  ghost predicate TargetsFine(us: seq<Usecase>, known: set<string>, u: Usecase) {
    forall b, ts, t :: b in u.bundles && ts in Targets(b) && t in ts ==> TargetFine(us, known, u, t)
  }

  ghost predicate DepsResolve(us: seq<Usecase>) {
    forall u, dep :: u in us && dep in u.deps ==> Names(us, dep)
  }

  predicate Names(us: seq<Usecase>, id: string) {
    exists w :: w in us && w.id == id
  }

  ghost predicate WellFormed(us: seq<Usecase>, known: set<string>) {
    && us != []
    && (forall ui :: 0 <= ui < |us| ==> UsecaseFine(us, ui))
    && BundlesFine(us, known, SupersedesRel(Flat(us)), Flat(us))
    && DepsResolve(us)
    && !Cyclic(DepsRel(us))
    && (forall u :: u in us ==> TargetsFine(us, known, u))
  }

  lemma FlatStep(us: seq<Usecase>, ui: nat)
    requires ui < |us|
    ensures Flat(us[..ui + 1]) == Flat(us[..ui]) + PlacedIn(ui, us[ui].bundles)
    ensures PlacedIn(ui, us[ui].bundles)[..|us[ui].bundles|] == PlacedIn(ui, us[ui].bundles)
  {
    assert us[..ui + 1][..ui] == us[..ui];
  }
}
