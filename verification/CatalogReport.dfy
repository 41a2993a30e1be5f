/** The validator's report, read off the catalog: every problem, in the order the walk meets it. */
module CatalogReport {
  import opened Prelude
  import opened Digraph
  import opened CatalogModel
  import opened CatalogRules

  /** What the positions below n contribute, in order. */
  ghost function UpTo<T>(f: nat -> seq<T>, n: nat): seq<T> {
    if n == 0 then [] else UpTo(f, n - 1) + f(n - 1)
  }

  lemma {:induction false} UpToMembers<T>(f: nat -> seq<T>, n: nat, x: T)
    ensures x in UpTo(f, n) <==> exists i: nat :: i < n && x in f(i)
  {
    if n > 0 {
      UpToMembers(f, n - 1, x);
      assert x in UpTo(f, n) <==> x in UpTo(f, n - 1) || x in f(n - 1);
    }
  }

  // ---- one usecase -------------------------------------------------------------------

  /** Usecase ui is the first of its id. */
  predicate FirstOfId(us: seq<Usecase>, ui: nat)
    requires ui < |us|
  {
    forall j :: 0 <= j < ui ==> us[j].id != us[ui].id
  }

  function IdFaults(us: seq<Usecase>, ui: nat): seq<Problem>
    requires ui < |us|
  {
    var id := us[ui].id;
    if !IsSlug(id) then [Problem(BadId, [id])]
    else if !FirstOfId(us, ui) then [Problem(Duplicate, [id])]
    else []
  }

  function BundlesMissing(u: Usecase): seq<Problem> { if u.bundles == [] then [Problem(Missing, [u.id])] else [] }

  function SelfFault(u: Usecase, i: nat): seq<Problem>
    requires i < |u.deps|
  {
    if u.deps[i] == u.id then [Problem(CycleFound, [u.deps[i]])] else []
  }

  function AgainFault(u: Usecase, i: nat): seq<Problem>
    requires i < |u.deps|
  {
    if u.deps[i] in u.deps[..i] then [Problem(Duplicate, [u.deps[i]])] else []
  }

  function DepFault(u: Usecase, i: nat): seq<Problem>
    requires i < |u.deps|
  {
    SelfFault(u, i) + AgainFault(u, i)
  }

  function DepFaults(u: Usecase): nat -> seq<Problem> { (i: nat) => if i < |u.deps| then DepFault(u, i) else [] }

  ghost function UsecaseFaults(us: seq<Usecase>, ui: nat): seq<Problem>
    requires ui < |us|
  {
    IdFaults(us, ui) + BundlesMissing(us[ui]) + UpTo(DepFaults(us[ui]), |us[ui].deps|)
  }

  // ---- one bundle --------------------------------------------------------------------

  /** Position of the first listed bundle with that id; the length when there is none. */
  function FirstListed(fs: seq<Placed>, id: string): (j: nat)
    ensures j <= |fs| && forall i :: 0 <= i < j ==> fs[i].b.id != id
    ensures j < |fs| ==> fs[j].b.id == id
  {
    if fs == [] then 0
    else
      var n := |fs| - 1;
      var j := FirstListed(fs[..n], id);
      if j < n then j else if fs[n].b.id == id then n else |fs|
  }

  function UsecaseOf(us: seq<Usecase>, p: Placed): string { if p.ui < |us| then us[p.ui].id else "" }

  /** The list with the first n bundles of usecase ui after it: what comes before its next bundle. */
  function Onto(fs: seq<Placed>, ui: nat, bs: seq<Bundle>, n: nat): seq<Placed>
    requires n <= |bs|
  {
    fs + PlacedIn(ui, bs)[..n]
  }

  function BundleIdFaults(us: seq<Usecase>, fs: seq<Placed>, id: string): seq<Problem> {
    if !IsBundleId(id) then [Problem(BadId, [id])]
    else if FirstListed(fs, id) < |fs| then [Problem(Duplicate, [id, UsecaseOf(us, fs[FirstListed(fs, id)])])]
    else []
  }

  /** A handle taken: by which bundle, of which usecase. */
  datatype Claim = Claim(bundle: string, usecase: string)

  /** The first holder that is no supersedes neighbour of the claimant; "" when there is none. */
  function Outsider(e: Rel, id: string, holders: seq<string>): string {
    if holders == [] then ""
    else if !Shares(e, id, holders[0]) then holders[0]
    else Outsider(e, id, holders[1..])
  }

  function Holders(cs: seq<Claim>): seq<string> { seq(|cs|, i requires 0 <= i < |cs| => cs[i].bundle) }

  function HandleFaults(e: Rel, known: set<string>, cs: seq<Claim>, id: string, k: string): seq<Problem> {
    if !IsHandle(k) then [Problem(BadId, [k])]
    else if k in known then [Problem(Duplicate, [k])]
    else if Outsider(e, id, Holders(cs)) != "" then [Problem(Duplicate, [k, Outsider(e, id, Holders(cs))])]
    else []
  }

  /** The claims on k once another has been tried: it counts when nothing is wrong with it. */
  function Tried(e: Rel, known: set<string>, cs: seq<Claim>, k: string, c: Claim): seq<Claim> {
    if HandleFaults(e, known, cs, c.bundle, k) == [] then cs + [c] else cs
  }

  /** The claims on k once a declaration has been checked. */
  function Taken(e: Rel, known: set<string>, cs: seq<Claim>, k: string, d: Option<Declaration>, c: Claim): seq<Claim> {
    if d.Some? && d.value.xKey == k then Tried(e, known, cs, k, c) else cs
  }

  /** The claims on k by the bundles listed, in order: a type's before a collection's. */
  function Claims(us: seq<Usecase>, e: Rel, known: set<string>, fs: seq<Placed>, k: string): seq<Claim>
    decreases |fs|
  {
    if fs == [] then []
    else
      var p := fs[|fs| - 1];
      TakenBy(us, e, known, Claims(us, e, known, fs[..|fs| - 1], k), k, p)
  }

  function ClaimOf(us: seq<Usecase>, p: Placed): Claim { Claim(p.b.id, UsecaseOf(us, p)) }

  function TakenBy(us: seq<Usecase>, e: Rel, known: set<string>, cs: seq<Claim>, k: string, p: Placed): seq<Claim> {
    Taken(e, known, Taken(e, known, cs, k, p.b.typeDecl, ClaimOf(us, p)), k, p.b.collection, ClaimOf(us, p))
  }

  function TypeFaults(us: seq<Usecase>, e: Rel, known: set<string>, fs: seq<Placed>, p: Placed): seq<Problem> {
    if p.b.typeDecl.None? then []
    else
      var k := p.b.typeDecl.value.xKey;
      HandleFaults(e, known, Claims(us, e, known, fs, k), p.b.id, k)
  }

  function CollectionFaults(us: seq<Usecase>, e: Rel, known: set<string>, fs: seq<Placed>, p: Placed): seq<Problem> {
    if p.b.collection.None? then []
    else
      var k := p.b.collection.value.xKey;
      HandleFaults(e, known, HalfClaims(us, e, known, fs, p, k), p.b.id, k)
  }

  function DeclarationFaults(us: seq<Usecase>, e: Rel, known: set<string>, fs: seq<Placed>, p: Placed): seq<Problem> {
    (if p.b.typeDecl.Some? && p.b.collection.Some? then [Problem(BadField, [p.b.id])] else [])
    + TypeFaults(us, e, known, fs, p) + CollectionFaults(us, e, known, fs, p)
  }

  ghost function OldFaults(u: Usecase, e: Rel, b: Bundle): nat -> seq<Problem> {
    (i: nat) =>
      if i >= |b.supersedes| then []
      else
        var older := b.supersedes[i];
        if older == b.id then [Problem(CycleFound, [older])]
        else if older in b.supersedes[..i] then [Problem(Duplicate, [older])]
        else if !InUsecase(u, older) then [Problem(BrokenLink, [older])]
        else if Supersedes(e, older) then [Problem(BadField, [older])]
        else []
  }

  ghost function SupersedesFaults(us: seq<Usecase>, e: Rel, p: Placed): seq<Problem>
    requires p.ui < |us|
  {
    UpTo(OldFaults(us[p.ui], e, p.b), |p.b.supersedes|)
  }

  ghost function BundleFaults(us: seq<Usecase>, e: Rel, known: set<string>, fs: seq<Placed>, p: Placed): seq<Problem>
    requires p.ui < |us|
  {
    BundleIdFaults(us, fs, p.b.id) + DeclarationFaults(us, e, known, fs, p) + SupersedesFaults(us, e, p)
  }

  // ---- the walk ----------------------------------------------------------------------

  /** The bundles of usecase ui, with fs listed before them. */
  ghost function BundlesAt(us: seq<Usecase>, e: Rel, known: set<string>, fs: seq<Placed>, ui: nat): nat -> seq<Problem>
    requires ui < |us|
  {
    var bs := us[ui].bundles;
    (bi: nat) => if bi < |bs| then BundleFaults(us, e, known, Onto(fs, ui, bs, bi), Placed(ui, bs[bi])) else []
  }

  /** One usecase of the walk. */
  ghost function UsecaseWalk(us: seq<Usecase>, e: Rel, known: set<string>, fs: seq<Placed>, ui: nat): seq<Problem>
    requires ui < |us|
  {
    UsecaseFaults(us, ui) + UpTo(BundlesAt(us, e, known, fs, ui), |us[ui].bundles|)
  }

  ghost function WalkAt(us: seq<Usecase>, e: Rel, known: set<string>, before: nat -> seq<Placed>): nat -> seq<Problem> {
    (ui: nat) => if ui < |us| then UsecaseWalk(us, e, known, before(ui), ui) else []
  }

  /** The bundles of the first n usecases. */
  function FlatTo(us: seq<Usecase>): nat -> seq<Placed> { (n: nat) => if n <= |us| then Flat(us[..n]) else [] }

  ghost function WalkFaults(us: seq<Usecase>, known: set<string>): seq<Problem> {
    (if us == [] then [Problem(Missing, [])] else []) +
    UpTo(WalkAt(us, SupersedesRel(Flat(us)), known, FlatTo(us)), |us|)
  }

  // ---- links -------------------------------------------------------------------------

  /** A usecase can be required by its id. */
  predicate Requirable(us: seq<Usecase>, id: string) { IsSlug(id) && Names(us, id) }

  function DepsUnknown(us: seq<Usecase>, u: Usecase): nat -> seq<Problem> {
    (i: nat) =>
      if i < |u.deps| && !Requirable(us, u.deps[i]) then [Problem(UnknownUsecase, [u.deps[i]])] else []
  }

  ghost function UnknownIn(us: seq<Usecase>, u: Usecase): seq<Problem> { UpTo(DepsUnknown(us, u), |u.deps|) }

  ghost function UnknownAt(us: seq<Usecase>): nat -> seq<Problem> {
    (ui: nat) => if ui < |us| then UnknownIn(us, us[ui]) else []
  }

  ghost function UnknownFaults(us: seq<Usecase>): seq<Problem> { UpTo(UnknownAt(us), |us|) }

  /** The dependencies the table resolves: those of the first usecase of each id. */
  function ResolvedRel(us: seq<Usecase>): Rel {
    set ui, dep | 0 <= ui < |us| && IsSlug(us[ui].id) && FirstOfId(us, ui) && dep in us[ui].deps :: (us[ui].id, dep)
  }

  /** The usecase reaches the one whose claim on the handle was the last. */
  ghost predicate Reachable(us: seq<Usecase>, known: set<string>, id: string, k: string) {
    var cs := Claims(us, SupersedesRel(Flat(us)), known, Flat(us), k);
    cs != [] && Reaches(ResolvedRel(us), id, cs[|cs| - 1].usecase)
  }

  ghost predicate Linked(us: seq<Usecase>, known: set<string>, id: string, t: string) {
    t in known || Reachable(us, known, id, t)
  }

  ghost function TargetAt(ok: set<string>, ts: seq<string>): nat -> seq<Problem> {
    (i: nat) => if i < |ts| && ts[i] !in ok then [Problem(BrokenLink, [ts[i]])] else []
  }

  ghost function TargetListAt(ok: set<string>, props: seq<seq<string>>): nat -> seq<Problem> {
    (i: nat) => if i < |props| then UpTo(TargetAt(ok, props[i]), |props[i]|) else []
  }

  ghost function BundleTargetsAt(ok: set<string>, bs: seq<Bundle>): nat -> seq<Problem> {
    (i: nat) => if i < |bs| then UpTo(TargetListAt(ok, Targets(bs[i])), |Targets(bs[i])|) else []
  }

  /** The targets of some bundles that are not among the ones allowed. */
  ghost function TargetFaults(ok: set<string>, bs: seq<Bundle>): seq<Problem> { UpTo(BundleTargetsAt(ok, bs), |bs|) }

  /** The handles a usecase may name. */
  ghost function LinkableFrom(us: seq<Usecase>, known: set<string>, id: string): set<string> {
    known + set p, k | p in Flat(us) && k in Handles(p.b) && Reachable(us, known, id, k) :: k
  }

  ghost function LinksAt(us: seq<Usecase>, known: set<string>): nat -> seq<Problem> {
    (ui: nat) =>
      if ui < |us| && IsSlug(us[ui].id) then TargetFaults(LinkableFrom(us, known, us[ui].id), us[ui].bundles) else []
  }

  ghost function LinkFaults(us: seq<Usecase>, known: set<string>): seq<Problem> { UpTo(LinksAt(us, known), |us|) }

  /** The whole report: the walk, unknown dependencies, cycles, links. */
  ghost predicate IsReport(us: seq<Usecase>, known: set<string>, problems: seq<Problem>) {
    exists cycles :: problems == WalkFaults(us, known) + UnknownFaults(us) + cycles + LinkFaults(us, known) &&
      CycleReports(us, cycles)
  }

  /** One problem for each closed walk reported, and one at least when there is one. */
  ghost predicate CycleReports(us: seq<Usecase>, cycles: seq<Problem>) {
    && (forall p :: p in cycles ==> p.code == CycleFound && ClosedWalk(ResolvedRel(us), p.detail))
    && (cycles != [] <==> Cyclic(ResolvedRel(us))) && Distinct(cycles)
  }

  // ---- what the tables hold while the walk runs -----------------------------------------

  /** The id table: the first of the first n usecases with each slug. */
  ghost predicate UsecaseRows(byId: map<string, nat>, us: seq<Usecase>, n: nat)
    requires n <= |us|
  {
    && (forall id :: id in byId ==> byId[id] < n && us[byId[id]].id == id && IsSlug(id) && FirstOfId(us, byId[id]))
    && (forall j :: 0 <= j < n && IsSlug(us[j].id) ==> us[j].id in byId)
  }

  /** The bundle table: the usecase that listed each well-formed id first. */
  ghost predicate BundleRows(ids: map<string, string>, us: seq<Usecase>, fs: seq<Placed>) {
    forall id ::
      && (id in ids <==> IsBundleId(id) && FirstListed(fs, id) < |fs|)
      && (id in ids ==> ids[id] == UsecaseOf(us, fs[FirstListed(fs, id)]))
  }

  lemma BundleRowsGrow(ids: map<string, string>, us: seq<Usecase>, fs: seq<Placed>, p: Placed)
    requires BundleRows(ids, us, fs)
    ensures var grown := if BundleIdFaults(us, fs, p.b.id) == [] then ids[p.b.id := UsecaseOf(us, p)] else ids;
      BundleRows(grown, us, fs + [p])
  {
    var gs := fs + [p];
    assert gs[..|fs|] == fs && gs[|fs|] == p;
    assert forall id :: FirstListed(fs, id) < |fs| ==> FirstListed(gs, id) == FirstListed(fs, id);
  }

  /** The handle tables have a row for k exactly when it is claimed: all holders, and the last one's usecase. */
  ghost predicate HasClaims(xkeys: map<string, seq<string>>, types: map<string, string>, k: string, cs: seq<Claim>) {
    && (k in xkeys <==> cs != []) && (k in types <==> cs != [])
    && (cs != [] ==> xkeys[k] == Holders(cs) && types[k] == cs[|cs| - 1].usecase)
  }

  lemma HoldersAre(xkeys: map<string, seq<string>>, types: map<string, string>, k: string, cs: seq<Claim>)
    requires HasClaims(xkeys, types, k, cs)
    ensures (if k in xkeys then xkeys[k] else []) == Holders(cs)
  {
  }

  lemma ClaimAdded(xkeys: map<string, seq<string>>, types: map<string, string>, k: string, cs: seq<Claim>, c: Claim)
    requires HasClaims(xkeys, types, k, cs)
    ensures var grown := xkeys[k := (if k in xkeys then xkeys[k] else []) + [c.bundle]];
      HasClaims(grown, types[k := c.usecase], k, cs + [c])
  {
    assert Holders(cs + [c]) == Holders(cs) + [c.bundle];
  }

  ghost predicate Rows(xkeys: map<string, seq<string>>, types: map<string, string>, claims: string -> seq<Claim>) {
    forall k :: HasClaims(xkeys, types, k, claims(k))
  }

  ghost predicate ClaimRows(xkeys: map<string, seq<string>>, types: map<string, string>, us: seq<Usecase>, e: Rel,
      known: set<string>, fs: seq<Placed>)
  {
    Rows(xkeys, types, ClaimsOf(us, e, known, fs))
  }

  function ClaimsOf(us: seq<Usecase>, e: Rel, known: set<string>, fs: seq<Placed>): string -> seq<Claim> {
    (k: string) => Claims(us, e, known, fs, k)
  }

  /** The claims when p's type is checked and its collection is not. */
  function HalfClaims(us: seq<Usecase>, e: Rel, known: set<string>, fs: seq<Placed>, p: Placed, k: string): seq<Claim> {
    Taken(e, known, Claims(us, e, known, fs, k), k, p.b.typeDecl, ClaimOf(us, p))
  }

  function HalfOf(us: seq<Usecase>, e: Rel, known: set<string>, fs: seq<Placed>, p: Placed): string -> seq<Claim> {
    (k: string) => HalfClaims(us, e, known, fs, p, k)
  }

  function TakenAfter(e: Rel, known: set<string>, before: string -> seq<Claim>, d: Option<Declaration>, c: Claim):
      string -> seq<Claim>
  {
    (k: string) => Taken(e, known, before(k), k, d, c)
  }

  /** One handle's row brought up to date brings all up to date. */
  lemma RowsNext(xs: map<string, seq<string>>, ts: map<string, string>, xkeys: map<string, seq<string>>,
      types: map<string, string>, e: Rel, known: set<string>, before: string -> seq<Claim>, d: Declaration, c: Claim)
    requires Rows(xs, ts, before)
    requires xkeys - {d.xKey} == xs - {d.xKey} && types - {d.xKey} == ts - {d.xKey}
    requires HasClaims(xkeys, types, d.xKey, Tried(e, known, before(d.xKey), d.xKey, c))
    ensures Rows(xkeys, types, TakenAfter(e, known, before, Some(d), c))
  {
    forall k
      ensures HasClaims(xkeys, types, k, Taken(e, known, before(k), k, Some(d), c))
    {
      if k != d.xKey {
        assert HasClaims(xs, ts, k, before(k));
        assert k in xkeys - {d.xKey} <==> k in xkeys;
        assert k in types - {d.xKey} <==> k in types;
        assert k in xkeys ==> (xkeys - {d.xKey})[k] == xkeys[k] == (xs - {d.xKey})[k];
        assert k in types ==> (types - {d.xKey})[k] == types[k] == (ts - {d.xKey})[k];
      }
    }
  }

  lemma HalfIsTaken(us: seq<Usecase>, e: Rel, known: set<string>, fs: seq<Placed>, p: Placed,
      xkeys: map<string, seq<string>>, types: map<string, string>)
    requires Rows(xkeys, types, TakenAfter(e, known, ClaimsOf(us, e, known, fs), p.b.typeDecl, ClaimOf(us, p)))
    ensures Rows(xkeys, types, HalfOf(us, e, known, fs, p))
  {
    forall k
      ensures HasClaims(xkeys, types, k, HalfClaims(us, e, known, fs, p, k))
    {
      assert HasClaims(xkeys, types, k,
          TakenAfter(e, known, ClaimsOf(us, e, known, fs), p.b.typeDecl, ClaimOf(us, p))(k));
    }
  }

  lemma WholeIsTaken(us: seq<Usecase>, e: Rel, known: set<string>, fs: seq<Placed>, p: Placed,
      xkeys: map<string, seq<string>>, types: map<string, string>)
    requires Rows(xkeys, types, TakenAfter(e, known, HalfOf(us, e, known, fs, p), p.b.collection, ClaimOf(us, p)))
    ensures ClaimRows(xkeys, types, us, e, known, fs + [p])
  {
    forall k
      ensures HasClaims(xkeys, types, k, ClaimsOf(us, e, known, fs + [p])(k))
    {
      ClaimsNext(us, e, known, fs, p, k);
      assert HasClaims(xkeys, types, k,
          TakenAfter(e, known, HalfOf(us, e, known, fs, p), p.b.collection, ClaimOf(us, p))(k));
    }
  }

  lemma ClaimsNext(us: seq<Usecase>, e: Rel, known: set<string>, fs: seq<Placed>, p: Placed, k: string)
    ensures Claims(us, e, known, fs + [p], k) ==
      Taken(e, known, HalfClaims(us, e, known, fs, p, k), k, p.b.collection, ClaimOf(us, p))
  {
    assert (fs + [p])[..|fs|] == fs;
  }
}
