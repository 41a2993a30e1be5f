/** What a problem-free catalog guarantees to the code that installs it. */
module CatalogTheorems {
  import opened Prelude
  import opened Digraph
  import opened CatalogModel
  import opened CatalogClean
  import opened CatalogOrder
  import opened CatalogRules
  import opened CatalogValidate
  import opened SupersedeGroups

  /** The two flattenings of a catalog list the same bundles. */
  lemma {:induction false} FlatIds(us: seq<Usecase>)
    ensures |BundleIds(us)| == |Flat(us)|
    ensures forall j :: 0 <= j < |Flat(us)| ==> BundleIds(us)[j] == Flat(us)[j].b.id
  {
    if us != [] {
      var n := |us| - 1;
      FlatIds(us[..n]);
      IdsOfPlaced(n, us[n].bundles);
      SameAppended(BundleIds(us[..n]), IdsOf(us[n].bundles), Flat(us[..n]), PlacedIn(n, us[n].bundles));
    }
  }

  lemma IdsOfPlaced(ui: nat, bs: seq<Bundle>)
    ensures |IdsOf(bs)| == |PlacedIn(ui, bs)| && forall j :: 0 <= j < |bs| ==> IdsOf(bs)[j] == PlacedIn(ui, bs)[j].b.id
  {
  }

  lemma SameAppended(xs: seq<string>, ys: seq<string>, fs: seq<Placed>, gs: seq<Placed>)
    requires |xs| == |fs| && |ys| == |gs|
    requires forall j :: 0 <= j < |xs| ==> xs[j] == fs[j].b.id
    requires forall j :: 0 <= j < |ys| ==> ys[j] == gs[j].b.id
    ensures forall j :: 0 <= j < |fs + gs| ==> (xs + ys)[j] == (fs + gs)[j].b.id
  {
  }

  /** In setup order every relation target is built in, or declared by this usecase or an earlier one. */
  lemma TargetsDeclaredInTime(us: seq<Usecase>, known: set<string>, byId: map<string, nat>, id: string,
                              out: seq<Usecase>, k: nat, b: Bundle, ts: seq<string>, t: string)
    requires WellFormed(us, known) && Trustworthy(us, byId)
    requires forall j :: 0 <= j < |us| ==> us[j].id in byId
    requires IsSetupOrder(us, byId, id, out)
    requires k < |out| && b in out[k].bundles && ts in Targets(b) && t in ts
    ensures t in known || exists j :: 0 <= j <= k && Declares(out[j], t)
  {
    RequiresIsDeps(us, byId);
    var u := us[byId[out[k].id]];
    assert u in us && TargetsFine(us, known, u) && TargetFine(us, known, u, t);
    if t !in known {
      var w :| w in us && Reaches(DepsRel(us), u.id, w.id) && Declares(w, t);
      var j: nat;
      if w.id == out[k].id {
        j := k;
      } else {
        assert w.id in Ids(out)[..k];
        j :| 0 <= j < k && Ids(out)[j] == w.id;
      }
      var wi :| 0 <= wi < |us| && us[wi] == w;
      assert out[j].id == w.id && byId[us[wi].id] == wi;
      assert out[j] == w;
    }
  }

  /** Loading: the problems, and the table of usecases by id. */
  method LoadTables(us: seq<Usecase>, knownTypeIds: set<string>)
      returns (problems: seq<Problem>, byId: map<string, nat>)
    ensures problems == [] <==> WellFormed(us, BUILT_IN + knownTypeIds)
    ensures problems == [] ==> Trustworthy(us, byId) && forall j :: 0 <= j < |us| ==> us[j].id in byId
  {
    var tables, groups;
    problems, tables, groups := Validate(us, knownTypeIds);
    byId := tables.byId;
  }

  /** Loading and walking end to end: a catalog with no problem can be set up in the order returned. */
  method LoadAndOrder(us: seq<Usecase>, knownTypeIds: set<string>, id: string)
      returns (problems: seq<Problem>, out: seq<Usecase>, ok: bool)
    ensures problems == [] <==> WellFormed(us, BUILT_IN + knownTypeIds)
    ensures problems == [] ==> (ok <==> Names(us, id))
    ensures problems == [] && ok ==> Distinct(Ids(out)) && out != [] && out[|out| - 1].id == id
    ensures problems == [] && ok ==> forall x :: x in Ids(out) <==> Reaches(DepsRel(us), id, x)
    ensures problems == [] && ok ==>
      forall i, x :: 0 <= i < |out| && Reaches(DepsRel(us), out[i].id, x) && x != out[i].id ==> x in Ids(out)[..i]
    ensures problems == [] && ok ==>
      forall k, b, ts, t :: 0 <= k < |out| && b in out[k].bundles && ts in Targets(b) && t in ts ==>
        t in BUILT_IN + knownTypeIds || exists j :: 0 <= j <= k && Declares(out[j], t)
  {
    var byId;
    problems, byId := LoadTables(us, knownTypeIds);
    if problems != [] {
      return problems, [], false;
    }
    out, ok := Order(us, byId, id);
    assert Names(us, id) ==> exists j :: 0 <= j < |us| && us[j].id == id;
    if ok {
      assert us[byId[id]] in us;
      OrderInDeps(us, BUILT_IN + knownTypeIds, byId, id, out);
      AllDeclaredInTime(us, BUILT_IN + knownTypeIds, byId, id, out);
    }
  }

  /** A setup order in terms of the declared dependencies. */
  lemma OrderInDeps(us: seq<Usecase>, known: set<string>, byId: map<string, nat>, id: string, out: seq<Usecase>)
    requires WellFormed(us, known) && Trustworthy(us, byId) && forall j :: 0 <= j < |us| ==> us[j].id in byId
    requires IsSetupOrder(us, byId, id, out)
    ensures Distinct(Ids(out)) && out != [] && out[|out| - 1].id == id
    ensures forall x :: x in Ids(out) <==> Reaches(DepsRel(us), id, x)
    ensures forall i, x :: 0 <= i < |out| && Reaches(DepsRel(us), out[i].id, x) && x != out[i].id ==> x in Ids(out)[..i]
  {
    RequiresIsDeps(us, byId);
  }

  lemma AllDeclaredInTime(us: seq<Usecase>, known: set<string>, byId: map<string, nat>, id: string, out: seq<Usecase>)
    requires WellFormed(us, known) && Trustworthy(us, byId)
    requires forall j :: 0 <= j < |us| ==> us[j].id in byId
    requires IsSetupOrder(us, byId, id, out)
    ensures forall k, b, ts, t :: 0 <= k < |out| && b in out[k].bundles && ts in Targets(b) && t in ts ==>
      t in known || exists j :: 0 <= j <= k && Declares(out[j], t)
  {
    forall k, b, ts, t | 0 <= k < |out| && b in out[k].bundles && ts in Targets(b) && t in ts
      ensures t in known || exists j :: 0 <= j <= k && Declares(out[j], t)
    {
      TargetsDeclaredInTime(us, known, byId, id, out, k, b, ts, t);
    }
  }

  /** The declaration behind an edge, with what the validator checked about it. */
  lemma EdgeSource(us: seq<Usecase>, known: set<string>, a: string, b: string) returns (p: Placed)
    requires WellFormed(us, known) && (a, b) in SupersedesRel(Flat(us))
    ensures p in Flat(us) && p.ui < |us| && p.b.id == a && b in p.b.supersedes
    ensures b != a && InUsecase(us[p.ui], b) && !Supersedes(SupersedesRel(Flat(us)), b)
  {
    var e := SupersedesRel(Flat(us));
    p :| p in Flat(us) && p.b.id == a && b in p.b.supersedes;
    var i := PositionOf(Flat(us), p);
    assert BundleFine(us[Flat(us)[i].ui], known, e, Flat(us)[i].b);
  }

  lemma ListedId(us: seq<Usecase>, p: Placed)
    requires p in Flat(us)
    ensures p.b.id in BundleIds(us)
  {
    FlatIds(us);
    var i := PositionOf(Flat(us), p);
    assert BundleIds(us)[i] == p.b.id;
  }

  /** No superseded bundle supersedes another: the ends of an edge never play the other's part. */
  lemma NoChains(us: seq<Usecase>, known: set<string>, a: string, b: string)
    requires WellFormed(us, known) && (a, b) in SupersedesRel(Flat(us))
    ensures !Supersedes(SupersedesRel(Flat(us)), b) && a != b
    ensures a in BundleIds(us) && b in BundleIds(us)
    ensures forall x :: (x, a) !in SupersedesRel(Flat(us))
  {
    var p := EdgeSource(us, known, a, b);
    ListedId(us, p);
    var c :| c in us[p.ui].bundles && c.id == b;
    FlatHas(us, p.ui, c);
    ListedId(us, Placed(p.ui, c));
    assert Supersedes(SupersedesRel(Flat(us)), a);
    forall x | (x, a) in SupersedesRel(Flat(us))
      ensures false
    {
      var q := EdgeSource(us, known, x, a);
    }
  }

  /** Every edge runs from the new side to the old side of one group; the sides never meet. */
  lemma EdgesCrossOneGroup(us: seq<Usecase>, known: set<string>, groups: map<string, SupersedeGroup>,
                           superseded: set<string>, a: string, b: string)
    requires WellFormed(us, known)
    requires superseded == set p | p in SupersedesRel(Flat(us)) :: p.1
    requires IsGrouping(groups, BundleIds(us), SupersedesRel(Flat(us)), superseded)
    requires (a, b) in SupersedesRel(Flat(us))
    ensures a in groups && b in groups && groups[a] == groups[b]
    ensures a in groups[a].news && b in groups[a].olds
    ensures forall x :: x in groups[a].news ==> x !in groups[a].olds
  {
    var e := SupersedesRel(Flat(us));
    NoChains(us, known, a, b);
    EdgeConnects(e, a, b);
    ReachesSelf(Sym(e), a);
    assert (a, b).0 in Touched(e) && (a, b).1 in Touched(e);
    assert a !in superseded;
    assert b in superseded by { assert (a, b) in e; }
    SideMembers(BundleIds(us), e, a, superseded, false, a);
    SideMembers(BundleIds(us), e, a, superseded, true, b);
    forall x | x in groups[a].news
      ensures x !in groups[a].olds
    {
      SideMembers(BundleIds(us), e, a, superseded, true, x);
      SideMembers(BundleIds(us), e, a, superseded, false, x);
    }
  }

  /** Every group there is has both sides. */
  lemma GroupsHaveBothSides(us: seq<Usecase>, known: set<string>, groups: map<string, SupersedeGroup>,
                            superseded: set<string>, x: string)
    requires WellFormed(us, known)
    requires superseded == set p | p in SupersedesRel(Flat(us)) :: p.1
    requires IsGrouping(groups, BundleIds(us), SupersedesRel(Flat(us)), superseded)
    requires x in groups
    ensures groups[x].news != [] && groups[x].olds != []
    ensures forall y :: y in groups[x].news ==> y !in groups[x].olds
  {
    var e := SupersedesRel(Flat(us));
    assert x in Touched(e);
    var p :| p in e && (p.0 == x || p.1 == x);
    assert p == (p.0, p.1);
    EdgesCrossOneGroup(us, known, groups, superseded, p.0, p.1);
  }

  /** Two holders of a handle: one directly supersedes the other, in one usecase, across one group. */
  lemma TwoHolders(us: seq<Usecase>, known: set<string>, groups: map<string, SupersedeGroup>,
                   superseded: set<string>, i: nat, j: nat, k: string)
      returns (newer: string, older: string)
    requires WellFormed(us, known)
    requires superseded == set p | p in SupersedesRel(Flat(us)) :: p.1
    requires IsGrouping(groups, BundleIds(us), SupersedesRel(Flat(us)), superseded)
    requires i < j < |Flat(us)| && k in Handles(Flat(us)[i].b) && k in Handles(Flat(us)[j].b)
    ensures {newer, older} == {Flat(us)[i].b.id, Flat(us)[j].b.id} && newer != older
    ensures (newer, older) in SupersedesRel(Flat(us)) && Flat(us)[i].ui == Flat(us)[j].ui
    ensures newer in groups && older in groups && groups[newer] == groups[older]
    ensures newer in groups[newer].news && older in groups[newer].olds
  {
    PairShares(us, known, i, j, k);
    HandleInOneUsecase(us, known, i, j, k);
    newer, older := Flat(us)[i].b.id, Flat(us)[j].b.id;
    if (newer, older) !in SupersedesRel(Flat(us)) {
      newer, older := older, newer;
    }
    EdgesCrossOneGroup(us, known, groups, superseded, newer, older);
  }

  lemma NoTriangle(e: Rel, a: string, b: string, c: string)
    requires forall x, y, z :: (x, y) in e ==> (y, z) !in e
    requires Shares(e, a, b) && Shares(e, a, c)
    ensures !Shares(e, b, c)
  {
  }

  /** A handle never has three holders: among three, some pair of edges would chain. */
  lemma AtMostTwoHolders(us: seq<Usecase>, known: set<string>, h: nat, i: nat, j: nat, k: string)
    requires WellFormed(us, known) && h < i < j < |Flat(us)|
    requires k in Handles(Flat(us)[h].b) && k in Handles(Flat(us)[i].b)
    ensures k !in Handles(Flat(us)[j].b)
  {
    var fs, e := Flat(us), SupersedesRel(Flat(us));
    forall x, y, z | (x, y) in e
      ensures (y, z) !in e
    {
      NoChains(us, known, x, y);
    }
    if k in Handles(fs[j].b) {
      PairShares(us, known, h, i, k);
      PairShares(us, known, h, j, k);
      PairShares(us, known, i, j, k);
      NoTriangle(e, fs[h].b.id, fs[i].b.id, fs[j].b.id);
    }
  }

  lemma PairShares(us: seq<Usecase>, known: set<string>, i: nat, j: nat, k: string)
    requires WellFormed(us, known) && i < j < |Flat(us)| && k in Handles(Flat(us)[i].b) && k in Handles(Flat(us)[j].b)
    ensures Shares(SupersedesRel(Flat(us)), Flat(us)[i].b.id, Flat(us)[j].b.id)
    ensures Flat(us)[i].b.id != Flat(us)[j].b.id
  {
    assert PairFine(SupersedesRel(Flat(us)), Flat(us)[i].b, Flat(us)[j].b);
  }
}
