/** The supersede groups: connected components of the `supersedes` edges, found by union-find. */
module SupersedeGroups {
  import opened Digraph
  import opened CatalogModel

  /** One group: its superseded bundles and the ones standing in for them, in declaration order. */
  class SupersedeGroup {
    var olds: seq<string>
    var news: seq<string>

    constructor ()
      ensures olds == [] && news == []
    {
      olds, news := [], [];
    }
  }

  /** bundle a stands in for bundle b. */
  function Edges(supersedes: map<string, set<string>>): Rel {
    set a, b | a in supersedes.Keys && b in supersedes[a] :: (a, b)
  }

  function Touched(e: Rel): set<string> {
    (set p | p in e :: p.0) + (set p | p in e :: p.1)
  }

  /** What the tables say about one id: its parent and root are known, and the parent is nearer the root. */
  ghost predicate NodeOk(parent: map<string, string>, root: map<string, string>, depth: map<string, nat>, x: string) {
    && x in parent && x in root && x in depth
    && root[x] in parent && parent[root[x]] == root[x]
    && parent[x] in root && parent[x] in depth
    && root[parent[x]] == root[x]
    && (if parent[x] == x then root[x] == x else depth[parent[x]] < depth[x])
  }

  ghost predicate ForestOk(parent: map<string, string>, root: map<string, string>, depth: map<string, nat>) {
    && parent.Keys == root.Keys == depth.Keys
    && forall x {:trigger NodeOk(parent, root, depth, x)} :: x in parent ==> NodeOk(parent, root, depth, x)
  }

  /** The parent table of the union-find, with its meaning as ghost state. */
  class Forest {
    var parent: map<string, string>
    ghost var root: map<string, string>
    ghost var depth: map<string, nat>

    ghost predicate Valid()
      reads this
    {
      ForestOk(parent, root, depth)
    }

    constructor ()
      ensures Valid() && root == map[]
    {
      parent, root, depth := map[], map[], map[];
    }

    /** Adds an unknown id as its own root; compression shortens paths and moves no root. */
    method Find(id: string) returns (r: string)
      requires Valid()
      modifies this
      ensures Valid() && root == Add(old(root), id) && r == root[id]
      ensures r in parent && parent[r] == r && depth[r] <= depth[id]
      ensures id in old(depth) ==> depth == old(depth)
      decreases if id in parent then depth[id] else 0
    {
      assert id in parent ==> NodeOk(parent, root, depth, id);
      if id in parent && parent[id] != id {
        r := Find(parent[id]);
        Compress(parent, root, depth, id, r);
        parent := parent[id := r];
        return;
      }
      if id !in parent {
        AddRoot(parent, root, depth, id);
        parent, root, depth := parent[id := id], root[id := id], depth[id := 0];
      }
      r := id;
    }

    /** One edge: the root of `older` is hung under the root of `id`. */
    method Link(older: string, id: string)
      requires Valid()
      modifies this
      ensures Valid() && root == Merge(Add(Add(old(root), older), id), older, id)
    {
      var ro := Find(older);
      var ri := Find(id);
      assert NodeOk(parent, root, depth, older) && NodeOk(parent, root, depth, id);
      Hang(parent, root, depth, older, id);
      parent := parent[ro := ri];
      depth := Deepened(root, depth, ro, ri);
      root := Merge(root, older, id);
    }
  }

  /** Depths after hanging the tree of root `ro` under the root `ri`. */
  ghost function Deepened(root: map<string, string>, depth: map<string, nat>, ro: string, ri: string): map<string, nat>
    requires root.Keys == depth.Keys && ri in depth
  {
    if ro == ri then depth
    else map x | x in depth :: if root[x] == ro then depth[x] + depth[ri] + 1 else depth[x]
  }

  lemma Compress(parent: map<string, string>, root: map<string, string>, depth: map<string, nat>, id: string, r: string)
    requires ForestOk(parent, root, depth) && id in parent && r == root[id]
    requires r in depth && depth[r] < depth[id]
    ensures ForestOk(parent[id := r], root, depth)
  {
    assert NodeOk(parent, root, depth, id) && NodeOk(parent, root, depth, r);
    forall x | x in parent
      ensures NodeOk(parent[id := r], root, depth, x)
    {
      assert NodeOk(parent, root, depth, x);
    }
  }

  lemma AddRoot(parent: map<string, string>, root: map<string, string>, depth: map<string, nat>, id: string)
    requires ForestOk(parent, root, depth) && id !in parent
    ensures ForestOk(parent[id := id], root[id := id], depth[id := 0])
  {
    var p := parent[id := id];
    forall x | x in p
      ensures NodeOk(p, root[id := id], depth[id := 0], x)
    {
      assert x != id ==> NodeOk(parent, root, depth, x);
    }
  }

  lemma Hang(parent: map<string, string>, root: map<string, string>, depth: map<string, nat>, a: string, b: string)
    requires ForestOk(parent, root, depth) && a in root && b in root
    requires root[a] in parent && root[b] in depth
    ensures ForestOk(parent[root[a] := root[b]], Merge(root, a, b), Deepened(root, depth, root[a], root[b]))
  {
    var p, m, d := parent[root[a] := root[b]], Merge(root, a, b), Deepened(root, depth, root[a], root[b]);
    assert NodeOk(parent, root, depth, a) && NodeOk(parent, root, depth, b);
    assert NodeOk(parent, root, depth, root[a]) && NodeOk(parent, root, depth, root[b]);
    forall x | x in p
      ensures NodeOk(p, m, d, x)
    {
      assert NodeOk(parent, root, depth, x);
    }
  }

  ghost function Add(root: map<string, string>, id: string): map<string, string> {
    if id in root then root else root[id := id]
  }

  ghost function Merge(root: map<string, string>, a: string, b: string): map<string, string>
    requires a in root && b in root
  {
    map x | x in root :: if root[x] == root[a] then root[b] else root[x]
  }

  /** The table knows exactly the ids the edges touch, and agrees along every edge. */
  ghost predicate Follows(root: map<string, string>, e: Rel) {
    && root.Keys == Touched(e)
    && root.Values <= root.Keys
    && (forall p :: p in e ==> p.0 in root && p.1 in root && root[p.0] == root[p.1])
  }

  /** Ids with one root are connected by the edges. */
  ghost predicate Justified(root: map<string, string>, e: Rel) {
    forall x, y :: x in root && y in root && root[x] == root[y] ==> Connected(e, x, y)
  }

  /** A root table that describes exactly the components of the edges. */
  ghost predicate Describes(root: map<string, string>, e: Rel) {
    Follows(root, e) && Justified(root, e)
  }

  lemma ConnectedMono(e: Rel, e': Rel, a: string, b: string)
    requires e <= e' && Connected(e, a, b)
    ensures Connected(e', a, b)
  {
    assert Flip(e) <= Flip(e') by {
      forall p | p in Flip(e)
        ensures p in Flip(e')
      {
        assert (p.1, p.0) in e';
      }
    }
    ReachesMono(Sym(e), Sym(e'), a, b);
  }

  /** An edge connects its ends, either way round. */
  lemma EdgeConnects(e: Rel, a: string, b: string)
    requires (a, b) in e
    ensures Connected(e, a, b) && Connected(e, b, a)
  {
    ReachesSelf(Sym(e), a);
    ReachesStep(Sym(e), a, a, b);
    ConnectedSym(e, a, b);
  }

  /** Adding ids as their own roots connects nothing new. */
  lemma GrownConnects(root: map<string, string>, e: Rel, e': Rel, older: string, id: string, x: string, y: string)
    requires Describes(root, e) && e <= e'
    requires var g := Add(Add(root, older), id); x in g && y in g && g[x] == g[y]
    ensures Connected(e', x, y)
  {
    if x in root && y in root {
      ConnectedMono(e, e', x, y);
    } else {
      assert y in root ==> root[y] in root.Values;
      assert x in root ==> root[x] in root.Values;
      assert x == y;
      ReachesSelf(Sym(e'), x);
    }
  }

  lemma MergedConnects(root: map<string, string>, e: Rel, older: string, id: string, x: string, y: string)
    requires Describes(root, e)
    requires var m := Merge(Add(Add(root, older), id), older, id); x in m && y in m && m[x] == m[y]
    ensures Connected(e + {(id, older)}, x, y)
  {
    var g := Add(Add(root, older), id);
    var e' := e + {(id, older)};
    EdgeConnects(e', id, older);
    if g[x] == g[y] {
      GrownConnects(root, e, e', older, id, x, y);
    } else if g[x] == g[older] {
      GrownConnects(root, e, e', older, id, x, older);
      GrownConnects(root, e, e', older, id, id, y);
      ReachesTrans(Sym(e'), x, older, id);
      ReachesTrans(Sym(e'), x, id, y);
    } else {
      GrownConnects(root, e, e', older, id, x, id);
      GrownConnects(root, e, e', older, id, older, y);
      ReachesTrans(Sym(e'), x, id, older);
      ReachesTrans(Sym(e'), x, older, y);
    }
  }

  lemma LinkFollows(root: map<string, string>, e: Rel, older: string, id: string)
    requires Follows(root, e)
    ensures Follows(Merge(Add(Add(root, older), id), older, id), e + {(id, older)})
  {
    TouchedGrows(e, id, older);
    var g := Add(Add(root, older), id);
    MergeFacts(g, older, id);
    var m := Merge(g, older, id);
    forall p | p in e + {(id, older)}
      ensures p.0 in m && p.1 in m && m[p.0] == m[p.1]
    {
      if p in e {
        assert g[p.0] == root[p.0] && g[p.1] == root[p.1];
      }
    }
  }

  lemma MergeFacts(g: map<string, string>, a: string, b: string)
    requires a in g && b in g && g.Values <= g.Keys
    ensures var m := Merge(g, a, b);
      m.Keys == g.Keys && m.Values <= m.Keys && m[a] == m[b]
  {
  }

  lemma LinkDescribes(root: map<string, string>, e: Rel, older: string, id: string)
    requires Describes(root, e)
    ensures Describes(Merge(Add(Add(root, older), id), older, id), e + {(id, older)})
  {
    LinkFollows(root, e, older, id);
    var merged := Merge(Add(Add(root, older), id), older, id);
    forall x, y | x in merged && y in merged && merged[x] == merged[y]
      ensures Connected(e + {(id, older)}, x, y)
    {
      MergedConnects(root, e, older, id, x, y);
    }
  }

  lemma TouchedGrows(e: Rel, a: string, b: string)
    ensures Touched(e + {(a, b)}) == Touched(e) + {a, b}
  {
    var e' := e + {(a, b)};
    assert (a, b) in e';
    forall x | x in Touched(e)
      ensures x in Touched(e')
    {
      var p :| p in e && (p.0 == x || p.1 == x);
      assert p in e';
    }
  }

  /** The declared ids of one root, superseded or not, in declaration order. */
  ghost function Pick(ids: seq<string>, root: map<string, string>, r: string, superseded: set<string>,
      old_: bool): seq<string> {
    if ids == [] then []
    else
      var n := |ids| - 1;
      var rest := Pick(ids[..n], root, r, superseded, old_);
      if ids[n] in root && root[ids[n]] == r && (ids[n] in superseded) == old_ then rest + [ids[n]] else rest
  }

  lemma PickNone(ids: seq<string>, root: map<string, string>, r: string, superseded: set<string>, old_: bool)
    requires forall id :: id in ids && id in root ==> root[id] != r
    ensures Pick(ids, root, r, superseded, old_) == []
  {
  }

  /** All bundle ids in declaration order. */
  function BundleIds(us: seq<Usecase>): seq<string> {
    if us == [] then [] else BundleIds(us[..|us| - 1]) + IdsOf(us[|us| - 1].bundles)
  }

  function IdsOf(bs: seq<Bundle>): seq<string> {
    seq(|bs|, i requires 0 <= i < |bs| => bs[i].id)
  }

  ghost predicate GroupOk(g: SupersedeGroup, placed: seq<string>, root: map<string, string>, r: string,
      superseded: set<string>)
    reads g
  {
    && g.olds == Pick(placed, root, r, superseded, true)
    && g.news == Pick(placed, root, r, superseded, false)
  }

  class Grouper {
    const forest: Forest
    const superseded: set<string>
    ghost const root: map<string, string>
    var byRoot: map<string, SupersedeGroup>
    var groups: map<string, SupersedeGroup>
    /** The bundle ids walked so far, linked or not. */
    ghost var placed: seq<string>

    ghost predicate TablesOk()
      reads this
    {
      && (forall r, r' :: r in byRoot && r' in byRoot && byRoot[r] == byRoot[r'] ==> r == r')
      && (forall id :: id in groups <==> id in placed && id in root)
      && (forall id :: id in groups ==> root[id] in byRoot && groups[id] == byRoot[root[id]])
    }

    ghost predicate Valid()
      reads this, byRoot.Values
    {
      && TablesOk()
      && (forall r :: r in byRoot ==> GroupOk(byRoot[r], placed, root, r, superseded))
    }

    constructor (forest: Forest, superseded: set<string>)
      requires forest.Valid()
      ensures this.forest == forest && this.superseded == superseded && this.root == forest.root
      ensures Valid() && placed == [] && byRoot == map[]
    {
      this.forest, this.superseded, this.root := forest, superseded, forest.root;
      byRoot, groups, placed := map[], map[], [];
    }

    /** One declared bundle: filed on its side of its root's group, or skipped when no edge touches it. */
    method Place(id: string)
      requires forest.Valid() && forest.root == root && Valid()
      modifies this, forest, byRoot.Values
      ensures forest.Valid() && forest.root == root && Valid() && placed == old(placed) + [id]
      ensures fresh(byRoot.Values - old(byRoot.Values))
    {
      if id !in forest.parent {
        Skip(id);
        return;
      }
      var r := forest.Find(id);
      OpenGroup(r);
      File(id, r);
    }

    method PlaceAll(bundles: seq<Bundle>)
      requires forest.Valid() && forest.root == root && Valid()
      modifies this, forest, byRoot.Values
      ensures forest.Valid() && forest.root == root && Valid() && placed == old(placed) + IdsOf(bundles)
      ensures fresh(byRoot.Values - old(byRoot.Values))
    {
      for bi := 0 to |bundles|
        invariant forest.Valid() && forest.root == root && Valid()
        invariant fresh(byRoot.Values - old(byRoot.Values))
        invariant placed == old(placed) + IdsOf(bundles)[..bi]
      {
        Place(bundles[bi].id);
      }
    }

    method Skip(id: string)
      requires Valid() && id !in root
      modifies this`placed
      ensures Valid() && placed == old(placed) + [id]
    {
      assert (placed + [id])[..|placed|] == placed;
      placed := placed + [id];
    }

    /** The group of a root, created empty when the root has none yet. */
    method OpenGroup(r: string)
      requires Valid()
      modifies this`byRoot
      ensures Valid() && r in byRoot
      ensures fresh(byRoot.Values - old(byRoot.Values))
    {
      if r !in byRoot {
        var g := new SupersedeGroup();
        forall id | id in placed && id in root
          ensures root[id] != r
        {
          assert id in groups;
        }
        PickNone(placed, root, r, superseded, true);
        PickNone(placed, root, r, superseded, false);
        byRoot := byRoot[r := g];
      }
    }

    method File(id: string, r: string)
      requires Valid() && r in byRoot && id in root && root[id] == r
      modifies this`groups, this`placed, byRoot[r]
      ensures Valid() && placed == old(placed) + [id]
    {
      var g := byRoot[r];
      ghost var was := placed;
      assert GroupOk(g, placed, root, r, superseded);
      if id in superseded {
        g.olds := g.olds + [id];
      } else {
        g.news := g.news + [id];
      }
      groups := groups[id := g];
      placed := placed + [id];
      assert placed[..|was|] == was;
      forall r' | r' in byRoot
        ensures GroupOk(byRoot[r'], placed, root, r', superseded)
      {
        if r' != r {
          assert old(GroupOk(byRoot[r'], placed, root, r', superseded));
        }
      }
    }
  }

  /** The declared ids connected to x by the edges, superseded or not, in declaration order. */
  ghost function Side(ids: seq<string>, e: Rel, x: string, superseded: set<string>, old_: bool): seq<string> {
    if ids == [] then []
    else
      var n := |ids| - 1;
      var rest := Side(ids[..n], e, x, superseded, old_);
      if ids[n] in Touched(e) && Connected(e, x, ids[n]) && (ids[n] in superseded) == old_
      then rest + [ids[n]] else rest
  }

  lemma {:induction false} SideMembers(ids: seq<string>, e: Rel, x: string, superseded: set<string>, old_: bool,
      id: string)
    ensures id in Side(ids, e, x, superseded, old_) <==>
            id in ids && id in Touched(e) && Connected(e, x, id) && (id in superseded) == old_
  {
    if ids != [] {
      var n := |ids| - 1;
      SideMembers(ids[..n], e, x, superseded, old_, id);
      assert ids == ids[..n] + [ids[n]];
    }
  }

  /**
   * The grouping the catalog promises: exactly the declared bundles an edge touches have a group, two
   * share one iff the edges connect them, and each side lists its members in declaration order.
   */
  ghost predicate IsGrouping(groups: map<string, SupersedeGroup>, ids: seq<string>, e: Rel, superseded: set<string>)
    reads groups.Values
  {
    && (forall id :: id in groups <==> id in ids && id in Touched(e))
    && (forall x, y :: x in groups && y in groups ==> (groups[x] == groups[y] <==> Connected(e, x, y)))
    && (forall x :: x in groups ==> groups[x].olds == Side(ids, e, x, superseded, true))
    && (forall x :: x in groups ==> groups[x].news == Side(ids, e, x, superseded, false))
  }

  /** Connected ids have one root, for any table that follows the edges. */
  lemma ConnectedSameRoot(root: map<string, string>, e: Rel, x: string, y: string)
    requires Follows(root, e) && x in root && Connected(e, x, y)
    ensures y in root && root[x] == root[y]
  {
    var same := set z | z in root && root[z] == root[x];
    forall a, b | a in same && (a, b) in Sym(e)
      ensures b in same
    {
      if (a, b) !in e {
        var p :| p in e && (a, b) == (p.1, p.0);
      }
    }
    ClosedSetKeepsReach(Sym(e), same, x, y);
  }

  /** One root is the same thing as connected. */
  lemma RootIffConnected(root: map<string, string>, e: Rel, x: string, y: string)
    requires Describes(root, e) && x in root && y in root
    ensures root[x] == root[y] <==> Connected(e, x, y)
  {
    if Connected(e, x, y) { ConnectedSameRoot(root, e, x, y); }
  }

  lemma {:induction false} PickIsSide(ids: seq<string>, root: map<string, string>, e: Rel, x: string,
      superseded: set<string>, old_: bool)
    requires Describes(root, e) && x in root
    ensures Pick(ids, root, root[x], superseded, old_) == Side(ids, e, x, superseded, old_)
  {
    if ids != [] {
      var n := |ids| - 1;
      PickIsSide(ids[..n], root, e, x, superseded, old_);
      if ids[n] in root { RootIffConnected(root, e, x, ids[n]); }
    }
  }

  /** Unites the ends of every edge. The order in which the two maps yield their keys is left open. */
  method UniteAll(supersedes: map<string, set<string>>) returns (forest: Forest)
    ensures fresh(forest) && forest.Valid() && Describes(forest.root, Edges(supersedes))
  {
    forest := new Forest();
    var todo := supersedes.Keys;
    ghost var done: Rel := {};
    while todo != {}
      invariant fresh(forest) && forest.Valid() && Describes(forest.root, done) && todo <= supersedes.Keys
      invariant forall p :: p in done <==> p.0 in supersedes.Keys - todo && p.1 in supersedes[p.0]
      decreases todo
    {
      var id :| id in todo;
      todo := todo - {id};
      var olds := supersedes[id];
      while olds != {}
        invariant fresh(forest) && forest.Valid() && Describes(forest.root, done) && olds <= supersedes[id]
        invariant forall p :: p in done <==>
            (p.0 in supersedes.Keys - todo - {id} && p.1 in supersedes[p.0]) ||
              (p.0 == id && p.1 in supersedes[id] - olds)
        decreases olds
      {
        var older :| older in olds;
        olds := olds - {older};
        LinkDescribes(forest.root, done, older, id);
        forest.Link(older, id);
        done := done + {(id, older)};
      }
    }
    assert done == Edges(supersedes);
  }

  /** The supersede groups of a catalog, whatever order the maps are walked in. */
  method GroupSupersedes(usecases: seq<Usecase>, supersedes: map<string, set<string>>, superseded: set<string>)
      returns (groups: map<string, SupersedeGroup>)
    ensures fresh(groups.Values)
    ensures IsGrouping(groups, BundleIds(usecases), Edges(supersedes), superseded)
  {
    var forest := UniteAll(supersedes);
    var g := new Grouper(forest, superseded);
    for ui := 0 to |usecases|
      invariant g.forest.Valid() && g.forest.root == g.root && g.Valid()
      invariant fresh(g.byRoot.Values)
      invariant g.placed == BundleIds(usecases[..ui])
    {
      assert usecases[..ui + 1][..ui] == usecases[..ui];
      g.PlaceAll(usecases[ui].bundles);
    }
    assert usecases[..|usecases|] == usecases;
    groups := g.groups;
    FinishGrouping(g, Edges(supersedes));
  }

  lemma FinishGrouping(g: Grouper, e: Rel)
    requires g.Valid() && Describes(g.root, e)
    ensures IsGrouping(g.groups, g.placed, e, g.superseded)
    ensures g.groups.Values <= g.byRoot.Values
  {
    forall x, y | x in g.groups && y in g.groups
      ensures g.groups[x] == g.groups[y] <==> Connected(e, x, y)
    {
      RootIffConnected(g.root, e, x, y);
    }
    forall x | x in g.groups
      ensures g.groups[x].olds == Side(g.placed, e, x, g.superseded, true)
      ensures g.groups[x].news == Side(g.placed, e, x, g.superseded, false)
    {
      PickIsSide(g.placed, g.root, e, x, g.superseded, true);
      PickIsSide(g.placed, g.root, e, x, g.superseded, false);
    }
  }
}
