/** The setup order of a usecase and its dependency closure: two depth-first walks over `requires`. */
module CatalogOrder {
  import opened Prelude
  import opened Digraph
  import opened CatalogModel

  /** Every dependency resolves and no usecase reaches itself: what the validator establishes. */
  ghost predicate Trustworthy(us: seq<Usecase>, byId: map<string, nat>) {
    && InRange(us, byId)
    && (forall id :: id in byId ==> us[byId[id]].id == id)
    && (forall id, dep :: id in byId && dep in us[byId[id]].deps ==> dep in byId)
    && !Cyclic(Requires(us, byId))
  }

  /** All ids a walk from `root` can be asked for. */
  ghost function Universe(us: seq<Usecase>, root: string): set<string> {
    {root} + set u, dep | u in us && dep in u.deps :: dep
  }

  function Ids(us: seq<Usecase>): seq<string> {
    seq(|us|, i requires 0 <= i < |us| => us[i].id)
  }

  class OrderWalk {
    const usecases: seq<Usecase>
    const byId: map<string, nat>
    const root: string
    var out: seq<Usecase>
    var seen: set<string>
    /** The ids of the usecases in `out`. */
    ghost var ids: seq<string>
    /** The ids whose walk has not returned yet, outermost first. */
    ghost var path: seq<string>

    /** A missing id reads the table's zero value, as a lookup in a map of integers does. */
    function Slot(id: string): nat {
      if id in byId then byId[id] else 0
    }

    ghost predicate Sound() { Trustworthy(usecases, byId) }

    ghost function Rel(): Digraph.Rel
      requires InRange(usecases, byId)
    {
      Requires(usecases, byId)
    }

    ghost predicate Valid()
      reads this
    {
      && InRange(usecases, byId) && usecases != []
      && |out| == |ids| && (forall i :: 0 <= i < |ids| ==> out[i] == usecases[Slot(ids[i])])
      && (forall x :: x in seen <==> x in ids || x in path)
      && (forall x :: x in path ==> x !in ids)
      && Distinct(ids)
      && seen <= Universe(usecases, root)
      && (Sound() ==> PathIsWalk() && SuccessorsFirst(Rel(), ids) && forall x :: x in seen ==> x in byId)
    }

    ghost predicate PathIsWalk()
      requires InRange(usecases, byId)
      reads this
    {
      path != [] ==> Digraph.Walk(Rel(), path)
    }

    constructor (usecases: seq<Usecase>, byId: map<string, nat>, root: string)
      requires InRange(usecases, byId) && usecases != []
      ensures this.usecases == usecases && this.byId == byId && this.root == root
      ensures Valid() && ids == [] && path == [] && seen == {}
    {
      this.usecases, this.byId, this.root := usecases, byId, root;
      out, seen, ids, path := [], {}, [], [];
    }

    ghost predicate MayEnter(id: string)
      reads this
    {
      && InRange(usecases, byId) && id in Universe(usecases, root)
      && (Sound() ==> id in byId && (path != [] ==> (path[|path| - 1], id) in Rel()))
    }

    method Walk(id: string)
      requires Valid() && MayEnter(id)
      modifies this
      ensures Valid() && path == old(path) && (forall x :: x in old(ids) ==> x in ids) && old(seen) <= seen
      ensures Sound() ==> id in ids
      ensures id !in old(seen) ==> ids != [] && ids[|ids| - 1] == id
      ensures Sound() ==> forall x :: x in ids && x !in old(ids) ==> Reaches(Rel(), id, x)
      decreases Universe(usecases, root) - seen, 0
    {
      if id in seen {
        if Sound() { SeenMeansListed(id); }
        return;
      }
      seen := seen + {id};
      path := path + [id];
      var u := usecases[Slot(id)];
      for k := 0 to |u.deps|
        invariant Valid() && path == old(path) + [id] && old(seen) + {id} <= seen
        invariant forall x :: x in old(ids) ==> x in ids
        invariant Sound() ==> forall b :: b in u.deps[..k] ==> b in ids
        invariant Sound() ==> forall x :: x in ids && x !in old(ids) ==> Reaches(Rel(), id, x)
      {
        Follow(id, u, u.deps[k]);
        assert u.deps[..k + 1] == u.deps[..k] + [u.deps[k]];
      }
      assert u.deps[..|u.deps|] == u.deps;
      ReachesSelf(Rel(), id);
      Emit(id, u);
      assert path == old(path);
    }

    /** One dependency of the innermost usecase: what its walk adds is reached through it. */
    method Follow(id: string, u: Usecase, dep: string)
      requires Valid() && path != [] && path[|path| - 1] == id && u == usecases[Slot(id)] && dep in u.deps
      requires Sound() ==> id in byId
      modifies this
      ensures Valid() && path == old(path) && (forall x :: x in old(ids) ==> x in ids) && old(seen) <= seen
      ensures Sound() ==> dep in ids
      ensures Sound() ==> forall x :: x in ids && x !in old(ids) ==> Reaches(Rel(), id, x)
      decreases Universe(usecases, root) - seen, 1
    {
      assert u in usecases && (Sound() ==> (id, dep) in Rel());
      Walk(dep);
      if Sound() {
        forall x | x in ids && x !in old(ids)
          ensures Reaches(Rel(), id, x)
        {
          ReachesSelf(Rel(), id);
          ReachesStep(Rel(), id, id, dep);
          ReachesTrans(Rel(), id, dep, x);
        }
      }
    }

    /** In a sound catalog a walk never meets an id it is still inside of: that would close a cycle. */
    lemma SeenMeansListed(id: string)
      requires Valid() && Sound() && MayEnter(id) && id in seen
      ensures id in ids
    {
      if id in path {
        var k :| 0 <= k < |path| && path[k] == id;
        BackEdgeCloses(Rel(), path, k, id);
      }
    }

    /** The end of a walk: its usecase is appended after all its dependencies. */
    method Emit(id: string, u: Usecase)
      requires Valid() && path != [] && path[|path| - 1] == id && u == usecases[Slot(id)]
      requires forall i :: 0 <= i < |path| - 1 ==> path[i] != id
      requires Sound() ==> forall b :: (id, b) in Rel() ==> b in ids
      modifies this
      ensures Valid() && path == old(path)[..|old(path)| - 1] && ids == old(ids) + [id] && seen == old(seen)
    {
      assert id in path && id !in ids;
      Popped(path, id);
      if Sound() {
        ListedLast(Rel(), ids, id);
        ShorterWalk(Rel(), path);
      }
      out := out + [u];
      ids := ids + [id];
      path := path[..|path| - 1];
      assert forall x :: x in ids <==> x in old(ids) || x == id;
    }
  }

  /** Dropping the last element of a path that has it once. */
  lemma Popped(path: seq<string>, id: string)
    requires path != [] && path[|path| - 1] == id && forall i :: 0 <= i < |path| - 1 ==> path[i] != id
    ensures forall x :: x in path[..|path| - 1] <==> x in path && x != id
  {
    assert path == path[..|path| - 1] + [id];
  }

  lemma ListedLast(r: Rel, ids: seq<string>, id: string)
    requires SuccessorsFirst(r, ids) && forall b :: (id, b) in r ==> b in ids
    ensures SuccessorsFirst(r, ids + [id])
  {
    var all := ids + [id];
    forall i, b | 0 <= i < |all| && (all[i], b) in r
      ensures b in all[..i]
    {
      assert all[..i] == ids[..i];
      assert ids[..|ids|] == ids;
    }
  }

  lemma ShorterWalk(r: Rel, path: seq<string>)
    requires Digraph.Walk(r, path)
    ensures |path| > 1 ==> Digraph.Walk(r, path[..|path| - 1])
  {
  }

  /**
   * The usecase's dependency closure in setup order. With a trustworthy table: exactly what the id
   * reaches, once each, every usecase after all it reaches, the requested one last.
   */
  method Order(usecases: seq<Usecase>, byId: map<string, nat>, id: string)
      returns (out: seq<Usecase>, ok: bool)
    requires InRange(usecases, byId)
    ensures ok <==> id in byId
    ensures !ok ==> out == []
    ensures ok && Trustworthy(usecases, byId) ==> IsSetupOrder(usecases, byId, id, out)
  {
    if id !in byId {
      return [], false;
    }
    var w := new OrderWalk(usecases, byId, id);
    w.Walk(id);
    out, ok := w.out, true;
    if Trustworthy(usecases, byId) {
      assert w.ids == Ids(out);
      var r := Requires(usecases, byId);
      forall x
        ensures x in Ids(out) <==> Reaches(r, id, x)
      {
        if Reaches(r, id, x) {
          ClosedSetKeepsReach(r, (set y | y in w.ids), id, x);
        }
      }
      forall i, x | 0 <= i < |out| && Reaches(r, out[i].id, x) && x != out[i].id
        ensures x in Ids(out)[..i]
      {
        ReachedComesBefore(r, w.ids, i, x);
      }
    }
  }

  ghost predicate IsSetupOrder(usecases: seq<Usecase>, byId: map<string, nat>, id: string, out: seq<Usecase>)
    requires InRange(usecases, byId)
  {
    var r := Requires(usecases, byId);
    && (forall i :: 0 <= i < |out| ==> out[i].id in byId && out[i] == usecases[byId[out[i].id]])
    && Distinct(Ids(out))
    && (forall x :: x in Ids(out) <==> Reaches(r, id, x))
    && (forall i, x :: 0 <= i < |out| && Reaches(r, out[i].id, x) && x != out[i].id ==> x in Ids(out)[..i])
    && out != [] && out[|out| - 1].id == id
  }

  class ClosureWalk {
    const usecases: seq<Usecase>
    const byId: map<string, nat>
    const root: string
    var seen: set<string>
    var out: seq<string>
    /** The ids whose walk has not returned yet. */
    ghost var open: set<string>

    ghost function Rel(): Digraph.Rel
      requires InRange(usecases, byId)
    {
      Requires(usecases, byId)
    }

    ghost predicate Valid()
      reads this
    {
      && InRange(usecases, byId)
      && (forall x :: x in out <==> x in seen) && Distinct(out)
      && seen <= Universe(usecases, root)
      && (forall x :: x in seen ==> Reaches(Rel(), root, x))
      && (forall x, y :: x in seen && x !in open && (x, y) in Rel() ==> y in seen)
    }

    constructor (usecases: seq<Usecase>, byId: map<string, nat>, root: string)
      requires InRange(usecases, byId)
      ensures this.usecases == usecases && this.byId == byId && this.root == root
      ensures Valid() && open == {}
    {
      this.usecases, this.byId, this.root := usecases, byId, root;
      seen, out, open := {}, [], {};
    }

    method Walk(id: string)
      requires Valid() && id in Universe(usecases, root) && Reaches(Rel(), root, id)
      modifies this
      ensures Valid() && open == old(open) && old(seen) <= seen && id in seen
      decreases Universe(usecases, root) - seen
    {
      if id in seen {
        return;
      }
      seen := seen + {id};
      out := out + [id];
      open := open + {id};
      if id in byId {
        var u := usecases[byId[id]];
        for k := 0 to |u.deps|
          invariant Valid() && open == old(open) + {id} && old(seen) + {id} <= seen
          invariant forall j :: 0 <= j < k ==> u.deps[j] in seen
        {
          assert u in usecases && (id, u.deps[k]) in Rel();
          ReachesStep(Rel(), root, id, u.deps[k]);
          Walk(u.deps[k]);
        }
      }
      open := old(open);
    }
  }

  /** The usecase plus everything it reaches, resolved or not, each once; cycles do not matter. */
  method Closure(usecases: seq<Usecase>, byId: map<string, nat>, id: string) returns (out: seq<string>)
    requires InRange(usecases, byId)
    ensures forall x :: x in out <==> Reaches(Requires(usecases, byId), id, x)
    ensures Distinct(out)
  {
    var w := new ClosureWalk(usecases, byId, id);
    ReachesSelf(Requires(usecases, byId), id);
    w.Walk(id);
    out := w.out;
    forall x | Reaches(Requires(usecases, byId), id, x)
      ensures x in out
    {
      ClosedSetKeepsReach(Requires(usecases, byId), w.seen, id, x);
    }
  }
}
