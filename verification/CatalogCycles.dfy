/** The three-colour search that reports cycles of the requires graph. */
module CatalogCycles {
  import opened Prelude
  import opened Digraph
  import opened CatalogModel
  import opened Strings

  datatype Color = White | Grey | Black

  class CycleFinder {
    const usecases: seq<Usecase>
    const byId: map<string, nat>
    var color: map<string, Color>
    var reported: set<string>
    var stack: seq<string>
    var problems: seq<Problem>
    /** The black ids, in the order the search finished them. */
    ghost var finished: seq<string>

    ghost predicate WellBuilt() { InRange(usecases, byId) }

    function ColorOf(id: string): Color
      reads this
    {
      if id in color then color[id] else White
    }

    ghost function Rel(): Digraph.Rel
      requires WellBuilt()
    {
      Requires(usecases, byId)
    }

    /** What every step of the search keeps. */
    ghost predicate Valid()
      reads this
    {
      && WellBuilt()
      && (forall id :: ColorOf(id) == Grey <==> id in stack)
      && (forall id :: ColorOf(id) == Black <==> id in finished)
      && (forall id :: id in stack || id in finished ==> id in byId)
      && Distinct(stack) && Distinct(finished)
      && (stack != [] ==> Walk(Rel(), stack))
      && (problems == [] ==> reported == {} && FinishedInOrder(|finished|))
      && (forall p :: p in problems ==> p.code == CycleFound && ClosedWalk(Rel(), p.detail))
      && (forall p :: p in problems ==> Join(p.detail, ">") in reported)
      && Distinct(problems)
    }

    /** No edge from the first n finished ids leaves the ids finished before its source. */
    ghost predicate FinishedInOrder(n: nat)
      requires WellBuilt() && n <= |finished|
      reads this
    {
      forall i, b :: 0 <= i < n && (finished[i], b) in Rel() && b in byId ==> b in finished[..i]
    }

    ghost function Untouched(): set<string>
      reads this
    {
      set id | id in byId.Keys && ColorOf(id) == White
    }

    constructor (usecases: seq<Usecase>, byId: map<string, nat>)
      requires InRange(usecases, byId)
      ensures this.usecases == usecases && this.byId == byId
      ensures Valid() && stack == [] && problems == [] && finished == []
    {
      this.usecases := usecases;
      this.byId := byId;
      color, reported, stack, problems, finished := map[], {}, [], [], [];
    }

    method Visit(id: string)
      requires Valid() && id in byId && ColorOf(id) == White
      requires stack != [] ==> (stack[|stack| - 1], id) in Rel()
      modifies this
      ensures Valid() && stack == old(stack)
      ensures id in finished && (forall x :: x in old(finished) ==> x in finished) && old(problems) <= problems
      ensures Untouched() <= old(Untouched())
      decreases Untouched(), 0
    {
      Enter(id);
      var u := usecases[byId[id]];
      for k := 0 to |u.deps|
        invariant Valid() && stack == old(stack) + [id]
        invariant (forall x :: x in old(finished) ==> x in finished) && old(problems) <= problems
        invariant Untouched() < old(Untouched())
        invariant problems == [] ==> forall b :: b in u.deps[..k] && b in byId ==> b in finished
      {
        assert (id, u.deps[k]) in Rel();
        Follow(u.deps[k]);
        assert u.deps[..k + 1] == u.deps[..k] + [u.deps[k]];
      }
      assert u.deps[..|u.deps|] == u.deps;
      Finish(id);
      assert stack == old(stack);
    }

    /** One dependency of the id on top of the stack: report a grey one, visit a white one. */
    method Follow(dep: string)
      requires Valid() && stack != [] && (stack[|stack| - 1], dep) in Rel()
      modifies this
      ensures Valid() && stack == old(stack)
      ensures (forall x :: x in old(finished) ==> x in finished) && old(problems) <= problems
      ensures problems == [] && dep in byId ==> dep in finished
      ensures Untouched() <= old(Untouched())
      decreases Untouched(), 1
    {
      if dep in byId {
        match ColorOf(dep)
        case Grey => Report(dep);
        case White => Visit(dep);
        case Black =>
      }
    }

    /** The first two statements of a visit: paint the id grey and push it. */
    method Enter(id: string)
      requires Valid() && id in byId && ColorOf(id) == White
      requires stack != [] ==> (stack[|stack| - 1], id) in Rel()
      modifies this
      ensures Valid() && stack == old(stack) + [id]
      ensures finished == old(finished) && problems == old(problems)
      ensures Untouched() < old(Untouched())
    {
      color := color[id := Grey];
      stack := stack + [id];
      assert forall x :: x in stack <==> x in old(stack) || x == id;
      assert id in old(Untouched()) && id !in Untouched();
    }

    /** A grey dependency closes a cycle: report its path unless the same path was reported before. */
    method Report(dep: string)
      requires Valid() && dep in stack && (stack[|stack| - 1], dep) in Rel()
      modifies this
      ensures Valid() && stack == old(stack) && finished == old(finished) && color == old(color)
      ensures problems != [] && old(problems) <= problems
    {
      var start := IndexOf(stack, dep);
      var cycle := stack[start..] + [dep];
      BackEdgeCloses(Rel(), stack, start, dep);
      var key := Join(cycle, ">");
      if key !in reported {
        reported := reported + {key};
        problems := problems + [Problem(CycleFound, cycle)];
      }
    }

    /** The last two statements of a visit: pop the id and paint it black. */
    method Finish(id: string)
      requires Valid() && stack != [] && stack[|stack| - 1] == id
      requires problems == [] ==> forall b :: (id, b) in Rel() && b in byId ==> b in finished
      modifies this
      ensures Valid() && stack == old(stack)[..|old(stack)| - 1] && finished == old(finished) + [id]
      ensures problems == old(problems) && Untouched() == old(Untouched())
    {
      assert id in stack && ColorOf(id) == Grey && id !in finished;
      assert id !in stack[..|stack| - 1];
      assert stack == stack[..|stack| - 1] + [id];
      stack := stack[..|stack| - 1];
      assert forall x :: x in stack <==> x in old(stack) && x != id;
      color := color[id := Black];
      finished := finished + [id];
      assert forall x :: x in finished <==> x in old(finished) || x == id;
      assert forall i :: 0 <= i <= |old(finished)| ==> finished[..i] == old(finished)[..i];
    }
  }

  /** Every usecase with a table entry starts a visit unless an earlier visit reached it. */
  method FindCycles(usecases: seq<Usecase>, byId: map<string, nat>) returns (problems: seq<Problem>)
    requires InRange(usecases, byId)
    requires forall id :: id in byId ==> usecases[byId[id]].id == id
    ensures problems != [] <==> Cyclic(Requires(usecases, byId))
    ensures forall p :: p in problems ==> p.code == CycleFound && ClosedWalk(Requires(usecases, byId), p.detail)
    ensures Distinct(problems)
  {
    var f := new CycleFinder(usecases, byId);
    for i := 0 to |usecases|
      invariant f.usecases == usecases && f.byId == byId && f.Valid() && f.stack == []
      invariant forall j :: 0 <= j < i && usecases[j].id in byId ==> usecases[j].id in f.finished
    {
      var u := usecases[i];
      if u.id in byId && f.ColorOf(u.id) == White {
        f.Visit(u.id);
      }
    }
    problems := f.problems;
    var r := Requires(usecases, byId);
    if problems == [] {
      NoReportNoCycle(r, f.finished, byId);
    } else {
      assert ClosedWalk(r, problems[0].detail);
    }
  }

  /** Finished ids in order, with every table id finished, leave no room for a cycle. */
  lemma NoReportNoCycle(r: Rel, finished: seq<string>, byId: map<string, nat>)
    requires Distinct(finished)
    requires forall id :: id in byId <==> id in finished
    requires forall e :: e in r ==> e.0 in byId
    requires forall i, b :: 0 <= i < |finished| && (finished[i], b) in r && b in byId ==> b in finished[..i]
    ensures !Cyclic(r)
  {
    var inner := set e | e in r && e.1 in byId;
    assert SuccessorsFirst(inner, finished);
    SuccessorsFirstAcyclic(inner, finished);
    forall p | ClosedWalk(r, p)
      ensures false
    {
      forall i, j | 0 <= i && j == i + 1 < |p|
        ensures (p[i], p[j]) in inner
      {
        if j < |p| - 1 {
          assert (p[j], p[j + 1]) in r;
        } else {
          assert (p[0], p[1]) in r;
        }
      }
      assert ClosedWalk(inner, p);
    }
  }
}
