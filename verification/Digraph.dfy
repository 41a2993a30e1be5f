/** Walks, reachability and cycles of a finite directed relation over string ids. */
module Digraph {
  import opened Prelude

  type Rel = set<(string, string)>

  /** A non-empty sequence of ids in which every step follows an edge. */
  predicate Walk(r: Rel, p: seq<string>) {
    && |p| > 0
    && forall i, j :: 0 <= i && j == i + 1 < |p| ==> (p[i], p[j]) in r
  }

  predicate WalkFromTo(r: Rel, p: seq<string>, a: string, b: string) {
    Walk(r, p) && p[0] == a && p[|p| - 1] == b
  }

  ghost predicate Reaches(r: Rel, a: string, b: string) {
    exists p :: WalkFromTo(r, p, a, b)
  }

  /** A walk of at least one edge that ends where it started: a self-loop is one. */
  predicate ClosedWalk(r: Rel, p: seq<string>) {
    Walk(r, p) && |p| >= 2 && p[0] == p[|p| - 1]
  }

  ghost predicate Cyclic(r: Rel) {
    exists p :: ClosedWalk(r, p)
  }

  function Flip(r: Rel): Rel {
    set e | e in r :: (e.1, e.0)
  }

  /** The undirected reading of a relation. */
  function Sym(r: Rel): Rel {
    r + Flip(r)
  }

  ghost predicate Connected(r: Rel, a: string, b: string) {
    Reaches(Sym(r), a, b)
  }

  /** `s` lists ids so that every successor of an entry comes strictly before it. */
  ghost predicate SuccessorsFirst(r: Rel, s: seq<string>) {
    forall i, b :: 0 <= i < |s| && (s[i], b) in r ==> b in s[..i]
  }

  lemma ReachesSelf(r: Rel, a: string)
    ensures Reaches(r, a, a)
  {
    assert WalkFromTo(r, [a], a, a);
  }

  lemma ReachesStep(r: Rel, a: string, b: string, c: string)
    requires Reaches(r, a, b) && (b, c) in r
    ensures Reaches(r, a, c)
  {
    var p :| WalkFromTo(r, p, a, b);
    assert WalkFromTo(r, p + [c], a, c);
  }

  lemma ReachesTrans(r: Rel, a: string, b: string, c: string)
    requires Reaches(r, a, b) && Reaches(r, b, c)
    ensures Reaches(r, a, c)
  {
    var p :| WalkFromTo(r, p, a, b);
    var q :| WalkFromTo(r, q, b, c);
    var pq := p + q[1..];
    forall i, j | 0 <= i && j == i + 1 < |pq|
      ensures (pq[i], pq[j]) in r
    {
      if |p| <= j {
        var m := i - (|p| - 1);
        assert pq[i] == q[m] && pq[j] == q[m + 1];
      } else {
        assert pq[i] == p[i] && pq[j] == p[j];
      }
    }
    assert WalkFromTo(r, pq, a, c);
  }

  lemma ReachesMono(r: Rel, r': Rel, a: string, b: string)
    requires r <= r' && Reaches(r, a, b)
    ensures Reaches(r', a, b)
  {
    var p :| WalkFromTo(r, p, a, b);
    assert WalkFromTo(r', p, a, b);
  }

  /** A set that every edge stays in keeps every walk that starts in it. */
  lemma ClosedSetKeepsWalk(r: Rel, s: set<string>, p: seq<string>, k: nat)
    requires Walk(r, p) && p[0] in s && k < |p|
    requires forall a, b :: a in s && (a, b) in r ==> b in s
    ensures p[k] in s
  {
    if k > 0 {
      ClosedSetKeepsWalk(r, s, p, k - 1);
      assert (p[k - 1], p[k]) in r;
    }
  }

  lemma ClosedSetKeepsReach(r: Rel, s: set<string>, a: string, b: string)
    requires a in s && Reaches(r, a, b)
    requires forall x, y :: x in s && (x, y) in r ==> y in s
    ensures b in s
  {
    var p :| WalkFromTo(r, p, a, b);
    ClosedSetKeepsWalk(r, s, p, |p| - 1);
  }

  /** Both directions of an undirected walk: connectedness is symmetric. */
  lemma {:induction false} ConnectedSym(r: Rel, a: string, b: string)
    requires Connected(r, a, b)
    ensures Connected(r, b, a)
  {
    var p :| WalkFromTo(Sym(r), p, a, b);
    var q := seq(|p|, i requires 0 <= i < |p| => p[|p| - 1 - i]);
    forall i, j | 0 <= i && j == i + 1 < |q|
      ensures (q[i], q[j]) in Sym(r)
    {
      var m := |p| - 1 - j;
      assert (p[m], p[m + 1]) in Sym(r);
      assert q[i] == p[m + 1] && q[j] == p[m];
    }
    assert WalkFromTo(Sym(r), q, b, a);
  }

  /** In a list with successors first, a walk that starts at entry i only ever moves to earlier entries. */
  lemma {:induction false} WalkDescends(r: Rel, s: seq<string>, p: seq<string>, i: nat, k: nat)
    requires SuccessorsFirst(r, s) && Walk(r, p) && i < |s| && p[0] == s[i]
    requires 0 < k < |p|
    ensures p[k] in s[..i]
  {
    if k == 1 {
      assert (p[0], p[1]) in r;
    } else {
      WalkDescends(r, s, p, i, k - 1);
      var j :| 0 <= j < i && s[j] == p[k - 1];
      assert (p[k - 1], p[k]) in r;
      assert p[k] in s[..j];
    }
  }

  /** A list with successors first that holds every source of an edge rules out cycles. */
  lemma SuccessorsFirstAcyclic(r: Rel, s: seq<string>)
    requires SuccessorsFirst(r, s) && Distinct(s)
    requires forall e :: e in r ==> e.0 in s
    ensures !Cyclic(r)
  {
    forall p | ClosedWalk(r, p)
      ensures false
    {
      assert (p[0], p[1]) in r;
      assert (p[0], p[1]).0 in s;
      var i :| 0 <= i < |s| && s[i] == p[0];
      WalkDescends(r, s, p, i, |p| - 1);
    }
  }

  /** In a list with successors first, everything an entry reaches, itself aside, comes strictly before it. */
  lemma ReachedComesBefore(r: Rel, s: seq<string>, i: nat, b: string)
    requires SuccessorsFirst(r, s) && i < |s| && Reaches(r, s[i], b) && b != s[i]
    ensures b in s[..i]
  {
    var p :| WalkFromTo(r, p, s[i], b);
    WalkDescends(r, s, p, i, |p| - 1);
  }

  /** A walk whose last id is followed by an id already on it closes a cycle. */
  lemma BackEdgeCloses(r: Rel, p: seq<string>, k: nat, b: string)
    requires Walk(r, p) && k < |p| && p[k] == b && (p[|p| - 1], b) in r
    ensures ClosedWalk(r, p[k..] + [b])
  {
    var q := p[k..] + [b];
    forall i, j | 0 <= i && j == i + 1 < |q|
      ensures (q[i], q[j]) in r
    {
      if j < |q| - 1 {
        assert q[i] == p[k + i] && q[j] == p[k + j];
      } else {
        assert q[i] == p[|p| - 1];
      }
    }
  }
}
