/** What the document order contains and how it is arranged, for any parent pointers. */
module BlockTreeLaws {
  import opened Prelude
  import opened StableSort
  import opened BlockTree

  /** The parent chain of b passes the end of trail t on its way up to the root. */
  ghost predicate Under(bs: seq<Block>, t: seq<string>, b: Block) {
    exists u :: UnderVia(bs, t, b, u)
  }

  ghost predicate UnderVia(bs: seq<Block>, t: seq<string>, b: Block, u: seq<string>) {
    Trail(bs, u) && t <= u && Last(u) == b.parentId
  }

  lemma UnderSplits(bs: seq<Block>, t: seq<string>, b: Block) returns (c: Block)
    requires Keyed(bs) && Trail(bs, t) && b in bs && Under(bs, t, b)
    ensures c in bs && c.parentId == Last(t) && (b == c || Under(bs, t + [c.id], b))
  {
    var u :| UnderVia(bs, t, b, u);
    if u == t {
      c := b;
    } else {
      var n := |t|;
      assert u[n - 1] == t[n - 1] && IsChild(bs, u[n - 1], u[n]);
      c :| c in bs && c.id == u[n] && c.parentId == u[n - 1];
      assert t + [c.id] <= u;
      assert UnderVia(bs, t + [c.id], b, u);
    }
  }

  lemma UnderLonger(bs: seq<Block>, t: seq<string>, c: Block, b: Block)
    requires Trail(bs, t) && Under(bs, t + [c.id], b)
    ensures Under(bs, t, b)
  {
    var u :| UnderVia(bs, t + [c.id], b, u);
    assert UnderVia(bs, t, b, u);
  }

  lemma {:induction false} SubtreeMembers(bs: seq<Block>, t: seq<string>, b: Block)
    requires Keyed(bs) && Trail(bs, t)
    ensures b in Subtree(bs, t) <==> b in bs && Under(bs, t, b)
    decreases |Places(bs)| - |t|, 1, 0
  {
    var cs := Children(bs, Last(t));
    ChildrenMembers(bs, Last(t));
    TrailFits(bs, t);
    SiblingsMembers(bs, t, cs, b);
    if b in bs && Under(bs, t, b) {
      var c := UnderSplits(bs, t, b);
      assert c in cs;
    }
    if c :| c in cs && (b == c || Under(bs, t + [c.id], b)) {
      if b == c {
        assert UnderVia(bs, t, b, t);
      } else {
        UnderLonger(bs, t, c, b);
      }
    }
  }

  lemma {:induction false} SiblingsMembers(bs: seq<Block>, t: seq<string>, cs: seq<Block>, b: Block)
    requires Keyed(bs) && Trail(bs, t) && AllChildren(bs, Last(t), cs)
    ensures b in Siblings(bs, t, cs) <==> b in bs && exists c :: c in cs && (b == c || Under(bs, t + [c.id], b))
    decreases |Places(bs)| - |t|, 0, |cs|
  {
    if cs != [] {
      var c := cs[0];
      TrailFits(bs, t);
      TrailGrows(bs, t, c);
      TrailFits(bs, t + [c.id]);
      SubtreeMembers(bs, t + [c.id], b);
      SiblingsMembers(bs, t, cs[1..], b);
      InPieces(c, Subtree(bs, t + [c.id]), Siblings(bs, t, cs[1..]), b);
      assert cs == [c] + cs[1..] && forall x :: x in cs <==> x == c || x in cs[1..];
    }
  }

  lemma InPieces(c: Block, below: seq<Block>, rest: seq<Block>, b: Block)
    ensures b in [c] + below + rest <==> b == c || b in below || b in rest
  {
  }

  /** Nothing is below itself or below a sibling. */
  lemma ChildNotUnder(bs: seq<Block>, t: seq<string>, c: Block, b: Block)
    requires Keyed(bs) && Trail(bs, t) && b.parentId == Last(t)
    ensures !Under(bs, t + [c.id], b)
  {
    if u :| UnderVia(bs, t + [c.id], b, u) {
      OneTrail(bs, u, t);
    }
  }

  lemma UnderOne(bs: seq<Block>, t: seq<string>, c: Block, d: Block, b: Block)
    requires Keyed(bs) && Trail(bs, t) && Under(bs, t + [c.id], b) && Under(bs, t + [d.id], b)
    ensures c.id == d.id
  {
    var u :| UnderVia(bs, t + [c.id], b, u);
    var v :| UnderVia(bs, t + [d.id], b, v);
    OneTrail(bs, u, v);
    assert u[|t|] == c.id && v[|t|] == d.id;
  }

  lemma DistinctJoin<T>(xs: seq<T>, ys: seq<T>)
    requires Distinct(xs) && Distinct(ys) && forall x :: x in xs ==> x !in ys
    ensures Distinct(xs + ys)
  {
    forall i, j | 0 <= i < j < |xs + ys|
      ensures (xs + ys)[i] != (xs + ys)[j]
    {
      if i < |xs| <= j {
        assert xs[i] in xs && ys[j - |xs|] in ys;
      }
    }
  }

  lemma {:induction false} SubtreeDistinct(bs: seq<Block>, t: seq<string>)
    requires Keyed(bs) && Trail(bs, t)
    ensures Distinct(Subtree(bs, t))
    decreases |Places(bs)| - |t|, 1, 0
  {
    ChildrenMembers(bs, Last(t));
    ChildrenDistinct(bs, Last(t));
    TrailFits(bs, t);
    SiblingsDistinct(bs, t, Children(bs, Last(t)));
  }

  lemma ChildrenDistinct(bs: seq<Block>, p: string)
    requires Keyed(bs)
    ensures Distinct(Children(bs, p))
  {
    PosLeIsPreorder();
    FilterDistinct(HasParent(p), bs);
    SortDistinct(PosLe, Filter(HasParent(p), bs));
  }

  lemma {:induction false} SiblingsDistinct(bs: seq<Block>, t: seq<string>, cs: seq<Block>)
    requires Keyed(bs) && Trail(bs, t) && AllChildren(bs, Last(t), cs) && Distinct(cs)
    ensures Distinct(Siblings(bs, t, cs))
    decreases |Places(bs)| - |t|, 0, |cs|
  {
    if cs != [] {
      var c, rest := cs[0], cs[1..];
      TrailFits(bs, t);
      TrailGrows(bs, t, c);
      TrailFits(bs, t + [c.id]);
      var below, others := Subtree(bs, t + [c.id]), Siblings(bs, t, rest);
      SubtreeDistinct(bs, t + [c.id]);
      assert forall i :: 0 < i < |cs| ==> cs[i] == rest[i - 1];
      SiblingsDistinct(bs, t, rest);
      forall b | b in [c] + below
        ensures b !in others
      {
        if b in others {
          ApartFromOthers(bs, t, c, rest, b);
        }
      }
      SubtreeMembers(bs, t + [c.id], c);
      ChildNotUnder(bs, t, c, c);
      DistinctJoin([c], below);
      DistinctJoin([c] + below, others);
    }
  }

  lemma ApartFromOthers(bs: seq<Block>, t: seq<string>, c: Block, rest: seq<Block>, b: Block)
    requires Keyed(bs) && Trail(bs, t) && c in bs && c.parentId == Last(t) && AllChildren(bs, Last(t), rest) &&
      c !in rest
    requires Trail(bs, t + [c.id]) && b in [c] + Subtree(bs, t + [c.id])
    ensures b !in Siblings(bs, t, rest)
  {
    SiblingsMembers(bs, t, rest, b);
    SubtreeMembers(bs, t + [c.id], b);
    if b in bs {
      forall d | d in rest
        ensures b != d && !Under(bs, t + [d.id], b)
      {
        ChildNotUnder(bs, t, c, d);
        ChildNotUnder(bs, t, d, c);
        if Under(bs, t + [c.id], b) && Under(bs, t + [d.id], b) {
          UnderOne(bs, t, c, d, b);
          KeyedById(bs, c, d);
        }
      }
    }
  }

  // ---- siblings -----------------------------------------------------------------

  /** No block below a sibling belongs to p unless the trail to p passes that sibling. */
  lemma NoneOf(bs: seq<Block>, t: seq<string>, u: seq<string>, c: Block)
    requires Keyed(bs) && Trail(bs, t) && c in bs && c.parentId == Last(t) && Trail(bs, t + [c.id])
    requires Trail(bs, u) && !(t + [c.id] <= u)
    ensures Filter(HasParent(Last(u)), Subtree(bs, t + [c.id])) == []
  {
    forall b | b in Subtree(bs, t + [c.id])
      ensures b.parentId != Last(u)
    {
      SubtreeMembers(bs, t + [c.id], b);
      var v :| UnderVia(bs, t + [c.id], b, v);
      if b.parentId == Last(u) {
        OneTrail(bs, u, v);
      }
    }
    FilterNone(HasParent(Last(u)), Subtree(bs, t + [c.id]));
  }

  lemma {:induction false} SiblingsHere(bs: seq<Block>, t: seq<string>, cs: seq<Block>)
    requires Keyed(bs) && Trail(bs, t) && AllChildren(bs, Last(t), cs)
    ensures Filter(HasParent(Last(t)), Siblings(bs, t, cs)) == cs
  {
    if cs != [] {
      var c, keep := cs[0], HasParent(Last(t));
      TrailGrows(bs, t, c);
      NoneOf(bs, t, t, c);
      SiblingsHere(bs, t, cs[1..]);
      Pieces(keep, c, Subtree(bs, t + [c.id]), Siblings(bs, t, cs[1..]));
    }
  }

  /** Filtering one child, what is below it, and the rest. */
  lemma Pieces(keep: Block -> bool, c: Block, below: seq<Block>, rest: seq<Block>)
    ensures Filter(keep, [c] + below + rest) == (if keep(c) then [c] else []) + Filter(keep, below) + Filter(keep, rest)
  {
    FilterAppend(keep, [c] + below, rest);
    FilterAppend(keep, [c], below);
    assert [c][1..] == [];
    assert Filter(keep, [c]) == if keep(c) then [c] else [];
  }

  lemma {:induction false} SubtreeSiblings(bs: seq<Block>, t: seq<string>, u: seq<string>)
    requires Keyed(bs) && Trail(bs, t) && Trail(bs, u) && t <= u
    ensures Filter(HasParent(Last(u)), Subtree(bs, t)) == Children(bs, Last(u))
    decreases |Places(bs)| - |t|, 1, 0
  {
    var cs := Children(bs, Last(t));
    ChildrenMembers(bs, Last(t));
    if t == u {
      SiblingsHere(bs, t, cs);
    } else {
      var n := |t|;
      assert u[n - 1] == t[n - 1] && IsChild(bs, u[n - 1], u[n]);
      var c :| c in bs && c.id == u[n] && c.parentId == u[n - 1];
      ChildrenDistinct(bs, Last(t));
      TrailFits(bs, t);
      SiblingsThrough(bs, t, u, cs, c);
    }
  }

  lemma {:induction false} SiblingsThrough(bs: seq<Block>, t: seq<string>, u: seq<string>, cs: seq<Block>, c: Block)
    requires Keyed(bs) && Trail(bs, t) && Trail(bs, u) && t < u && AllChildren(bs, Last(t), cs) && Distinct(cs)
    requires c in bs && c.id == u[|t|] && c.parentId == Last(t)
    ensures Filter(HasParent(Last(u)), Siblings(bs, t, cs)) == if c in cs then Children(bs, Last(u)) else []
    decreases |Places(bs)| - |t|, 0, |cs|
  {
    if cs != [] {
      var d, rest := cs[0], cs[1..];
      assert cs == [d] + rest && forall i :: 0 < i < |cs| ==> cs[i] == rest[i - 1];
      SiblingsThrough(bs, t, u, rest, c);
      EndsApart(bs, t, u);
      FirstAndRest(bs, t, cs, HasParent(Last(u)));
      if d.id == c.id {
        KeyedById(bs, c, d);
        BelowThrough(bs, t, u, d);
      } else {
        BelowAside(bs, t, u, d);
      }
    }
  }

  /** A first child that is not kept leaves what is kept below it and after it. */
  lemma FirstAndRest(bs: seq<Block>, t: seq<string>, cs: seq<Block>, keep: Block -> bool)
    requires Keyed(bs) && Trail(bs, t) && AllChildren(bs, Last(t), cs) && cs != [] && !keep(cs[0])
    ensures Trail(bs, t + [cs[0].id])
    ensures Filter(keep, Siblings(bs, t, cs)) ==
      Filter(keep, Subtree(bs, t + [cs[0].id])) + Filter(keep, Siblings(bs, t, cs[1..]))
  {
    TrailGrows(bs, t, cs[0]);
    KeptPieces(keep, cs[0], Subtree(bs, t + [cs[0].id]), Siblings(bs, t, cs[1..]));
  }

  /** The children of the end of u all stand below the sibling that u passes, */
  lemma {:induction false} BelowThrough(bs: seq<Block>, t: seq<string>, u: seq<string>, d: Block)
    requires Keyed(bs) && Trail(bs, t) && Trail(bs, u) && t < u && d in bs && d.parentId == Last(t) && d.id == u[|t|]
    ensures Trail(bs, t + [d.id]) && Filter(HasParent(Last(u)), Subtree(bs, t + [d.id])) == Children(bs, Last(u))
    decreases |Places(bs)| - |t|, 0, 0
  {
    TrailFits(bs, t);
    TrailGrows(bs, t, d);
    TrailFits(bs, t + [d.id]);
    assert t + [d.id] <= u;
    SubtreeSiblings(bs, t + [d.id], u);
  }

  /** and none below any other. */
  lemma BelowAside(bs: seq<Block>, t: seq<string>, u: seq<string>, d: Block)
    requires Keyed(bs) && Trail(bs, t) && Trail(bs, u) && t < u && d in bs && d.parentId == Last(t) && d.id != u[|t|]
    ensures Trail(bs, t + [d.id]) && Filter(HasParent(Last(u)), Subtree(bs, t + [d.id])) == []
  {
    TrailGrows(bs, t, d);
    assert !(t + [d.id] <= u) by {
      assert (t + [d.id])[|t|] == d.id;
    }
    NoneOf(bs, t, u, d);
  }

  lemma EndsApart(bs: seq<Block>, t: seq<string>, u: seq<string>)
    requires Keyed(bs) && Trail(bs, t) && Trail(bs, u) && t < u
    ensures Last(t) != Last(u)
  {
    if Last(t) == Last(u) {
      OneTrail(bs, t, u);
    }
  }

  /** A child that is not kept leaves what is kept below it and after it. */
  lemma KeptPieces(keep: Block -> bool, c: Block, below: seq<Block>, rest: seq<Block>)
    requires !keep(c)
    ensures Filter(keep, [c] + below + rest) == Filter(keep, below) + Filter(keep, rest)
    ensures Filter(keep, below) == [] ==> Filter(keep, [c] + below + rest) == Filter(keep, rest)
    ensures Filter(keep, rest) == [] ==> Filter(keep, [c] + below + rest) == Filter(keep, below)
  {
    Pieces(keep, c, below, rest);
  }

  // ---- contiguity ----------------------------------------------------------------

  lemma {:induction false} SiblingsSplit(bs: seq<Block>, t: seq<string>, cs: seq<Block>, c: Block)
      returns (pre: seq<Block>, post: seq<Block>)
    requires Keyed(bs) && Trail(bs, t) && AllChildren(bs, Last(t), cs) && c in cs
    ensures Trail(bs, t + [c.id]) && Siblings(bs, t, cs) == pre + ([c] + Subtree(bs, t + [c.id])) + post
    decreases |cs|
  {
    var d, rest := cs[0], cs[1..];
    TrailGrows(bs, t, c);
    TrailGrows(bs, t, d);
    var head := [d] + Subtree(bs, t + [d.id]);
    if d == c {
      pre, post := [], Siblings(bs, t, rest);
      assert [] + head == head;
    } else {
      pre, post := SiblingsSplit(bs, t, rest, c);
      var mid := [c] + Subtree(bs, t + [c.id]);
      Regroup(head, pre + mid, post);
      Regroup(head, pre, mid);
      pre := head + pre;
    }
  }

  /** A rooted block is followed at once by everything below it. */
  lemma {:induction false} SubtreeContiguous(bs: seq<Block>, t: seq<string>, u: seq<string>, b: Block)
      returns (pre: seq<Block>, post: seq<Block>)
    requires Keyed(bs) && Trail(bs, t) && b in bs && UnderVia(bs, t, b, u)
    ensures Trail(bs, u + [b.id]) && Subtree(bs, t) == pre + ([b] + Subtree(bs, u + [b.id])) + post
    decreases |u| - |t|
  {
    var cs, n := Children(bs, Last(t)), |t|;
    ChildrenMembers(bs, Last(t));
    if t == u {
      pre, post := SiblingsSplit(bs, t, cs, b);
    } else {
      assert u[n - 1] == t[n - 1] && IsChild(bs, u[n - 1], u[n]);
      var c :| c in bs && c.id == u[n] && c.parentId == u[n - 1];
      assert t + [c.id] <= u;
      TrailGrows(bs, t, c);
      var pre', post' := SubtreeContiguous(bs, t + [c.id], u, b);
      pre, post := SiblingsSplit(bs, t, cs, c);
      pre, post := Nest(pre, c, pre', [b] + Subtree(bs, u + [b.id]), post', post);
    }
  }

  lemma Nest(pre: seq<Block>, c: Block, pre': seq<Block>, mid: seq<Block>, post': seq<Block>, post: seq<Block>)
      returns (left: seq<Block>, right: seq<Block>)
    ensures pre + ([c] + (pre' + mid + post')) + post == left + mid + right
  {
    left, right := pre + ([c] + pre'), post' + post;
  }

  // ---- the whole order ------------------------------------------------------------

  ghost predicate Rooted(bs: seq<Block>, b: Block) {
    exists u :: Trail(bs, u) && Last(u) == b.parentId
  }

  predicate Known(bs: seq<Block>, id: string) { exists b :: b in bs && b.id == id }

  /** The direct parent is missing. */
  function IsOrphan(bs: seq<Block>): Block -> bool {
    (b: Block) => b.parentId != ROOT && !Known(bs, b.parentId)
  }

  ghost function InOrder(bs: seq<Block>): seq<Block>
    requires Keyed(bs)
  {
    Subtree(bs, [ROOT]) + Filter(IsOrphan(bs), bs)
  }

  lemma OrphanNotRooted(bs: seq<Block>, b: Block)
    requires IsOrphan(bs)(b)
    ensures !Rooted(bs, b)
  {
    if u :| Trail(bs, u) && Last(u) == b.parentId {
      var n := |u|;
      assert n > 1 ==> IsChild(bs, u[n - 2], u[n - 1]);
    }
  }

  lemma UnderRoot(bs: seq<Block>, b: Block)
    ensures Under(bs, [ROOT], b) <==> Rooted(bs, b)
  {
    if u :| Trail(bs, u) && Last(u) == b.parentId {
      assert UnderVia(bs, [ROOT], b, u);
    }
  }

  /** Exactly the rooted blocks and the orphans come out, each once. */
  lemma OrderMembers(bs: seq<Block>)
    requires Keyed(bs)
    ensures Distinct(InOrder(bs))
    ensures forall b :: b in InOrder(bs) <==> b in bs && (Rooted(bs, b) || IsOrphan(bs)(b))
  {
    var keep := IsOrphan(bs);
    forall b
      ensures b in Subtree(bs, [ROOT]) <==> b in bs && Rooted(bs, b)
      ensures b in Filter(keep, bs) <==> b in bs && keep(b)
      ensures keep(b) ==> !Rooted(bs, b)
    {
      SubtreeMembers(bs, [ROOT], b);
      UnderRoot(bs, b);
      FilterMembers(keep, bs, b);
      if keep(b) { OrphanNotRooted(bs, b); }
    }
    SubtreeDistinct(bs, [ROOT]);
    FilterDistinct(keep, bs);
    DistinctJoin(Subtree(bs, [ROOT]), Filter(keep, bs));
  }

  /** A block is lost exactly when its parent is there and the chain above it never reaches the root. */
  lemma LostIff(bs: seq<Block>, b: Block)
    requires Keyed(bs) && b in bs
    ensures b !in InOrder(bs) <==> Known(bs, b.parentId) && !Rooted(bs, b)
  {
    OrderMembers(bs);
    if b.parentId == ROOT {
      assert Trail(bs, [ROOT]) && Last([ROOT]) == b.parentId;
    }
  }

  /** A block below an orphan is lost: the walk never gets to it, and its parent is there. */
  lemma BelowOrphanIsLost(bs: seq<Block>, orphan: Block, b: Block)
    requires Keyed(bs) && orphan in bs && b in bs && IsOrphan(bs)(orphan) && b.parentId == orphan.id
    ensures b !in InOrder(bs)
  {
    LostIff(bs, b);
    OrphanNotRooted(bs, orphan);
    if u :| Trail(bs, u) && Last(u) == b.parentId {
      RootedParent(bs, u, orphan);
    }
  }

  /** The chain to a block's id passes its parent. */
  lemma RootedParent(bs: seq<Block>, u: seq<string>, p: Block)
    requires Keyed(bs) && Trail(bs, u) && p in bs && Last(u) == p.id
    ensures Rooted(bs, p)
  {
    var n := |u| - 1;
    assert n > 0 && IsChild(bs, u[n - 1], u[n]);
    var q :| q in bs && q.id == u[n] && q.parentId == u[n - 1];
    KeyedById(bs, p, q);
    assert Trail(bs, u[..n]) && Last(u[..n]) == p.parentId;
  }

  /** A chain of parents that comes back to where it began. */
  ghost predicate ParentCycle(bs: seq<Block>, q: seq<string>) {
    |q| > 1 && q[0] == q[|q| - 1] && forall i, j :: 0 <= i && j == i + 1 < |q| ==> IsChild(bs, q[i], q[j])
  }

  /** A block on a parent cycle is lost. */
  lemma OnCycleIsLost(bs: seq<Block>, q: seq<string>, b: Block)
    requires Keyed(bs) && ParentCycle(bs, q) && b in bs && b.id == q[0]
    ensures b !in InOrder(bs)
  {
    var n := |q| - 1;
    assert IsChild(bs, q[n - 1], q[n]);
    var p :| p in bs && p.id == q[n] && p.parentId == q[n - 1];
    KeyedById(bs, p, b);
    assert n - 1 > 0 ==> IsChild(bs, q[n - 2], q[n - 1]);
    assert Known(bs, b.parentId) by {
      if n == 1 { assert b.id == b.parentId; }
    }
    LostIff(bs, b);
    if u :| Trail(bs, u) && Last(u) == b.parentId {
      TrailGrows(bs, u, b);
      var t := u + [b.id];
      LongerTrail(bs, t, q);
      OneTrail(bs, t + q[1..], t);
    }
  }

  lemma LongerTrail(bs: seq<Block>, t: seq<string>, q: seq<string>)
    requires Trail(bs, t) && ParentCycle(bs, q) && Last(t) == q[0]
    ensures Trail(bs, t + q[1..]) && Last(t + q[1..]) == Last(t) && |t + q[1..]| > |t|
  {
    var all, n := t + q[1..], |t|;
    forall i, j | 0 <= i && j == i + 1 < |all|
      ensures IsChild(bs, all[i], all[j])
    {
      if j < n {
        assert all[i] == t[i] && all[j] == t[j];
      } else {
        var k := j - n;
        assert all[j] == q[k + 1] && all[i] == q[k];
        assert IsChild(bs, q[k], q[k + 1]) by { var m := k + 1; assert IsChild(bs, q[k], q[m]); }
      }
    }
  }

  /** Orphans come out in input order: by position exactly when the input has them so. */
  lemma OrphansByPositionIff(bs: seq<Block>)
    requires Keyed(bs)
    ensures var orphans := Filter(IsOrphan(bs), bs);
      && InOrder(bs)[|Subtree(bs, [ROOT])|..] == orphans
      && (Sorted(PosLe, orphans) <==>
          forall i, j :: 0 <= i < j < |bs| && IsOrphan(bs)(bs[i]) && IsOrphan(bs)(bs[j]) ==> PosLe(bs[i], bs[j]))
  {
    var keep, orphans := IsOrphan(bs), Filter(IsOrphan(bs), bs);
    if Sorted(PosLe, orphans) {
      forall i, j | 0 <= i < j < |bs| && keep(bs[i]) && keep(bs[j])
        ensures PosLe(bs[i], bs[j])
      {
        FilterKeepsOrder(keep, bs, bs[i], bs[j]);
        var a, b :| 0 <= a < b < |orphans| && orphans[a] == bs[i] && orphans[b] == bs[j];
      }
    }
    if forall i, j :: 0 <= i < j < |bs| && keep(bs[i]) && keep(bs[j]) ==> PosLe(bs[i], bs[j]) {
      forall a, b | 0 <= a < b < |orphans|
        ensures PosLe(orphans[a], orphans[b])
      {
        FilterReflectsOrder(keep, bs, orphans[a], orphans[b]);
        var i, j :| 0 <= i < j < |bs| && bs[i] == orphans[a] && bs[j] == orphans[b];
        FilterMembers(keep, bs, orphans[a]);
        FilterMembers(keep, bs, orphans[b]);
      }
    }
  }

  /** Two orphans listed against their positions stay that way. */
  lemma OrphansOutOfOrder(a: Block, b: Block)
    requires a.id != "" && b.id != "" && a.id != b.id && !StringLe(a.pos, b.pos)
    requires a.parentId !in ["", a.id, b.id] && b.parentId !in ["", a.id, b.id]
    ensures Keyed([a, b]) && !Sorted(PosLe, InOrder([a, b])[|Subtree([a, b], [ROOT])|..])
  {
    var bs := [a, b];
    assert bs[0] == a && bs[1] == b;
    OrphansByPositionIff(bs);
    assert IsOrphan(bs)(bs[0]) && IsOrphan(bs)(bs[1]) && !PosLe(bs[0], bs[1]);
  }

  /** The children of a reachable parent come out stably sorted by position. */
  lemma SiblingOrder(bs: seq<Block>, u: seq<string>)
    requires Keyed(bs) && Trail(bs, u)
    ensures StablySorts(PosLe, Filter(HasParent(Last(u)), bs), Filter(HasParent(Last(u)), InOrder(bs)))
  {
    var keep := HasParent(Last(u));
    SubtreeSiblings(bs, [ROOT], u);
    ChildrenMembers(bs, Last(u));
    forall b | b in Filter(IsOrphan(bs), bs)
      ensures !keep(b)
    {
      FilterMembers(IsOrphan(bs), bs, b);
      OrphanNotRooted(bs, b);
    }
    FilterNone(keep, Filter(IsOrphan(bs), bs));
    FilterAppend(keep, Subtree(bs, [ROOT]), Filter(IsOrphan(bs), bs));
    assert Children(bs, Last(u)) + [] == Children(bs, Last(u));
  }

  /** A rooted block and all blocks whose chain passes it stand together, the block first. */
  lemma RootedContiguous(bs: seq<Block>, b: Block) returns (pre: seq<Block>, below: seq<Block>, post: seq<Block>)
    requires Keyed(bs) && b in bs && Rooted(bs, b)
    ensures InOrder(bs) == pre + ([b] + below) + post
    ensures exists u :: Trail(bs, u) && Last(u) == b.id && forall x :: x in below <==> x in bs && Under(bs, u, x)
  {
    var u :| Trail(bs, u) && Last(u) == b.parentId;
    assert UnderVia(bs, [ROOT], b, u);
    pre, post := SubtreeContiguous(bs, [ROOT], u, b);
    below := Subtree(bs, u + [b.id]);
    Regroup(pre + ([b] + below), post, Filter(IsOrphan(bs), bs));
    post := post + Filter(IsOrphan(bs), bs);
    forall x
      ensures x in below <==> x in bs && Under(bs, u + [b.id], x)
    {
      SubtreeMembers(bs, u + [b.id], x);
    }
    assert Last(u + [b.id]) == b.id;
  }
}
