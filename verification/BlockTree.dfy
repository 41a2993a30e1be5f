/** The document order of editor blocks: a depth-first walk over parent pointers that nobody has checked. */
module BlockTree {
  import opened Prelude
  import opened StableSort

  datatype Block = Block(id: string, kind: string, text: string, parentId: string, pos: string)

  /** The parent id of a top-level block. */
  const ROOT := ""

  ghost predicate DistinctIds(bs: seq<Block>) {
    forall i, j :: 0 <= i < j < |bs| ==> bs[i].id != bs[j].id
  }

  /** Block records have non-empty ids, each its own. */
  ghost predicate Keyed(bs: seq<Block>) {
    (forall b :: b in bs ==> b.id != ROOT) && DistinctIds(bs)
  }

  /** Byte-wise lexicographic order. */
  predicate StringLe(a: string, b: string) {
    a == "" || (b != "" && (a[0] < b[0] || (a[0] == b[0] && StringLe(a[1..], b[1..]))))
  }

  lemma {:induction false} StringLeTotal(a: string, b: string)
    ensures StringLe(a, b) || StringLe(b, a)
  {
    if a != "" && b != "" {
      StringLeTotal(a[1..], b[1..]);
    }
  }

  lemma {:induction false} StringLeTrans(a: string, b: string, c: string)
    requires StringLe(a, b) && StringLe(b, c)
    ensures StringLe(a, c)
  {
    if a != "" && a[0] == b[0] == c[0] {
      StringLeTrans(a[1..], b[1..], c[1..]);
    }
  }

  /** The strings agree up to position k, and differ there. */
  ghost predicate FirstLess(a: string, b: string, k: nat) { k < |a| && k < |b| && a[..k] == b[..k] && a[k] < b[k] }

  /** At most: a beginning of the other, or less at the first byte that differs. */
  lemma {:induction false} StringLeMeans(a: string, b: string)
    ensures StringLe(a, b) <==> a <= b || exists k: nat :: FirstLess(a, b, k)
  {
    if a != "" && b != "" && a[0] == b[0] {
      var x, y := a[1..], b[1..];
      StringLeMeans(x, y);
      assert a == [a[0]] + x && b == [b[0]] + y;
      assert a <= b <==> x <= y;
      if k: nat :| FirstLess(x, y, k) {
        assert a[..k + 1] == [a[0]] + x[..k] && b[..k + 1] == [b[0]] + y[..k];
        assert FirstLess(a, b, k + 1);
      }
      if k: nat :| FirstLess(a, b, k) {
        assert x[..k - 1] == a[..k][1..] && y[..k - 1] == b[..k][1..];
        assert FirstLess(x, y, k - 1);
      }
    } else if a != "" && b != "" {
      if a[0] < b[0] {
        assert FirstLess(a, b, 0);
      }
      assert forall k: nat :: FirstLess(a, b, k) ==> k == 0 || (a[..k][0] == a[0] && b[..k][0] == b[0]);
    }
  }

  predicate PosLe(a: Block, b: Block) { StringLe(a.pos, b.pos) }

  lemma PosLeIsPreorder()
    ensures TotalPreorder(PosLe)
  {
    forall a: Block, b: Block
      ensures PosLe(a, b) || PosLe(b, a)
    {
      StringLeTotal(a.pos, b.pos);
    }
    forall a: Block, b: Block, c: Block | PosLe(a, b) && PosLe(b, c)
      ensures PosLe(a, c)
    {
      StringLeTrans(a.pos, b.pos, c.pos);
    }
  }

  function HasParent(p: string): Block -> bool { (b: Block) => b.parentId == p }

  function Children(bs: seq<Block>, p: string): seq<Block> { Sort(PosLe, Filter(HasParent(p), bs)) }

  lemma ChildrenMembers(bs: seq<Block>, p: string)
    ensures forall b :: b in Children(bs, p) <==> b in bs && b.parentId == p
    ensures StablySorts(PosLe, Filter(HasParent(p), bs), Children(bs, p))
  {
    PosLeIsPreorder();
    SortStablySorts(PosLe, Filter(HasParent(p), bs));
    forall b
      ensures b in Children(bs, p) <==> b in bs && b.parentId == p
    {
      FilterMembers(HasParent(p), bs, b);
    }
  }

  // ---- trails ------------------------------------------------------------------

  ghost predicate IsChild(bs: seq<Block>, p: string, id: string) {
    exists b :: b in bs && b.id == id && b.parentId == p
  }

  /** A chain of ids from the root down, each a block's whose parent is the id before. */
  ghost predicate Trail(bs: seq<Block>, t: seq<string>) {
    t != [] && t[0] == ROOT && forall i, j :: 0 <= i && j == i + 1 < |t| ==> IsChild(bs, t[i], t[j])
  }

  function Last(t: seq<string>): string
    requires t != []
  {
    t[|t| - 1]
  }

  lemma KeyedById(bs: seq<Block>, a: Block, b: Block)
    requires Keyed(bs) && a in bs && b in bs && a.id == b.id
    ensures a == b
  {
  }

  /** With distinct ids there is one way up, so at most one trail to an id. */
  lemma {:induction false} OneTrail(bs: seq<Block>, t: seq<string>, u: seq<string>)
    requires Keyed(bs) && Trail(bs, t) && Trail(bs, u) && Last(t) == Last(u)
    ensures t == u
  {
    var n, m := |t|, |u|;
    assert n > 1 ==> IsChild(bs, t[n - 2], t[n - 1]);
    assert m > 1 ==> IsChild(bs, u[m - 2], u[m - 1]);
    if n > 1 && m > 1 {
      var a :| a in bs && a.id == t[n - 1] && a.parentId == t[n - 2];
      var b :| b in bs && b.id == u[m - 1] && b.parentId == u[m - 2];
      KeyedById(bs, a, b);
      OneTrail(bs, t[..n - 1], u[..m - 1]);
      assert t == t[..n - 1] + [t[n - 1]] && u == u[..m - 1] + [u[m - 1]];
    }
  }

  lemma TrailDistinct(bs: seq<Block>, t: seq<string>)
    requires Keyed(bs) && Trail(bs, t)
    ensures Distinct(t)
  {
    forall i, j | 0 <= i < j < |t|
      ensures t[i] != t[j]
    {
      if t[i] == t[j] {
        OneTrail(bs, t[..i + 1], t[..j + 1]);
      }
    }
  }

  lemma {:induction false} DistinctFits(t: seq<string>, s: set<string>)
    requires Distinct(t) && forall x :: x in t ==> x in s
    ensures |t| <= |s|
    decreases |t|
  {
    if t != [] {
      DistinctFits(t[1..], s - {t[0]});
    }
  }

  ghost function Places(bs: seq<Block>): set<string> { {ROOT} + set b | b in bs :: b.id }

  /** No trail is longer than the number of blocks allows: the walk cannot go on forever. */
  lemma TrailFits(bs: seq<Block>, t: seq<string>)
    requires Keyed(bs) && Trail(bs, t)
    ensures |t| <= |Places(bs)|
  {
    TrailDistinct(bs, t);
    forall i | 0 <= i < |t|
      ensures t[i] in Places(bs)
    {
      assert i > 0 ==> IsChild(bs, t[i - 1], t[i]);
    }
    DistinctFits(t, Places(bs));
  }

  lemma TrailGrows(bs: seq<Block>, t: seq<string>, b: Block)
    requires Trail(bs, t) && b in bs && b.parentId == Last(t)
    ensures Trail(bs, t + [b.id]) && Last(t + [b.id]) == b.id
  {
    assert IsChild(bs, Last(t), b.id);
  }

  // ---- the walk as a function ---------------------------------------------------

  ghost predicate AllChildren(bs: seq<Block>, p: string, cs: seq<Block>) {
    forall c :: c in cs ==> c in bs && c.parentId == p
  }

  /** Everything below the end of a trail, in pre-order. */
  ghost function Subtree(bs: seq<Block>, t: seq<string>): seq<Block>
    requires Keyed(bs) && Trail(bs, t)
    decreases |Places(bs)| - |t|, 1, 0
  {
    ChildrenMembers(bs, Last(t));
    TrailFits(bs, t);
    Siblings(bs, t, Children(bs, Last(t)))
  }

  /** Each of the given children followed by everything below it. */
  ghost function Siblings(bs: seq<Block>, t: seq<string>, cs: seq<Block>): seq<Block>
    requires Keyed(bs) && Trail(bs, t) && AllChildren(bs, Last(t), cs)
    decreases |Places(bs)| - |t|, 0, |cs|
  {
    if cs == [] then []
    else
      TrailFits(bs, t);
      TrailGrows(bs, t, cs[0]);
      TrailFits(bs, t + [cs[0].id]);
      [cs[0]] + Subtree(bs, t + [cs[0].id]) + Siblings(bs, t, cs[1..])
  }
}
