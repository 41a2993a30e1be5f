/** The code that computes the document order: two maps, a sort per parent, a recursive walk, a pass for orphans. */
module BlockTreeWalk {
  import opened Prelude
  import opened StableSort
  import opened BlockTree
  import opened BlockTreeLaws

  /** Reading a parent nobody names gives no blocks. */
  function Lookup(byParent: map<string, seq<Block>>, p: string): seq<Block> {
    if p in byParent then byParent[p] else []
  }

  class TreeWalk {
    const byParent: map<string, seq<Block>>
    var out: seq<Block>

    constructor (byParent: map<string, seq<Block>>)
      ensures this.byParent == byParent && out == []
    {
      this.byParent, out := byParent, [];
    }

    /** Appends everything below `parent`; the trail that led here bounds how deep the walk can go. */
    method Walk(parent: string, ghost blocks: seq<Block>, ghost t: seq<string>)
      requires Keyed(blocks) && forall p :: Lookup(byParent, p) == Children(blocks, p)
      requires Trail(blocks, t) && Last(t) == parent
      modifies this`out
      ensures out == old(out) + Subtree(blocks, t)
      decreases |Places(blocks)| - |t|
    {
      var cs := Lookup(byParent, parent);
      ChildrenMembers(blocks, parent);
      for i := 0 to |cs|
        invariant out + Siblings(blocks, t, cs[i..]) == old(out) + Subtree(blocks, t)
      {
        var b := cs[i];
        ghost var before := out;
        TrailGrows(blocks, t, b);
        TrailFits(blocks, t + [b.id]);
        assert cs[i..][0] == b && cs[i..][1..] == cs[i + 1..];
        out := out + [b];
        Walk(b.id, blocks, t + [b.id]);
        Regroup(before, [b], Subtree(blocks, t + [b.id]));
        Regroup(before, [b] + Subtree(blocks, t + [b.id]), Siblings(blocks, t, cs[i + 1..]));
      }
    }
  }

  /** Children per parent in input order, and the ids present. */
  method Collect(blocks: seq<Block>) returns (byParent: map<string, seq<Block>>, known: set<string>)
    ensures forall p :: Lookup(byParent, p) == Filter(HasParent(p), blocks)
    ensures forall id :: id in known <==> Known(blocks, id)
  {
    byParent, known := map[], {};
    for i := 0 to |blocks|
      invariant forall p :: Lookup(byParent, p) == Filter(HasParent(p), blocks[..i])
      invariant forall id :: id in known <==> Known(blocks[..i], id)
    {
      var b := blocks[i];
      assert blocks[..i + 1] == blocks[..i] + [b];
      forall p
        ensures Filter(HasParent(p), blocks[..i + 1]) ==
          Filter(HasParent(p), blocks[..i]) + if p == b.parentId then [b] else []
      {
        FilterNext(HasParent(p), blocks, i);
      }
      byParent := byParent[b.parentId := Lookup(byParent, b.parentId) + [b]];
      known := known + {b.id};
    }
    assert blocks[..|blocks|] == blocks;
  }

  /** Sorts every parent's children, in whatever order the map hands out its keys. */
  method SortAll(raw: map<string, seq<Block>>) returns (byParent: map<string, seq<Block>>)
    ensures byParent.Keys == raw.Keys && forall p :: p in raw ==> byParent[p] == Sort(PosLe, raw[p])
  {
    byParent := raw;
    var todo := raw.Keys;
    while todo != {}
      invariant todo <= raw.Keys && byParent.Keys == raw.Keys
      invariant forall p :: p in raw ==> byParent[p] == if p in todo then raw[p] else Sort(PosLe, raw[p])
      decreases |todo|
    {
      var p :| p in todo;
      byParent := byParent[p := Sort(PosLe, byParent[p])];
      todo := todo - {p};
    }
  }

  lemma FilterNext(keep: Block -> bool, blocks: seq<Block>, i: nat)
    requires i < |blocks|
    ensures Filter(keep, blocks[..i + 1]) == Filter(keep, blocks[..i]) + if keep(blocks[i]) then [blocks[i]] else []
  {
    assert blocks[..i + 1] == blocks[..i] + [blocks[i]];
    FilterAppend(keep, blocks[..i], [blocks[i]]);
    assert [blocks[i]][1..] == [];
  }

  /** The blocks whose parent is missing, in input order. */
  method Orphans(blocks: seq<Block>, known: set<string>) returns (out: seq<Block>)
    requires forall id :: id in known <==> Known(blocks, id)
    ensures out == Filter(IsOrphan(blocks), blocks)
  {
    out := [];
    for i := 0 to |blocks|
      invariant out == Filter(IsOrphan(blocks), blocks[..i])
    {
      var b := blocks[i];
      FilterNext(IsOrphan(blocks), blocks, i);
      if b.parentId == ROOT || b.parentId in known {
        continue;
      }
      out := out + [b];
    }
    assert blocks[..|blocks|] == blocks;
  }

  lemma SortedLookups(blocks: seq<Block>, raw: map<string, seq<Block>>, byParent: map<string, seq<Block>>)
    requires forall p :: Lookup(raw, p) == Filter(HasParent(p), blocks)
    requires byParent.Keys == raw.Keys && forall p :: p in raw ==> byParent[p] == Sort(PosLe, raw[p])
    ensures forall p :: Lookup(byParent, p) == Children(blocks, p)
  {
    forall p
      ensures Lookup(byParent, p) == Children(blocks, p)
    {
      assert Lookup(byParent, p) == Sort(PosLe, Lookup(raw, p));
    }
  }

  method WalkFromRoot(ghost blocks: seq<Block>, byParent: map<string, seq<Block>>) returns (out: seq<Block>)
    requires Keyed(blocks) && forall p :: Lookup(byParent, p) == Children(blocks, p)
    ensures out == Subtree(blocks, [ROOT])
  {
    var w := new TreeWalk(byParent);
    w.Walk(ROOT, blocks, [ROOT]);
    out := w.out;
  }

  /** The blocks in document order, whatever their parent pointers say. */
  method TreeOrder(blocks: seq<Block>) returns (out: seq<Block>)
    requires Keyed(blocks)
    ensures out == InOrder(blocks) && Distinct(out)
    ensures forall b :: b in out <==> b in blocks && (Rooted(blocks, b) || IsOrphan(blocks)(b))
  {
    var raw, known := Collect(blocks);
    var byParent := SortAll(raw);
    SortedLookups(blocks, raw, byParent);
    var rooted := WalkFromRoot(blocks, byParent);
    var orphans := Orphans(blocks, known);
    out := rooted + orphans;
    OrderMembers(blocks);
  }
}
