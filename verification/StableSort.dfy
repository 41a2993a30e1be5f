/** Stable sorting under a total preorder, as the standard library promises it. */
module StableSort {
  import opened Prelude

  ghost predicate TotalPreorder<T(!new)>(le: (T, T) -> bool) {
    && (forall x, y :: le(x, y) || le(y, x))
    && (forall x, y, z :: le(x, y) && le(y, z) ==> le(x, z))
  }

  function Filter<T>(keep: T -> bool, xs: seq<T>): seq<T> {
    if xs == [] then [] else (if keep(xs[0]) then [xs[0]] else []) + Filter(keep, xs[1..])
  }

  /** The elements x neither precedes nor follows. */
  function Ties<T>(le: (T, T) -> bool, x: T): T -> bool { y => le(x, y) && le(y, x) }

  ghost predicate Sorted<T>(le: (T, T) -> bool, xs: seq<T>) {
    forall i, j :: 0 <= i < j < |xs| ==> le(xs[i], xs[j])
  }

  /** Sorted, and among ties exactly the elements of xs in their order in xs. */
  ghost predicate StablySorts<T(!new)>(le: (T, T) -> bool, xs: seq<T>, ys: seq<T>) {
    Sorted(le, ys) && forall x :: Filter(Ties(le, x), ys) == Filter(Ties(le, x), xs)
  }

  function Insert<T>(le: (T, T) -> bool, x: T, ys: seq<T>): seq<T> {
    if ys == [] || le(x, ys[0]) then [x] + ys else [ys[0]] + Insert(le, x, ys[1..])
  }

  function Sort<T>(le: (T, T) -> bool, xs: seq<T>): seq<T> {
    if xs == [] then [] else Insert(le, xs[0], Sort(le, xs[1..]))
  }

  lemma {:induction false} FilterMembers<T>(keep: T -> bool, xs: seq<T>, x: T)
    ensures x in Filter(keep, xs) <==> x in xs && keep(x)
  {
    if xs != [] {
      FilterMembers(keep, xs[1..], x);
      assert xs == [xs[0]] + xs[1..];
    }
  }

  lemma {:induction false} FilterAppend<T>(keep: T -> bool, xs: seq<T>, ys: seq<T>)
    ensures Filter(keep, xs + ys) == Filter(keep, xs) + Filter(keep, ys)
  {
    if xs == [] {
      assert xs + ys == ys;
    } else {
      assert (xs + ys)[1..] == xs[1..] + ys;
      FilterAppend(keep, xs[1..], ys);
      var head := if keep(xs[0]) then [xs[0]] else [];
      Regroup(head, Filter(keep, xs[1..]), Filter(keep, ys));
    }
  }

  lemma {:induction false} FilterNone<T>(keep: T -> bool, xs: seq<T>)
    requires forall x :: x in xs ==> !keep(x)
    ensures Filter(keep, xs) == []
  {
    if xs != [] {
      FilterNone(keep, xs[1..]);
    }
  }

  lemma {:induction false} InsertMembers<T>(le: (T, T) -> bool, x: T, ys: seq<T>, y: T)
    ensures y in Insert(le, x, ys) <==> y == x || y in ys
  {
    if ys != [] && !le(x, ys[0]) {
      InsertMembers(le, x, ys[1..], y);
      assert ys == [ys[0]] + ys[1..];
    }
  }

  lemma {:induction false} InsertSorted<T(!new)>(le: (T, T) -> bool, x: T, ys: seq<T>)
    requires TotalPreorder(le) && Sorted(le, ys)
    ensures Sorted(le, Insert(le, x, ys)) && |Insert(le, x, ys)| == |ys| + 1
  {
    if ys != [] && !le(x, ys[0]) {
      var rest := Insert(le, x, ys[1..]);
      InsertSorted(le, x, ys[1..]);
      forall j | 0 <= j < |rest|
        ensures le(ys[0], rest[j])
      {
        InsertMembers(le, x, ys[1..], rest[j]);
      }
    }
  }

  /** The inserted element comes before its ties and moves no other element past another. */
  lemma {:induction false} InsertTies<T(!new)>(le: (T, T) -> bool, x: T, ys: seq<T>, z: T)
    requires TotalPreorder(le) && Sorted(le, ys)
    ensures Filter(Ties(le, z), Insert(le, x, ys)) == Filter(Ties(le, z), [x] + ys)
  {
    assert ([x] + ys)[1..] == ys;
    if ys != [] && !le(x, ys[0]) {
      InsertTies(le, x, ys[1..], z);
      assert ([x] + ys[1..])[1..] == ys[1..];
      var rest := Insert(le, x, ys[1..]);
      assert ([ys[0]] + rest)[1..] == rest;
      assert !(Ties(le, z)(x) && Ties(le, z)(ys[0]));
    }
  }

  lemma {:induction false} SortStablySorts<T(!new)>(le: (T, T) -> bool, xs: seq<T>)
    requires TotalPreorder(le)
    ensures StablySorts(le, xs, Sort(le, xs)) && |Sort(le, xs)| == |xs|
    ensures forall x :: x in Sort(le, xs) <==> x in xs
  {
    if xs != [] {
      var rest := Sort(le, xs[1..]);
      SortStablySorts(le, xs[1..]);
      InsertSorted(le, xs[0], rest);
      assert xs == [xs[0]] + xs[1..];
      forall z
        ensures Filter(Ties(le, z), Sort(le, xs)) == Filter(Ties(le, z), xs)
      {
        InsertTies(le, xs[0], rest, z);
        assert ([xs[0]] + rest)[1..] == rest;
      }
      forall x
        ensures x in Sort(le, xs) <==> x in xs
      {
        InsertMembers(le, xs[0], rest, x);
      }
    }
  }

  /** The promise determines the result, so any stable sort computes `Sort`. */
  lemma {:induction false} StableSortUnique<T(!new)>(le: (T, T) -> bool, ys: seq<T>, zs: seq<T>)
    requires TotalPreorder(le) && StablySorts(le, zs, ys) && Sorted(le, zs)
    ensures ys == zs
  {
    SameMembers(le, ys, zs);
    assert ys == [] || ys[0] in zs;
    assert zs == [] || zs[0] in ys;
    if ys != [] {
      assert le(ys[0], zs[0]) && le(zs[0], ys[0]);
      assert Filter(Ties(le, ys[0]), ys)[0] == ys[0] && Filter(Ties(le, ys[0]), zs)[0] == zs[0];
      forall x
        ensures Filter(Ties(le, x), ys[1..]) == Filter(Ties(le, x), zs[1..])
      {
        assert Filter(Ties(le, x), ys) == Filter(Ties(le, x), zs);
        FilterTail(Ties(le, x), ys, zs);
      }
      StableSortUnique(le, ys[1..], zs[1..]);
    }
  }

  lemma FilterTail<T>(keep: T -> bool, ys: seq<T>, zs: seq<T>)
    requires ys != [] && zs != [] && ys[0] == zs[0] && Filter(keep, ys) == Filter(keep, zs)
    ensures Filter(keep, ys[1..]) == Filter(keep, zs[1..])
  {
    var head := if keep(ys[0]) then [ys[0]] else [];
    assert Filter(keep, ys)[|head|..] == Filter(keep, ys[1..]);
    assert Filter(keep, zs)[|head|..] == Filter(keep, zs[1..]);
  }

  lemma SameMembers<T(!new)>(le: (T, T) -> bool, ys: seq<T>, zs: seq<T>)
    requires TotalPreorder(le) && forall x :: Filter(Ties(le, x), ys) == Filter(Ties(le, x), zs)
    ensures forall x :: x in ys <==> x in zs
  {
    forall x
      ensures x in ys <==> x in zs
    {
      FilterMembers(Ties(le, x), ys, x);
      FilterMembers(Ties(le, x), zs, x);
    }
  }

  lemma {:induction false} FilterDistinct<T>(keep: T -> bool, xs: seq<T>)
    requires Distinct(xs)
    ensures Distinct(Filter(keep, xs))
  {
    if xs != [] {
      FilterDistinct(keep, xs[1..]);
      FilterMembers(keep, xs[1..], xs[0]);
      assert forall i :: 0 < i < |xs| ==> xs[i] == xs[1..][i - 1];
    }
  }

  lemma {:induction false} InsertDistinct<T>(le: (T, T) -> bool, x: T, ys: seq<T>)
    requires Distinct(ys) && x !in ys
    ensures Distinct(Insert(le, x, ys))
  {
    if ys != [] && !le(x, ys[0]) {
      assert forall i :: 0 < i < |ys| ==> ys[i] == ys[1..][i - 1];
      InsertDistinct(le, x, ys[1..]);
      InsertMembers(le, x, ys[1..], ys[0]);
    }
  }

  lemma {:induction false} SortDistinct<T(!new)>(le: (T, T) -> bool, xs: seq<T>)
    requires TotalPreorder(le) && Distinct(xs)
    ensures Distinct(Sort(le, xs))
  {
    if xs != [] {
      assert forall i :: 0 < i < |xs| ==> xs[i] == xs[1..][i - 1];
      SortDistinct(le, xs[1..]);
      SortStablySorts(le, xs[1..]);
      InsertDistinct(le, xs[0], Sort(le, xs[1..]));
    }
  }

  /** x stands somewhere before y. */
  ghost predicate Precedes<T>(x: T, y: T, xs: seq<T>) {
    exists i, j :: 0 <= i < j < |xs| && xs[i] == x && xs[j] == y
  }

  lemma {:induction false} FilterKeepsOrder<T>(keep: T -> bool, xs: seq<T>, x: T, y: T)
    requires Precedes(x, y, xs) && keep(x) && keep(y)
    ensures Precedes(x, y, Filter(keep, xs))
  {
    var i, j :| 0 <= i < j < |xs| && xs[i] == x && xs[j] == y;
    var rest, out := xs[1..], Filter(keep, xs);
    var tail := Filter(keep, rest);
    assert rest[j - 1] == y;
    if i == 0 {
      FilterMembers(keep, rest, y);
      var k :| 0 <= k < |tail| && tail[k] == y;
      assert out[0] == x && out[k + 1] == y;
    } else {
      assert rest[i - 1] == x;
      FilterKeepsOrder(keep, rest, x, y);
      var a, b :| 0 <= a < b < |tail| && tail[a] == x && tail[b] == y;
      var off := |out| - |tail|;
      assert out[off + a] == x && out[off + b] == y;
    }
  }

  lemma {:induction false} FilterReflectsOrder<T>(keep: T -> bool, xs: seq<T>, x: T, y: T)
    requires Precedes(x, y, Filter(keep, xs))
    ensures Precedes(x, y, xs)
  {
    var rest, out := xs[1..], Filter(keep, xs);
    var tail := Filter(keep, rest);
    var i, j :| 0 <= i < j < |out| && out[i] == x && out[j] == y;
    var off := |out| - |tail|;
    assert tail[j - off] == y;
    if i < off {
      FilterMembers(keep, rest, y);
      var k :| 0 <= k < |rest| && rest[k] == y;
      assert xs[0] == x && xs[k + 1] == y;
    } else {
      assert tail[i - off] == x;
      FilterReflectsOrder(keep, rest, x, y);
      var a, b :| 0 <= a < b < |rest| && rest[a] == x && rest[b] == y;
      assert xs[a + 1] == x && xs[b + 1] == y;
    }
  }

  /** Ties keep their order. */
  lemma TiesKeepOrder<T(!new)>(le: (T, T) -> bool, xs: seq<T>, ys: seq<T>, x: T, y: T)
    requires TotalPreorder(le) && StablySorts(le, xs, ys) && Precedes(x, y, xs) && le(x, y) && le(y, x)
    ensures Precedes(x, y, ys)
  {
    FilterKeepsOrder(Ties(le, x), xs, x, y);
    FilterReflectsOrder(Ties(le, x), ys, x, y);
  }
}
