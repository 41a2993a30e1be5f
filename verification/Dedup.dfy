/** Keeping the first element of every key, in order: the `seen` map of the scanners. */
module Dedup {

  ghost function Keys<T>(key: T -> string, xs: seq<T>): set<string> {
    set x | x in xs :: key(x)
  }

  /** The elements of xs whose key is neither in `seen` nor met earlier in xs. */
  function Fresh<T>(key: T -> string, seen: set<string>, xs: seq<T>): seq<T>
    decreases |xs|
  {
    if xs == [] then []
    else if key(xs[0]) in seen then Fresh(key, seen, xs[1..])
    else [xs[0]] + Fresh(key, seen + {key(xs[0])}, xs[1..])
  }

  function First<T>(key: T -> string, xs: seq<T>): seq<T> {
    Fresh(key, {}, xs)
  }

  lemma {:induction false} FreshAppend<T>(key: T -> string, seen: set<string>, xs: seq<T>, ys: seq<T>)
    ensures Fresh(key, seen, xs + ys) == Fresh(key, seen, xs) + Fresh(key, seen + Keys(key, xs), ys)
    decreases |xs|
  {
    if xs == [] {
      assert xs + ys == ys && seen + Keys(key, xs) == seen;
    } else {
      assert (xs + ys)[1..] == xs[1..] + ys;
      KeysSplit(key, xs);
      var k := key(xs[0]);
      if k in seen {
        FreshAppend(key, seen, xs[1..], ys);
        assert seen + Keys(key, xs) == seen + Keys(key, xs[1..]);
      } else {
        FreshAppend(key, seen + {k}, xs[1..], ys);
        assert seen + Keys(key, xs) == seen + {k} + Keys(key, xs[1..]);
      }
    }
  }

  /** One step of a loop that meets at most one element, and keeps it when its key is new. */
  lemma FreshStep<T>(key: T -> string, seen: set<string>, found: seq<T>, rest: seq<T>)
    requires |found| <= 1
    ensures Fresh(key, seen, found + rest) ==
      if found == [] || key(found[0]) in seen then Fresh(key, seen, rest)
      else found + Fresh(key, seen + {key(found[0])}, rest)
  {
    if found == [] {
      assert found + rest == rest;
    } else {
      assert (found + rest)[1..] == rest && found == [found[0]];
    }
  }

  lemma KeysSplit<T>(key: T -> string, xs: seq<T>)
    requires xs != []
    ensures Keys(key, xs) == {key(xs[0])} + Keys(key, xs[1..])
  {
    assert xs == [xs[0]] + xs[1..];
  }

  /** Filtering twice is filtering once, when the second filter sees at least as much. */
  lemma {:induction false} FreshTwice<T>(key: T -> string, seen: set<string>, less: set<string>, xs: seq<T>)
    requires less <= seen
    ensures Fresh(key, seen, Fresh(key, less, xs)) == Fresh(key, seen, xs)
    decreases |xs|
  {
    if xs != [] {
      var k := key(xs[0]);
      if k in less {
        FreshTwice(key, seen, less, xs[1..]);
      } else {
        var rest := Fresh(key, less + {k}, xs[1..]);
        assert ([xs[0]] + rest)[1..] == rest;
        FreshTwice(key, if k in seen then seen else seen + {k}, less + {k}, xs[1..]);
      }
    }
  }

  lemma {:induction false} FreshKeys<T>(key: T -> string, seen: set<string>, xs: seq<T>)
    ensures Keys(key, Fresh(key, seen, xs)) == Keys(key, xs) - seen
    ensures forall x :: x in Fresh(key, seen, xs) ==> x in xs
    ensures forall i, j :: 0 <= i < j < |Fresh(key, seen, xs)| ==>
      key(Fresh(key, seen, xs)[i]) != key(Fresh(key, seen, xs)[j])
    decreases |xs|
  {
    if xs != [] {
      var k := key(xs[0]);
      KeysSplit(key, xs);
      if k in seen {
        FreshKeys(key, seen, xs[1..]);
      } else {
        FreshKeys(key, seen + {k}, xs[1..]);
        var rest := Fresh(key, seen + {k}, xs[1..]);
        KeysSplit(key, [xs[0]] + rest);
        assert ([xs[0]] + rest)[1..] == rest;
        forall x | x in rest
          ensures key(x) != k
        {
          assert key(x) in Keys(key, rest);
        }
      }
    }
  }

  /** Deduplicating a concatenation is deduplicating the concatenation of the deduplicated parts. */
  lemma FirstOfParts<T>(key: T -> string, xs: seq<T>, ys: seq<T>)
    ensures First(key, xs + ys) == First(key, First(key, xs) + First(key, ys))
  {
    FreshAppend(key, {}, xs, ys);
    FreshAppend(key, {}, First(key, xs), First(key, ys));
    FreshTwice(key, {}, {}, xs);
    FreshKeys(key, {}, xs);
    assert {} + Keys(key, First(key, xs)) == {} + Keys(key, xs);
    FreshTwice(key, {} + Keys(key, xs), {}, ys);
  }

  /** Deduplication keeps a representative of every key. */
  lemma FirstKeeps<T>(key: T -> string, xs: seq<T>, x: T) returns (y: T)
    requires x in xs
    ensures y in First(key, xs) && y in xs && key(y) == key(x)
  {
    FreshKeys(key, {}, xs);
    assert key(x) in Keys(key, First(key, xs));
    y :| y in First(key, xs) && key(y) == key(x);
  }

  /** What the elements of xs contribute, in order. */
  function FlatMap<S, T>(f: S -> seq<T>, xs: seq<S>): seq<T> {
    if xs == [] then [] else f(xs[0]) + FlatMap(f, xs[1..])
  }

  lemma {:induction false} FlatMapMembers<S, T>(f: S -> seq<T>, xs: seq<S>, y: T)
    ensures y in FlatMap(f, xs) <==> exists x :: x in xs && y in f(x)
  {
    if xs != [] {
      FlatMapMembers(f, xs[1..], y);
      assert xs == [xs[0]] + xs[1..];
    }
  }

  lemma FlatMapOne<S, T>(f: S -> seq<T>, x: S)
    ensures FlatMap(f, [x]) == f(x)
  {
    assert [x][1..] == [];
  }

  lemma CollectStep<S, T>(f: S -> seq<T>, key: T -> string, xs: seq<S>, i: nat, seen: set<string>, out: seq<T>)
    requires i < |xs| && |f(xs[i])| <= 1
    ensures out + Fresh(key, seen, FlatMap(f, xs[i..])) ==
      if f(xs[i]) == [] || key(f(xs[i])[0]) in seen then out + Fresh(key, seen, FlatMap(f, xs[i + 1..]))
      else out + f(xs[i]) + Fresh(key, seen + {key(f(xs[i])[0])}, FlatMap(f, xs[i + 1..]))
  {
    assert xs[i..][1..] == xs[i + 1..];
    FreshStep(key, seen, f(xs[i]), FlatMap(f, xs[i + 1..]));
  }

  /** The loop all scanners share: each element contributes at most one item, kept when its key is new. */
  method CollectFirst<S, T>(f: S -> seq<T>, key: T -> string, xs: seq<S>) returns (out: seq<T>)
    requires forall i :: 0 <= i < |xs| ==> |f(xs[i])| <= 1
    ensures out == First(key, FlatMap(f, xs))
  {
    out := [];
    var seen: set<string> := {};
    ghost var whole := First(key, FlatMap(f, xs));
    assert xs[0..] == xs;
    for i := 0 to |xs|
      invariant out + Fresh(key, seen, FlatMap(f, xs[i..])) == whole
    {
      var found := f(xs[i]);
      CollectStep(f, key, xs, i, seen, out);
      if found == [] || key(found[0]) in seen {
        continue;
      }
      seen := seen + {key(found[0])};
      out := out + found;
    }
  }
}
