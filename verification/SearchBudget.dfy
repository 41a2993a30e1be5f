/** Sharing a page's text budget among its sections: integer water-filling, shortest section first. */
module SearchBudget {
  import opened Prelude
  import opened StableSort

  const LIMIT := 4000

  /** One character, as the runtime decodes it. */
  type Rune = int

  datatype Part = Part(heading: string, id: string, text: seq<Rune>)

  function Min(a: int, b: int): int { if a <= b then a else b }

  function Sum(xs: seq<nat>): nat { if xs == [] then 0 else xs[0] + Sum(xs[1..]) }

  /** Cuts a text after so many characters. */
  method Truncate(s: seq<Rune>, maxRunes: nat) returns (r: seq<Rune>)
    ensures r == s[..Min(|s|, maxRunes)]
  {
    var count := 0;
    for index := 0 to |s|
      invariant count == index <= maxRunes
    {
      if count == maxRunes {
        return s[..index];
      }
      count := count + 1;
    }
    return s;
  }

  // ---- the water filling -------------------------------------------------------

  /** n shares of q each. */
  function Times(n: nat, q: nat): nat { if n == 0 then 0 else Times(n - 1, q) + q }

  /** The largest equal share n can have of a. */
  function Share(a: nat, n: nat): (q: nat)
    requires n > 0
    ensures Times(n, q) <= a < Times(n, q + 1) && q <= a
  {
    ShareFits(a, n, a / n);
    a / n
  }

  lemma ShareFits(a: nat, n: nat, q: nat)
    requires n > 0 && q == a / n
    ensures Times(n, q) <= a < Times(n, q + 1) && q <= a
  {
    assert a == n * q + a % n;
    TimesIsProduct(n, q);
    TimesNext(n, q);
    TimesIsProduct(n - 1, q);
  }

  lemma {:induction false} TimesNext(n: nat, q: nat)
    ensures Times(n, q + 1) == Times(n, q) + n
  {
    if n > 0 { TimesNext(n - 1, q); }
  }

  lemma {:induction false} TimesMonotone(n: nat, q: nat, p: nat)
    requires q <= p
    ensures Times(n, q) <= Times(n, p)
  {
    if n > 0 { TimesMonotone(n - 1, q, p); }
  }

  lemma {:induction false} TimesIsProduct(n: nat, q: nat)
    ensures Times(n, q) == n * q
  {
    if n > 0 {
      TimesIsProduct(n - 1, q);
      assert (n - 1) * q + q == n * q;
    }
  }

  /** The share is the one number whose shares fit while the next do not. */
  lemma ShareIs(a: nat, n: nat, q: nat)
    requires n > 0 && Times(n, q) <= a < Times(n, q + 1)
    ensures Share(a, n) == q
  {
    var d := Share(a, n);
    if d < q {
      TimesMonotone(n, d + 1, q);
    } else if d > q {
      TimesMonotone(n, q + 1, d);
    }
  }

  /** The budgets of sections in the order they are served. */
  function Fill(lengths: seq<nat>, remaining: nat): (bs: seq<nat>)
    ensures |bs| == |lengths|
  {
    if lengths == [] then []
    else
      var budget := Min(lengths[0], Share(remaining, |lengths|));
      [budget] + Fill(lengths[1..], remaining - budget)
  }

  /** Each is capped at one level or one above it: the water line of the split. */
  ghost predicate Levelled(lengths: seq<nat>, bs: seq<nat>, level: nat) {
    |bs| == |lengths| && forall i :: 0 <= i < |bs| ==> Min(lengths[i], level) <= bs[i] <= Min(lengths[i], level + 1)
  }

  ghost predicate Ascending(xs: seq<nat>) { forall i, j :: 0 <= i < j < |xs| ==> xs[i] <= xs[j] }

  lemma {:induction false} SumAtLeast(xs: seq<nat>, m: nat)
    requires forall i :: 0 <= i < |xs| ==> xs[i] >= m
    ensures Sum(xs) >= Times(|xs|, m)
  {
    if xs != [] {
      SumAtLeast(xs[1..], m);
    }
  }

  /** The budgets use up the text or the limit, whichever is less. */
  lemma {:induction false} FillSpends(lengths: seq<nat>, remaining: nat)
    requires Ascending(lengths)
    ensures Sum(Fill(lengths, remaining)) == Min(remaining, Sum(lengths))
  {
    if lengths != [] {
      var q := Share(remaining, |lengths|);
      var budget := Min(lengths[0], q);
      FillSpends(lengths[1..], remaining - budget);
      if lengths[0] > q {
        SumAtLeast(lengths[1..], q + 1);
      }
    }
  }

  /** One more section in front, with a share no larger than the next. */
  lemma StepFits(lengths: seq<nat>, fill: seq<nat>, budget: nat, bs: seq<nat>, level: nat)
    requires lengths != [] && fill == [budget] + bs && Levelled(lengths[1..], bs, level) && Ascending(bs)
    requires Min(lengths[0], level) <= budget <= Min(lengths[0], level + 1) && (bs != [] ==> budget <= bs[0])
    ensures Levelled(lengths, fill, level) && Ascending(fill)
  {
    assert forall i :: 0 < i < |fill| ==> fill[i] == bs[i - 1] && lengths[i] == lengths[1..][i - 1];
  }

  lemma FillStep(lengths: seq<nat>, remaining: nat, budget: nat)
    requires lengths != [] && budget == Min(lengths[0], Share(remaining, |lengths|))
    ensures budget <= remaining && Fill(lengths, remaining) == [budget] + Fill(lengths[1..], remaining - budget)
  {
  }

  ghost predicate Over(lengths: seq<nat>, q: nat) { forall i :: 0 <= i < |lengths| ==> lengths[i] > q }

  /** Once a section is cut at q, every later share is q or q + 1. */
  lemma {:induction false} FillAtLevel(lengths: seq<nat>, remaining: nat, q: nat)
    requires Over(lengths, q) && Times(|lengths|, q) <= remaining <= Times(|lengths|, q + 1)
    ensures Levelled(lengths, Fill(lengths, remaining), q) && Ascending(Fill(lengths, remaining))
    ensures remaining == Times(|lengths|, q + 1) && lengths != [] ==> Fill(lengths, remaining)[0] == q + 1
  {
    if lengths != [] {
      var n, rest := |lengths|, lengths[1..];
      var budget := if remaining == Times(n, q + 1) then q + 1 else q;
      LevelShare(n, remaining, q, budget);
      FillStep(lengths, remaining, budget);
      FillAtLevel(rest, remaining - budget, q);
      assert rest != [] ==> Min(rest[0], q) == q;
      StepFits(lengths, Fill(lengths, remaining), budget, Fill(rest, remaining - budget), q);
    }
  }

  /** Between n shares of q and n of q + 1, the share is q unless it comes out even at q + 1. */
  lemma LevelShare(n: nat, remaining: nat, q: nat, budget: nat)
    requires n > 0 && Times(n, q) <= remaining <= Times(n, q + 1)
    requires budget == if remaining == Times(n, q + 1) then q + 1 else q
    ensures Share(remaining, n) == budget
    ensures Times(n - 1, q) <= remaining - budget <= Times(n - 1, q + 1)
    ensures budget == q + 1 ==> remaining - budget == Times(n - 1, q + 1)
  {
    TimesNext(n, q);
    TimesNext(n - 1, q);
    TimesNext(n, q + 1);
    ShareIs(remaining, n, budget);
  }

  /** Serving the shortest first gives ascending budgets under one water line, no lower than the first equal share. */
  lemma {:induction false} FillLevels(lengths: seq<nat>, remaining: nat, q: nat) returns (level: nat)
    requires Ascending(lengths) && lengths != [] && q == Share(remaining, |lengths|)
    ensures Levelled(lengths, Fill(lengths, remaining), level) && Ascending(Fill(lengths, remaining)) && level >= q
    decreases |lengths|
  {
    var first, rest := lengths[0], lengths[1..];
    if first > q {
      level := q;
      FillAtLevel(lengths, remaining, q);
    } else {
      FillStep(lengths, remaining, first);
      var left, bs := remaining - first, Fill(rest, remaining - first);
      if rest == [] {
        level := q;
      } else {
        ShareGrows(remaining, |lengths|, first);
        level := FillLevels(rest, left, Share(left, |rest|));
        FirstShare(first, rest, bs, level);
      }
      StepFits(lengths, Fill(lengths, remaining), first, bs, level);
    }
  }

  lemma FirstShare(first: nat, rest: seq<nat>, bs: seq<nat>, level: nat)
    requires rest != [] && Levelled(rest, bs, level) && first <= rest[0] && first <= level
    ensures first <= bs[0]
  {
  }

  lemma ShareGrows(remaining: nat, n: nat, first: nat)
    requires n > 1 && first <= Share(remaining, n)
    ensures Share(remaining - first, n - 1) >= Share(remaining, n)
  {
    var q, d := Share(remaining, n), Share(remaining - first, n - 1);
    if d < q {
      TimesMonotone(n - 1, d + 1, q);
    }
  }

  lemma {:induction false} FillCaps(lengths: seq<nat>, remaining: nat)
    ensures forall i :: 0 <= i < |lengths| ==> Fill(lengths, remaining)[i] <= lengths[i]
  {
    if lengths != [] {
      FillCaps(lengths[1..], remaining - Min(lengths[0], Share(remaining, |lengths|)));
    }
  }

  // ---- serving order --------------------------------------------------------------

  function LengthAt(lengths: seq<nat>, i: nat): nat { if i < |lengths| then lengths[i] else 0 }

  function Shorter(lengths: seq<nat>): (nat, nat) -> bool {
    (i: nat, j: nat) => LengthAt(lengths, i) <= LengthAt(lengths, j)
  }

  function Indices(n: nat): (r: seq<nat>)
    ensures |r| == n && forall i: nat :: i < n ==> r[i] == i
  {
    seq(n, (i: nat) => i)
  }

  /** The section numbers, shortest section first, equal ones in page order. */
  function Order(lengths: seq<nat>): seq<nat> { Sort(Shorter(lengths), Indices(|lengths|)) }

  function Picked(lengths: seq<nat>, order: seq<nat>): (r: seq<nat>)
    ensures |r| == |order| && forall k :: 0 <= k < |r| ==> r[k] == LengthAt(lengths, order[k])
  {
    if order == [] then [] else [LengthAt(lengths, order[0])] + Picked(lengths, order[1..])
  }

  lemma {:induction false} InsertSum(lengths: seq<nat>, x: nat, ys: seq<nat>)
    ensures Sum(Picked(lengths, Insert(Shorter(lengths), x, ys))) == LengthAt(lengths, x) + Sum(Picked(lengths, ys))
  {
    if ys == [] || Shorter(lengths)(x, ys[0]) {
      assert ([x] + ys)[1..] == ys;
      SumHead(LengthAt(lengths, x), Picked(lengths, ys));
    } else {
      var rest := Insert(Shorter(lengths), x, ys[1..]);
      InsertSum(lengths, x, ys[1..]);
      assert ([ys[0]] + rest)[1..] == rest;
      SumHead(LengthAt(lengths, ys[0]), Picked(lengths, rest));
      SumHead(LengthAt(lengths, ys[0]), Picked(lengths, ys[1..]));
    }
  }

  lemma SumHead(x: nat, xs: seq<nat>)
    ensures Sum([x] + xs) == x + Sum(xs)
  {
    assert ([x] + xs)[1..] == xs;
  }

  lemma {:induction false} SortSum(lengths: seq<nat>, xs: seq<nat>)
    ensures Sum(Picked(lengths, Sort(Shorter(lengths), xs))) == Sum(Picked(lengths, xs))
  {
    if xs != [] {
      SortSum(lengths, xs[1..]);
      InsertSum(lengths, xs[0], Sort(Shorter(lengths), xs[1..]));
      SumHead(LengthAt(lengths, xs[0]), Picked(lengths, xs[1..]));
    }
  }

  lemma OrderFacts(lengths: seq<nat>)
    ensures var o := Order(lengths);
      && |o| == |lengths| && Distinct(o) && (forall i: nat :: i in o <==> i < |lengths|)
      && Ascending(Picked(lengths, o)) && Sum(Picked(lengths, o)) == Sum(lengths)
      && StablySorts(Shorter(lengths), Indices(|lengths|), o)
  {
    var le, all := Shorter(lengths), Indices(|lengths|);
    SortStablySorts(le, all);
    SortDistinct(le, all);
    SortSum(lengths, all);
    assert Picked(lengths, all) == lengths;
    forall i: nat
      ensures i in all <==> i < |lengths|
    {
      if i < |lengths| { assert all[i] == i; }
    }
  }

  lemma {:induction false} SumUpdate(xs: seq<nat>, i: nat, v: nat)
    requires i < |xs|
    ensures Sum(xs[i := v]) + xs[i] == Sum(xs) + v
  {
    if i == 0 {
      assert xs[0 := v][1..] == xs[1..];
    } else {
      assert xs[i := v][1..] == xs[1..][i - 1 := v];
      SumUpdate(xs[1..], i - 1, v);
    }
  }

  // ---- the whole split --------------------------------------------------------------

  /** Exactly the limit or all the text, under one water line, longer and later sections never getting less. */
  ghost predicate Fair(limit: nat, lengths: seq<nat>, bs: seq<nat>) {
    && |bs| == |lengths| && Sum(bs) == Min(limit, Sum(lengths))
    && (exists level :: Levelled(lengths, bs, level))
    && (forall i, j :: 0 <= i < |bs| && 0 <= j < |bs| && ServedFirst(lengths, i, j) ==> bs[i] <= bs[j])
  }

  predicate ServedFirst(lengths: seq<nat>, i: nat, j: nat)
    requires i < |lengths| && j < |lengths|
  {
    lengths[i] < lengths[j] || (lengths[i] == lengths[j] && i < j)
  }

  ghost predicate Assigned(order: seq<nat>, fill: seq<nat>, bs: seq<nat>) {
    |fill| == |order| && forall k :: 0 <= k < |order| ==> order[k] < |bs| && bs[order[k]] == fill[k]
  }

  lemma ServedEarlier(lengths: seq<nat>, i: nat, j: nat, p: nat, q: nat)
    requires i < |lengths| && j < |lengths| && ServedFirst(lengths, i, j)
    requires p < |Order(lengths)| && q < |Order(lengths)| && Order(lengths)[p] == i && Order(lengths)[q] == j
    ensures p < q
  {
    OrderFacts(lengths);
    var o, picked := Order(lengths), Picked(lengths, Order(lengths));
    assert picked[p] == lengths[i] && picked[q] == lengths[j];
    if lengths[i] == lengths[j] {
      var all := Indices(|lengths|);
      assert all[i] == i && all[j] == j;
      TiesKeepOrder(Shorter(lengths), all, o, i, j);
    }
  }

  lemma AssignedIsFair(limit: nat, lengths: seq<nat>, bs: seq<nat>)
    requires |bs| == |lengths| && Assigned(Order(lengths), Fill(Picked(lengths, Order(lengths)), limit), bs)
    ensures exists level :: Levelled(lengths, bs, level)
    ensures forall i, j :: 0 <= i < |bs| && 0 <= j < |bs| && ServedFirst(lengths, i, j) ==> bs[i] <= bs[j]
  {
    var order := Order(lengths);
    var picked := Picked(lengths, order);
    var fill := Fill(picked, limit);
    OrderFacts(lengths);
    if lengths == [] {
      assert Levelled(lengths, bs, 0);
    } else {
      var level := FillLevels(picked, limit, Share(limit, |picked|));
      forall i | 0 <= i < |bs|
        ensures Min(lengths[i], level) <= bs[i] <= Min(lengths[i], level + 1)
      {
        var k := PositionOf(order, i);
        assert picked[k] == lengths[i];
      }
      assert Levelled(lengths, bs, level);
      forall i, j | 0 <= i < |bs| && 0 <= j < |bs| && ServedFirst(lengths, i, j)
        ensures bs[i] <= bs[j]
      {
        var p := PositionOf(order, i);
        var q := PositionOf(order, j);
        ServedEarlier(lengths, i, j, p, q);
      }
    }
  }

  function Lengths(parts: seq<Part>): seq<nat> {
    seq(|parts|, i requires 0 <= i < |parts| => |parts[i].text|)
  }

  /** The section is unchanged but for a cut at the end of its text. */
  predicate CutOf(p: Part, whole: Part, budget: nat) {
    budget <= |whole.text| && p == whole.(text := whole.text[..budget])
  }

  /** The first k sections of the order have their budgets, the others none yet. */
  ghost predicate Serving(order: seq<nat>, fill: seq<nat>, bs: seq<nat>, k: nat) {
    && |fill| == |order| == |bs| && k <= |order| && Distinct(order) &&
      (forall i :: 0 <= i < |order| ==> order[i] < |bs|)
    && (forall i :: 0 <= i < k ==> bs[order[i]] == fill[i])
    && (forall i :: k <= i < |order| ==> bs[order[i]] == 0)
    && Sum(bs) + Sum(fill[k..]) == Sum(fill)
  }

  lemma ServeNext(order: seq<nat>, fill: seq<nat>, bs: seq<nat>, k: nat)
    requires Serving(order, fill, bs, k) && k < |order|
    ensures Serving(order, fill, bs[order[k] := fill[k]], k + 1)
  {
    SumUpdate(bs, order[k], fill[k]);
    assert fill[k..][1..] == fill[k + 1..];
  }

  lemma {:induction false} SumZeros(n: nat)
    ensures Sum(seq(n, i => 0)) == 0
  {
    if n > 0 {
      SumZeros(n - 1);
      assert seq(n, i => 0)[1..] == seq(n - 1, i => 0);
    }
  }

  lemma ServedIsFair(limit: nat, lengths: seq<nat>, fill: seq<nat>, bs: seq<nat>)
    requires fill == Fill(Picked(lengths, Order(lengths)), limit) && Serving(Order(lengths), fill, bs, |fill|) &&
      |bs| == |lengths|
    ensures Fair(limit, lengths, bs)
  {
    OrderFacts(lengths);
    FillSpends(Picked(lengths, Order(lengths)), limit);
    AssignedIsFair(limit, lengths, bs);
  }

  /** One round of the loop: what the served section gets is the head of what remains to be filled. */
  lemma FillRound(picked: seq<nat>, k: nat, remaining: nat, fill: seq<nat>)
    requires k < |picked| == |fill| && fill[k..] == Fill(picked[k..], remaining)
    ensures var budget := Min(picked[k], remaining / (|picked| - k));
      0 <= budget <= remaining && fill[k] == budget && fill[k + 1..] == Fill(picked[k + 1..], remaining - budget)
  {
    var rest := picked[k..];
    assert rest[0] == picked[k] && rest[1..] == picked[k + 1..] && |rest| == |picked| - k;
    FillStep(rest, remaining, Min(rest[0], Share(remaining, |rest|)));
    assert fill[k..][0] == fill[k] && fill[k..][1..] == fill[k + 1..];
  }

  /** The sections with their texts cut to a fair split of a text budget. */
  method Split(parts: seq<Part>, limit: nat) returns (bounded: seq<Part>)
    ensures |bounded| == |parts| && Fair(limit, Lengths(parts), Lengths(bounded))
    ensures forall i :: 0 <= i < |parts| ==> CutOf(bounded[i], parts[i], |bounded[i].text|)
  {
    var lengths := Lengths(parts);
    var order := Order(lengths);
    ghost var picked := Picked(lengths, order);
    ghost var fill := Fill(picked, limit);
    ghost var bs;
    PicksAre(parts, lengths);
    bounded, bs := Serve(parts, lengths, order, limit, picked, fill);
    SplitDone(parts, lengths, limit, fill, bs, bounded);
  }

  lemma PicksAre(parts: seq<Part>, lengths: seq<nat>)
    requires lengths == Lengths(parts)
    ensures PicksLengths(parts, lengths, Order(lengths), Picked(lengths, Order(lengths)))
  {
    var order := Order(lengths);
    OrderFacts(lengths);
    assert forall i :: 0 <= i < |order| ==> order[i] in order;
  }

  lemma SplitDone(parts: seq<Part>, lengths: seq<nat>, limit: nat, fill: seq<nat>, bs: seq<nat>, bounded: seq<Part>)
    requires lengths == Lengths(parts) && fill == Fill(Picked(lengths, Order(lengths)), limit)
    requires |bounded| == |parts| && Serving(Order(lengths), fill, bs, |Order(lengths)|)
    requires CutsDone(Order(lengths), fill, parts, bounded, |Order(lengths)|)
    ensures Fair(limit, Lengths(parts), Lengths(bounded))
    ensures forall i :: 0 <= i < |parts| ==> CutOf(bounded[i], parts[i], |bounded[i].text|)
  {
    OrderFacts(lengths);
    ServedCuts(Order(lengths), fill, bs, parts, bounded);
    ServedIsFair(limit, lengths, fill, bs);
  }

  /** The loop over the serving order. */
  method Serve(parts: seq<Part>, lengths: seq<nat>, order: seq<nat>, limit: nat, ghost picked: seq<nat>,
      ghost fill: seq<nat>)
      returns (bounded: seq<Part>, ghost bs: seq<nat>)
    requires PicksLengths(parts, lengths, order, picked) && fill == Fill(picked, limit)
    ensures |bounded| == |parts| && Serving(order, fill, bs, |order|) && CutsDone(order, fill, parts, bounded, |order|)
  {
    bounded, bs := parts, seq(|parts|, i => 0);
    StartServing(order, fill, bs);
    assert fill[0..] == fill && picked[0..] == picked;
    var remaining := limit;
    for i := 0 to |order|
      invariant Underway(parts, order, picked, fill, bounded, bs, remaining, i)
    {
      bounded, remaining, bs := ServeOne(parts, lengths, order, i, bounded, remaining, picked, fill, bs);
    }
  }

  /** The sections and their order, with the lengths of the texts in that order. */
  ghost predicate PicksLengths(parts: seq<Part>, lengths: seq<nat>, order: seq<nat>, picked: seq<nat>) {
    && |lengths| == |order| == |parts| == |picked| && Distinct(order)
    && (forall i :: 0 <= i < |parts| ==> lengths[i] == |parts[i].text|)
    && (forall i :: 0 <= i < |order| ==> order[i] < |parts| && picked[i] == lengths[order[i]])
  }

  /** The first i sections of the order are cut, the rest of the budgets still to be filled. */
  ghost predicate Underway(parts: seq<Part>, order: seq<nat>, picked: seq<nat>, fill: seq<nat>, bounded: seq<Part>,
      bs: seq<nat>, remaining: int, i: nat) {
    && i <= |picked| == |fill| && remaining >= 0 && fill[i..] == Fill(picked[i..], remaining)
    && Serving(order, fill, bs, i) && CutsDone(order, fill, parts, bounded, i)
  }

  /** One section: its budget, its cut text, what remains. */
  method ServeOne(parts: seq<Part>, lengths: seq<nat>, order: seq<nat>, i: nat, bounded: seq<Part>, remaining: int,
      ghost picked: seq<nat>, ghost fill: seq<nat>, ghost bs: seq<nat>)
      returns (bounded': seq<Part>, remaining': int, ghost bs': seq<nat>)
    requires PicksLengths(parts, lengths, order, picked) && i < |order|
    requires Underway(parts, order, picked, fill, bounded, bs, remaining, i)
    ensures Underway(parts, order, picked, fill, bounded', bs', remaining', i + 1)
  {
    var index := order[i];
    FillRound(picked, i, remaining, fill);
    var budget := Min(lengths[index], remaining / (|order| - i));
    var text := Truncate(parts[index].text, budget);
    CutNext(order, fill, parts, bounded, i, text);
    ServeNext(order, fill, bs, i);
    bounded' := bounded[index := parts[index].(text := text)];
    remaining' := remaining - budget;
    bs' := bs[index := budget];
  }

  ghost predicate CutsDone(order: seq<nat>, fill: seq<nat>, parts: seq<Part>, bounded: seq<Part>, k: nat) {
    && |bounded| == |parts| == |order| == |fill| && k <= |order|
    && forall i :: 0 <= i < k ==> order[i] < |parts| && CutOf(bounded[order[i]], parts[order[i]], fill[i])
  }

  lemma CutNext(order: seq<nat>, fill: seq<nat>, parts: seq<Part>, bounded: seq<Part>, k: nat, text: seq<Rune>)
    requires CutsDone(order, fill, parts, bounded, k) && k < |order| && Distinct(order) && order[k] < |parts|
    requires fill[k] <= |parts[order[k]].text| && text == parts[order[k]].text[..fill[k]]
    ensures CutsDone(order, fill, parts, bounded[order[k] := parts[order[k]].(text := text)], k + 1)
  {
  }

  lemma StartServing(order: seq<nat>, fill: seq<nat>, bs: seq<nat>)
    requires Distinct(order) && |order| == |fill| && bs == seq(|order|, i => 0) &&
      forall i :: i in order ==> i < |order|
    ensures Serving(order, fill, bs, 0)
  {
    SumZeros(|order|);
    assert fill[0..] == fill;
    assert forall i :: 0 <= i < |order| ==> order[i] in order;
  }

  lemma ServedCuts(order: seq<nat>, fill: seq<nat>, bs: seq<nat>, parts: seq<Part>, bounded: seq<Part>)
    requires Serving(order, fill, bs, |order|) && |bounded| == |parts| == |bs| &&
      forall i: nat :: i < |bs| ==> i in order
    requires CutsDone(order, fill, parts, bounded, |order|)
    ensures Lengths(bounded) == bs && forall i :: 0 <= i < |parts| ==> CutOf(bounded[i], parts[i], bs[i])
  {
    forall j | 0 <= j < |parts|
      ensures CutOf(bounded[j], parts[j], bs[j]) && |bounded[j].text| == bs[j]
    {
      var k := PositionOf(order, j);
    }
  }

  /** A page's sections within the search index's text limit. */
  method SearchParts(parts: seq<Part>) returns (bounded: seq<Part>)
    ensures |bounded| == |parts| && Fair(4000, Lengths(parts), Lengths(bounded))
    ensures forall i :: 0 <= i < |parts| ==> CutOf(bounded[i], parts[i], |bounded[i].text|)
  {
    bounded := Split(parts, LIMIT);
  }

  // ---- what fairness means ----------------------------------------------------------

  /** Sections cut short end up within one character of each other, and none kept whole is longer by more than one. */
  lemma CutsAreLevel(limit: nat, lengths: seq<nat>, bs: seq<nat>, i: nat, j: nat)
    requires Fair(limit, lengths, bs) && i < |bs| && j < |bs| && bs[i] < lengths[i]
    ensures bs[j] <= bs[i] + 1
    ensures bs[j] == lengths[j] ==> lengths[j] <= bs[i] + 1
    ensures bs[j] < lengths[j] ==> bs[i] <= bs[j] + 1
    ensures Sum(bs) == limit
  {
    var level :| Levelled(lengths, bs, level);
    if Sum(bs) == Sum(lengths) {
      SumStrict(bs, lengths, i);
    }
  }

  lemma {:induction false} SumBelow(xs: seq<nat>, ys: seq<nat>)
    requires |xs| == |ys| && forall i :: 0 <= i < |xs| ==> xs[i] <= ys[i]
    ensures Sum(xs) <= Sum(ys)
  {
    if xs != [] {
      SumBelow(xs[1..], ys[1..]);
    }
  }

  lemma {:induction false} SumStrict(xs: seq<nat>, ys: seq<nat>, k: nat)
    requires |xs| == |ys| && (forall i :: 0 <= i < |xs| ==> xs[i] <= ys[i]) && k < |xs| && xs[k] < ys[k]
    ensures Sum(xs) < Sum(ys)
  {
    if k == 0 {
      SumBelow(xs[1..], ys[1..]);
    } else {
      SumStrict(xs[1..], ys[1..], k - 1);
    }
  }

  /** Max-min fairness: any split that gives one section more takes from one that has at most one character more. */
  lemma NoFairerSplit(limit: nat, lengths: seq<nat>, bs: seq<nat>, cs: seq<nat>, i: nat) returns (j: nat)
    requires Fair(limit, lengths, bs) && |cs| == |lengths| && Sum(cs) <= limit &&
      forall k :: 0 <= k < |cs| ==> cs[k] <= lengths[k]
    requires i < |cs| && cs[i] > bs[i]
    ensures j < |cs| && cs[j] < bs[j] <= bs[i] + 1
  {
    CutsAreLevel(limit, lengths, bs, i, i);
    if forall k :: 0 <= k < |cs| ==> bs[k] <= cs[k] {
      SumStrict(bs, cs, i);
    }
    j :| 0 <= j < |cs| && cs[j] < bs[j];
    CutsAreLevel(limit, lengths, bs, i, j);
  }
}
