/** Coalescing document-ordered blocks into index windows: greedy runs under a byte budget. */
module Windows {
  import opened Prelude
  import opened Strings
  import opened BlockTree
  import opened Dedup

  const HEADING := "heading"
  const BUDGET := 1500

  datatype Window = Window(anchorId: string, blockIds: seq<string>, text: string, title: string)

  // ---- white space, over UTF-8 bytes ---------------------------------------------

  /** Length of the white-space character the bytes begin with; 0 when they begin with none. */
  function SpaceAt(s: string): (n: nat)
    ensures n <= |s|
  {
    if |s| >= 1 && IsAsciiSpace(s[0]) then 1
    else if |s| >= 2 && s[0] == '\U{00C2}' && (s[1] == '\U{0085}' || s[1] == '\U{00A0}') then 2
    else if |s| >= 3 && IsWideSpace(s[0], s[1], s[2]) then 3
    else 0
  }

  predicate IsAsciiSpace(c: char) {
    c == ' ' || c == '\t' || c == '\n' || c == '\U{000B}' || c == '\U{000C}' || c == '\r'
  }

  /** The three-byte white space: U+1680, U+2000 to U+200A, U+2028, U+2029, U+202F, U+205F and U+3000. */
  predicate IsWideSpace(a: char, b: char, c: char) {
    || (a == '\U{00E1}' && b == '\U{009A}' && c == '\U{0080}')
    || (a == '\U{00E2}' && b == '\U{0080}' && IsGeneralSpace(c))
    || (a == '\U{00E2}' && b == '\U{0081}' && c == '\U{009F}')
    || (a == '\U{00E3}' && b == '\U{0080}' && c == '\U{0080}')
  }

  /** Last byte of U+2000 to U+200A, U+2028, U+2029 and U+202F. */
  predicate IsGeneralSpace(c: char) {
    '\U{0080}' <= c <= '\U{008A}' || c == '\U{00A8}' || c == '\U{00A9}' || c == '\U{00AF}'
  }

  /** Nothing is left once white space is trimmed. */
  predicate Blank(s: string) {
    s == "" || (SpaceAt(s) > 0 && Blank(s[SpaceAt(s)..]))
  }

  lemma {:induction false} BlankHasNoLetter(s: string, k: nat)
    requires Blank(s) && k < |s|
    ensures s[k] != 'a'
    decreases |s|
  {
    var n := SpaceAt(s);
    if k < n {
      assert k == 0 || k == 1 || k == 2;
    } else {
      BlankHasNoLetter(s[n..], k - n);
    }
  }

  // ---- runs ----------------------------------------------------------------------

  function Glue(text: string, more: string): string {
    if more == "" then text else if text == "" then more else text + "\n" + more
  }

  function TextOf(run: seq<Block>): string {
    if run == [] then "" else Glue(TextOf(run[..|run| - 1]), run[|run| - 1].text)
  }

  /** The block may not join the run: it is a heading, or the run's text would go over the budget. */
  predicate Breaks(run: seq<Block>, b: Block) {
    b.kind == HEADING || |TextOf(run)| + |b.text| + 1 > BUDGET
  }

  /** Every block after the first was free to join. */
  ghost predicate Unbroken(run: seq<Block>) {
    run != [] && forall i :: 0 < i < |run| ==> !Breaks(run[..i], run[i])
  }

  function Flatten<T>(rs: seq<seq<T>>): seq<T> {
    if rs == [] then [] else rs[0] + Flatten(rs[1..])
  }

  /** Consecutive unbroken runs, each begun only because its first block could not join the one before. */
  ghost predicate IsDivision(rs: seq<seq<Block>>, bs: seq<Block>) {
    && Flatten(rs) == bs
    && (forall i :: 0 <= i < |rs| ==> Unbroken(rs[i]))
    && (forall i, j :: 0 <= i && j == i + 1 < |rs| ==> rs[j] != [] && Breaks(rs[i], rs[j][0]))
  }

  /** The runs when `cur` is already open. */
  function RunsFrom(cur: seq<Block>, bs: seq<Block>): seq<seq<Block>>
    decreases |bs|
  {
    if bs == [] then (if cur == [] then [] else [cur])
    else if cur != [] && Breaks(cur, bs[0]) then [cur] + RunsFrom([bs[0]], bs[1..])
    else RunsFrom(cur + [bs[0]], bs[1..])
  }

  function Runs(bs: seq<Block>): seq<seq<Block>> { RunsFrom([], bs) }

  lemma UnbrokenGrows(cur: seq<Block>, b: Block)
    requires cur == [] || (Unbroken(cur) && !Breaks(cur, b))
    ensures Unbroken(cur + [b])
  {
    assert forall i :: 0 < i <= |cur| ==> (cur + [b])[..i] == cur[..i];
    assert cur[..|cur|] == cur;
  }

  lemma DivisionPrepends(cur: seq<Block>, rs: seq<seq<Block>>, bs: seq<Block>)
    requires Unbroken(cur) && IsDivision(rs, bs) && (rs != [] ==> rs[0] != [] && Breaks(cur, rs[0][0]))
    ensures IsDivision([cur] + rs, cur + bs)
  {
    var all := [cur] + rs;
    assert all[1..] == rs && forall i :: 0 < i < |all| ==> all[i] == rs[i - 1];
    forall i, j | 0 <= i && j == i + 1 < |all|
      ensures all[j] != [] && Breaks(all[i], all[j][0])
    {
      assert all[j] == rs[i];
      if i > 0 {
        var k := i - 1;
        assert all[i] == rs[k] && Breaks(rs[k], rs[i][0]);
      }
    }
  }

  lemma {:induction false} RunsDivide(cur: seq<Block>, bs: seq<Block>)
    requires cur == [] || Unbroken(cur)
    ensures IsDivision(RunsFrom(cur, bs), cur + bs)
    ensures cur != [] ==> RunsFrom(cur, bs) != [] && cur <= RunsFrom(cur, bs)[0]
    decreases |bs|
  {
    if bs == [] {
      assert cur + bs == cur;
      if cur != [] {
        assert [cur][1..] == [] && cur + [] == cur;
      }
    } else {
      var b, rest := bs[0], bs[1..];
      assert bs == [b] + rest;
      if cur != [] && Breaks(cur, b) {
        UnbrokenGrows([], b);
        assert [] + [b] == [b];
        RunsDivide([b], rest);
        DivisionPrepends(cur, RunsFrom([b], rest), bs);
      } else {
        UnbrokenGrows(cur, b);
        RunsDivide(cur + [b], rest);
        Regroup(cur, [b], rest);
      }
    }
  }

  lemma DivisionTail(rs: seq<seq<Block>>, bs: seq<Block>)
    requires rs != [] && IsDivision(rs, bs)
    ensures rs[0] <= bs && IsDivision(rs[1..], bs[|rs[0]|..])
  {
    var first, tail, rest := rs[0], rs[1..], bs[|rs[0]|..];
    assert bs == first + Flatten(tail);
    assert rest == Flatten(tail);
    forall i | 0 <= i < |tail|
      ensures Unbroken(tail[i])
    {
      var k := i + 1;
      assert tail[i] == rs[k];
    }
    forall i, j | 0 <= i && j == i + 1 < |tail|
      ensures tail[j] != [] && Breaks(tail[i], tail[j][0])
    {
      var k := j + 1;
      assert tail[i] == rs[j] && tail[j] == rs[k];
    }
  }

  /** There is only one division: the promises determine the runs. */
  lemma {:induction false} DivisionIsRuns(rs: seq<seq<Block>>, cur: seq<Block>, bs: seq<Block>)
    requires IsDivision(rs, cur + bs) && (cur != [] ==> rs != [] && cur <= rs[0])
    ensures rs == RunsFrom(cur, bs)
    decreases |bs|
  {
    if rs == [] {
      assert cur + bs == [];
    } else {
      DivisionTail(rs, cur + bs);
      var first, tail := rs[0], rs[1..];
      assert rs == [first] + tail && first in rs && Unbroken(first);
      if |first| > |cur| {
        NextOf(first, cur, bs);
        DivisionIsRuns(rs, cur + [bs[0]], bs[1..]);
      } else {
        assert first == cur && (cur + bs)[|cur|..] == bs;
        TailIsRuns(first, tail, bs, rs);
      }
    }
  }

  lemma NextOf(first: seq<Block>, cur: seq<Block>, bs: seq<Block>)
    requires first <= cur + bs && cur <= first && |first| > |cur|
    ensures bs != [] && first[|cur|] == bs[0] && first[..|cur|] == cur && cur + [bs[0]] <= first
    ensures cur + bs == cur + [bs[0]] + bs[1..]
  {
    assert first[|cur|] == (cur + bs)[|cur|];
  }

  lemma TailIsRuns(first: seq<Block>, tail: seq<seq<Block>>, bs: seq<Block>, rs: seq<seq<Block>>)
    requires rs == [first] + tail && IsDivision(rs, first + bs) && IsDivision(tail, bs) && first != []
    ensures rs == RunsFrom(first, bs)
    decreases |bs|, 0
  {
    if tail != [] {
      var b, rest := bs[0], bs[1..];
      assert rs[1] == tail[0] && tail[0] in tail && Unbroken(tail[0]);
      assert Breaks(rs[0], rs[1][0]);
      DivisionTail(tail, bs);
      assert tail[0][0] == b && bs == [b] + rest && [b] <= tail[0];
      DivisionIsRuns(tail, [b], rest);
    }
  }

  /** The runs of a document are the one way to divide it. */
  lemma RunsAreTheDivision(bs: seq<Block>, rs: seq<seq<Block>>)
    ensures IsDivision(rs, bs) <==> rs == Runs(bs)
  {
    assert [] + bs == bs;
    RunsDivide([], bs);
    if IsDivision(rs, bs) {
      DivisionIsRuns(rs, [], bs);
    }
  }

  lemma {:induction false} DivisionsJoin(rs: seq<seq<Block>>, bs: seq<Block>, qs: seq<seq<Block>>, cs: seq<Block>)
    requires IsDivision(rs, bs) && IsDivision(qs, cs) && (qs != [] ==> qs[0] != [] && qs[0][0].kind == HEADING)
    ensures IsDivision(rs + qs, bs + cs)
    decreases |rs|
  {
    if rs == [] {
      assert rs + qs == qs && bs + cs == cs;
    } else {
      DivisionTail(rs, bs);
      var rest := bs[|rs[0]|..];
      DivisionsJoin(rs[1..], rest, qs, cs);
      var joined := rs[1..] + qs;
      assert rs + qs == [rs[0]] + joined && bs + cs == rs[0] + (rest + cs);
      assert rs[0] in rs;
      assert |rs| > 1 ==> joined[0] == rs[1] && Breaks(rs[0], rs[1][0]);
      DivisionPrepends(rs[0], joined, rest + cs);
    }
  }

  /** A heading cuts the document in two independent parts. */
  lemma RunsSplitAtHeading(a: seq<Block>, h: Block, b: seq<Block>)
    requires h.kind == HEADING
    ensures Runs(a + ([h] + b)) == Runs(a) + Runs([h] + b)
  {
    RunsAreTheDivision(a, Runs(a));
    RunsAreTheDivision([h] + b, Runs([h] + b));
    var qs := Runs([h] + b);
    assert qs != [];
    DivisionTail(qs, [h] + b);
    assert qs[0] in qs && qs[0][0] == ([h] + b)[0];
    DivisionsJoin(Runs(a), a, qs, [h] + b);
    RunsAreTheDivision(a + ([h] + b), Runs(a) + qs);
  }

  /** Only a single block can make a run go over the budget, and only a run's first block is a heading. */
  lemma RunWithinBudget(bs: seq<Block>, r: seq<Block>)
    requires r in Runs(bs)
    ensures |TextOf(r)| > BUDGET ==> |r| == 1
    ensures forall i :: 0 < i < |r| ==> r[i].kind != HEADING
  {
    RunsAreTheDivision(bs, Runs(bs));
    assert Unbroken(r);
    if |r| > 1 {
      assert !Breaks(r[..|r| - 1], r[|r| - 1]);
    }
  }

  /** Block b cannot join a run whose text is that long: a heading never does, any other only within the budget. */
  predicate Opens(length: nat, b: Block) { b.kind == "heading" || length + |b.text| + 1 > 1500 }

  /** The runs are maximal: every block joins the open run unless it must open the next. */
  lemma RunsAreMaximal(bs: seq<Block>)
    ensures var rs := Runs(bs);
      && Flatten(rs) == bs && (forall i :: 0 <= i < |rs| ==> rs[i] != [])
      && (forall i, k :: 0 <= i < |rs| && 0 < k < |rs[i]| ==> !Opens(|TextOf(rs[i][..k])|, rs[i][k]))
      && (forall i, j :: 0 <= i && j == i + 1 < |rs| ==> Opens(|TextOf(rs[i])|, rs[j][0]))
  {
    var rs := Runs(bs);
    RunsAreTheDivision(bs, rs);
    assert forall i :: 0 <= i < |rs| ==> Unbroken(rs[i]);
    forall i, k | 0 <= i < |rs| && 0 < k < |rs[i]|
      ensures !Opens(|TextOf(rs[i][..k])|, rs[i][k])
    {
      assert Unbroken(rs[i]) && !Breaks(rs[i][..k], rs[i][k]);
    }
    forall i, j | 0 <= i && j == i + 1 < |rs|
      ensures Opens(|TextOf(rs[i])|, rs[j][0])
    {
      assert Breaks(rs[i], rs[j][0]);
    }
  }

  /** The texts of a run, blocks without text left out. */
  function Texts(run: seq<Block>): seq<string> {
    if run == [] then [] else (if run[0].text == "" then [] else [run[0].text]) + Texts(run[1..])
  }

  lemma {:induction false} TextsAppend(run: seq<Block>, b: Block)
    ensures Texts(run + [b]) == Texts(run) + if b.text == "" then [] else [b.text]
  {
    if run == [] {
      assert run + [b] == [b] && [b][1..] == [];
    } else {
      assert (run + [b])[1..] == run[1..] + [b];
      TextsAppend(run[1..], b);
    }
  }

  lemma {:induction false} JoinAppend(parts: seq<string>, x: string)
    requires parts != []
    ensures Join(parts + [x], "\n") == Join(parts, "\n") + "\n" + x
  {
    if |parts| > 1 {
      assert (parts + [x])[1..] == parts[1..] + [x];
      JoinAppend(parts[1..], x);
    }
  }

  lemma {:induction false} TextsNonEmpty(run: seq<Block>)
    ensures forall i :: 0 <= i < |Texts(run)| ==> Texts(run)[i] != ""
  {
    if run != [] {
      TextsNonEmpty(run[1..]);
    }
  }

  /** The text of a run: its members' texts, one line feed between them. */
  lemma {:induction false} TextIsJoin(run: seq<Block>)
    ensures TextOf(run) == Join(Texts(run), "\n") && (TextOf(run) == "" <==> Texts(run) == [])
    decreases |run|
  {
    if run != [] {
      var before, b := run[..|run| - 1], run[|run| - 1];
      assert run == before + [b];
      TextIsJoin(before);
      TextsAppend(before, b);
      if b.text == "" {
        assert Texts(before) + [] == Texts(before);
      } else if Texts(before) == [] {
        assert Texts(run) == [b.text];
      } else {
        JoinAppend(Texts(before), b.text);
      }
    }
  }

  // ---- windows ---------------------------------------------------------------------

  function Ids(run: seq<Block>): seq<string> { seq(|run|, i requires 0 <= i < |run| => run[i].id) }

  function Render(run: seq<Block>): Window
    requires run != []
  {
    Window(run[0].id, Ids(run), TextOf(run), if run[0].kind == HEADING then run[0].text else "")
  }

  /** What a closed run adds: its window, unless there is no text to index. */
  function Emitted(run: seq<Block>): seq<Window> {
    if run == [] || Blank(TextOf(run)) then [] else [Render(run)]
  }

  function WindowsOf(rs: seq<seq<Block>>): seq<Window> { FlatMap(Emitted, rs) }

  /** Closing a run that the next block may not join. */
  lemma Closes(out: seq<Window>, run: seq<Block>, bs: seq<Block>)
    requires run != [] && bs != [] && Breaks(run, bs[0])
    ensures out + WindowsOf(RunsFrom(run, bs)) == out + Emitted(run) + WindowsOf(RunsFrom([], bs))
  {
    var rest := RunsFrom([bs[0]], bs[1..]);
    assert [] + [bs[0]] == [bs[0]] && RunsFrom([], bs) == rest;
    assert ([run] + rest)[0] == run && ([run] + rest)[1..] == rest;
    Regroup(out, Emitted(run), WindowsOf(rest));
  }

  lemma Ends(run: seq<Block>)
    ensures WindowsOf(RunsFrom(run, [])) == Emitted(run)
  {
    if run != [] {
      FlatMapOne(Emitted, run);
    }
  }

  /** The grouping loop: an open window, closed before a heading, on overflow and at the end. */
  method GroupWindows(ordered: seq<Block>) returns (out: seq<Window>)
    ensures out == WindowsOf(Runs(ordered))
  {
    out := [];
    var cur := Window("", [], "", "");
    var started := false;
    ghost var run: seq<Block>, all := [], WindowsOf(Runs(ordered));
    assert ordered[0..] == ordered;
    for i := 0 to |ordered|
      invariant started <==> run != []
      invariant started ==> cur == Render(run)
      invariant out + WindowsOf(RunsFrom(run, ordered[i..])) == all
    {
      var b := ordered[i];
      ghost var rest := ordered[i..];
      assert rest[0] == b && rest[1..] == ordered[i + 1..];
      if started && (b.kind == HEADING || |cur.text| + |b.text| + 1 > BUDGET) {
        Closes(out, run, rest);
        out, started, run := Flushed(out, cur), false, [];
      }
      if !started {
        cur := Window(b.id, [], "", if b.kind == HEADING then b.text else "");
        started := true;
      }
      RenderGrows(run, b);
      cur := cur.(blockIds := cur.blockIds + [b.id], text := Glue(cur.text, b.text));
      run := run + [b];
    }
    Ends(run);
    if started {
      out := Flushed(out, cur);
    }
  }

  /** Closing the open window: it is kept unless its text is blank. */
  function Flushed(out: seq<Window>, cur: Window): seq<Window> {
    if Blank(cur.text) then out else out + [cur]
  }

  lemma RenderGrows(run: seq<Block>, b: Block)
    ensures Ids(run + [b]) == Ids(run) + [b.id] && TextOf(run + [b]) == Glue(TextOf(run), b.text)
    ensures (run + [b])[0] == if run == [] then b else run[0]
  {
    assert (run + [b])[..|run|] == run;
  }

  lemma {:induction false} FlatMapAppend<S, T>(f: S -> seq<T>, xs: seq<S>, ys: seq<S>)
    ensures FlatMap(f, xs + ys) == FlatMap(f, xs) + FlatMap(f, ys)
  {
    if xs == [] {
      assert xs + ys == ys;
    } else {
      assert (xs + ys)[1..] == xs[1..] + ys;
      FlatMapAppend(f, xs[1..], ys);
      Regroup(f(xs[0]), FlatMap(f, xs[1..]), FlatMap(f, ys));
    }
  }

  /** The windows of a document are those of its parts around any heading. */
  lemma WindowsSplitAtHeading(a: seq<Block>, h: Block, b: seq<Block>)
    requires h.kind == HEADING
    ensures WindowsOf(Runs(a + ([h] + b))) == WindowsOf(Runs(a)) + WindowsOf(Runs([h] + b))
  {
    RunsSplitAtHeading(a, h, b);
    FlatMapAppend(Emitted, Runs(a), Runs([h] + b));
  }

  /** One window per run with text that is not all white space: anchor, members, text and title. */
  lemma WindowTable(run: seq<Block>)
    requires run != []
    ensures WindowsOf([run]) ==
      if Blank(Join(Texts(run), "\n")) then []
      else [Window(run[0].id, Ids(run), Join(Texts(run), "\n"), if run[0].kind == "heading" then run[0].text else "")]
  {
    TextIsJoin(run);
    FlatMapOne(Emitted, run);
  }
}
