/** Index entries of a document: its windows, each with the links of its member blocks. */
module WindowEntries {
  import opened Prelude
  import opened Strings
  import opened AnyUri
  import opened TokenScan
  import opened LinkScanner
  import opened LinkIndex
  import opened Dedup
  import opened BlockTree
  import opened Windows

  const PARAGRAPH := "paragraph"
  const HTML := "html"
  const ENVELOPE_OPEN := "<!-- any:block "
  const ENVELOPE_CLOSE := "-->"

  /**
   * Where the links come from, and the two readings of a block's text taken as given: the reference a
   * synced-block envelope names, and whether the whole text is one markdown link to a card target.
   */
  datatype Source = Source(
    spaceId: string,
    objectId: string,
    collection: string,
    envelopeRef: string -> Option<string>,
    isCard: string -> bool)

  // ---- trimming -------------------------------------------------------------------

  function TrimStart(s: string): string {
    if SpaceAt(s) > 0 then TrimStart(s[SpaceAt(s)..]) else s
  }

  /** Length of the white-space character the bytes end with; 0 when they end with none. */
  function SpaceBefore(s: string): (n: nat)
    ensures n <= |s|
  {
    if |s| >= 1 && SpaceAt(s[|s| - 1..]) == 1 then 1
    else if |s| >= 2 && SpaceAt(s[|s| - 2..]) == 2 then 2
    else if |s| >= 3 && SpaceAt(s[|s| - 3..]) == 3 then 3
    else 0
  }

  function TrimEnd(s: string): string {
    if SpaceBefore(s) > 0 then TrimEnd(s[..|s| - SpaceBefore(s)]) else s
  }

  function TrimSpace(s: string): string { TrimEnd(TrimStart(s)) }

  lemma {:induction false} TrimStartPart(s: string) returns (i: nat)
    ensures i <= |s| && TrimStart(s) == s[i..]
    decreases |s|
  {
    i := 0;
    if SpaceAt(s) > 0 {
      var n := SpaceAt(s);
      var j := TrimStartPart(s[n..]);
      i := n + j;
      assert s[n..][j..] == s[i..];
    }
  }

  lemma TrimEndStep(s: string)
    ensures if SpaceBefore(s) > 0 then TrimEnd(s) == TrimEnd(s[..|s| - SpaceBefore(s)]) else TrimEnd(s) == s
  {
  }

  lemma SliceOfSlice(s: string, n: nat, i: nat)
    requires i <= n <= |s|
    ensures s[..n][..i] == s[..i] && s[..|s|] == s
  {
  }

  lemma {:induction false} TrimEndPart(s: string) returns (i: nat)
    ensures i <= |s| && TrimEnd(s) == s[..i]
    decreases |s|
  {
    TrimEndStep(s);
    i := |s|;
    if SpaceBefore(s) > 0 {
      var n := |s| - SpaceBefore(s);
      i := TrimEndPart(s[..n]);
      SliceOfSlice(s, n, i);
    } else {
      SliceOfSlice(s, i, i);
    }
  }

  lemma TrimmedByte(s: string, k: nat) returns (j: nat)
    requires k < |TrimSpace(s)|
    ensures j < |s| && s[j] == TrimSpace(s)[k]
  {
    var i := TrimStartPart(s);
    var e := TrimEndPart(s[i..]);
    j := i + k;
  }

  lemma SpaceInPrefix(s: string, m: nat)
    requires m <= |s| && SpaceAt(s[..m]) > 0
    ensures SpaceAt(s) > 0
  {
    assert forall i :: 0 <= i < m ==> s[..m][i] == s[i];
  }

  lemma SpaceBeforeIs(s: string, n: nat)
    requires n == SpaceBefore(s) && n > 0
    ensures SpaceAt(s[|s| - n..]) == n
  {
  }

  /** A text that opens with no white space is not all taken by one white-space character at its end. */
  lemma RestOpens(s: string, n: nat, rest: string)
    requires SpaceAt(s) == 0 && n == SpaceBefore(s) && n > 0 && rest == s[..|s| - n]
    ensures rest != "" && SpaceAt(rest) == 0
  {
    SpaceBeforeIs(s, n);
    assert s[0..] == s;
    var m := |s| - n;
    if SpaceAt(rest) > 0 {
      SpaceInPrefix(s, m);
    }
  }

  /** Trimming the end of a text that opens with no white space leaves something. */
  lemma {:induction false} TrimEndLeaves(s: string)
    requires s != "" && SpaceAt(s) == 0
    ensures TrimEnd(s) != ""
    decreases |s|
  {
    var n := SpaceBefore(s);
    if n > 0 {
      var rest := s[..|s| - n];
      RestOpens(s, n, rest);
      TrimEndLeaves(rest);
    }
  }

  lemma {:induction false} TrimStartOpens(s: string)
    ensures SpaceAt(TrimStart(s)) == 0 && (TrimStart(s) == "" <==> Blank(s))
    decreases |s|
  {
    if SpaceAt(s) > 0 {
      TrimStartOpens(s[SpaceAt(s)..]);
    }
  }

  /** Blank means that trimming leaves nothing. */
  lemma BlankIffTrimmed(s: string)
    ensures Blank(s) <==> TrimSpace(s) == ""
  {
    TrimStartOpens(s);
    if TrimStart(s) != "" {
      TrimEndLeaves(TrimStart(s));
    }
  }

  // ---- the links of a block ----------------------------------------------------------

  function TextEdges(src: Source, b: Block): seq<LinkEntry> {
    var cs := DistinctTargets(Scan(b.text), src.spaceId, src.objectId);
    seq(|cs|, i requires 0 <= i < |cs| => LinkEntry(src.objectId, src.collection, b.id, TextKind(cs[i]), cs[i]))
  }

  predicate IsEnvelope(t: string) {
    ENVELOPE_OPEN <= t && |ENVELOPE_CLOSE| <= |t| && t[|t| - |ENVELOPE_CLOSE|..] == ENVELOPE_CLOSE
  }

  /** The canonical source block of a synced-block reference. */
  function EmbedTarget(src: Source, text: string): Option<URI> {
    var t := TrimSpace(text);
    if !IsEnvelope(t) then None
    else match src.envelopeRef(t)
      case None => None
      case Some(ref) =>
        match Parse(ref)
        case Parsed(u) => Canonical(u, src.spaceId)
        case _ => None
  }

  function BlockLinks(src: Source, b: Block): seq<LinkEntry> {
    if b.kind == HTML && EmbedTarget(src, b.text).Some? then
      [LinkEntry(src.objectId, src.collection, b.id, EmbedLink, EmbedTarget(src, b.text).value)]
    else
      var out := TextEdges(src, b);
      if b.kind == PARAGRAPH && |out| == 1 && src.isCard(b.text) then [out[0].(kind := CardLink)] else out
  }

  function LinksOf(src: Source): Block -> seq<LinkEntry> { b => BlockLinks(src, b) }

  /**
   * The edges of a block that is no synced-block reference: those of its text, marked as a card when a
   * paragraph is one whole-line link.
   */
  lemma BlockEdges(src: Source, b: Block)
    requires b.kind != "html" || EmbedTarget(src, b.text) == None
    ensures var es := BlockLinks(src, b);
      && TargetSeq(es) == DistinctTargets(Scan(b.text), src.spaceId, src.objectId)
      && forall i :: 0 <= i < |es| ==>
        && es[i].objectId == src.objectId && es[i].dataset == src.collection && es[i].recordId == b.id
        && es[i].kind == if b.kind == "paragraph" && |es| == 1 && src.isCard(b.text) then CardLink
                         else if es[i].target.kind == Identity then MentionLink else PlainLink
  {
    var es, out := BlockLinks(src, b), TextEdges(src, b);
    assert TargetSeq(out) == DistinctTargets(Scan(b.text), src.spaceId, src.objectId);
    assert TargetSeq(es) == TargetSeq(out);
  }

  /** A synced-block reference is one edge, to the block it names; the rest of the text gives none. */
  lemma EmbedEdges(src: Source, b: Block, ref: string, u: URI)
    requires b.kind == "html" && src.envelopeRef(TrimSpace(b.text)) == Some(ref)
    requires "<!-- any:block " <= TrimSpace(b.text) && EndsWith(TrimSpace(b.text), "-->")
    requires Parse(ref) == Parsed(u) && Canonical(u, src.spaceId).Some?
    ensures BlockLinks(src, b) ==
      [LinkEntry(src.objectId, src.collection, b.id, EmbedLink, Canonical(u, src.spaceId).value)]
  {
    Envelope(TrimSpace(b.text));
  }

  /** Whatever else an html block holds, it is no such reference. */
  lemma NoEmbed(src: Source, b: Block)
    requires
      || !("<!-- any:block " <= TrimSpace(b.text)) || !EndsWith(TrimSpace(b.text), "-->")
      || src.envelopeRef(TrimSpace(b.text)) == None
      || !Parse(src.envelopeRef(TrimSpace(b.text)).value).Parsed?
      || Canonical(Parse(src.envelopeRef(TrimSpace(b.text)).value).uri, src.spaceId) == None
    ensures EmbedTarget(src, b.text) == None
  {
    Envelope(TrimSpace(b.text));
  }

  predicate EndsWith(s: string, end: string) { |end| <= |s| && s[|s| - |end|..] == end }

  lemma Envelope(t: string)
    ensures IsEnvelope(t) <==> "<!-- any:block " <= t && EndsWith(t, "-->")
  {
  }

  /** The byte a blank text cannot have. */
  predicate HasLetter(s: string) { exists k :: 0 <= k < |s| && s[k] == 'a' }

  lemma NoPrefixNoLinks(text: string)
    requires !HasLetter(text)
    ensures Scan(text) == []
  {
    assert PREFIX[0] == 'a';
    assert forall k :: 0 <= k < |text| && AtPrefix(text, k) ==> text[k] == PREFIX[0];
    NoHitsBetween(Accept, text, 0, |text|);
  }

  lemma EnvelopeHasLetter(text: string)
    requires IsEnvelope(TrimSpace(text))
    ensures HasLetter(text)
  {
    assert ENVELOPE_OPEN[5] == 'a' && TrimSpace(text)[5] == ENVELOPE_OPEN[5];
    var j := TrimmedByte(text, 5);
  }

  /** A block with links has text that is not blank. */
  lemma LinksNeedLetter(src: Source, b: Block)
    requires !HasLetter(b.text)
    ensures BlockLinks(src, b) == []
  {
    NoPrefixNoLinks(b.text);
    assert DistinctTargets([], src.spaceId, src.objectId) == [];
    assert TextEdges(src, b) == [];
    if IsEnvelope(TrimSpace(b.text)) {
      EnvelopeHasLetter(b.text);
    }
  }

  lemma {:induction false} TextKeepsLetter(run: seq<Block>, b: Block)
    requires b in run && HasLetter(b.text)
    ensures HasLetter(TextOf(run))
    decreases |run|
  {
    var n := |run| - 1;
    var before, last := TextOf(run[..n]), run[n].text;
    if b in run[..n] {
      TextKeepsLetter(run[..n], b);
      var k :| 0 <= k < |before| && before[k] == 'a';
      assert Glue(before, last)[k] == 'a';
    } else {
      var k :| 0 <= k < |last| && last[k] == 'a';
      assert Glue(before, last)[|Glue(before, last)| - |last| + k] == last[k];
    }
  }

  /** A run left out of the index had no links. */
  lemma BlankRunHasNoLinks(src: Source, run: seq<Block>)
    requires Blank(TextOf(run))
    ensures FlatMap(LinksOf(src), run) == []
  {
    forall b | b in run
      ensures LinksOf(src)(b) == []
    {
      if HasLetter(b.text) {
        TextKeepsLetter(run, b);
        var k :| 0 <= k < |TextOf(run)| && TextOf(run)[k] == 'a';
        BlankHasNoLetter(TextOf(run), k);
      }
      LinksNeedLetter(src, b);
    }
    FlatMapEmpty(LinksOf(src), run);
  }

  lemma {:induction false} FlatMapEmpty<S, T>(f: S -> seq<T>, xs: seq<S>)
    requires forall x :: x in xs ==> f(x) == []
    ensures FlatMap(f, xs) == []
  {
    if xs != [] {
      FlatMapEmpty(f, xs[1..]);
    }
  }

  lemma {:induction false} RunsKeepLinks(src: Source, rs: seq<seq<Block>>)
    ensures FlatMap(LinksOf(src), Flatten(rs)) == FlatMap(RunLinks(src), rs)
  {
    if rs != [] {
      RunsKeepLinks(src, rs[1..]);
      FlatMapAppend(LinksOf(src), rs[0], Flatten(rs[1..]));
    }
  }

  function RunLinks(src: Source): seq<Block> -> seq<LinkEntry> { run => FlatMap(LinksOf(src), run) }

  // ---- entries ---------------------------------------------------------------------

  datatype IndexEntry = IndexEntry(
    objectId: string, dataset: string, recordId: string, data: string, title: string, links: seq<LinkEntry>)

  const WINDOW_PREFIX := "win_"

  function EntryLinks(e: IndexEntry): seq<LinkEntry> { e.links }

  function EntryOf(src: Source, run: seq<Block>): seq<IndexEntry> {
    if run == [] || Blank(TextOf(run)) then []
    else
      [EntryFor(src.objectId, src.collection, Render(run), FlatMap(LinksOf(src), run))]
  }

  function EntriesOf(src: Source): seq<Block> -> seq<IndexEntry> { run => EntryOf(src, run) }

  function Entries(src: Source, blocks: seq<Block>): seq<IndexEntry> { FlatMap(EntriesOf(src), Runs(blocks)) }

  lemma {:induction false} EntriesKeepLinks(src: Source, rs: seq<seq<Block>>)
    requires forall i :: 0 <= i < |rs| ==> rs[i] != []
    ensures FlatMap(EntryLinks, FlatMap(EntriesOf(src), rs)) == FlatMap(RunLinks(src), rs)
  {
    if rs != [] {
      EntriesKeepLinks(src, rs[1..]);
      FlatMapAppend(EntryLinks, EntryOf(src, rs[0]), FlatMap(EntriesOf(src), rs[1..]));
      if Blank(TextOf(rs[0])) {
        BlankRunHasNoLinks(src, rs[0]);
      } else {
        FlatMapOne(EntryLinks, EntryOf(src, rs[0])[0]);
      }
    }
  }

  /** Read together, the entries carry every block's links exactly once, in document order. */
  lemma LinksConserved(src: Source, blocks: seq<Block>)
    ensures FlatMap(EntryLinks, Entries(src, blocks)) == FlatMap(LinksOf(src), blocks)
  {
    RunsAreTheDivision(blocks, Runs(blocks));
    assert forall i :: 0 <= i < |Runs(blocks)| ==> Runs(blocks)[i] in Runs(blocks) && Unbroken(Runs(blocks)[i]);
    EntriesKeepLinks(src, Runs(blocks));
    RunsKeepLinks(src, Runs(blocks));
  }

  /** The links of each block by id, blocks without text or links left out. */
  method CollectLinks(f: Block -> seq<LinkEntry>, blocks: seq<Block>) returns (links: map<string, seq<LinkEntry>>)
    requires Keyed(blocks) && forall b :: b in blocks && b.text == "" ==> f(b) == []
    ensures forall b :: b in blocks ==> LinksAt(links, b.id) == f(b)
  {
    links := map[];
    for i := 0 to |blocks|
      invariant forall id :: id in links ==> exists j :: 0 <= j < i && blocks[j].id == id
      invariant forall j :: 0 <= j < i ==> LinksAt(links, blocks[j].id) == f(blocks[j])
    {
      var b := blocks[i];
      assert b in blocks;
      if b.text == "" {
        continue;
      }
      var ls := f(b);
      if |ls| > 0 {
        links := links[b.id := ls];
      }
    }
  }

  /** Reading an id without links gives none. */
  function LinksAt(links: map<string, seq<LinkEntry>>, id: string): seq<LinkEntry> {
    if id in links then links[id] else []
  }

  /** The concatenated links of a window's members. */
  method MemberLinks(links: map<string, seq<LinkEntry>>, ids: seq<string>, ghost f: Block -> seq<LinkEntry>,
      ghost run: seq<Block>)
      returns (out: seq<LinkEntry>)
    requires ids == Ids(run) && forall b :: b in run ==> LinksAt(links, b.id) == f(b)
    ensures out == FlatMap(f, run)
  {
    out := [];
    assert run[0..] == run;
    for i := 0 to |ids|
      invariant out + FlatMap(f, run[i..]) == FlatMap(f, run)
    {
      assert run[i..][0] == run[i] && run[i..][1..] == run[i + 1..] && run[i] in run;
      Regroup(out, LinksAt(links, ids[i]), FlatMap(f, run[i + 1..]));
      out := out + LinksAt(links, ids[i]);
    }
  }

  /** The runs whose windows are kept. */
  function Kept(rs: seq<seq<Block>>): seq<seq<Block>> {
    if rs == [] then []
    else (if rs[0] == [] || Blank(TextOf(rs[0])) then [] else [rs[0]]) + Kept(rs[1..])
  }

  /** Non-empty runs of blocks from bs. */
  ghost predicate KeptIn(rs: seq<seq<Block>>, bs: seq<Block>) {
    && (forall i :: 0 <= i < |rs| ==> rs[i] != [])
    && (forall i, b: Block :: 0 <= i < |rs| && b in rs[i] ==> b in bs)
  }

  lemma {:induction false} KeptMembers(rs: seq<seq<Block>>)
    ensures KeptIn(Kept(rs), Flatten(rs))
  {
    if rs != [] {
      var first, kept: seq<seq<Block>> := rs[0], Kept(rs[1..]);
      KeptMembers(rs[1..]);
      assert Kept(rs) == kept || Kept(rs) == [first] + kept;
    }
  }

  lemma {:induction false} KeptWindows(src: Source, rs: seq<seq<Block>>)
    ensures |WindowsOf(rs)| == |Kept(rs)| == |FlatMap(EntriesOf(src), rs)|
    ensures forall i :: 0 <= i < |Kept(rs)| ==>
      Kept(rs)[i] != [] && !Blank(TextOf(Kept(rs)[i])) && WindowsOf(rs)[i] == Render(Kept(rs)[i]) &&
        [FlatMap(EntriesOf(src), rs)[i]] == EntryOf(src, Kept(rs)[i])
  {
    if rs != [] {
      KeptWindows(src, rs[1..]);
    }
  }

  lemma NoTextNoLinks(src: Source, b: Block)
    requires b.text == ""
    ensures LinksOf(src)(b) == []
  {
    LinksNeedLetter(src, b);
  }

  /** The entries of a document, links and all. */
  method RenderEntries(src: Source, blocks: seq<Block>) returns (entries: seq<IndexEntry>)
    requires Keyed(blocks)
    ensures entries == Entries(src, blocks)
    ensures FlatMap(EntryLinks, entries) == FlatMap(LinksOf(src), blocks)
  {
    forall b: Block | b.text == ""
      ensures LinksOf(src)(b) == []
    {
      NoTextNoLinks(src, b);
    }
    var links := CollectLinks(LinksOf(src), blocks);
    var wins := GroupWindows(blocks);
    RunsAreTheDivision(blocks, Runs(blocks));
    KeptEntries(src, Runs(blocks));
    KeptMembers(Runs(blocks));
    entries := EntriesFor(src.objectId, src.collection, links, wins, LinksOf(src), Kept(Runs(blocks)),
      Entries(src, blocks));
    LinksConserved(src, blocks);
  }

  /** One entry per window. */
  method EntriesFor(objectId: string, collection: string, links: map<string, seq<LinkEntry>>, wins: seq<Window>,
                    ghost f: Block -> seq<LinkEntry>, ghost kept: seq<seq<Block>>, ghost all: seq<IndexEntry>)
      returns (entries: seq<IndexEntry>)
    requires |wins| == |kept| == |all|
    requires forall i :: 0 <= i < |wins| ==>
      wins[i].blockIds == Ids(kept[i]) && all[i] == EntryFor(objectId, collection, wins[i], FlatMap(f, kept[i]))
    requires forall i, b: Block :: 0 <= i < |kept| && b in kept[i] ==> LinksAt(links, b.id) == f(b)
    ensures entries == all
  {
    entries := [];
    for i := 0 to |wins|
      invariant entries == all[..i]
    {
      assert kept[i] in kept;
      var ls := MemberLinks(links, wins[i].blockIds, f, kept[i]);
      entries := entries + [EntryFor(objectId, collection, wins[i], ls)];
    }
  }

  function EntryFor(objectId: string, collection: string, w: Window, links: seq<LinkEntry>): IndexEntry {
    IndexEntry(objectId, collection, WINDOW_PREFIX + w.anchorId, w.text, w.title, links)
  }

  /** The entry of a run, field by field: none for a run without text, else under the window's anchor. */
  lemma EntryTable(src: Source, run: seq<Block>)
    requires run != []
    ensures EntryOf(src, run) ==
      if Blank(Join(Texts(run), "\n")) then []
      else [IndexEntry(src.objectId, src.collection, "win_" + run[0].id, Join(Texts(run), "\n"),
              if run[0].kind == "heading" then run[0].text else "", FlatMap(LinksOf(src), run))]
  {
    TextIsJoin(run);
  }

  lemma KeptEntries(src: Source, rs: seq<seq<Block>>)
    ensures |WindowsOf(rs)| == |Kept(rs)| == |FlatMap(EntriesOf(src), rs)|
    ensures forall i :: 0 <= i < |Kept(rs)| ==>
      && WindowsOf(rs)[i].blockIds == Ids(Kept(rs)[i])
      && FlatMap(EntriesOf(src), rs)[i] ==
        EntryFor(src.objectId, src.collection, WindowsOf(rs)[i], FlatMap(LinksOf(src), Kept(rs)[i]))
  {
    KeptWindows(src, rs);
  }

  // ---- record ids --------------------------------------------------------------------

  lemma DistinctIdsParts(xs: seq<Block>, ys: seq<Block>)
    requires DistinctIds(xs + ys)
    ensures DistinctIds(ys) && forall x, y :: x in xs && y in ys ==> x.id != y.id
  {
    var all := xs + ys;
    assert forall i :: 0 <= i < |xs| ==> all[i] == xs[i];
    assert forall i :: |xs| <= i < |all| ==> all[i] == ys[i - |xs|];
    forall i, j | 0 <= i < j < |ys|
      ensures ys[i].id != ys[j].id
    {
      assert all[|xs| + i] == ys[i] && all[|xs| + j] == ys[j];
    }
    forall x, y | x in xs && y in ys
      ensures x.id != y.id
    {
      var i :| 0 <= i < |xs| && xs[i] == x;
      var j :| 0 <= j < |ys| && ys[j] == y;
      assert all[i] == x && all[|xs| + j] == y;
    }
  }

  ghost predicate DistinctAnchors(rs: seq<seq<Block>>) {
    forall i, j :: 0 <= i < j < |rs| ==> rs[i] != [] && rs[j] != [] && rs[i][0].id != rs[j][0].id
  }

  lemma {:induction false} KeptAnchors(rs: seq<seq<Block>>)
    requires DistinctIds(Flatten(rs))
    ensures DistinctAnchors(Kept(rs))
  {
    if rs != [] {
      var first, rest, kept: seq<seq<Block>> := rs[0], Flatten(rs[1..]), Kept(rs[1..]);
      DistinctIdsParts(first, rest);
      KeptAnchors(rs[1..]);
      if first == [] || Blank(TextOf(first)) {
        assert [] + kept == kept;
      } else {
        KeptMembers(rs[1..]);
        AnchorApart(first, rest, kept);
      }
    }
  }

  lemma AnchorApart(first: seq<Block>, rest: seq<Block>, kept: seq<seq<Block>>)
    requires first != [] && DistinctAnchors(kept) && (forall x, y :: x in first && y in rest ==> x.id != y.id)
    requires KeptIn(kept, rest)
    ensures DistinctAnchors([first] + kept)
  {
    var all := [first] + kept;
    forall i | 0 <= i < |kept|
      ensures first[0].id != kept[i][0].id
    {
      assert kept[i] != [] && kept[i][0] in kept[i] && kept[i][0] in rest && first[0] in first;
    }
    assert forall i :: 0 < i < |all| ==> all[i] == kept[i - 1];
  }

  /** No two entries of a document share a record id. */
  lemma RecordIdsDistinct(src: Source, blocks: seq<Block>)
    requires Keyed(blocks)
    ensures var es := Entries(src, blocks);
      forall i, j :: 0 <= i < j < |es| ==> es[i].recordId != es[j].recordId
  {
    var rs := Runs(blocks);
    RunsAreTheDivision(blocks, rs);
    KeptAnchors(rs);
    KeptWindows(src, rs);
    var es := Entries(src, blocks);
    forall i, j | 0 <= i < j < |es|
      ensures es[i].recordId != es[j].recordId
    {
      var a, b := Kept(rs)[i][0].id, Kept(rs)[j][0].id;
      assert [es[i]] == EntryOf(src, Kept(rs)[i]) && [es[j]] == EntryOf(src, Kept(rs)[j]);
      assert (WINDOW_PREFIX + a)[|WINDOW_PREFIX|..] == a && (WINDOW_PREFIX + b)[|WINDOW_PREFIX|..] == b;
    }
  }
}
