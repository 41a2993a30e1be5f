/** Laws of the link scanner: compositional over delimiters, complete on printed URIs, canonical targets. */
module LinkScannerLaws {
  import opened Strings
  import opened Dedup
  import opened AnyUri
  import opened TokenScan
  import opened LinkScanner

  /** Text on the two sides of a delimiter is scanned independently. */
  lemma ScanComposes(a: string, d: char, b: string)
    requires Delimiter(d)
    ensures Scan(a + [d] + b) == First(String, Scan(a) + Scan(b))
  {
    HitsCompose(Accept, a, d, b);
    FirstOfParts(String, Hits(Accept, a, 0), Hits(Accept, b, 0));
  }

  // ---- what the scanner yields -------------------------------------------------

  /** Well-formed, except that a bare legacy id may be as short as a kind slug. */
  predicate Printable(u: URI) {
    Shaped(u) && (PairLegacy(u) ==> !IsKindSlug(u.spaceId))
  }

  predicate SlugLike(u: URI) { BareLegacy(u) && IsKindSlug(u.objectId) }

  /** Printed forms tell printable URIs apart. */
  lemma PrintableInjective(u: URI, v: URI)
    requires Printable(u) && Printable(v) && String(u) == String(v)
    ensures u == v
  {
    PrintedParts(u);
    PrintedParts(v);
    if |Path(u)| > 1 {
      assert !BareLegacy(u) && !BareLegacy(v);
      RoundTrip(u);
      RoundTrip(v);
    }
  }

  /** A printable URI reads back as itself unless it is a bare id that looks like a kind slug. */
  lemma ReparsesIff(u: URI)
    requires Printable(u)
    ensures Parse(String(u)) == Parsed(u) <==> !SlugLike(u)
  {
    if SlugLike(u) {
      ParsePrinted(u);
    } else {
      RoundTrip(u);
    }
  }

  lemma LastIdEndsPath(u: URI)
    requires Shaped(u) && HasLastId(u)
    ensures Path(u)[|Path(u)| - 1] == LastId(u) && Segment(LastId(u))
  {
    assert Segment(Path(u)[|Path(u)| - 1]);
  }

  lemma WithLastIdEnds(u: URI, id: string)
    requires Shaped(u) && HasLastId(u) && id != ""
    ensures Path(WithLastId(u, id)) == Path(u)[..|Path(u)| - 1] + [id]
  {
    LastIdEndsPath(u);
  }

  lemma WithLastIdPath(u: URI, id: string)
    requires Shaped(u) && HasLastId(u) && Segment(id)
    ensures Path(WithLastId(u, id)) == Path(u)[..|Path(u)| - 1] + [id]
    ensures Shaped(WithLastId(u, id)) && LastId(WithLastId(u, id)) == id && HasLastId(WithLastId(u, id))
    ensures WithLastId(WithLastId(u, id), LastId(u)) == u
  {
    LastIdEndsPath(u);
    WithLastIdEnds(u, id);
  }

  lemma BeforeSegment(s: string, c: char)
    requires Segment(s) && Before(s, c) != ""
    ensures Segment(Before(s, c)) && Lacks(Before(s, c), c)
  {
  }

  /** Shedding keeps a URI printable and leaves its last id without a dot. */
  lemma ShedPrintable(u: URI, v: URI)
    requires WellFormed(u) && v in ShedGluedPeriod(u)
    ensures Printable(v) && (HasLastId(v) ==> Lacks(LastId(v), '.'))
  {
    if HasLastId(u) {
      var id := Before(LastId(u), '.');
      LastIdEndsPath(u);
      BeforeSegment(LastId(u), '.');
      WithLastIdPath(u, id);
    }
  }

  lemma ScanPrintable(text: string, u: URI)
    requires u in Scan(text)
    ensures Printable(u) && (HasLastId(u) ==> Lacks(LastId(u), '.'))
  {
    FreshKeys(String, {}, Hits(Accept, text, 0));
    var token := HitHasToken(Accept, text, u);
    ParseYieldsWellFormed(token);
    ShedPrintable(Parse(token).uri, u);
  }

  /** A link found on either side of a delimiter is found in the whole. */
  lemma ScanKeeps(a: string, d: char, b: string, u: URI)
    requires Delimiter(d) && (u in Scan(a) || u in Scan(b))
    ensures u in Scan(a + [d] + b)
  {
    var both := Scan(a) + Scan(b);
    ScanComposes(a, d, b);
    var v := FirstKeeps(String, both, u);
    ScanPrintable(if v in Scan(a) then a else b, v);
    ScanPrintable(if u in Scan(a) then a else b, u);
    PrintableInjective(u, v);
  }

  // ---- completeness ------------------------------------------------------------

  /** The scan of a text that is one token. */
  lemma ScanOneToken(s: string)
    requires PREFIX <= s && AllTail(s[|PREFIX|..])
    ensures Scan(s) == Accept(TrimRight(s))
  {
    OneToken(Accept, s);
    FreshStep(String, {}, Accept(TrimRight(s)), []);
    assert Accept(TrimRight(s)) + [] == Accept(TrimRight(s));
  }

  /** A last id without a dot is left alone. */
  lemma ShedKeeps(u: URI)
    requires Shaped(u) && (HasLastId(u) ==> Lacks(LastId(u), '.'))
    ensures ShedGluedPeriod(u) == [u]
  {
    if HasLastId(u) {
      LastIdEndsPath(u);
      CutNone(LastId(u), '.');
      WithLastIdPath(u, LastId(u));
    }
  }

  /** A printed URI can stand in text on its own: tail bytes, dotless last id, no trailing punctuation. */
  predicate Standalone(u: URI) {
    && WellFormed(u)
    && AllTail(String(u)[|PREFIX|..])
    && !IsPunctuation(String(u)[|String(u)| - 1])
    && (HasLastId(u) ==> Lacks(LastId(u), '.'))
  }

  lemma TrimKeeps(s: string)
    requires s != "" && !IsPunctuation(s[|s| - 1])
    ensures TrimRight(s) == s
  {
  }

  lemma AcceptsPrinted(u: URI)
    requires WellFormed(u) && (HasLastId(u) ==> Lacks(LastId(u), '.'))
    ensures Accept(String(u)) == [u]
  {
    RoundTrip(u);
    ShedKeeps(u);
  }

  lemma StandaloneScans(u: URI)
    requires Standalone(u)
    ensures Scan(String(u)) == [u]
  {
    TrimKeeps(String(u));
    AcceptsPrinted(u);
    ScanOneToken(String(u));
  }

  /** Any standalone URI printed between delimiters is found. */
  lemma FoundBetween(a: string, d: char, u: URI, d': char, b: string)
    requires Standalone(u) && Delimiter(d) && Delimiter(d')
    ensures u in Scan(String(u)) && u in Scan(a + [d] + String(u)) && u in Scan(String(u) + [d'] + b)
    ensures u in Scan(a + [d] + (String(u) + [d'] + b))
  {
    StandaloneScans(u);
    ScanKeeps(a, d, String(u), u);
    ScanKeeps(String(u), d', b, u);
    ScanKeeps(a, d, String(u) + [d'] + b, u);
  }

  // ---- glued sentence periods ------------------------------------------------------

  /** Trimming stops at the last byte that is no punctuation. */
  lemma {:induction false} TrimStops(p: string, g: string)
    requires p != "" && !IsPunctuation(p[|p| - 1])
    ensures TrimRight(p + g) == p + TrimRight(g)
    decreases |g|
  {
    if g == "" {
      assert p + g == p;
    } else {
      var h := g[..|g| - 1];
      assert (p + g)[..|p + g| - 1] == p + h;
      if IsPunctuation(g[|g| - 1]) {
        TrimStops(p, h);
      }
    }
  }

  /** What trimming leaves is a beginning, and it leaves nothing of punctuation alone. */
  lemma {:induction false} TrimLeaves(g: string)
    ensures TrimRight(g) <= g && (TrimRight(g) == "" <==> AllPunctuation(g))
    decreases |g|
  {
    if g != "" && IsPunctuation(g[|g| - 1]) {
      var h := g[..|g| - 1];
      TrimLeaves(h);
      assert forall i :: 0 <= i < |h| ==> h[i] == g[i];
    }
  }

  predicate AllPunctuation(s: string) { forall i :: 0 <= i < |s| ==> IsPunctuation(s[i]) }

  lemma {:induction false} JoinLast(init: seq<string>, x: string, g: string)
    ensures Join(init + [x + g], "/") == Join(init + [x], "/") + g
  {
    if init != [] {
      JoinLast(init[1..], x, g);
      assert (init + [x + g])[1..] == init[1..] + [x + g];
      assert (init + [x])[1..] == init[1..] + [x];
    }
  }

  /** Without a variant or a fragment a URI prints as its path alone. */
  lemma PlainString(u: URI)
    requires u.fragment == "" && u.variant == ""
    ensures String(u) == PREFIX + Join(Path(u), "/")
  {
  }

  /** What precedes the query and the fragment of a token. */
  function TokenPath(token: string): string
    requires PREFIX <= token
  {
    Before(Before(token[|PREFIX|..], '#'), '?')
  }

  function TokenQuery(token: string): string
    requires PREFIX <= token
  {
    After(Before(token[|PREFIX|..], '#'), '?')
  }

  function TokenFragment(token: string): string
    requires PREFIX <= token
  {
    After(token[|PREFIX|..], '#')
  }

  /** What a period and a word add to the token they are glued to: trailing punctuation does not count. */
  function Glued(word: string): string { TrimRight("." + word) }

  function GluedFragment(g: string): string { After(g, '#') }

  function GluedQuery(g: string): string { After(Before(g, '#'), '?') }

  /** The part that lengthens the path. */
  function GluedPath(g: string): string { Before(Before(g, '#'), '?') }

  lemma GluedStarts(word: string)
    ensures Glued(word) == "" <==> AllPunctuation(word)
    ensures Glued(word) != "" ==> Glued(word)[0] == '.'
    ensures Glued(word) != "" ==> GluedPath(Glued(word)) != "" && GluedPath(Glued(word))[0] == '.'
    ensures Glued(word) == "" ==> GluedPath("") == "" && GluedQuery("") == "" && GluedFragment("") == ""
  {
    var g := "." + word;
    TrimLeaves(g);
    assert AllPunctuation(g) <==> AllPunctuation(word) by {
      assert forall i :: 0 < i < |g| ==> g[i] == word[i - 1];
      assert forall i :: 0 <= i < |word| ==> word[i] == g[i + 1];
    }
    if Glued(word) != "" {
      OpensPath(Glued(word));
    }
  }

  lemma OpensPath(g: string)
    requires g != "" && g[0] == '.'
    ensures GluedPath(g) != "" && GluedPath(g)[0] == '.'
  {
    var k := Before(g, '#');
    assert k != "" && k[0] == '.';
  }

  /** Cutting past a part that has no such byte. */
  lemma CutLater(a: string, s: string, c: char)
    requires Lacks(a, c)
    ensures Before(a + s, c) == a + Before(s, c) && After(a + s, c) == After(s, c)
  {
    var i := IndexByte(s, c);
    if i < |s| {
      assert a + s == (a + s[..i]) + [c] + s[i + 1..];
      CutAt(a + s[..i], c, s[i + 1..]);
    } else {
      assert s[..i] == s;
      CutNone(a + s, c);
    }
  }

  /** The glued token cut back into path, query and fragment. */
  lemma GluedParts(u: URI, g: string)
    requires Shaped(u) && u.fragment == "" && u.variant == ""
    ensures PREFIX <= String(u) + g && Join(Path(u), "/") != ""
    ensures TokenPath(String(u) + g) == Join(Path(u), "/") + GluedPath(g)
    ensures TokenQuery(String(u) + g) == GluedQuery(g) && TokenFragment(String(u) + g) == GluedFragment(g)
  {
    var path := Join(Path(u), "/");
    PlainString(u);
    assert (String(u) + g)[|PREFIX|..] == path + g;
    JoinLacks(Path(u), '#');
    JoinLacks(Path(u), '?');
    JoinNonEmpty(Path(u));
    CutLater(path, g, '#');
    CutLater(path, Before(g, '#'), '?');
  }

  /** The segments when the glued part has no slash: the last one is longer. */
  lemma GluedSegments(u: URI, g: string)
    requires Shaped(u) && Lacks(g, '/')
    ensures Path(u) != []
    ensures var n := |Path(u)| - 1; Split(Join(Path(u), "/") + g, '/') == Path(u)[..n] + [Path(u)[n] + g]
  {
    var n := |Path(u)| - 1;
    assert forall i :: 0 <= i < |Path(u)| ==> Segment(Path(u)[i]);
    LastGrows(Path(u)[..n], Path(u)[n], g);
    assert Path(u) == Path(u)[..n] + [Path(u)[n]];
  }

  lemma LastGrows(init: seq<string>, x: string, g: string)
    requires AllSegments(init) && Lacks(x, '/') && Lacks(g, '/')
    ensures Split(Join(init + [x], "/") + g, '/') == init + [x + g]
  {
    JoinLast(init, x, g);
    assert forall i :: 0 <= i < |init| ==> Segment(init[i]);
    SplitJoin(init + [x + g], '/');
    assert "/" == ['/'];
  }

  lemma AfterGrows(s: string, g: string, c: char)
    requires IndexByte(s, c) < |s|
    ensures After(s + g, c) == After(s, c) + g && IndexByte(s + g, c) < |s + g|
  {
    var i := IndexByte(s, c);
    assert s + g == s[..i] + [c] + (s[i + 1..] + g);
    CutAt(s[..i], c, s[i + 1..] + g);
  }

  lemma SplitCount(s: string, c: char)
    ensures |Split(s, c)| == 1 + if IndexByte(s, c) < |s| then |Split(After(s, c), c)| else 0
  {
    SplitFirst(s, c);
  }

  lemma FoundByte(s: string, c: char)
    requires !Lacks(s, c)
    ensures IndexByte(s, c) < |s|
  {
    assert s[..|s|] == s;
  }

  /** A slash in the glued part makes more segments. */
  lemma {:induction false} SplitGrows(s: string, g: string)
    requires !Lacks(g, '/')
    ensures |Split(s + g, '/')| > |Split(s, '/')|
    decreases |s|
  {
    SplitCount(s, '/');
    SplitCount(s + g, '/');
    if IndexByte(s, '/') < |s| {
      AfterGrows(s, g, '/');
      SplitGrows(After(s, '/'), g);
    } else {
      HasLater(s, g, '/');
      FoundByte(s + g, '/');
    }
  }

  lemma HasLater(s: string, g: string, c: char)
    requires !Lacks(g, c)
    ensures !Lacks(s + g, c)
  {
    var k :| 0 <= k < |g| && g[k] == c;
    assert (s + g)[|s| + k] == c;
  }

  /** The longer segment is part of what a glued token is read as. */
  function GluedAnswer(u: URI, g: string): URI {
    var v := u.(fragment := GluedFragment(g));
    if u.kind.Space? then v.(spaceId := u.spaceId + GluedPath(g))
    else if u.kind.File? then v.(variant := ParamValue(GluedQuery(g), "variant"))
    else v
  }

  /** The same before the glued period is shed. */
  function Longer(u: URI, g: string): URI {
    if HasLastId(u) then WithLastId(GluedAnswer(u, g), LastId(u) + GluedPath(g)) else GluedAnswer(u, g)
  }

  /** The segments a glued token is cut into. */
  function GluedSegs(u: URI, g: string): seq<string>
    requires Path(u) != []
  {
    Path(u)[..|Path(u)| - 1] + [Path(u)[|Path(u)| - 1] + GluedPath(g)]
  }

  lemma GluedIsInterpreted(u: URI, g: string)
    requires Shaped(u) && u.fragment == "" && u.variant == "" && Lacks(GluedPath(g), '/')
    ensures Path(u) != [] && Parse(String(u) + g) == Interpret(GluedSegs(u, g), GluedQuery(g), GluedFragment(g))
  {
    GluedParts(u, g);
    GluedSegments(u, GluedPath(g));
    NoEmptySegment(u, GluedPath(g));
    ParsedParts(String(u) + g);
  }

  lemma NoEmptySegment(u: URI, h: string)
    requires Shaped(u) && Path(u) != []
    ensures "" !in Path(u)[..|Path(u)| - 1] + [Path(u)[|Path(u)| - 1] + h]
  {
    assert forall i :: 0 <= i < |Path(u)| ==> Path(u)[i] != "";
  }

  /** A parse reads the parts a token is cut into. */
  lemma ParsedParts(token: string)
    requires PREFIX <= token && TokenPath(token) != "" && "" !in Split(TokenPath(token), '/')
    ensures Parse(token) == Interpret(Split(TokenPath(token), '/'), TokenQuery(token), TokenFragment(token))
  {
  }

  /** A printable URI with something glued to it reads as the longer one, slug-like ids included. */
  lemma GluedParses(u: URI, g: string)
    requires Printable(u) && !u.kind.NoKind? && u.fragment == "" && u.variant == "" && Lacks(GluedPath(g), '/')
    requires (g == "" && !SlugLike(u)) || (g != "" && g[0] == '.')
    ensures Parse(String(u) + g) == Parsed(Longer(u, g))
  {
    if g != "" {
      OpensPath(g);
    }
    GluedIsInterpreted(u, g);
    GluedReads(u, g, GluedSegs(u, g));
  }

  lemma GluedReads(u: URI, g: string, segs: seq<string>)
    requires Printable(u) && !u.kind.NoKind? && u.fragment == "" && u.variant == ""
    requires |Path(u)| > 0 && segs == Path(u)[..|Path(u)| - 1] + [Path(u)[|Path(u)| - 1] + GluedPath(g)]
    requires (GluedPath(g) == "" && !SlugLike(u)) || (GluedPath(g) != "" && GluedPath(g)[0] == '.')
    ensures Interpret(segs, GluedQuery(g), GluedFragment(g)) == Parsed(Longer(u, g))
  {
    var h := GluedPath(g);
    if BareLegacy(u) {
      assert segs == [u.objectId + h];
      if h != "" {
        assert segs[0][|u.objectId|] == '.';
      } else {
        assert segs[0] == u.objectId;
      }
    } else if PairLegacy(u) {
      assert segs == [u.spaceId, u.objectId + h];
    } else {
      SlugNames(u.kind);
      assert segs[0] == Slug(u.kind) && segs[1..] == Args(u)[..|Args(u)| - 1] + [Args(u)[|Args(u)| - 1] + h];
      TypedLonger(u, g, segs[1..]);
    }
  }

  lemma TypedLonger(u: URI, g: string, args: seq<string>)
    requires Shaped(u) && !u.kind.NoKind? && !(u.legacy && u.kind.Object?) && u.fragment == "" && u.variant == ""
    requires args == Args(u)[..|Args(u)| - 1] + [Args(u)[|Args(u)| - 1] + GluedPath(g)]
    ensures Typed(u.kind, args, ParamValue(GluedQuery(g), "variant"), GluedFragment(g)) == Parsed(Longer(u, g))
  {
    LastSegment(u);
  }

  lemma LastSegment(u: URI)
    requires Shaped(u) && !u.kind.NoKind? && !(u.legacy && u.kind.Object?)
    ensures u.kind.Object? && u.dataset != "" ==> u.recordId != ""
  {
    assert forall i :: 0 <= i < |Path(u)| ==> Segment(Path(u)[i]);
    if u.kind.Object? && u.dataset != "" {
      assert Path(u)[4] == u.recordId;
    }
  }

  /** Shedding the glued period leaves the last id as it was; a space id keeps what was glued to it. */
  lemma ShedGlued(u: URI, g: string)
    requires Shaped(u) && !u.kind.NoKind? && (HasLastId(u) ==> Lacks(LastId(u), '.'))
    requires GluedPath(g) == "" || GluedPath(g)[0] == '.'
    ensures ShedGluedPeriod(Longer(u, g)) == [GluedAnswer(u, g)]
  {
    if HasLastId(u) {
      LastIdEndsPath(u);
      BeforeGlue(LastId(u), GluedPath(g));
    }
  }

  lemma BeforeGlue(id: string, g: string)
    requires Lacks(id, '.') && (g == "" || g[0] == '.')
    ensures Before(id + g, '.') == id
  {
    if g == "" {
      assert id + g == id;
      CutNone(id, '.');
    } else {
      assert id + g == id + ['.'] + g[1..];
      CutAt(id, '.', g[1..]);
    }
  }

  /** A printed URI that a period and a word can be glued to: nothing printed after its path, and a dotless last id. */
  predicate Plain(u: URI) {
    && Printable(u) && !u.kind.NoKind? && u.fragment == "" && u.variant == ""
    && AllTail(String(u)[|PREFIX|..]) && !IsPunctuation(String(u)[|String(u)| - 1])
    && (HasLastId(u) ==> Lacks(LastId(u), '.'))
  }

  lemma ScanGlued(p: string, word: string)
    requires PREFIX <= p && AllTail(p[|PREFIX|..]) && !IsPunctuation(p[|p| - 1]) && AllTail(word)
    ensures Scan(p + "." + word) == Accept(p + Glued(word))
  {
    var s := p + "." + word;
    assert s == p + ("." + word) && s[|PREFIX|..] == p[|PREFIX|..] + "." + word;
    TrimStops(p, "." + word);
    ScanOneToken(s);
  }

  /** What the scanner makes of a plain URI with a period and a word glued to it, when the word has no slash in it. */
  lemma GluedScans(u: URI, word: string)
    requires Plain(u) && AllTail(word) && Lacks(GluedPath(Glued(word)), '/')
    requires AllPunctuation(word) ==> !SlugLike(u)
    ensures Scan(String(u) + "." + word) == [GluedAnswer(u, Glued(word))]
  {
    PrintedParts(u);
    GluedStarts(word);
    ScanGlued(String(u), word);
    GluedParses(u, Glued(word));
    ShedGlued(u, Glued(word));
  }

  /** As many segments as were read. */
  lemma InterpretedPath(segs: seq<string>, raw: string, fragment: string)
    requires segs != [] && "" !in segs && Interpret(segs, raw, fragment).Parsed?
    ensures |Path(Interpret(segs, raw, fragment).uri)| == |segs|
  {
    assert forall i :: 0 <= i < |segs| ==> segs[i] in segs;
    var args := segs[1..];
    assert |args| == |segs| - 1 && forall i :: 0 <= i < |args| ==> args[i] == segs[i + 1];
  }

  lemma ShedPath(u: URI, v: URI)
    requires Shaped(u) && v in ShedGluedPeriod(u)
    ensures |Path(v)| == |Path(u)|
  {
    if HasLastId(u) {
      WithLastIdEnds(u, Before(LastId(u), '.'));
    }
  }

  /** With a slash in what is glued, the token is some other URI, or none. */
  lemma SlashIsOther(u: URI, g: string)
    requires Shaped(u) && u.fragment == "" && u.variant == "" && !Lacks(GluedPath(g), '/')
    ensures u !in Accept(String(u) + g)
  {
    var token := String(u) + g;
    if Parse(token).Parsed? {
      var v, path := Parse(token).uri, Join(Path(u), "/");
      PrintedParts(u);
      GluedParts(u, g);
      SplitGrows(path, GluedPath(g));
      ParseYieldsWellFormed(token);
      InterpretedPath(Split(path + GluedPath(g), '/'), GluedQuery(g), GluedFragment(g));
      forall w | w in ShedGluedPeriod(v)
        ensures w != u
      {
        ShedPath(v, w);
      }
    }
  }

  /** What is glued leaves the URI as it is: no slash, no fragment, and for a file no variant. */
  predicate Harmless(u: URI, g: string) {
    && Lacks(GluedPath(g), '/') && GluedFragment(g) == ""
    && (u.kind.File? ==> ParamValue(GluedQuery(g), "variant") == "")
  }

  lemma StandaloneIsPlain(u: URI)
    requires Standalone(u) && u.fragment == "" && u.variant == ""
    ensures Plain(u) && !SlugLike(u)
  {
  }

  /**
   * A period and any tail bytes glued to a standalone URI without variant or fragment: the scan still finds
   * exactly that URI if and only if all that is glued is punctuation, or the URI has a last id and what is
   * left after trimming adds no slash, no fragment, and for a file no variant.
   */
  lemma GluedIff(u: URI, word: string)
    requires Standalone(u) && u.fragment == "" && u.variant == "" && AllTail(word)
    ensures Scan(String(u) + "." + word) == [u] <==>
      AllPunctuation(word) || (HasLastId(u) && Harmless(u, Glued(word)))
  {
    var g := Glued(word);
    StandaloneIsPlain(u);
    GluedStarts(word);
    if Lacks(GluedPath(g), '/') {
      GluedScans(u, word);
      AnswerIs(u, g);
    } else {
      SlashNotFound(u, word);
    }
  }

  lemma SlashNotFound(u: URI, word: string)
    requires Plain(u) && AllTail(word) && !Lacks(GluedPath(Glued(word)), '/')
    ensures Scan(String(u) + "." + word) != [u]
  {
    PrintedParts(u);
    ScanGlued(String(u), word);
    SlashIsOther(u, Glued(word));
  }

  lemma AnswerIs(u: URI, g: string)
    requires u.fragment == "" && u.variant == "" && !u.kind.NoKind? && Lacks(GluedPath(g), '/')
    requires g != "" ==> GluedPath(g) != ""
    ensures GluedAnswer(u, g) == u <==> g == "" || (HasLastId(u) && Harmless(u, g))
  {
    if u.kind.Space? {
      assert |u.spaceId + GluedPath(g)| == |u.spaceId| + |GluedPath(g)|;
    }
  }

  /** A word: tail bytes that neither continue the path nor open a query or a fragment before its last letter. */
  predicate Word(w: string) {
    AllTail(w) && Lacks(w, '/') && Lacks(w, '#') && Lacks(TrimRight(w), '?')
  }

  lemma GluedWord(u: URI, word: string)
    requires Word(word)
    ensures Harmless(u, Glued(word))
  {
    var g, kept := Glued(word), TrimRight(word);
    TrimLeaves("." + word);
    TrimLeaves(word);
    if AllPunctuation(word) {
      GluedStarts(word);
    } else {
      TrimStopsAfterDot(word);
      assert g == "." + kept;
    }
    assert Lacks(g, '#') && Lacks(g, '?') && Lacks(g, '/');
    CutNone(g, '#');
    CutNone(g, '?');
    assert GluedPath(g) == g && GluedQuery(g) == "" && GluedFragment(g) == "";
  }

  /** Trimming a period and a word that is not all punctuation trims the word. */
  lemma {:induction false} TrimStopsAfterDot(word: string)
    requires !AllPunctuation(word)
    ensures TrimRight("." + word) == "." + TrimRight(word)
    decreases |word|
  {
    var g := "." + word;
    assert word != "" && g[|g| - 1] == word[|word| - 1];
    if IsPunctuation(word[|word| - 1]) {
      var h := word[..|word| - 1];
      assert g[..|g| - 1] == "." + h;
      var k :| 0 <= k < |word| && !IsPunctuation(word[k]);
      assert h[k] == word[k];
      TrimStopsAfterDot(h);
    }
  }

  /** With a word glued to it, the URI is found as it is exactly when it has a last id or the word is all marks. */
  lemma GluedWordIff(u: URI, word: string)
    requires Standalone(u) && u.fragment == "" && u.variant == "" && Word(word)
    ensures Scan(String(u) + "." + word) == [u] <==> HasLastId(u) || AllPunctuation(word)
  {
    GluedIff(u, word);
    GluedWord(u, word);
  }

  /** A sentence period and what follows it, glued to a URI with a last id, do not hide it. */
  lemma FoundWhenGlued(u: URI, word: string)
    requires Standalone(u) && HasLastId(u) && u.fragment == "" && u.variant == ""
    requires AllTail(word) && Harmless(u, Glued(word))
    ensures Scan(String(u) + "." + word) == [u]
  {
    GluedIff(u, word);
  }

  /** The same between any two delimiters. */
  lemma FoundGluedBetween(a: string, d: char, u: URI, word: string, d': char, b: string)
    requires Standalone(u) && HasLastId(u) && u.fragment == "" && u.variant == ""
    requires AllTail(word) && Harmless(u, Glued(word)) && Delimiter(d) && Delimiter(d')
    ensures u in Scan(a + [d] + (String(u) + "." + word + [d'] + b))
  {
    var glued := String(u) + "." + word;
    FoundWhenGlued(u, word);
    ScanKeeps(glued, d', b, u);
    ScanKeeps(a, d, glued + [d'] + b, u);
  }

  /** Space ids are dotted by design: what is glued to a space reference, trailing marks aside, is part of the id. */
  lemma GluedSpaceIsLonger(u: URI, word: string)
    requires Standalone(u) && u.kind.Space? && u.fragment == "" && AllTail(word) && Lacks(GluedPath(Glued(word)), '/')
    ensures Scan(String(u) + "." + word) ==
      [u.(spaceId := u.spaceId + GluedPath(Glued(word)), fragment := GluedFragment(Glued(word)))]
  {
    StandaloneIsPlain(u);
    GluedScans(u, word);
  }

  lemma BareReference(id: string)
    requires Segment(id)
    ensures var u := ZERO.(kind := Object, legacy := true, objectId := id);
      Printable(u) && String(u) == BuildObject(id) && LastId(u) == id && HasLastId(u) && BareLegacy(u)
  {
    var u := ZERO.(kind := Object, legacy := true, objectId := id);
    assert Path(u) == [id];
    PlainString(u);
  }

  lemma SlugIsWord(id: string)
    requires IsKindSlug(id)
    ensures Segment(id) && AllTail(id) && Lacks(id, '.') && !IsPunctuation(id[|id| - 1])
  {
  }

  /** A bare id as short as a kind slug, once its glued word is shed, is returned and does not read back. */
  lemma ShortIdDoesNotReparse(id: string, word: string)
    requires IsKindSlug(id) && AllTail(word) && !AllPunctuation(word)
    requires Lacks(GluedPath(Glued(word)), '/') && GluedFragment(Glued(word)) == ""
    ensures var u := ZERO.(kind := Object, legacy := true, objectId := id);
      Scan(BuildObject(id) + "." + word) == [u] && Parse(String(u)) != Parsed(u)
  {
    var u := ZERO.(kind := Object, legacy := true, objectId := id);
    SlugIsWord(id);
    BareReference(id);
    assert BuildObject(id)[|PREFIX|..] == id;
    GluedScans(u, word);
    ReparsesIff(u);
  }

  /** For instance "any://abc.def": the scanner answers any://abc, which the parser refuses. */
  lemma ScannedNeedNotReparse()
    ensures var u := ZERO.(kind := Object, legacy := true, objectId := "abc");
      Scan(PREFIX + "abc" + "." + "def") == [u] && Parse(String(u)) != Parsed(u)
  {
    assert !IsPunctuation("def"[2]);
    GluedWord(ZERO, "def");
    ShortIdDoesNotReparse("abc", "def");
  }

  // ---- exactly which texts have links that read back --------------------------------------

  predicate ReadsBack(u: URI) { Parse(String(u)) == Parsed(u) }

  /** The token is a bare id with a dot, and what stands before the first dot is a kind slug. */
  predicate ShedsToSlug(token: string) {
    && PREFIX <= token
    && Lacks(TokenPath(token), '/') && !Lacks(TokenPath(token), '.') && IsKindSlug(Before(TokenPath(token), '.'))
  }

  /** Such a token parses as that bare id. */
  lemma SlugTokenParses(token: string)
    requires ShedsToSlug(token)
    ensures Parse(token).Parsed? && BareLegacy(Parse(token).uri) && Parse(token).uri.objectId == TokenPath(token)
  {
    var id := TokenPath(token);
    CutNone(id, '/');
    assert Split(id, '/') == [id] && id != "";
    NoDotInSlug(id);
  }

  lemma NoDotInSlug(id: string)
    requires !Lacks(id, '.')
    ensures !IsKindSlug(id)
  {
    if IsKindSlug(id) {
      SlugIsWord(id);
    }
  }

  /** Only one segment that is no kind slug is read as a bare id. */
  lemma InterpretBare(segs: seq<string>, raw: string, fragment: string)
    requires segs != [] && segs[0] != "" && Interpret(segs, raw, fragment).Parsed?
    requires BareLegacy(Interpret(segs, raw, fragment).uri)
    ensures segs == [Interpret(segs, raw, fragment).uri.objectId] && !IsKindSlug(segs[0])
  {
  }

  /** The path of a token that parses as a bare id is that id, and no kind slug. */
  lemma BareTokenPath(token: string)
    requires Parse(token).Parsed? && BareLegacy(Parse(token).uri)
    ensures PREFIX <= token && TokenPath(token) == Parse(token).uri.objectId
    ensures Lacks(TokenPath(token), '/') && !IsKindSlug(TokenPath(token))
  {
    var path, rest := TokenPath(token), token[|PREFIX|..];
    var segs := Split(path, '/');
    assert segs[0] in segs;
    InterpretBare(segs, After(Before(rest, '#'), '?'), After(rest, '#'));
    JoinSplit(path, '/');
    assert segs[0] == path;
  }

  /** What a token is accepted as reads back exactly when the token does not shed to a slug. */
  lemma AcceptReadsBackIff(token: string)
    ensures (forall v :: v in Accept(token) ==> ReadsBack(v)) <==> !ShedsToSlug(token)
  {
    if Parse(token).Parsed? {
      var u := Parse(token).uri;
      ParseYieldsWellFormed(token);
      if BareLegacy(u) {
        BareTokenPath(token);
        BareAccept(token, u);
      } else {
        if ShedsToSlug(token) { SlugTokenParses(token); }
        forall v | v in Accept(token)
          ensures ReadsBack(v)
        {
          ShedPrintable(u, v);
          ShedKeepsKind(u, v);
          ReparsesIff(v);
        }
      }
    } else if ShedsToSlug(token) {
      SlugTokenParses(token);
    }
  }

  lemma ShedKeepsKind(u: URI, v: URI)
    requires WellFormed(u) && v in ShedGluedPeriod(u)
    ensures BareLegacy(v) <==> BareLegacy(u)
  {
  }

  lemma BareAccept(token: string, u: URI)
    requires Parse(token) == Parsed(u) && WellFormed(u) && BareLegacy(u) && PREFIX <= token
    requires TokenPath(token) == u.objectId && Lacks(u.objectId, '/') && !IsKindSlug(u.objectId)
    ensures (forall v :: v in Accept(token) ==> ReadsBack(v)) <==> !ShedsToSlug(token)
  {
    var id := Before(u.objectId, '.');
    if Lacks(u.objectId, '.') {
      CutNone(u.objectId, '.');
    }
    if id != "" {
      var v := u.(objectId := id);
      assert Accept(token) == [v];
      ShedPrintable(u, v);
      ReparsesIff(v);
    }
  }

  /** Every link of a text reads back exactly when no token of it sheds to a kind slug. */
  lemma AllReadBackIff(text: string)
    ensures (forall u :: u in Scan(text) ==> ReadsBack(u)) <==>
      forall k: nat :: TokenAt(text, k) ==> !ShedsToSlug(Token(text, k))
  {
    forall u
      ensures u in Scan(text) <==> exists j: nat :: Yields(Accept, text, j, u)
    {
      ScanIsHits(text, u);
      HitsMembers(Accept, text, u);
    }
    forall k: nat | TokenAt(text, k)
      ensures (forall v :: v in Accept(Token(text, k)) ==> ReadsBack(v)) <==> !ShedsToSlug(Token(text, k))
    {
      AcceptReadsBackIff(Token(text, k));
    }
    ReadBackByToken(text);
  }

  /** From links to tokens and back. */
  lemma ReadBackByToken(text: string)
    requires forall u :: u in Scan(text) <==> exists j: nat :: Yields(Accept, text, j, u)
    ensures (forall u :: u in Scan(text) ==> ReadsBack(u)) <==>
      forall k: nat :: TokenAt(text, k) ==> forall v :: v in Accept(Token(text, k)) ==> ReadsBack(v)
  {
    if forall u :: u in Scan(text) ==> ReadsBack(u) {
      forall k: nat, v | TokenAt(text, k) && v in Accept(Token(text, k))
        ensures ReadsBack(v)
      {
        assert Yields(Accept, text, k, v);
      }
    }
  }

  /** Deduplication by printed form loses no link that was hit. */
  lemma ScanIsHits(text: string, u: URI)
    ensures u in Scan(text) <==> u in Hits(Accept, text, 0)
  {
    var hits := Hits(Accept, text, 0);
    FreshKeys(String, {}, hits);
    if u in hits {
      var v := FirstKeeps(String, hits, u);
      HitPrintable(text, u);
      HitPrintable(text, v);
      PrintableInjective(u, v);
    }
  }

  lemma HitPrintable(text: string, u: URI)
    requires u in Hits(Accept, text, 0)
    ensures Printable(u)
  {
    var token := HitHasToken(Accept, text, u);
    ParseYieldsWellFormed(token);
    ShedPrintable(Parse(token).uri, u);
  }
}
