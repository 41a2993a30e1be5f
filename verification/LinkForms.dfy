/** What each form of URI becomes as a link: its canonical target, its index key, its edges, its mention. */
module LinkForms {
  import opened Prelude
  import opened Strings
  import opened Dedup
  import opened AnyUri
  import opened AnyUriForms
  import opened TokenScan
  import opened LinkScanner
  import opened LinkScannerLaws
  import opened LinkIndex

  // ---- canonical targets -------------------------------------------------------------

  /** A reference to an identity, in either form. */
  predicate OfIdentity(u: URI) { u.kind == Identity || u.kind == Mention }

  /** Field by field: what is kept of a URI, and when there is nothing to keep. */
  lemma CanonicalTable(u: URI, asked: string)
    ensures var c, sp := Canonical(u, asked), if u.spaceId != "" then u.spaceId else asked;
      && (OfIdentity(u) ==>
            c == if u.identity == "" then None
            else Some(URI(Identity, "", "", "", "", "", u.identity, "", "", "", false)))
      && (u.kind == Object ==>
            c == if sp == "" || u.objectId == "" then None
            else Some(URI(Object, sp, u.objectId, u.dataset, u.recordId, "", "", "", "", "", false)))
      && (u.kind == Prop ==>
            c == if sp == "" || u.objectId == "" || u.propId == "" then None
            else Some(URI(Prop, sp, u.objectId, "", "", u.propId, "", "", "", "", false)))
      && (u.kind == File ==>
            c == if sp == "" || u.fileId == "" then None
            else Some(URI(File, sp, "", "", "", "", "", u.fileId, "", "", false)))
      && (u.kind == Space || u.kind == NoKind ==> c == None)
  {
  }

  /** What the index files a reference under, when it is one and has a target. */
  function IndexKey(ref: string, asked: string): Option<string> {
    match Parse(ref)
    case Parsed(u) => (match Canonical(u, asked) case Some(c) => Some(String(c)) case None => None)
    case _ => None
  }

  /** "any://<id>" in a space, "any://<sp>/<id>" and "any://o/<sp>/<id>" are one key. */
  lemma ObjectKeys(sp: string, id: string, asked: string)
    requires Segment(id) && Segment(sp)
    ensures !IsKindSlug(id) ==>
      IndexKey("any://" + id, asked) == if asked == "" then None else Some("any://o/" + asked + "/" + id)
    ensures !IsKindSlug(sp) ==> IndexKey("any://" + sp + "/" + id, asked) == Some("any://o/" + sp + "/" + id)
    ensures IndexKey("any://o/" + sp + "/" + id, asked) == Some("any://o/" + sp + "/" + id)
  {
    if !IsKindSlug(id) {
      BareForm(id);
      CanonicalTable(ZERO.(kind := Object, objectId := id, legacy := true), asked);
      ObjectSpelled(asked, id);
    }
    if !IsKindSlug(sp) {
      PairForm(sp, id);
      CanonicalTable(ZERO.(kind := Object, spaceId := sp, objectId := id, legacy := true), asked);
    }
    ObjectForm(sp, id);
    CanonicalTable(ZERO.(kind := Object, spaceId := sp, objectId := id), asked);
  }

  /** A record and a property value keep every segment. */
  lemma PartKeys(sp: string, id: string, dataset: string, rec: string, prop: string, asked: string)
    requires Segment(sp) && Segment(id) && Segment(dataset) && Segment(rec) && Segment(prop)
    ensures IndexKey("any://o/" + sp + "/" + id + "/" + dataset + "/" + rec, asked) ==
      Some("any://o/" + sp + "/" + id + "/" + dataset + "/" + rec)
    ensures IndexKey("any://p/" + sp + "/" + id + "/" + prop, asked) == Some("any://p/" + sp + "/" + id + "/" + prop)
  {
    RecordForm(sp, id, dataset, rec);
    CanonicalTable(ZERO.(kind := Object, spaceId := sp, objectId := id, dataset := dataset, recordId := rec), asked);
    PropForm(sp, id, prop);
    CanonicalTable(ZERO.(kind := Prop, spaceId := sp, objectId := id, propId := prop), asked);
  }

  /** Both identity forms are one key, without a space; a space reference has none. */
  lemma IdentityKeys(sp: string, id: string, asked: string)
    requires Segment(sp) && Segment(id)
    ensures IndexKey("any://u/" + id, asked) == Some("any://u/" + id)
    ensures IndexKey("any://m/" + sp + "/" + id, asked) == Some("any://u/" + id)
    ensures IndexKey("any://s/" + sp, asked) == None
  {
    IdentityForm(id);
    CanonicalTable(ZERO.(kind := Identity, identity := id), asked);
    MentionForm(sp, id);
    CanonicalTable(ZERO.(kind := Mention, spaceId := sp, identity := id, legacy := true), asked);
    SpaceForm(sp);
    CanonicalTable(ZERO.(kind := Space, spaceId := sp), asked);
  }

  /** A file drops its variant. */
  lemma FileKeys(sp: string, file: string, variant: string, asked: string)
    requires Segment(sp) && Segment(file) && variant != "" && Lacks(variant, '#') && Lacks(variant, '&')
    ensures IndexKey("any://f/" + sp + "/" + file, asked) == Some("any://f/" + sp + "/" + file)
    ensures IndexKey("any://f/" + sp + "/" + file + "?variant=" + variant, asked) == Some("any://f/" + sp + "/" + file)
  {
    FileForm(sp, file);
    CanonicalTable(ZERO.(kind := File, spaceId := sp, fileId := file), asked);
    VariantForm(sp, file, variant);
    CanonicalTable(ZERO.(kind := File, spaceId := sp, fileId := file, variant := variant), asked);
  }

  /** A fragment is dropped. */
  lemma FragmentKeys(ref: string, u: URI, fragment: string, asked: string)
    requires Spells(ref, u) && u.fragment == "" && fragment != ""
    ensures IndexKey(ref + "#" + fragment, asked) == IndexKey(ref, asked)
  {
    FragmentForm(ref, u, fragment);
    CanonicalTable(u, asked);
    CanonicalTable(u.(fragment := fragment), asked);
  }

  /** The object a target belongs to: an object, one of its records, one of its property values. */
  lemma ObjectOfTarget(u: URI, asked: string)
    requires Canonical(u, asked).Some?
    ensures var c := Canonical(u, asked).value;
      && (u.kind == Object || u.kind == Prop ==>
            ObjectKey(c) == Some("any://o/" + (if u.spaceId != "" then u.spaceId else asked) + "/" + u.objectId))
      && (OfIdentity(u) || u.kind == File ==> ObjectKey(c) == None)
      && (IsPart(c) <==> u.kind == Prop || (u.kind == Object && u.recordId != ""))
  {
    CanonicalTable(u, asked);
    var c := Canonical(u, asked).value;
    ObjectString(c.spaceId, c.objectId);
    ObjectSpelled(c.spaceId, c.objectId);
  }

  // ---- edges and mentions ------------------------------------------------------------

  /** A URI alone in a text: the text's one possible target. */
  lemma OneTarget(u: URI, spaceId: string, objectId: string)
    requires Standalone(u)
    ensures DistinctTargets(Scan(String(u)), spaceId, objectId) == TargetOf(u, spaceId, objectId)
  {
    StandaloneScans(u);
    FlatMapOne(Contribution(spaceId, objectId), u);
    FreshStep(String, {}, TargetOf(u, spaceId, objectId), []);
    assert TargetOf(u, spaceId, objectId) + [] == TargetOf(u, spaceId, objectId);
  }

  lemma ObjectTarget(u: URI, spaceId: string, objectId: string)
    requires u.kind == Object && u.objectId != "" && (u.spaceId != "" || spaceId != "")
    ensures var sp := if u.spaceId != "" then u.spaceId else spaceId;
      TargetOf(u, spaceId, objectId) ==
      if sp == spaceId && u.objectId == objectId && u.recordId == "" then []
      else [URI(Object, sp, u.objectId, u.dataset, u.recordId, "", "", "", "", "", false)]
  {
    CanonicalTable(u, spaceId);
  }

  lemma ObjectIdThere(u: URI)
    requires Standalone(u) && u.kind == Object
    ensures u.objectId != ""
  {
    CanonicalObject(u);
  }

  /** A link to the source object is dropped; to any other object, and to any record, it is kept whole. */
  lemma ObjectEdges(u: URI, spaceId: string, objectId: string)
    requires Standalone(u) && u.kind == Object && (u.spaceId != "" || spaceId != "")
    ensures var sp := if u.spaceId != "" then u.spaceId else spaceId;
      DistinctTargets(Scan(String(u)), spaceId, objectId) ==
      if sp == spaceId && u.objectId == objectId && u.recordId == "" then []
      else [URI(Object, sp, u.objectId, u.dataset, u.recordId, "", "", "", "", "", false)]
  {
    OneTarget(u, spaceId, objectId);
    ObjectIdThere(u);
    ObjectTarget(u, spaceId, objectId);
  }

  lemma OtherTarget(u: URI, spaceId: string, objectId: string)
    requires u.kind != Object && (HasLastId(u) ==> LastId(u) != "") && (u.kind == Prop ==> u.objectId != "")
    ensures var cs, sp := TargetOf(u, spaceId, objectId), if u.spaceId != "" then u.spaceId else spaceId;
      && (OfIdentity(u) ==> cs == [URI(Identity, "", "", "", "", "", u.identity, "", "", "", false)])
      && (u.kind == Space ==> cs == [])
      && (u.kind == Prop && sp != "" ==> cs == [URI(Prop, sp, u.objectId, "", "", u.propId, "", "", "", "", false)])
      && (u.kind == File && sp != "" ==> cs == [URI(File, sp, "", "", "", "", "", u.fileId, "", "", false)])
  {
    CanonicalTable(u, spaceId);
  }

  lemma IdsThere(u: URI)
    requires Standalone(u)
    ensures (HasLastId(u) ==> LastId(u) != "") && (u.kind == Prop ==> u.objectId != "")
  {
    if HasLastId(u) {
      LastIdEndsPath(u);
    }
    if u.kind == Prop {
      assert Path(u)[2] == u.objectId && Segment(Path(u)[2]);
    }
  }

  /** Everything else that has a target is never the source: a property value, a file, an identity. */
  lemma OtherEdges(u: URI, spaceId: string, objectId: string)
    requires Standalone(u) && u.kind != Object
    ensures var cs, sp :=
        DistinctTargets(Scan(String(u)), spaceId, objectId), if u.spaceId != "" then u.spaceId else spaceId;
      && (OfIdentity(u) ==> cs == [URI(Identity, "", "", "", "", "", u.identity, "", "", "", false)])
      && (u.kind == Space ==> cs == [])
      && (u.kind == Prop && sp != "" ==> cs == [URI(Prop, sp, u.objectId, "", "", u.propId, "", "", "", "", false)])
      && (u.kind == File && sp != "" ==> cs == [URI(File, sp, "", "", "", "", "", u.fileId, "", "", false)])
  {
    OneTarget(u, spaceId, objectId);
    IdsThere(u);
    OtherTarget(u, spaceId, objectId);
  }

  /** What a text mentions: the identities of its identity references. */
  lemma MentionedIff(text: string, id: string)
    ensures id in Mentions(text) <==> id != "" && exists u :: u in Scan(text) && OfIdentity(u) && u.identity == id
  {
    var ids := FlatMap(MentionOf, Scan(text));
    FreshKeys(Self, {}, ids);
    FlatMapMembers(MentionOf, Scan(text), id);
    if id in ids {
      var x := FirstKeeps(Self, ids, id);
    }
  }

  lemma FirstOfTwo<T>(key: T -> string, x: T, y: T)
    requires key(x) != key(y)
    ensures First(key, [x] + [y]) == [x, y]
  {
    FreshStep(key, {}, [x], [y]);
    FreshStep(key, {key(x)}, [y], []);
    assert [x] + [y] == [x, y] && [y] + [] == [y];
  }

  lemma StandalonePrints(u: URI, v: URI)
    requires Standalone(u) && Standalone(v) && u != v
    ensures String(u) != String(v)
  {
    if String(u) == String(v) {
      PrintableInjective(u, v);
    }
  }

  /** Two URIs on the two sides of a delimiter are two links. */
  lemma TwoScanned(u: URI, d: char, v: URI)
    requires Standalone(u) && Standalone(v) && Delimiter(d) && u != v
    ensures Scan(String(u) + [d] + String(v)) == [u, v]
  {
    ScanComposes(String(u), d, String(v));
    StandaloneScans(u);
    StandaloneScans(v);
    StandalonePrints(u, v);
    FirstOfTwo(String, u, v);
  }

  lemma TwoTargets(u: URI, v: URI, spaceId: string, objectId: string)
    requires TargetOf(u, spaceId, objectId) == [u] && TargetOf(v, spaceId, objectId) == [v] && String(u) != String(v)
    ensures DistinctTargets([u, v], spaceId, objectId) == [u, v]
  {
    assert [u, v][1..] == [v];
    FlatMapOne(Contribution(spaceId, objectId), v);
    assert TargetsOf([u, v], spaceId, objectId) == [u] + [v];
    FirstOfTwo(String, u, v);
  }

  /** A record of an object, with nothing else. */
  function RecordOf(sp: string, id: string, dataset: string, rec: string): URI {
    ZERO.(kind := Object, spaceId := sp, objectId := id, dataset := dataset, recordId := rec)
  }

  /** Two records of one object are two edges, whatever the source is. */
  lemma RecordsApart(sp: string, id: string, dataset: string, rec: string, other: string, d: char, spaceId: string,
      objectId: string)
    requires rec != other && Delimiter(d) && rec != "" && other != "" && sp != "" && id != ""
    requires Standalone(RecordOf(sp, id, dataset, rec)) && Standalone(RecordOf(sp, id, dataset, other))
    ensures var u, v := RecordOf(sp, id, dataset, rec), RecordOf(sp, id, dataset, other);
      DistinctTargets(Scan(String(u) + [d] + String(v)), spaceId, objectId) == [u, v]
  {
    var u, v := RecordOf(sp, id, dataset, rec), RecordOf(sp, id, dataset, other);
    TwoScanned(u, d, v);
    ObjectTarget(u, spaceId, objectId);
    ObjectTarget(v, spaceId, objectId);
    StandalonePrints(u, v);
    TwoTargets(u, v, spaceId, objectId);
  }

  // ---- ids that can stand in a text ---------------------------------------------------

  /** An id made of tail bytes that structure nothing. */
  predicate IdBytes(s: string) { Segment(s) && AllTail(s) }

  lemma {:induction false} JoinTail(parts: seq<string>)
    requires forall i :: 0 <= i < |parts| ==> AllTail(parts[i])
    ensures AllTail(Join(parts, "/"))
  {
    if |parts| > 1 {
      JoinTail(parts[1..]);
      var head, tail := parts[0], Join(parts[1..], "/");
      assert AllTail(head + "/" + tail);
    }
  }

  lemma {:induction false} JoinEnds(parts: seq<string>)
    requires parts != [] && parts[|parts| - 1] != ""
    ensures Join(parts, "/") != ""
    ensures Join(parts, "/")[|Join(parts, "/")| - 1] == parts[|parts| - 1][|parts[|parts| - 1]| - 1]
  {
    if |parts| > 1 {
      JoinEnds(parts[1..]);
    }
  }

  /** Segments a token can be made of, the last without a dot. */
  predicate TokenSegments(segs: seq<string>) {
    segs != [] && (forall i :: 0 <= i < |segs| ==> IdBytes(segs[i])) && Lacks(segs[|segs| - 1], '.')
  }

  lemma TokenBytes(segs: seq<string>)
    requires TokenSegments(segs)
    ensures var path := Join(segs, "/");
      path != "" && AllTail(path) && !IsPunctuation(path[|path| - 1])
  {
    JoinTail(segs);
    JoinEnds(segs);
    var last := segs[|segs| - 1];
    assert IdBytes(last) && last[|last| - 1] != '.' && IsTailByte(last[|last| - 1]) && last[|last| - 1] != '?';
  }

  /** A URI made of such segments alone can stand in a text. */
  lemma IdsStandAlone(u: URI)
    requires WellFormed(u) && u.fragment == "" && u.variant == "" && TokenSegments(Path(u))
    ensures Standalone(u)
  {
    PlainString(u);
    TokenBytes(Path(u));
    var path := Join(Path(u), "/");
    assert String(u)[|PREFIX|..] == path && String(u)[|String(u)| - 1] == path[|path| - 1];
    if HasLastId(u) {
      LastIdEndsPath(u);
    }
  }

  lemma RecordStandsAlone(sp: string, id: string, dataset: string, rec: string)
    requires IdBytes(sp) && IdBytes(id) && IdBytes(dataset) && IdBytes(rec) && Lacks(rec, '.')
    ensures Standalone(RecordOf(sp, id, dataset, rec))
  {
    RecordForm(sp, id, dataset, rec);
    ParseYieldsWellFormed("any://o/" + sp + "/" + id + "/" + dataset + "/" + rec);
    LetterIsId('o');
    var letter := ['o'];
    FiveIds(letter, sp, id, dataset, rec);
    assert Path(RecordOf(sp, id, dataset, rec)) == [letter, sp, id, dataset, rec];
    IdsStandAlone(RecordOf(sp, id, dataset, rec));
  }

  lemma FiveIds(a: string, b: string, c: string, d: string, e: string)
    requires IdBytes(a) && IdBytes(b) && IdBytes(c) && IdBytes(d) && IdBytes(e) && Lacks(e, '.')
    ensures TokenSegments([a, b, c, d, e])
  {
  }

  lemma LetterIsId(c: char)
    requires IsLowerAlnum(c)
    ensures IdBytes([c])
  {
  }

  lemma ObjectStandsAlone(sp: string, id: string)
    requires IdBytes(sp) && IdBytes(id) && Lacks(id, '.')
    ensures Standalone(ZERO.(kind := Object, spaceId := sp, objectId := id))
  {
    ObjectForm(sp, id);
    ParseYieldsWellFormed("any://o/" + sp + "/" + id);
    LetterIsId('o');
    assert Path(ZERO.(kind := Object, spaceId := sp, objectId := id)) == ["o", sp, id];
    assert ["o", sp, id][0] == ['o'];
    IdsStandAlone(ZERO.(kind := Object, spaceId := sp, objectId := id));
  }

  lemma IdentityStandsAlone(id: string)
    requires IdBytes(id) && Lacks(id, '.')
    ensures Standalone(ZERO.(kind := Identity, identity := id))
  {
    IdentityForm(id);
    ParseYieldsWellFormed("any://u/" + id);
    LetterIsId('u');
    assert Path(ZERO.(kind := Identity, identity := id)) == ["u", id];
    assert ["u", id][0] == ['u'];
    IdsStandAlone(ZERO.(kind := Identity, identity := id));
  }

  /** From the written text to the edges: a record reference, spelled out, is an edge to that record. */
  lemma RecordText(sp: string, id: string, dataset: string, rec: string, spaceId: string, objectId: string)
    requires IdBytes(sp) && IdBytes(id) && IdBytes(dataset) && IdBytes(rec) && Lacks(rec, '.')
    ensures DistinctTargets(Scan("any://o/" + sp + "/" + id + "/" + dataset + "/" + rec), spaceId, objectId) ==
      [URI(Object, sp, id, dataset, rec, "", "", "", "", "", false)]
  {
    RecordForm(sp, id, dataset, rec);
    RecordStandsAlone(sp, id, dataset, rec);
    ObjectEdges(RecordOf(sp, id, dataset, rec), spaceId, objectId);
  }

  /** A reference to the source object, spelled out, is no edge. */
  lemma SelfText(sp: string, id: string)
    requires IdBytes(sp) && IdBytes(id) && Lacks(id, '.')
    ensures DistinctTargets(Scan("any://o/" + sp + "/" + id), sp, id) == []
  {
    ObjectForm(sp, id);
    ObjectStandsAlone(sp, id);
    ObjectEdges(ZERO.(kind := Object, spaceId := sp, objectId := id), sp, id);
  }

  /** An identity written between any two delimiters is mentioned. */
  lemma MentionedBetween(a: string, d: char, id: string, d': char, b: string)
    requires IdBytes(id) && Lacks(id, '.') && Delimiter(d) && Delimiter(d')
    ensures id in Mentions(a + [d] + (("any://u/" + id) + [d'] + b))
  {
    var u := ZERO.(kind := Identity, identity := id);
    IdentityForm(id);
    IdentityStandsAlone(id);
    FoundBetween(a, d, u, d', b);
    MentionedIff(a + [d] + (String(u) + [d'] + b), id);
  }

  /** After a byte of a scheme the prefix belongs to a longer scheme, and nothing is found. */
  lemma LongerScheme(c: char, u: URI)
    requires IsSchemeByte(c) && Standalone(u)
    ensures Scan([c] + String(u)) == []
  {
    assert PREFIX <= String(u);
    NoTokenAfter(c, String(u));
    NoHitsBetween(Accept, [c] + String(u), 0, |[c] + String(u)|);
  }

  lemma NoTokenAfter(c: char, s: string)
    requires IsSchemeByte(c) && PREFIX <= s && AllTail(s[|PREFIX|..])
    ensures forall k :: 0 <= k < |[c] + s| ==> !TokenAt([c] + s, k)
  {
    var text := [c] + s;
    assert text[1..1 + |PREFIX|] == s[..|PREFIX|] == PREFIX;
    assert forall j :: 1 + |PREFIX| <= j < |text| ==> text[j] == s[|PREFIX|..][j - 1 - |PREFIX|];
    forall k | 0 <= k < |text|
      ensures !TokenAt(text, k)
    {
      if 1 < k < 1 + |PREFIX| {
        PrefixStandsAlone(text, 1, k);
      } else if 1 < k {
        NoPrefixInTail(text, k);
      } else if k == 0 && AtPrefix(text, 0) {
        PrefixStandsAlone(text, 0, 1);
      }
    }
  }

  /** The bytes that end a token: white space, brackets, quotes, commas and the like. */
  lemma Delimiters(c: char)
    requires c in {' ', '\n', '\t', '\r', '(', ')', '[', ']', '<', '>', '"', '\'', ',', ';', '!', '*', '%', '\\', '|'}
    ensures Delimiter(c)
  {
  }

  /** The bytes that continue one. */
  lemma TailBytes(c: char)
    ensures IsTailByte(c) <==>
      'a' <= c <= 'z' || 'A' <= c <= 'Z' || '0' <= c <= '9' || c in {'/', '?', '&', '=', '#', '_', '-', '.'}
    ensures IsSchemeByte(c) <==> 'a' <= c <= 'z' || 'A' <= c <= 'Z' || '0' <= c <= '9' || c in {'+', '-', '.'}
    ensures IsPunctuation(c) <==> c in {'.', ',', ';', ':', '!', '?'}
  {
  }
}
