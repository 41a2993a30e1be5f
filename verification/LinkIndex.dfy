/** From scanned URIs to index keys, mentions and link edges. */
module LinkIndex {
  import opened Prelude
  import opened Strings
  import opened Dedup
  import opened AnyUri
  import opened LinkScanner
  import opened LinkScannerLaws

  // ---- canonical targets --------------------------------------------------------

  /** The index-key form of a URI, or None when it is not a link target. */
  function Canonical(u: URI, spaceId: string): Option<URI> {
    if u.kind.Identity? || u.kind.Mention? then
      if u.identity == "" then None else Some(ZERO.(kind := Identity, identity := u.identity))
    else
      var c := ZERO.(kind := u.kind, spaceId := if u.spaceId == "" then spaceId else u.spaceId);
      if c.spaceId == "" then None
      else match u.kind
        case Object =>
          if u.objectId == "" then None
          else Some(c.(objectId := u.objectId, dataset := u.dataset, recordId := u.recordId))
        case Prop =>
          if u.objectId == "" || u.propId == "" then None
          else Some(c.(objectId := u.objectId, propId := u.propId))
        case File => if u.fileId == "" then None else Some(c.(fileId := u.fileId))
        case _ => None
  }

  /** The canonical object a target belongs to. */
  function ObjectKey(u: URI): Option<string> {
    if (u.kind.Object? || u.kind.Prop?) && u.spaceId != "" && u.objectId != ""
    then Some(BuildObjectGlobal(u.spaceId, u.objectId)) else None
  }

  predicate IsPart(u: URI) {
    (u.kind.Object? && u.recordId != "") || u.kind.Prop?
  }

  /** A canonical target is its own canonical form, whatever space asks. */
  lemma CanonicalIsFixed(u: URI, spaceId: string, other: string)
    requires Canonical(u, spaceId).Some?
    ensures var c := Canonical(u, spaceId).value; Canonical(c, other) == Some(c)
  {
  }

  /** An in-space form borrows the asking space's id. */
  predicate Borrows(u: URI) {
    !u.kind.Identity? && !u.kind.Mention? && u.spaceId == ""
  }

  lemma CanonicalShaped(u: URI, spaceId: string)
    requires Printable(u) && Canonical(u, spaceId).Some? && (Borrows(u) ==> Segment(spaceId))
    ensures WellFormed(Canonical(u, spaceId).value)
  {
    var c := Canonical(u, spaceId).value;
    SlugNames(c.kind);
    CanonicalArgs(u, spaceId);
    assert Path(c) == [Slug(c.kind)] + Args(c);
  }

  /** What a canonical target prints after its kind are segments. */
  lemma CanonicalArgs(u: URI, spaceId: string)
    requires Printable(u) && Canonical(u, spaceId).Some? && (Borrows(u) ==> Segment(spaceId))
    ensures !Canonical(u, spaceId).value.kind.NoKind? && AllSegments(Args(Canonical(u, spaceId).value))
  {
    assert forall i :: 0 <= i < |Path(u)| ==> Segment(Path(u)[i]);
    match u.kind
    case Object => CanonicalObject(u);
    case Mention => assert Path(u)[2] == u.identity;
    case Identity => assert Path(u)[1] == u.identity;
    case Prop => assert Path(u)[1] == u.spaceId && Path(u)[2] == u.objectId && Path(u)[3] == u.propId;
    case File => assert Path(u)[1] == u.spaceId && Path(u)[2] == u.fileId;
    case _ =>
  }

  lemma CanonicalObject(u: URI)
    requires Printable(u) && u.kind.Object?
    ensures Segment(u.objectId) && (u.spaceId != "" ==> Segment(u.spaceId))
    ensures u.dataset != "" ==> Segment(u.dataset) && Segment(u.recordId)
    ensures u.dataset == "" ==> u.recordId == ""
  {
    var n := |Path(u)|;
    assert forall i :: 0 <= i < n ==> Segment(Path(u)[i]);
    if u.legacy {
      assert Path(u)[n - 1] == u.objectId && (u.spaceId != "" ==> Path(u)[0] == u.spaceId);
    } else {
      assert Path(u)[1] == u.spaceId && Path(u)[2] == u.objectId;
      assert u.dataset != "" ==> Path(u)[3] == u.dataset && Path(u)[4] == u.recordId;
    }
  }

  /** A canonical target reads back as itself, exactly when the space id it borrows is a path segment. */
  lemma CanonicalReparses(u: URI, spaceId: string)
    requires Printable(u) && Canonical(u, spaceId).Some?
    ensures var c := Canonical(u, spaceId).value;
      Parse(String(c)) == Parsed(c) <==> (Borrows(u) ==> Segment(spaceId))
  {
    var c := Canonical(u, spaceId).value;
    if Borrows(u) ==> Segment(spaceId) {
      CanonicalShaped(u, spaceId);
      RoundTrip(c);
    } else {
      assert Path(c)[1] == spaceId;
      if Parse(String(c)) == Parsed(c) {
        ParseYieldsWellFormed(String(c));
      }
    }
  }

  /** A canonical target is a part of an object exactly when it is not printed as that object. */
  lemma PartIffNotItsObject(u: URI, spaceId: string)
    requires Printable(u) && Canonical(u, spaceId).Some? && (Borrows(u) ==> Segment(spaceId))
    ensures var c := Canonical(u, spaceId).value;
      ObjectKey(c).Some? ==> (IsPart(c) <==> String(c) != ObjectKey(c).value)
  {
    var c := Canonical(u, spaceId).value;
    if ObjectKey(c).Some? {
      var whole := ZERO.(kind := Object, spaceId := c.spaceId, objectId := c.objectId);
      ObjectString(c.spaceId, c.objectId);
      CanonicalShaped(u, spaceId);
      assert WellFormed(whole) by {
        SlugNames(Object);
        assert Path(whole) == [Slug(Object), c.spaceId, c.objectId];
        assert Segment(Path(c)[1]) && Segment(Path(c)[2]);
      }
      if String(c) == ObjectKey(c).value {
        PrintableInjective(c, whole);
      }
      if u.kind.Object? {
        CanonicalObject(u);
      }
    }
  }

  lemma ObjectString(spaceId: string, objectId: string)
    ensures String(ZERO.(kind := Object, spaceId := spaceId, objectId := objectId)) ==
      BuildObjectGlobal(spaceId, objectId)
  {
    var u := ZERO.(kind := Object, spaceId := spaceId, objectId := objectId);
    assert Path(u) == [Slug(Object), spaceId, objectId];
    assert Path(u)[1..] == [spaceId, objectId] && [spaceId, objectId][1..] == [objectId];
    assert Join([spaceId, objectId], "/") == spaceId + "/" + objectId;
    assert Join(Path(u), "/") == Slug(Object) + "/" + (spaceId + "/" + objectId);
    PlainString(u);
  }

  // ---- mentions ---------------------------------------------------------------

  function Self(s: string): string { s }

  /** The identity one URI mentions, if any. */
  function MentionOf(u: URI): seq<string> {
    if (u.kind.Identity? || u.kind.Mention?) && u.identity != "" then [u.identity] else []
  }

  function Mentions(text: string): (ids: seq<string>)
    ensures forall i, j :: 0 <= i < j < |ids| ==> ids[i] != ids[j]
  {
    FreshKeys(Self, {}, FlatMap(MentionOf, Scan(text)));
    First(Self, FlatMap(MentionOf, Scan(text)))
  }

  method ExtractMentions(text: string) returns (out: seq<string>)
    ensures out == Mentions(text)
  {
    var links := ExtractLinks(text);
    out := CollectFirst(MentionOf, Self, links);
  }

  // ---- edges ------------------------------------------------------------------

  datatype LinkKind = MentionLink | PlainLink | RelationLink | CardLink | EmbedLink

  datatype LinkEntry = LinkEntry(objectId: string, dataset: string, recordId: string, kind: LinkKind, target: URI)

  /** The source object itself, as a whole. */
  predicate IsSelf(c: URI, spaceId: string, objectId: string) {
    c.kind.Object? && c.spaceId == spaceId && c.objectId == objectId && c.recordId == ""
  }

  /** The target one URI contributes: canonical, and not the source. */
  function TargetOf(u: URI, spaceId: string, objectId: string): seq<URI> {
    match Canonical(u, spaceId)
    case None => []
    case Some(c) => if IsSelf(c, spaceId, objectId) then [] else [c]
  }

  /** The same as a function of the URI alone. */
  function Contribution(spaceId: string, objectId: string): URI -> seq<URI> {
    u => TargetOf(u, spaceId, objectId)
  }

  function TargetsOf(us: seq<URI>, spaceId: string, objectId: string): seq<URI> {
    FlatMap(Contribution(spaceId, objectId), us)
  }

  /** The distinct targets of a list of URIs, in order of first occurrence. */
  function DistinctTargets(us: seq<URI>, spaceId: string, objectId: string): seq<URI> {
    First(String, TargetsOf(us, spaceId, objectId))
  }

  function TextKind(c: URI): LinkKind {
    if c.kind.Identity? then MentionLink else PlainLink
  }

  function TargetSeq(es: seq<LinkEntry>): seq<URI> {
    seq(|es|, i requires 0 <= i < |es| => es[i].target)
  }

  /** The edges of a text. */
  method TextLinks(spaceId: string, objectId: string, dataset: string, recordId: string, text: string)
      returns (out: seq<LinkEntry>)
    ensures TargetSeq(out) == DistinctTargets(Scan(text), spaceId, objectId)
    ensures forall e :: e in out ==>
      && e.kind == (if e.target.kind == Identity then MentionLink else PlainLink)
      && e == LinkEntry(objectId, dataset, recordId, e.kind, e.target)
  {
    var us := ExtractLinks(text);
    var cs := CollectFirst(Contribution(spaceId, objectId), String, us);
    out := seq(|cs|, i requires 0 <= i < |cs| => LinkEntry(objectId, dataset, recordId, TextKind(cs[i]), cs[i]));
  }

  function ParsedRef(ref: string): seq<URI> {
    match Parse(ref) case Parsed(u) => [u] case _ => []
  }

  /** The references among a list of strings that parse. */
  function ParsedRefs(refs: seq<string>): seq<URI> {
    FlatMap(ParsedRef, refs)
  }

  /** The edges of a list of whole references. */
  method RefLinks(spaceId: string, objectId: string, dataset: string, recordId: string, refs: seq<string>)
      returns (out: seq<LinkEntry>)
    ensures TargetSeq(out) == DistinctTargets(ParsedRefs(refs), spaceId, objectId)
    ensures forall e :: e in out ==> e == LinkEntry(objectId, dataset, recordId, RelationLink, e.target)
  {
    var cs := CollectFirst(Contribution(spaceId, objectId), String, ParsedRefs(refs));
    out := seq(|cs|, i requires 0 <= i < |cs| => LinkEntry(objectId, dataset, recordId, RelationLink, cs[i]));
  }

  // ---- laws --------------------------------------------------------------------

  /** Edge targets are pairwise distinct, even as printed, canonical, and never the source object. */
  lemma TargetsAreSound(us: seq<URI>, spaceId: string, objectId: string)
    ensures var cs := DistinctTargets(us, spaceId, objectId);
      && (forall i, j :: 0 <= i < j < |cs| ==> String(cs[i]) != String(cs[j]))
      && (forall c :: c in cs ==> !IsSelf(c, spaceId, objectId) && Canonical(c, spaceId) == Some(c))
      && (forall c :: c in cs ==> exists u :: u in us && Canonical(u, spaceId) == Some(c))
  {
    var f := Contribution(spaceId, objectId);
    FreshKeys(String, {}, TargetsOf(us, spaceId, objectId));
    forall c | c in DistinctTargets(us, spaceId, objectId)
      ensures !IsSelf(c, spaceId, objectId) && Canonical(c, spaceId) == Some(c)
      ensures exists u :: u in us && Canonical(u, spaceId) == Some(c)
    {
      FlatMapMembers(f, us, c);
      var u :| u in us && c in f(u);
      CanonicalIsFixed(u, spaceId, spaceId);
    }
  }

  /** No target is lost: every URI that has one, and not the source, has an edge printed as it. */
  lemma TargetsAreComplete(us: seq<URI>, spaceId: string, objectId: string, u: URI) returns (c: URI)
    requires u in us && Canonical(u, spaceId).Some? && !IsSelf(Canonical(u, spaceId).value, spaceId, objectId)
    ensures c in DistinctTargets(us, spaceId, objectId) && String(c) == String(Canonical(u, spaceId).value)
  {
    var f := Contribution(spaceId, objectId);
    var t := Canonical(u, spaceId).value;
    assert t in f(u);
    FlatMapMembers(f, us, t);
    c := FirstKeeps(String, TargetsOf(us, spaceId, objectId), t);
  }

  /** The identities among a list of targets. */
  function IdentitiesOf(cs: seq<URI>): seq<string> {
    if cs == [] then [] else (if cs[0].kind.Identity? then [cs[0].identity] else []) + IdentitiesOf(cs[1..])
  }

  lemma IdentitiesAppend(x: seq<URI>, cs: seq<URI>)
    requires |x| <= 1
    ensures IdentitiesOf(x + cs) == IdentitiesOf(x) + IdentitiesOf(cs)
  {
    if x == [] {
      assert x + cs == cs;
    } else {
      assert (x + cs)[1..] == cs && x[1..] == [];
    }
  }

  /** Identity targets print apart, and apart from every other target. */
  lemma IdentityKey(c: URI, id: string)
    requires c.kind.Identity? ==> c == ZERO.(kind := Identity, identity := c.identity)
    requires !c.kind.Identity? ==> !c.kind.NoKind? && !c.legacy
    ensures String(c) == BuildIdentity(id) <==> c.kind.Identity? && c.identity == id
  {
    IdentityString(id);
    if c.kind.Identity? {
      IdentityString(c.identity);
      if String(c) == BuildIdentity(id) {
        assert BuildIdentity(id)[|BuildIdentity("")|..] == id &&
          BuildIdentity(c.identity)[|BuildIdentity("")|..] == c.identity;
      }
    } else {
      assert String(c)[|PREFIX|] == Slug(c.kind)[0];
    }
  }

  /** Seen keys and seen identities say the same about every identity. */
  ghost predicate Agree(seen: set<string>, ids: set<string>) {
    forall id :: BuildIdentity(id) in seen <==> id in ids
  }

  /** What one URI contributes to the two lists: an identity target and that identity, or neither. */
  lemma OneMention(u: URI, spaceId: string, objectId: string, seen: set<string>, ids: set<string>)
      returns (seen': set<string>, ids': set<string>)
    requires Agree(seen, ids)
    ensures Agree(seen', ids')
    ensures var t, m := TargetOf(u, spaceId, objectId), MentionOf(u);
      && (seen' == if t == [] || String(t[0]) in seen then seen else seen + {String(t[0])})
      && (ids' == if m == [] || m[0] in ids then ids else ids + {m[0]})
      && IdentitiesOf(if t == [] || String(t[0]) in seen then [] else t) == (if m == [] || m[0] in ids then [] else m)
  {
    var t, m := TargetOf(u, spaceId, objectId), MentionOf(u);
    seen' := if t == [] || String(t[0]) in seen then seen else seen + {String(t[0])};
    ids' := if m == [] || m[0] in ids then ids else ids + {m[0]};
    if t != [] {
      assert t[1..] == [];
      forall id
        ensures String(t[0]) == BuildIdentity(id) <==> t[0].kind.Identity? && t[0].identity == id
      {
        IdentityKey(t[0], id);
      }
    }
  }

  lemma {:induction false} MentionTargets(us: seq<URI>, spaceId: string, objectId: string, seen: set<string>,
      ids: set<string>)
    requires Agree(seen, ids)
    ensures IdentitiesOf(Fresh(String, seen, TargetsOf(us, spaceId, objectId))) ==
      Fresh(Self, ids, FlatMap(MentionOf, us))
    decreases |us|
  {
    if us != [] {
      var f := Contribution(spaceId, objectId);
      var rest := TargetsOf(us[1..], spaceId, objectId);
      assert f(us[0]) == TargetOf(us[0], spaceId, objectId);
      FreshStep(String, seen, f(us[0]), rest);
      FreshStep(Self, ids, MentionOf(us[0]), FlatMap(MentionOf, us[1..]));
      var seen', ids' := OneMention(us[0], spaceId, objectId, seen, ids);
      MentionTargets(us[1..], spaceId, objectId, seen', ids');
      IdentitiesAppend(f(us[0]), Fresh(String, seen', rest));
    }
  }

  /** The mention edges of a text are exactly its mentions, in order. */
  lemma MentionEdgesAreMentions(text: string, spaceId: string, objectId: string)
    ensures IdentitiesOf(DistinctTargets(Scan(text), spaceId, objectId)) == Mentions(text)
  {
    MentionTargets(Scan(text), spaceId, objectId, {}, {});
  }

  lemma AcceptRef(u: URI)
    requires WellFormed(u)
    ensures ParsedRefs([String(u)]) == [u]
  {
    RoundTrip(u);
    FlatMapOne(ParsedRef, String(u));
  }

  /** A URI alone in a text and the same URI as a property value have the same targets. */
  lemma TextAndValueAgree(u: URI, spaceId: string, objectId: string)
    requires Standalone(u)
    ensures DistinctTargets(Scan(String(u)), spaceId, objectId) ==
      DistinctTargets(ParsedRefs([String(u)]), spaceId, objectId)
  {
    StandaloneScans(u);
    AcceptRef(u);
  }
}
