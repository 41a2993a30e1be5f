/** any:// URIs: the parser, the printer and the strict value forms. */
module AnyUri {
  import opened Strings

  const PREFIX := "any://"

  /** What a URI points at; `NoKind` is the empty kind of a zero value. */
  datatype Kind = NoKind | Object | Identity | Space | Prop | File | Mention

  datatype URI = URI(
    kind: Kind, spaceId: string, objectId: string, dataset: string, recordId: string, propId: string,
    identity: string, fileId: string, variant: string, fragment: string, legacy: bool)

  const ZERO := URI(NoKind, "", "", "", "", "", "", "", "", "", false)

  /** The slug a kind is written as. */
  function Slug(k: Kind): string {
    match k
    case NoKind => ""
    case Object => "o"
    case Identity => "u"
    case Space => "s"
    case Prop => "p"
    case File => "f"
    case Mention => "m"
  }

  /** The known kind a slug names, `NoKind` for any other slug. */
  function KindOf(slug: string): Kind {
    if slug == "o" then Object
    else if slug == "u" then Identity
    else if slug == "m" then Mention
    else if slug == "s" then Space
    else if slug == "p" then Prop
    else if slug == "f" then File
    else NoKind
  }

  /** `Invalid` is a malformed URI; `KindUnknown` a well-formed one of a kind this build does not know. */
  datatype ParseResult = Parsed(uri: URI) | Invalid | KindUnknown

  // ---- byte classes ----------------------------------------------------------

  predicate IsLowerAlnum(c: char) { 'a' <= c <= 'z' || '0' <= c <= '9' }

  predicate IsAlnum(c: char) { IsLowerAlnum(c) || 'A' <= c <= 'Z' }

  /** A first path segment in the reserved kind namespace: 1 to 4 lowercase-alphanumeric bytes. */
  predicate IsKindSlug(s: string) {
    1 <= |s| <= 4 && forall i :: 0 <= i < |s| ==> IsLowerAlnum(s[i])
  }

  predicate IsBase58(s: string) {
    s != "" && forall i :: 0 <= i < |s| ==> IsAlnum(s[i]) && s[i] !in "0OIl"
  }

  // ---- the parser and the printer ---------------------------------------------

  /** The value of the first pair with the key in a raw query string, "" when there is none. */
  function ParamValue(raw: string, key: string): string
    decreases |raw|
  {
    if raw == "" then ""
    else
      var pair := Before(raw, '&');
      if Named(pair, key) then After(pair, '=')
      else ParamValue(After(raw, '&'), key)
  }

  predicate Named(pair: string, key: string) { IndexByte(pair, '=') < |pair| && Before(pair, '=') == key }

  predicate FirstNamedAt(pairs: seq<string>, key: string, i: nat) {
    i < |pairs| && Named(pairs[i], key) && forall j :: 0 <= j < i ==> !Named(pairs[j], key)
  }

  /** The value of the first pair of that name; empty when there is none. */
  ghost predicate IsFirstNamed(pairs: seq<string>, key: string, value: string) {
    if exists i: nat :: FirstNamedAt(pairs, key, i)
    then exists i: nat :: FirstNamedAt(pairs, key, i) && value == After(pairs[i], '=')
    else value == "" && forall j :: 0 <= j < |pairs| ==> !Named(pairs[j], key)
  }

  lemma {:induction false} ParamValueIsFirst(raw: string, key: string)
    ensures IsFirstNamed(Split(raw, '&'), key, ParamValue(raw, key))
    decreases |raw|
  {
    var head, tail := Before(raw, '&'), After(raw, '&');
    SplitFirst(raw, '&');
    if Named(head, key) {
      NamedFirst(Split(raw, '&'), key);
    } else if IndexByte(raw, '&') < |raw| {
      ParamValueIsFirst(tail, key);
      NamedLater(head, Split(tail, '&'), key, ParamValue(tail, key));
    } else {
      NamedNowhere(head, key);
    }
  }

  lemma NamedNowhere(pair: string, key: string)
    requires !Named(pair, key)
    ensures IsFirstNamed([pair], key, "")
  {
  }

  lemma NamedFirst(pairs: seq<string>, key: string)
    requires pairs != [] && Named(pairs[0], key)
    ensures IsFirstNamed(pairs, key, After(pairs[0], '='))
  {
    assert FirstNamedAt(pairs, key, 0);
  }

  lemma NamedLater(pair: string, rest: seq<string>, key: string, value: string)
    requires !Named(pair, key) && IsFirstNamed(rest, key, value)
    ensures IsFirstNamed([pair] + rest, key, value)
  {
    var pairs := [pair] + rest;
    assert forall j :: 0 < j < |pairs| ==> pairs[j] == rest[j - 1];
    if k: nat :| FirstNamedAt(rest, key, k) && value == After(rest[k], '=') {
      assert FirstNamedAt(pairs, key, k + 1) && pairs[k + 1] == rest[k];
    } else {
      assert forall j :: 0 <= j < |pairs| ==> !Named(pairs[j], key);
    }
  }

  /** The loop of the source, over the shrinking rest of the query. */
  method FindParam(rawParams: string, key: string) returns (value: string)
    ensures value == ParamValue(rawParams, key) && IsFirstNamed(Split(rawParams, '&'), key, value)
  {
    var raw := rawParams;
    ParamValueIsFirst(rawParams, key);
    while raw != ""
      invariant ParamValue(raw, key) == ParamValue(rawParams, key)
      decreases |raw|
    {
      var pair := Before(raw, '&');
      raw := After(raw, '&');
      if Named(pair, key) {
        return After(pair, '=');
      }
    }
    return "";
  }

  /** What the path segments, the raw query and the fragment of a URI mean. */
  function Interpret(segs: seq<string>, raw: string, fragment: string): ParseResult
    requires segs != []
  {
    if !IsKindSlug(segs[0]) then Legacy(segs, fragment)
    else Typed(KindOf(segs[0]), segs[1..], ParamValue(raw, "variant"), fragment)
  }

  /** The typed forms, by kind and number of segments after it. */
  function Typed(kind: Kind, args: seq<string>, variant: string, fragment: string): ParseResult {
    var u := ZERO.(kind := kind, fragment := fragment);
    var n := |args|;
    match kind
    case NoKind => KindUnknown
    case Object =>
      if n == 2 then Parsed(u.(spaceId := args[0], objectId := args[1]))
      else if n == 4 then Parsed(u.(spaceId := args[0], objectId := args[1], dataset := args[2], recordId := args[3]))
      else Invalid
    case Identity => if n == 1 then Parsed(u.(identity := args[0])) else Invalid
    case Mention => if n == 2 then Parsed(u.(spaceId := args[0], identity := args[1], legacy := true)) else Invalid
    case Space => if n == 1 then Parsed(u.(spaceId := args[0])) else Invalid
    case Prop => if n == 3 then Parsed(u.(spaceId := args[0], objectId := args[1], propId := args[2])) else Invalid
    case File => if n == 2 then Parsed(u.(spaceId := args[0], fileId := args[1], variant := variant)) else Invalid
  }

  /** The bare object forms, whose first segment is an id. */
  function Legacy(segs: seq<string>, fragment: string): ParseResult
    requires segs != []
  {
    var u := ZERO.(fragment := fragment, kind := Object, legacy := true);
    if |segs| == 1 then Parsed(u.(objectId := segs[0]))
    else if |segs| == 2 then Parsed(u.(spaceId := segs[0], objectId := segs[1]))
    else Invalid
  }

  function Parse(s: string): ParseResult {
    if !(PREFIX <= s) then Invalid
    else
      var rest := s[|PREFIX|..];
      var fragment, beforeFragment := After(rest, '#'), Before(rest, '#');
      var path, raw := Before(beforeFragment, '?'), After(beforeFragment, '?');
      if path == "" || "" in Split(path, '/') then Invalid
      else Interpret(Split(path, '/'), raw, fragment)
  }

  /** The path segments a URI prints. */
  function Path(u: URI): seq<string> {
    if u.kind.NoKind? || (u.legacy && u.kind.Object?) then
      if u.spaceId != "" then [u.spaceId, u.objectId] else [u.objectId]
    else [Slug(u.kind)] + Args(u)
  }

  /** The segments after the kind in a typed form. */
  function Args(u: URI): seq<string>
    requires !u.kind.NoKind?
  {
    match u.kind
    case Object =>
      if u.dataset != "" then [u.spaceId, u.objectId, u.dataset, u.recordId] else [u.spaceId, u.objectId]
    case Identity => [u.identity]
    case Mention => [u.spaceId, u.identity]
    case Space => [u.spaceId]
    case Prop => [u.spaceId, u.objectId, u.propId]
    case File => [u.spaceId, u.fileId]
  }

  function Query(u: URI): string {
    if u.kind.File? && u.variant != "" then "variant" + "=" + u.variant else ""
  }

  function String(u: URI): string {
    Compose(Join(Path(u), "/"), Query(u), u.fragment)
  }

  function Compose(path: string, query: string, fragment: string): string {
    PREFIX + path + (if query != "" then "?" + query else "") + (if fragment != "" then "#" + fragment else "")
  }

  function BuildObject(objectId: string): string { PREFIX + objectId }

  function BuildObjectGlobal(spaceId: string, objectId: string): string {
    PREFIX + Slug(Object) + "/" + spaceId + "/" + objectId
  }

  function BuildIdentity(identity: string): string { PREFIX + Slug(Identity) + "/" + identity }

  predicate IsPropertyValueRef(s: string) {
    match Parse(s)
    case Parsed(u) => u.legacy && u.kind.Object? && u.spaceId == "" && u.fragment == "" && String(u) == s
    case _ => false
  }

  predicate IsIdentityValueRef(s: string) {
    match Parse(s)
    case Parsed(u) => u.kind.Identity? && u.fragment == "" && IsBase58(u.identity) && String(u) == s
    case _ => false
  }

  // ---- the URIs a parse can yield ----------------------------------------------

  /** A path segment: non-empty, and none of the bytes that structure a URI. */
  predicate Segment(s: string) {
    s != "" && Lacks(s, '/') && Lacks(s, '?') && Lacks(s, '#')
  }

  /** The fields of a URI that its kind leaves empty are empty, the others are segments. */
  predicate Shaped(u: URI) {
    && Lacks(u.variant, '#') && Lacks(u.variant, '&')
    && (forall i :: 0 <= i < |Path(u)| ==> Segment(Path(u)[i]))
    && (u == ZERO.(kind := Object, legacy := true, spaceId := u.spaceId, objectId := u.objectId, fragment := u.fragment)
        || (u == ZERO.(kind := Object, spaceId := u.spaceId, objectId := u.objectId, dataset := u.dataset,
                       recordId := u.recordId, fragment := u.fragment) && (u.dataset == "" ==> u.recordId == ""))
        || u == ZERO.(kind := Identity, identity := u.identity, fragment := u.fragment)
        || u == ZERO.(kind := Mention, legacy := true, spaceId := u.spaceId, identity := u.identity,
                       fragment := u.fragment)
        || u == ZERO.(kind := Space, spaceId := u.spaceId, fragment := u.fragment)
        || u == ZERO.(kind := Prop, spaceId := u.spaceId, objectId := u.objectId, propId := u.propId,
                       fragment := u.fragment)
        || u == ZERO.(kind := File, spaceId := u.spaceId, fileId := u.fileId, variant := u.variant,
                       fragment := u.fragment))
  }

  predicate BareLegacy(u: URI) { u.legacy && u.kind.Object? && u.spaceId == "" }

  predicate PairLegacy(u: URI) { u.legacy && u.kind.Object? && u.spaceId != "" }

  /** Exactly the results of a parse: a legacy form never opens with a kind slug. */
  predicate WellFormed(u: URI) {
    && Shaped(u)
    && (BareLegacy(u) ==> !IsKindSlug(u.objectId))
    && (PairLegacy(u) ==> !IsKindSlug(u.spaceId))
  }

  /** Cutting a composed URI back into path, query and fragment. */
  lemma Decompose(path: string, query: string, fragment: string)
    requires Lacks(path, '?') && Lacks(path, '#') && Lacks(query, '#')
    ensures var s := Compose(path, query, fragment);
      PREFIX <= s && After(s[|PREFIX|..], '#') == fragment
      && Before(Before(s[|PREFIX|..], '#'), '?') == path && After(Before(s[|PREFIX|..], '#'), '?') == query
  {
    var s := Compose(path, query, fragment);
    var head := path + (if query != "" then "?" + query else "");
    assert s[|PREFIX|..] == head + (if fragment != "" then "#" + fragment else "");
    if fragment != "" {
      assert s[|PREFIX|..] == head + ['#'] + fragment;
      CutAt(head, '#', fragment);
    } else {
      assert s[|PREFIX|..] == head;
      CutNone(head, '#');
    }
    if query != "" {
      assert head == path + ['?'] + query;
      CutAt(path, '?', query);
    } else {
      assert head == path;
      CutNone(path, '?');
    }
  }

  lemma {:induction false} JoinLacks(parts: seq<string>, d: char)
    requires d != '/' && forall i :: 0 <= i < |parts| ==> Lacks(parts[i], d)
    ensures Lacks(Join(parts, "/"), d)
  {
    if |parts| > 1 {
      JoinLacks(parts[1..], d);
    }
  }

  lemma JoinNonEmpty(parts: seq<string>)
    requires parts != [] && parts[0] != ""
    ensures Join(parts, "/") != ""
  {
  }

  lemma ParamAlone(key: string, v: string)
    requires Lacks(key, '=') && Lacks(key, '&') && Lacks(v, '&')
    ensures ParamValue(key + "=" + v, key) == v
  {
    var raw := key + "=" + v;
    CutNone(raw, '&');
    CutAt(key, '=', v);
    assert raw == key + ['='] + v;
  }

  /** The printed form can be cut back into exactly the segments, query and fragment printed. */
  lemma PrintedParts(u: URI)
    requires Shaped(u)
    ensures PREFIX <= String(u)
    ensures var rest := String(u)[|PREFIX|..];
      After(rest, '#') == u.fragment && After(Before(rest, '#'), '?') == Query(u)
      && Before(Before(rest, '#'), '?') == Join(Path(u), "/") && Split(Join(Path(u), "/"), '/') == Path(u)
  {
    var path := Path(u);
    JoinLacks(path, '?');
    JoinLacks(path, '#');
    Decompose(Join(path, "/"), Query(u), u.fragment);
    SplitJoin(path, '/');
    assert "/" == ['/'];
  }

  /** Parsing the printed form interprets the very segments, query and fragment printed. */
  lemma ParsePrinted(u: URI)
    requires Shaped(u)
    ensures Parse(String(u)) == Interpret(Path(u), Query(u), u.fragment)
  {
    PrintedParts(u);
    JoinNonEmpty(Path(u));
    assert forall i :: 0 <= i < |Path(u)| ==> Segment(Path(u)[i]);
  }

  lemma SlugNames(k: Kind)
    requires !k.NoKind?
    ensures IsKindSlug(Slug(k)) && KindOf(Slug(k)) == k && Segment(Slug(k))
  {
  }

  lemma QueryCarriesVariant(u: URI)
    requires Shaped(u)
    ensures ParamValue(Query(u), "variant") == u.variant
  {
    if u.variant != "" {
      ParamAlone("variant", u.variant);
    }
  }

  /** Reading back what was printed. */
  lemma RoundTrip(u: URI)
    requires WellFormed(u)
    ensures Parse(String(u)) == Parsed(u)
  {
    ParsePrinted(u);
    if BareLegacy(u) || PairLegacy(u) {
      assert Interpret(Path(u), Query(u), u.fragment) == Legacy(Path(u), u.fragment);
    } else {
      SlugNames(u.kind);
      QueryCarriesVariant(u);
      assert Path(u)[1..] == Args(u);
      assert Interpret(Path(u), Query(u), u.fragment) == Typed(u.kind, Args(u), u.variant, u.fragment);
    }
  }

  lemma {:induction false} ParamValueLacks(raw: string, key: string, d: char)
    requires Lacks(raw, d)
    ensures Lacks(ParamValue(raw, key), d) && Lacks(ParamValue(raw, key), '&')
    decreases |raw|
  {
    if raw != "" {
      ParamValueLacks(After(raw, '&'), key, d);
    }
  }

  ghost predicate AllSegments(segs: seq<string>) { forall i :: 0 <= i < |segs| ==> Segment(segs[i]) }

  lemma LegacyWellFormed(segs: seq<string>, fragment: string)
    requires segs != [] && AllSegments(segs) && !IsKindSlug(segs[0]) && Legacy(segs, fragment).Parsed?
    ensures WellFormed(Legacy(segs, fragment).uri)
  {
    assert Path(Legacy(segs, fragment).uri) == segs;
  }

  lemma TypedWellFormed(kind: Kind, args: seq<string>, variant: string, fragment: string)
    requires AllSegments(args) && Lacks(variant, '#') && Lacks(variant, '&')
    requires Typed(kind, args, variant, fragment).Parsed?
    ensures WellFormed(Typed(kind, args, variant, fragment).uri)
  {
    var u := Typed(kind, args, variant, fragment).uri;
    SlugNames(kind);
    assert Path(u) == [Slug(kind)] + args;
  }

  lemma InterpretYieldsWellFormed(segs: seq<string>, raw: string, fragment: string)
    requires segs != [] && AllSegments(segs)
    requires Lacks(raw, '#') && Interpret(segs, raw, fragment).Parsed?
    ensures WellFormed(Interpret(segs, raw, fragment).uri)
  {
    if IsKindSlug(segs[0]) {
      ParamValueLacks(raw, "variant", '#');
      TypedWellFormed(KindOf(segs[0]), segs[1..], ParamValue(raw, "variant"), fragment);
    } else {
      LegacyWellFormed(segs, fragment);
    }
  }

  /** A parse only ever yields well-formed URIs. */
  lemma ParseYieldsWellFormed(s: string)
    requires Parse(s).Parsed?
    ensures WellFormed(Parse(s).uri)
  {
    var rest := s[|PREFIX|..];
    var path := Before(Before(rest, '#'), '?');
    var raw := After(Before(rest, '#'), '?');
    var segs := Split(path, '/');
    assert Lacks(path, '#') && Lacks(path, '?') && Lacks(raw, '#');
    JoinSplit(path, '/');
    SplitLacks(path, '/', '?');
    SplitLacks(path, '/', '#');
    assert forall i :: 0 <= i < |segs| ==> segs[i] in segs && Segment(segs[i]);
    InterpretYieldsWellFormed(segs, raw, After(rest, '#'));
  }

  /** Printing and parsing are inverse on everything that parses. */
  lemma ParseRoundTrip(s: string)
    requires Parse(s).Parsed?
    ensures Parse(String(Parse(s).uri)) == Parse(s)
  {
    ParseYieldsWellFormed(s);
    RoundTrip(Parse(s).uri);
  }

  lemma StringInjectiveOnParsed(s: string, t: string)
    requires Parse(s).Parsed? && Parse(t).Parsed? && String(Parse(s).uri) == String(Parse(t).uri)
    ensures Parse(s) == Parse(t)
  {
    ParseRoundTrip(s);
    ParseRoundTrip(t);
  }

  /** The property-value form: "any://" and one bare segment that is no kind slug, and nothing else. */
  lemma PropertyValueForm(s: string)
    ensures IsPropertyValueRef(s) <==> exists id :: s == "any://" + id && Segment(id) && !IsKindSlug(id)
  {
    assert PREFIX == "any://";
    if IsPropertyValueRef(s) {
      ParseYieldsWellFormed(s);
      var u := Parse(s).uri;
      assert Path(u) == [u.objectId] && Segment(Path(u)[0]);
      assert s == PREFIX + u.objectId;
    }
    forall id | s == PREFIX + id && Segment(id) && !IsKindSlug(id)
      ensures IsPropertyValueRef(s)
    {
      var u := ZERO.(kind := Object, legacy := true, objectId := id);
      assert Path(u) == [id];
      RoundTrip(u);
      assert String(u) == s;
    }
  }

  /** An identity reference prints as the built one. */
  lemma IdentityString(id: string)
    ensures String(ZERO.(kind := Identity, identity := id)) == BuildIdentity(id)
  {
    var path := [Slug(Identity), id];
    assert Path(ZERO.(kind := Identity, identity := id)) == path;
    assert path[1..] == [id];
    assert Join(path, "/") == Slug(Identity) + "/" + id;
  }

  lemma Base58IsSegment(s: string)
    requires IsBase58(s)
    ensures Segment(s)
  {
  }

  /** How the builders spell. */
  lemma Built(id: string, sp: string)
    ensures BuildObject(id) == "any://" + id && BuildIdentity(id) == "any://u/" + id
    ensures BuildObjectGlobal(sp, id) == "any://o/" + sp + "/" + id
  {
    assert PREFIX == "any://" && PREFIX + "u" + "/" == "any://u/" && PREFIX + "o" + "/" == "any://o/";
  }

  /** The member-value form: "any://u/" and a base58 identity. */
  lemma IdentityValueForm(s: string)
    ensures IsIdentityValueRef(s) <==> exists id :: s == "any://u/" + id && IsBase58(id)
  {
    if IsIdentityValueRef(s) {
      ParseYieldsWellFormed(s);
      IdentityString(Parse(s).uri.identity);
      Built(Parse(s).uri.identity, "");
    }
    forall id | s == "any://u/" + id && IsBase58(id)
      ensures IsIdentityValueRef(s)
    {
      IdentityValueBuilt(id);
      Built(id, "");
    }
  }

  lemma IdentityValueBuilt(id: string)
    requires IsBase58(id)
    ensures IsIdentityValueRef(BuildIdentity(id))
  {
    var u := ZERO.(kind := Identity, identity := id);
    Base58IsSegment(id);
    SlugNames(Identity);
    IdentityString(id);
    RoundTrip(u);
  }
}
