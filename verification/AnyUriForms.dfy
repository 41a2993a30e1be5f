/** The URI grammar as it is written: one lemma per form, spelled out letter by letter, read and printed. */
module AnyUriForms {
  import opened Strings
  import opened AnyUri

  // ---- segments, query and fragment ------------------------------------------------

  /** Any path of segments, with any query and fragment, is read by its segments. */
  lemma ParseComposed(segs: seq<string>, raw: string, fragment: string)
    requires segs != [] && AllSegments(segs) && Lacks(raw, '#')
    ensures Parse(Compose(Join(segs, "/"), raw, fragment)) == Interpret(segs, raw, fragment)
  {
    JoinLacks(segs, '?');
    JoinLacks(segs, '#');
    Decompose(Join(segs, "/"), raw, fragment);
    SplitJoin(segs, '/');
    assert "/" == ['/'];
    JoinNonEmpty(segs);
  }

  /** The typed forms: what each letter stands for, and how many segments follow it. */
  lemma TypedTable(letter: char, args: seq<string>, raw: string, fragment: string)
    requires IsLowerAlnum(letter) && AllSegments(args) && Lacks(raw, '#')
    ensures var n, u := |args|, ZERO.(fragment := fragment);
      Parse(Compose(Join([[letter]] + args, "/"), raw, fragment)) ==
      if letter == 'u' then
        if n == 1 then Parsed(u.(kind := Identity, identity := args[0])) else Invalid
      else if letter == 's' then
        if n == 1 then Parsed(u.(kind := Space, spaceId := args[0])) else Invalid
      else if letter == 'o' then
        if n == 2 then Parsed(u.(kind := Object, spaceId := args[0], objectId := args[1]))
        else if n == 4 then
          Parsed(u.(kind := Object, spaceId := args[0], objectId := args[1], dataset := args[2], recordId := args[3]))
        else Invalid
      else if letter == 'p' then
        if n == 3 then Parsed(u.(kind := Prop, spaceId := args[0], objectId := args[1], propId := args[2]))
        else Invalid
      else if letter == 'f' then
        if n == 2 then
          Parsed(u.(kind := File, spaceId := args[0], fileId := args[1], variant := ParamValue(raw, "variant")))
        else Invalid
      else if letter == 'm' then
        if n == 2 then Parsed(u.(kind := Mention, spaceId := args[0], identity := args[1], legacy := true)) else Invalid
      else KindUnknown
  {
    var segs := [[letter]] + args;
    LetterKind(letter);
    assert segs[0] == [letter] && segs[1..] == args;
    assert forall i :: 0 < i < |segs| ==> segs[i] == args[i - 1];
    ParseComposed(segs, raw, fragment);
  }

  lemma LetterKind(letter: char)
    requires IsLowerAlnum(letter)
    ensures IsKindSlug([letter]) && Segment([letter])
    ensures KindOf([letter]) ==
      match letter
      case 'u' => Identity
      case 's' => Space
      case 'o' => Object
      case 'p' => Prop
      case 'f' => File
      case 'm' => Mention
      case _ => NoKind
  {
    assert |[letter]| == 1 && [letter][0] == letter;
    assert "o"[0] == 'o' && "u"[0] == 'u' && "m"[0] == 'm' && "s"[0] == 's' && "p"[0] == 'p' && "f"[0] == 'f';
  }

  /** Longer slugs are kinds this build does not know; anything else opens a legacy form. */
  lemma OtherFirstSegments(segs: seq<string>, raw: string, fragment: string)
    requires segs != [] && AllSegments(segs) && Lacks(raw, '#')
    ensures var r, u := Parse(Compose(Join(segs, "/"), raw, fragment)), ZERO.(kind := Object, legacy := true);
      && (2 <= |segs[0]| <= 4 && IsKindSlug(segs[0]) ==> r == KindUnknown)
      && (!IsKindSlug(segs[0]) && |segs| == 1 ==> r == Parsed(u.(objectId := segs[0], fragment := fragment)))
      && (!IsKindSlug(segs[0]) && |segs| == 2 ==>
            r == Parsed(u.(spaceId := segs[0], objectId := segs[1], fragment := fragment)))
      && (!IsKindSlug(segs[0]) && |segs| > 2 ==> r == Invalid)
  {
    ParseComposed(segs, raw, fragment);
    assert 2 <= |segs[0]| ==> KindOf(segs[0]) == NoKind;
  }

  /** The reserved namespace: one to four lowercase letters or digits. */
  lemma KindSlugs(s: string)
    ensures IsKindSlug(s) <==>
      (|s| == 1 || |s| == 2 || |s| == 3 || |s| == 4) &&
        forall i :: 0 <= i < |s| ==> 'a' <= s[i] <= 'z' || '0' <= s[i] <= '9'
  {
  }

  /** Nothing is read without the prefix. */
  lemma OtherPrefixRefused(s: string)
    requires !("any://" <= s)
    ensures Parse(s) == Invalid
  {
    assert PREFIX == "any://";
  }

  /** An empty segment, the empty path included, is refused whatever else the URI says. */
  lemma EmptySegmentRefused(segs: seq<string>, raw: string, fragment: string)
    requires Lacks(raw, '#') && "" in segs
    requires forall i :: 0 <= i < |segs| ==> Lacks(segs[i], '/') && Lacks(segs[i], '?') && Lacks(segs[i], '#')
    ensures Parse(Compose(Join(segs, "/"), raw, fragment)) == Invalid
  {
    JoinLacks(segs, '?');
    JoinLacks(segs, '#');
    Decompose(Join(segs, "/"), raw, fragment);
    SplitJoin(segs, '/');
    assert "/" == ['/'];
  }

  // ---- spelling ----------------------------------------------------------------------

  lemma JoinTwo(a: string, b: string)
    ensures Join([a, b], "/") == a + "/" + b
  {
    assert [a, b][1..] == [b];
  }

  lemma JoinMore(a: string, b: string, rest: seq<string>)
    requires rest != []
    ensures Join([a, b] + rest, "/") == a + "/" + Join([b] + rest, "/")
  {
    assert ([a, b] + rest)[1..] == [b] + rest;
  }

  lemma Spell(head: string, a: string, b: string, tail: string)
    ensures head + (a + "/" + b) == head + a + "/" + b
    ensures head + (a + "/" + tail) == head + a + "/" + tail
  {
  }

  /** "<prefix>a" */
  lemma Spell0(a: string)
    ensures Compose(Join([a], "/"), "", "") == PREFIX + a
  {
  }

  /** "<prefix>k/a" */
  lemma Spell1(k: string, a: string)
    ensures Compose(Join([k, a], "/"), "", "") == (PREFIX + k + "/") + a
  {
    JoinTwo(k, a);
    Spell(PREFIX, k, a, "");
  }

  /** "<prefix>k/a/b" */
  lemma Spell2(k: string, a: string, b: string)
    ensures Compose(Join([k, a, b], "/"), "", "") == (PREFIX + k + "/") + a + "/" + b
  {
    JoinTwo(a, b);
    JoinMore(k, a, [b]);
    assert [k, a] + [b] == [k, a, b] && [a] + [b] == [a, b];
    Spell(PREFIX, k, "", a + "/" + b);
    Spell(PREFIX + k + "/", a, b, "");
  }

  /** "<prefix>k/a/b/c" */
  lemma Spell3(k: string, a: string, b: string, c: string)
    ensures Compose(Join([k, a, b, c], "/"), "", "") == (PREFIX + k + "/") + a + "/" + b + "/" + c
  {
    Spell2(k + "/" + a, b, c);
    JoinTwo(b, c);
    JoinMore(a, b, [c]);
    JoinMore(k, a, [b, c]);
    JoinMore(k + "/" + a, b, [c]);
    assert [k, a] + [b, c] == [k, a, b, c] && [a] + [b, c] == [a, b, c] == [a, b] + [c] && [b] + [c] == [b, c];
    assert [k + "/" + a, b, c] == [k + "/" + a, b] + [c];
    Spell(PREFIX, k, a, "");
    Spell(k + "/", a, "", Join([b, c], "/"));
  }

  /** "<prefix>k/a/b/c/d" */
  lemma Spell4(k: string, a: string, b: string, c: string, d: string)
    ensures Compose(Join([k, a, b, c, d], "/"), "", "") == (PREFIX + k + "/") + a + "/" + b + "/" + c + "/" + d
  {
    Spell3(k + "/" + a, b, c, d);
    JoinMore(a, b, [c, d]);
    JoinMore(k, a, [b, c, d]);
    JoinMore(k + "/" + a, b, [c, d]);
    assert [k, a] + [b, c, d] == [k, a, b, c, d] && [a] + [b, c, d] == [a, b, c, d] == [a, b] + [c, d];
    assert [b] + [c, d] == [b, c, d] && [k + "/" + a, b, c, d] == [k + "/" + a, b] + [c, d];
    Spell(PREFIX, k, a, "");
    Spell(k + "/", a, "", Join([b, c, d], "/"));
  }

  // ---- the forms, letter by letter ---------------------------------------------------

  /** Read as u, and printed by it. */
  predicate Spells(s: string, u: URI) {
    Parse(s) == Parsed(u) && String(u) == s
  }

  /** "any://u/<identity>" */
  lemma IdentityForm(id: string)
    requires Segment(id)
    ensures Spells("any://u/" + id, ZERO.(kind := Identity, identity := id))
  {
    Spell1("u", id);
    TypedTable('u', [id], "", "");
    assert [['u']] + [id] == ["u", id];
    assert PREFIX + "u" + "/" == "any://u/";
    assert Path(ZERO.(kind := Identity, identity := id)) == ["u", id];
  }

  /** "any://s/<space>" */
  lemma SpaceForm(sp: string)
    requires Segment(sp)
    ensures Spells("any://s/" + sp, ZERO.(kind := Space, spaceId := sp))
  {
    Spell1("s", sp);
    TypedTable('s', [sp], "", "");
    assert [['s']] + [sp] == ["s", sp];
    assert PREFIX + "s" + "/" == "any://s/";
    assert Path(ZERO.(kind := Space, spaceId := sp)) == ["s", sp];
  }

  /** "any://o/<space>/<object>" */
  lemma ObjectForm(sp: string, id: string)
    requires Segment(sp) && Segment(id)
    ensures Spells("any://o/" + sp + "/" + id, ZERO.(kind := Object, spaceId := sp, objectId := id))
  {
    ObjectSpelled(sp, id);
    TypedTable('o', [sp, id], "", "");
    assert [['o']] + [sp, id] == ["o", sp, id];
    assert Path(ZERO.(kind := Object, spaceId := sp, objectId := id)) == ["o", sp, id];
  }

  /** Printed so whatever the ids are. */
  lemma ObjectSpelled(sp: string, id: string)
    ensures String(ZERO.(kind := Object, spaceId := sp, objectId := id)) == "any://o/" + sp + "/" + id
  {
    Spell2("o", sp, id);
    assert PREFIX + "o" + "/" == "any://o/";
    assert Path(ZERO.(kind := Object, spaceId := sp, objectId := id)) == ["o", sp, id];
  }

  /** "any://o/<space>/<object>/<dataset>/<record>" */
  lemma RecordForm(sp: string, id: string, dataset: string, rec: string)
    requires Segment(sp) && Segment(id) && Segment(dataset) && Segment(rec)
    ensures Spells("any://o/" + sp + "/" + id + "/" + dataset + "/" + rec,
              ZERO.(kind := Object, spaceId := sp, objectId := id, dataset := dataset, recordId := rec))
  {
    var u := ZERO.(kind := Object, spaceId := sp, objectId := id, dataset := dataset, recordId := rec);
    Spell4("o", sp, id, dataset, rec);
    TypedTable('o', [sp, id, dataset, rec], "", "");
    assert [['o']] + [sp, id, dataset, rec] == ["o", sp, id, dataset, rec];
    assert PREFIX + "o" + "/" == "any://o/";
    assert Path(u) == ["o", sp, id, dataset, rec];
  }

  /** "any://p/<space>/<object>/<property>" */
  lemma PropForm(sp: string, id: string, prop: string)
    requires Segment(sp) && Segment(id) && Segment(prop)
    ensures Spells("any://p/" + sp + "/" + id + "/" + prop,
              ZERO.(kind := Prop, spaceId := sp, objectId := id, propId := prop))
  {
    Spell3("p", sp, id, prop);
    TypedTable('p', [sp, id, prop], "", "");
    assert [['p']] + [sp, id, prop] == ["p", sp, id, prop];
    assert PREFIX + "p" + "/" == "any://p/";
    assert Path(ZERO.(kind := Prop, spaceId := sp, objectId := id, propId := prop)) == ["p", sp, id, prop];
  }

  /** "any://m/<space>/<identity>", a legacy form */
  lemma MentionForm(sp: string, id: string)
    requires Segment(sp) && Segment(id)
    ensures Spells("any://m/" + sp + "/" + id, ZERO.(kind := Mention, spaceId := sp, identity := id, legacy := true))
  {
    Spell2("m", sp, id);
    TypedTable('m', [sp, id], "", "");
    assert [['m']] + [sp, id] == ["m", sp, id];
    assert PREFIX + "m" + "/" == "any://m/";
    assert Path(ZERO.(kind := Mention, spaceId := sp, identity := id, legacy := true)) == ["m", sp, id];
  }

  /** "any://f/<space>/<file>" */
  lemma FileForm(sp: string, file: string)
    requires Segment(sp) && Segment(file)
    ensures Spells("any://f/" + sp + "/" + file, ZERO.(kind := File, spaceId := sp, fileId := file))
  {
    Spell2("f", sp, file);
    TypedTable('f', [sp, file], "", "");
    assert [['f']] + [sp, file] == ["f", sp, file];
    assert PREFIX + "f" + "/" == "any://f/";
    assert Path(ZERO.(kind := File, spaceId := sp, fileId := file)) == ["f", sp, file];
  }

  /** "any://<object>", a legacy form: the object is of the space at hand */
  lemma BareForm(id: string)
    requires Segment(id) && !IsKindSlug(id)
    ensures Spells("any://" + id, ZERO.(kind := Object, objectId := id, legacy := true))
  {
    OtherFirstSegments([id], "", "");
    Spell0(id);
    assert PREFIX == "any://";
    assert Path(ZERO.(kind := Object, objectId := id, legacy := true)) == [id];
  }

  /** "any://<space>/<object>", a legacy form */
  lemma PairForm(sp: string, id: string)
    requires Segment(sp) && Segment(id) && !IsKindSlug(sp)
    ensures Spells("any://" + sp + "/" + id, ZERO.(kind := Object, spaceId := sp, objectId := id, legacy := true))
  {
    OtherFirstSegments([sp, id], "", "");
    Spell1(sp, id);
    assert PREFIX == "any://";
    assert Path(ZERO.(kind := Object, spaceId := sp, objectId := id, legacy := true)) == [sp, id];
  }

  /** "any://f/<space>/<file>?variant=<variant>" */
  lemma VariantForm(sp: string, file: string, variant: string)
    requires Segment(sp) && Segment(file) && variant != "" && Lacks(variant, '#') && Lacks(variant, '&')
    ensures Spells("any://f/" + sp + "/" + file + "?variant=" + variant,
              ZERO.(kind := File, spaceId := sp, fileId := file, variant := variant))
  {
    var u := ZERO.(kind := File, spaceId := sp, fileId := file, variant := variant);
    var key := "variant";
    var raw := key + "=" + variant;
    VariantQuery(variant);
    VariantRead(sp, file, raw);
    Spell2("f", sp, file);
    assert [['f']] + [sp, file] == ["f", sp, file] == Path(u);
    assert PREFIX + "f" + "/" == "any://f/";
    WithQuery(Join(Path(u), "/"), raw);
    VariantSpelled("any://f/" + sp + "/" + file, variant);
  }

  lemma VariantRead(sp: string, file: string, raw: string)
    requires Segment(sp) && Segment(file) && Lacks(raw, '#')
    ensures Parse(Compose(Join([['f']] + [sp, file], "/"), raw, "")) ==
      Parsed(ZERO.(kind := File, spaceId := sp, fileId := file, variant := ParamValue(raw, "variant")))
  {
    TypedTable('f', [sp, file], raw, "");
  }

  lemma VariantQuery(variant: string)
    requires Lacks(variant, '#') && Lacks(variant, '&')
    ensures Lacks("variant" + "=" + variant, '#') && ParamValue("variant" + "=" + variant, "variant") == variant
  {
    ParamAlone("variant", variant);
  }

  lemma WithQuery(path: string, raw: string)
    requires raw != ""
    ensures Compose(path, raw, "") == Compose(path, "", "") + "?" + raw
  {
  }

  lemma VariantSpelled(head: string, variant: string)
    ensures head + "?" + ("variant" + "=" + variant) == head + "?variant=" + variant
  {
    assert "?variant=" == "?" + "variant" + "=";
  }

  /** "<form>#<fragment>": a fragment changes nothing else. */
  lemma FragmentForm(s: string, u: URI, fragment: string)
    requires Spells(s, u) && u.fragment == "" && fragment != ""
    ensures Spells(s + "#" + fragment, u.(fragment := fragment))
  {
    var v := u.(fragment := fragment);
    ParseYieldsWellFormed(s);
    assert Path(v) == Path(u) && Query(v) == Query(u);
    PathAndQuery(u);
    ParseComposed(Path(u), Query(u), "");
    ParseComposed(Path(u), Query(u), fragment);
    FragmentAside(Path(u), Query(u), u, fragment);
    WithFragment(Join(Path(u), "/"), Query(u), fragment);
  }

  lemma PathAndQuery(u: URI)
    requires WellFormed(u)
    ensures Path(u) != [] && AllSegments(Path(u)) && Lacks(Query(u), '#')
  {
  }

  lemma FragmentAside(segs: seq<string>, raw: string, u: URI, fragment: string)
    requires segs != [] && Interpret(segs, raw, "") == Parsed(u)
    ensures Interpret(segs, raw, fragment) == Parsed(u.(fragment := fragment))
  {
  }

  lemma WithFragment(path: string, raw: string, fragment: string)
    requires fragment != ""
    ensures Compose(path, raw, fragment) == Compose(path, raw, "") + "#" + fragment
  {
  }

  /** The alphabet of identities: digits and letters without 0, O, I and l. */
  lemma Base58Alphabet(s: string)
    ensures IsBase58(s) <==> s != "" && forall i :: 0 <= i < |s| ==>
      '1' <= s[i] <= '9' || 'a' <= s[i] <= 'k' || 'm' <= s[i] <= 'z' ||
      'A' <= s[i] <= 'H' || 'J' <= s[i] <= 'N' || 'P' <= s[i] <= 'Z'
  {
    forall i | 0 <= i < |s|
      ensures s[i] in "0OIl" <==> s[i] == '0' || s[i] == 'O' || s[i] == 'I' || s[i] == 'l'
    {
      OddOnes(s[i]);
    }
  }

  lemma OddOnes(c: char)
    ensures c in "0OIl" <==> c == '0' || c == 'O' || c == 'I' || c == 'l'
  {
    assert "0OIl" == ['0', 'O', 'I', 'l'];
  }
}
