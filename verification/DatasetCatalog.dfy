/**
 * How runtime datasets leave the index: catalogs seen per space, names retired from them, evict and stream in
 * pairs.
 */
module DatasetCatalog {
  import opened Prelude

  /** A dataset of a resolved catalog. `text`: it has text documents; `streamed`: its records are read at all. */
  datatype Entry = Entry(name: string, owners: seq<string>, text: bool, streamed: bool)

  type Catalog = seq<Entry>

  ghost function Names(cat: Catalog): set<string> { set e | e in cat :: e.name }

  /** An object may hold a dataset when one of its owners is attached to it. */
  predicate Holds(owners: seq<string>, attached: set<string>) { exists o :: o in owners && o in attached }

  predicate IsActive(e: Entry, attached: set<string>) { e.streamed && Holds(e.owners, attached) }

  /** Entries that share a name say the same. */
  ghost predicate Agreeing(cat: Catalog) {
    forall e, f :: e in cat && f in cat && e.name == f.name ==> e == f
  }

  // ---- resolving a catalog ------------------------------------------------------

  /** What a dataset's schema document says, once decoded; `keys` is missing when the text mapping is malformed. */
  datatype Doc = Doc(title: string, keys: Option<seq<string>>, scopeOk: bool, linkFields: set<string>)

  /** A dataset as the space lists it; `doc` is missing when its schema document does not decode. */
  datatype Listed = Listed(name: string, owners: seq<string>, mod: string, doc: Option<Doc>)

  const RECORDS := "records"

  predicate Runtime(d: Listed, skip: set<string>) {
    |d.owners| == 1 && (d.mod == "" || d.mod == RECORDS) && d.name !in skip && ':' !in d.name
  }

  predicate HasText(doc: Doc) {
    doc.keys.Some? && (doc.title != "" || doc.keys.value != []) && doc.scopeOk
  }

  /** Text documents need a usable search mapping; without one a dataset is read for its links only, if it has any. */
  function SchemaEntry(d: Listed): Entry {
    match d.doc
    case None => Entry(d.name, d.owners, false, false)
    case Some(doc) => Entry(d.name, d.owners, HasText(doc), HasText(doc) || doc.linkFields != {})
  }

  function SchemaCatalog(list: seq<Listed>, skip: set<string>): Catalog {
    if list == [] then []
    else (if Runtime(list[0], skip) then [SchemaEntry(list[0])] else []) + SchemaCatalog(list[1..], skip)
  }

  /** A module's collections; a name listed more than once has the owners of its last listing. */
  function ModuleCatalog(list: seq<Listed>, mod: string): Catalog {
    ModuleEntries(list, list, mod)
  }

  function ModuleEntries(part: seq<Listed>, list: seq<Listed>, mod: string): Catalog {
    if part == [] then []
    else (if part[0].mod == mod then [Entry(part[0].name, OwnersOf(list, mod, part[0].name), true, true)] else [])
         + ModuleEntries(part[1..], list, mod)
  }

  /** The owners a name has in the table: those of the last listing under it. */
  function OwnersOf(list: seq<Listed>, mod: string, name: string): seq<string> {
    if list == [] then []
    else if list[|list| - 1].mod == mod && list[|list| - 1].name == name then list[|list| - 1].owners
    else OwnersOf(list[..|list| - 1], mod, name)
  }

  // ---- the chunker --------------------------------------------------------------

  function SetOf(m: map<string, set<string>>, space: string): set<string> { if space in m then m[space] else {} }

  /** What the schema chunker and the module chunkers share. */
  class Chunker {
    var known: map<string, set<string>>
    var retired: map<string, set<string>>
    var pending: map<string, Catalog>
    /** The name sets of the catalogs resolved so far, per space, in order. */
    ghost var resolved: map<string, seq<set<string>>>

    ghost function History(space: string): seq<set<string>>
      reads this
    {
      if space in resolved then resolved[space] else []
    }

    /** For every space: known is every name ever seen, retired is what the last catalog lacks of it. */
    ghost predicate Valid()
      reads this
    {
      forall space ::
        && SetOf(known, space) == Union(History(space))
        && SetOf(retired, space) == Union(History(space)) - Current(History(space))
    }

    constructor ()
      ensures Valid() && known == map[] && retired == map[] && pending == map[] && resolved == map[]
    {
      known, retired, pending, resolved := map[], map[], map[], map[];
    }

    /** Folds one catalog's names in: vanished names retire, names that are back no longer do. */
    method TrackRetired(space: string, names: seq<string>)
      requires Valid()
      modifies this`known, this`retired, this`resolved
      ensures Valid() && resolved == old(resolved)[space := old(History(space)) + [set n | n in names]]
    {
      var current := set n | n in names;
      var gone := Vanish(SetOf(known, space), current, SetOf(retired, space));
      var seen;
      seen, gone := Appear(current, SetOf(known, space), gone);
      ghost var was := History(space);
      UnionNext(was, current);
      assert SetOf(known, space) == Union(was) && SetOf(retired, space) == Union(was) - Current(was);
      assert gone == Union(was + [current]) - current;
      known := known[space := seen];
      retired := retired[space := gone];
      resolved := resolved[space := was + [current]];
      forall sp
        ensures SetOf(known, sp) == Union(History(sp)) &&
          SetOf(retired, sp) == Union(History(sp)) - Current(History(sp))
      {
        assert sp != space ==> History(sp) == old(History(sp)) && SetOf(known, sp) == old(SetOf(known, sp));
      }
    }

    /** Every dataset the object cannot hold, every one with nothing to read, and every retired name. */
    method EvictDatasets(space: string, cat: Catalog, attached: set<string>) returns (out: seq<string>)
      requires Valid()
      modifies this
      ensures Valid() && resolved == old(resolved)[space := old(History(space)) + [Names(cat)]]
      ensures pending == old(pending)[space := cat]
      ensures forall n :: n in out <==> n in Inactive(cat, attached) || n in Union(History(space)) - Names(cat)
      ensures forall n :: n in out <==>
        Unreadable(cat, attached, n) || (n in Union(History(space)) && forall e :: e in cat ==> e.name != n)
    {
      HeldMeans(cat, attached);
      Resolve(space, cat);
      out := Select(cat, NotHeld(attached));
      PicksAre(cat, attached);
      var gone := SetOf(retired, space);
      assert gone == Union(History(space)) - Names(cat);
      ghost var listed := out;
      var todo := gone;
      while todo != {}
        invariant todo <= gone && forall n :: n in out <==> n in listed || n in gone - todo
        decreases todo
      {
        var name :| name in todo;
        out := out + [name];
        todo := todo - {name};
      }
      pending := pending[space := cat];
    }

    method Resolve(space: string, cat: Catalog)
      requires Valid()
      modifies this`known, this`retired, this`resolved
      ensures Valid() && resolved == old(resolved)[space := old(History(space)) + [Names(cat)]]
      ensures SetOf(retired, space) == Union(History(space)) - Names(cat)
    {
      var names := Select(cat, Any);
      NamesArePicks(cat, names);
      TrackRetired(space, names);
    }

    /** The datasets that keep their links but have no text documents. */
    method EvictText(space: string, cat: Catalog, attached: set<string>) returns (out: seq<string>)
      requires Valid()
      modifies this`known, this`retired, this`resolved
      ensures Valid() && resolved == old(resolved)[space := old(History(space)) + [Names(cat)]]
      ensures forall n :: n in out <==> n in LinkOnly(cat, attached)
      ensures forall n :: n in out <==> TextEvictable(cat, attached, n)
    {
      HeldMeans(cat, attached);
      Resolve(space, cat);
      out := Select(cat, HeldForLinks(attached));
      PicksAre(cat, attached);
    }

    /** The datasets streamed for an object: the catalog handed over by the eviction, once, or the latest one. */
    method Stream(space: string, latest: Catalog, alive: bool, attached: set<string>) returns (out: seq<string>)
      requires Valid()
      modifies this
      ensures Valid() && pending == old(pending) - {space}
      ensures space in old(pending) ==> resolved == old(resolved)
      ensures var cat := if space in old(pending) then old(pending)[space] else latest;
        forall n :: n in out <==> alive && n in Active(cat, attached)
      ensures var cat := if space in old(pending) then old(pending)[space] else latest;
        forall n :: n in out <==> alive && Streamable(cat, attached, n)
    {
      var cat := latest;
      if space in pending {
        cat := pending[space];
        pending := pending - {space};
      } else {
        Resolve(space, latest);
        assert pending == pending - {space};
      }
      if !alive {
        return [];
      }
      out := Select(cat, Held(attached));
      PicksAre(cat, attached);
      HeldMeans(cat, attached);
    }

    /**
     * One page of the indexer for one object: evict, evict text, stream. What is evicted and what is
     * streamed are together every name ever seen in the space, and share no name exactly when entries of
     * one name agree on being held by the object. The text eviction
     * resolves the catalog again: it stays inside what is streamed exactly when every link-only dataset
     * the object holds by the second reading is one it held by the first.
     */
    method Page(space: string, cat: Catalog, textCat: Catalog, attached: set<string>)
        returns (evicted: seq<string>, textOnly: seq<string>, streamed: seq<string>)
      requires Valid()
      modifies this
      ensures Valid()
      ensures (forall n :: !(n in evicted && n in streamed)) <==> HeldAlike(cat, attached)
      ensures Agreeing(cat) ==> forall n :: !(n in evicted && n in streamed)
      ensures forall n :: n in streamed <==> Streamable(cat, attached, n)
      ensures forall n :: n in evicted <==>
        Unreadable(cat, attached, n) || (n in old(Union(History(space))) && forall e :: e in cat ==> e.name != n)
      ensures forall n :: n in textOnly <==> TextEvictable(textCat, attached, n)
      ensures forall n :: n in evicted || n in streamed <==> n in old(Union(History(space))) || n in Names(cat)
      ensures (forall n :: n in textOnly ==> n in streamed) <==> HeldBefore(textCat, cat, attached)
      ensures textCat == cat ==> forall n :: n in textOnly ==> n in streamed
    {
      evicted, textOnly, streamed := ThreeSteps(space, cat, textCat, attached);
      EvictedMeans(cat, attached, evicted, old(Union(History(space))));
      StreamedMeans(cat, attached, streamed);
      TextOnlyMeans(textCat, attached, textOnly);
      PageApart(cat, attached, evicted, streamed, old(Union(History(space))));
      TextInside(textCat, cat, attached, textOnly, streamed);
    }

    /** The calls of a page, in the indexer's order. */
    method ThreeSteps(space: string, cat: Catalog, textCat: Catalog, attached: set<string>)
        returns (evicted: seq<string>, textOnly: seq<string>, streamed: seq<string>)
      requires Valid()
      modifies this
      ensures Valid()
      ensures Evicts(cat, attached, evicted, old(Union(History(space))))
      ensures TextEvicts(textCat, attached, textOnly) && Streams(cat, attached, streamed)
    {
      evicted := EvictDatasets(space, cat, attached);
      UnionNext(old(History(space)), Names(cat));
      textOnly := EvictText(space, textCat, attached);
      streamed := Stream(space, cat, true, attached);
    }

    /**
     * The failing case: a link-only dataset of an attached type that the first reading did not have loses
     * its text documents on a page that does not stream it.
     */
    method PageAcrossChange(space: string, cat: Catalog, added: Entry, attached: set<string>)
        returns (evicted: seq<string>, textOnly: seq<string>, streamed: seq<string>)
      requires Valid() && added.name !in Names(cat)
      requires IsActive(added, attached) && !added.text
      modifies this
      ensures Valid() && added.name in textOnly && added.name !in streamed
    {
      evicted, textOnly, streamed := Page(space, cat, cat + [added], attached);
      assert added in cat + [added];
      assert added.name !in Names(cat) ==> forall e :: e in cat ==> e.name != added.name;
    }
  }

  ghost predicate Evicts(cat: Catalog, attached: set<string>, out: seq<string>, before: set<string>) {
    forall n :: n in out <==> n in Inactive(cat, attached) || n in before - Names(cat)
  }

  ghost predicate TextEvicts(cat: Catalog, attached: set<string>, out: seq<string>) {
    forall n :: n in out <==> n in LinkOnly(cat, attached)
  }

  ghost predicate Streams(cat: Catalog, attached: set<string>, out: seq<string>) {
    forall n :: n in out <==> n in Active(cat, attached)
  }

  /** Evicted: an entry that is not read or has no attached owner, or a name seen before and gone. */
  lemma EvictedMeans(cat: Catalog, attached: set<string>, out: seq<string>, before: set<string>)
    requires Evicts(cat, attached, out, before)
    ensures forall n :: n in out <==>
      Unreadable(cat, attached, n) || (n in before && forall e :: e in cat ==> e.name != n)
  {
    HeldMeans(cat, attached);
  }

  lemma StreamedMeans(cat: Catalog, attached: set<string>, out: seq<string>)
    requires Streams(cat, attached, out)
    ensures forall n :: n in out <==> Streamable(cat, attached, n)
  {
    HeldMeans(cat, attached);
  }

  lemma TextOnlyMeans(cat: Catalog, attached: set<string>, out: seq<string>)
    requires TextEvicts(cat, attached, out)
    ensures forall n :: n in out <==> TextEvictable(cat, attached, n)
  {
    HeldMeans(cat, attached);
  }

  /** Every link-only dataset held by the second reading names a dataset held by the first. */
  ghost predicate HeldBefore(textCat: Catalog, cat: Catalog, attached: set<string>) {
    forall e :: e in textCat && !e.text && IsActive(e, attached) ==>
      exists f :: f in cat && f.name == e.name && IsActive(f, attached)
  }

  lemma TextInside(textCat: Catalog, cat: Catalog, attached: set<string>, textOnly: seq<string>, streamed: seq<string>)
    requires TextEvicts(textCat, attached, textOnly) && Streams(cat, attached, streamed)
    ensures (forall n :: n in textOnly ==> n in streamed) <==> HeldBefore(textCat, cat, attached)
    ensures textCat == cat ==> forall n :: n in textOnly ==> n in streamed
  {
    if forall n :: n in textOnly ==> n in streamed {
      forall e | e in textCat && !e.text && IsActive(e, attached)
        ensures exists f :: f in cat && f.name == e.name && IsActive(f, attached)
      {
        assert e.name in LinkOnly(textCat, attached) && e.name in textOnly && e.name in Active(cat, attached);
      }
    }
  }

  /** The first loop: known names the catalog lacks retire. */
  method Vanish(known: set<string>, current: set<string>, retired: set<string>) returns (gone: set<string>)
    ensures gone == retired + (known - current)
  {
    gone := retired;
    var todo := known;
    while todo != {}
      invariant todo <= known && gone == retired + (known - todo - current)
      decreases todo
    {
      var name :| name in todo;
      if name !in current {
        gone := gone + {name};
      }
      todo := todo - {name};
    }
  }

  /** The second loop: names the catalog has are known and not retired. */
  method Appear(current: set<string>, known: set<string>, retired: set<string>)
      returns (seen: set<string>, gone: set<string>)
    ensures seen == known + current && gone == retired - current
  {
    seen, gone := known, retired;
    var todo := current;
    while todo != {}
      invariant todo <= current && seen == known + (current - todo) && gone == retired - (current - todo)
      decreases todo
    {
      var name :| name in todo;
      seen := seen + {name};
      gone := gone - {name};
      todo := todo - {name};
    }
  }

  ghost function Inactive(cat: Catalog, attached: set<string>): set<string> {
    set e | e in cat && !IsActive(e, attached) :: e.name
  }

  ghost function Active(cat: Catalog, attached: set<string>): set<string> {
    set e | e in cat && IsActive(e, attached) :: e.name
  }

  ghost function LinkOnly(cat: Catalog, attached: set<string>): set<string> {
    set e | e in cat && IsActive(e, attached) && !e.text :: e.name
  }

  /** Some entry of the name is read and one of its owners is attached. */
  ghost predicate Streamable(cat: Catalog, attached: set<string>, n: string) {
    exists e, o :: e in cat && e.name == n && e.streamed && o in e.owners && o in attached
  }

  /** The same for an entry without text documents. */
  ghost predicate TextEvictable(cat: Catalog, attached: set<string>, n: string) {
    exists e, o :: e in cat && e.name == n && e.streamed && !e.text && o in e.owners && o in attached
  }

  /** Some entry of the name is not read at all, or none of its owners is attached. */
  ghost predicate Unreadable(cat: Catalog, attached: set<string>, n: string) {
    exists e :: e in cat && e.name == n && (!e.streamed || forall o :: o in e.owners ==> o !in attached)
  }

  /** Held, held for links only, and not held, spelled out on the entries. */
  lemma HeldMeans(cat: Catalog, attached: set<string>)
    ensures forall n :: n in Active(cat, attached) <==> Streamable(cat, attached, n)
    ensures forall n :: n in LinkOnly(cat, attached) <==> TextEvictable(cat, attached, n)
    ensures forall n :: n in Inactive(cat, attached) <==> Unreadable(cat, attached, n)
    ensures forall n :: n in Names(cat) <==> exists e :: e in cat && e.name == n
  {
  }

  /** Entries that share a name agree on whether the object holds them. */
  ghost predicate HeldAlike(cat: Catalog, attached: set<string>) {
    forall e, f :: e in cat && f in cat && e.name == f.name ==> IsActive(e, attached) == IsActive(f, attached)
  }

  /** Active and inactive make up the catalog's names; apart, when entries that share a name agree. */
  lemma ActiveOrNot(cat: Catalog, attached: set<string>)
    ensures Active(cat, attached) + Inactive(cat, attached) == Names(cat)
    ensures LinkOnly(cat, attached) <= Active(cat, attached)
    ensures Agreeing(cat) ==> Active(cat, attached) !! Inactive(cat, attached)
  {
  }

  /** Apart exactly then: entries that share a name must agree on whether the object holds them. */
  lemma ApartIff(cat: Catalog, attached: set<string>)
    ensures Active(cat, attached) !! Inactive(cat, attached) <==> HeldAlike(cat, attached)
  {
    if Active(cat, attached) !! Inactive(cat, attached) {
      forall e, f | e in cat && f in cat && e.name == f.name
        ensures IsActive(e, attached) == IsActive(f, attached)
      {
        assert IsActive(e, attached) ==> e.name in Active(cat, attached);
        assert !IsActive(f, attached) ==> f.name in Inactive(cat, attached);
        assert IsActive(f, attached) ==> f.name in Active(cat, attached);
        assert !IsActive(e, attached) ==> e.name in Inactive(cat, attached);
      }
    }
  }

  /** What a page evicts and streams is everything ever seen, and apart exactly when active and inactive are. */
  lemma PageApart(cat: Catalog, attached: set<string>, evicted: seq<string>, streamed: seq<string>, before: set<string>)
    requires Evicts(cat, attached, evicted, before) && Streams(cat, attached, streamed)
    ensures (forall n :: !(n in evicted && n in streamed)) <==> HeldAlike(cat, attached)
    ensures Agreeing(cat) ==> HeldAlike(cat, attached)
    ensures forall n :: n in evicted || n in streamed <==> n in before || n in Names(cat)
  {
    ActiveOrNot(cat, attached);
    ApartIff(cat, attached);
    assert forall n :: n in Active(cat, attached) ==> n in Names(cat);
  }

  ghost predicate DistinctNames(list: seq<Listed>) {
    forall i, j :: 0 <= i < j < |list| ==> list[i].name != list[j].name
  }

  /** A schema catalog has one entry for each runtime dataset listed, and no others. */
  lemma {:induction false} SchemaCatalogNames(list: seq<Listed>, skip: set<string>)
    ensures forall n :: n in Names(SchemaCatalog(list, skip)) <==>
      exists d :: d in list && Runtime(d, skip) && d.name == n
    ensures DistinctNames(list) ==> Agreeing(SchemaCatalog(list, skip))
  {
    if list != [] {
      var d, rest := list[0], list[1..];
      var tail := SchemaCatalog(rest, skip);
      SchemaCatalogNames(rest, skip);
      assert list == [d] + rest;
      if DistinctNames(list) {
        assert forall i :: 0 <= i < |rest| ==> rest[i] == list[i + 1];
        assert d.name !in Names(tail);
        assert forall e :: e in tail ==> e.name in Names(tail);
      }
      var e := SchemaEntry(d);
      assert e.name == d.name;
      forall n
        ensures n in Names(SchemaCatalog(list, skip)) <==> exists x :: x in list && Runtime(x, skip) && x.name == n
      {
        assert n in Names(SchemaCatalog(list, skip)) <==> n in Names(tail) || (Runtime(d, skip) && n == d.name) by {
          NamesOfHead(e, tail);
        }
      }
    }
  }

  /** A module catalog's entries come from the one table of owners, so they agree whatever the space lists. */
  lemma {:induction false} ModuleEntriesAre(part: seq<Listed>, list: seq<Listed>, mod: string)
    ensures forall e :: e in ModuleEntries(part, list, mod) <==>
      exists d :: d in part && d.mod == mod && e == Entry(d.name, OwnersOf(list, mod, d.name), true, true)
  {
    if part != [] {
      ModuleEntriesAre(part[1..], list, mod);
      assert part == [part[0]] + part[1..];
    }
  }

  lemma {:induction false} OwnersAreLast(list: seq<Listed>, mod: string, name: string) returns (i: nat)
    requires exists d :: d in list && d.mod == mod && d.name == name
    ensures i < |list| && list[i].mod == mod && list[i].name == name && OwnersOf(list, mod, name) == list[i].owners
    ensures forall j :: i < j < |list| ==> !(list[j].mod == mod && list[j].name == name)
  {
    var n := |list| - 1;
    if list[n].mod == mod && list[n].name == name {
      i := n;
    } else {
      var d :| d in list && d.mod == mod && d.name == name;
      assert d in list[..n];
      i := OwnersAreLast(list[..n], mod, name);
    }
  }

  /** A module page never streams what it evicts, even where the space lists a name twice. */
  lemma ModuleCatalogAgrees(list: seq<Listed>, mod: string)
    ensures Agreeing(ModuleCatalog(list, mod))
    ensures forall n :: n in Names(ModuleCatalog(list, mod)) <==> exists d :: d in list && d.mod == mod && d.name == n
  {
    var cat := ModuleCatalog(list, mod);
    ModuleEntriesAre(list, list, mod);
    forall n
      ensures n in Names(cat) <==> exists d :: d in list && d.mod == mod && d.name == n
    {
      if d :| d in list && d.mod == mod && d.name == n {
        assert Entry(d.name, OwnersOf(list, mod, d.name), true, true) in cat;
      }
    }
    forall e, f | e in cat && f in cat && e.name == f.name
      ensures e == f
    {
      var d :| d in list && d.mod == mod && e == Entry(d.name, OwnersOf(list, mod, d.name), true, true);
      var g :| g in list && g.mod == mod && f == Entry(g.name, OwnersOf(list, mod, g.name), true, true);
    }
  }

  /** What a schema catalog is made of: the entry of each runtime dataset listed. */
  lemma {:induction false} SchemaEntriesAre(list: seq<Listed>, skip: set<string>)
    ensures forall e :: e in SchemaCatalog(list, skip) <==>
      exists d :: d in list && Runtime(d, skip) && e == SchemaEntry(d)
  {
    if list != [] {
      SchemaEntriesAre(list[1..], skip);
      assert list == [list[0]] + list[1..];
    }
  }

  /** The schema document asks for text documents, in a form that can be used. */
  predicate Mapped(d: Listed) {
    d.doc.Some? && d.doc.value.keys.Some? && d.doc.value.scopeOk &&
      !(d.doc.value.title == "" && d.doc.value.keys.value == [])
  }

  predicate Linked(d: Listed) { d.doc.Some? && d.doc.value.linkFields != {} }

  /** A dataset of the schema chunker: one owner, a records module or none, and no reserved name. */
  predicate Listable(d: Listed, skip: set<string>, n: string) {
    d.name == n && |d.owners| == 1 && d.mod in {"", "records"} && n !in skip && forall i :: 0 <= i < |n| ==> n[i] != ':'
  }

  /**
   * From the listing to the page: a dataset is streamed when its owner is attached and it has a usable
   * search mapping or link fields; its text goes when it has link fields and no such mapping; and it is
   * evicted when its owner is not attached or it has neither.
   */
  lemma SchemaPage(list: seq<Listed>, skip: set<string>, attached: set<string>, n: string)
    ensures Streamable(SchemaCatalog(list, skip), attached, n) <==>
      exists d :: d in list && Listable(d, skip, n) && d.owners[0] in attached && (Mapped(d) || Linked(d))
    ensures TextEvictable(SchemaCatalog(list, skip), attached, n) <==>
      exists d :: d in list && Listable(d, skip, n) && d.owners[0] in attached && !Mapped(d) && Linked(d)
    ensures Unreadable(SchemaCatalog(list, skip), attached, n) <==>
      exists d :: d in list && Listable(d, skip, n) && (d.owners[0] !in attached || (!Mapped(d) && !Linked(d)))
  {
    SchemaEntriesAre(list, skip);
    var cat := SchemaCatalog(list, skip);
    forall d | d in list && Listable(d, skip, n)
      ensures SchemaEntry(d) in cat && SchemaEntry(d).name == n
      ensures SchemaEntry(d).owners == [d.owners[0]] && SchemaEntry(d).text == Mapped(d)
      ensures SchemaEntry(d).streamed == (Mapped(d) || Linked(d))
    {
      ListableIsRuntime(d, skip);
    }
    forall e | e in cat && e.name == n
      ensures exists d :: d in list && Listable(d, skip, n) && e == SchemaEntry(d)
    {
      var d :| d in list && Runtime(d, skip) && e == SchemaEntry(d);
      ListableIsRuntime(d, skip);
    }
  }

  lemma ListableIsRuntime(d: Listed, skip: set<string>)
    ensures Runtime(d, skip) <==> Listable(d, skip, d.name)
    ensures |d.owners| == 1 ==> d.owners == [d.owners[0]]
  {
  }

  /** The last listing of a name under a module. */
  ghost predicate LastListing(list: seq<Listed>, mod: string, n: string, i: nat) {
    i < |list| && list[i].mod == mod && list[i].name == n &&
      forall j :: i < j < |list| ==> !(list[j].mod == mod && list[j].name == n)
  }

  /** From the listing to a module's page: by the owners of the last listing, with text and never link-only. */
  lemma ModulePage(list: seq<Listed>, mod: string, attached: set<string>, n: string)
    ensures Streamable(ModuleCatalog(list, mod), attached, n) <==>
      exists i: nat, o :: LastListing(list, mod, n, i) && o in list[i].owners && o in attached
    ensures Unreadable(ModuleCatalog(list, mod), attached, n) <==>
      exists i: nat :: LastListing(list, mod, n, i) && forall o :: o in list[i].owners ==> o !in attached
    ensures !TextEvictable(ModuleCatalog(list, mod), attached, n)
  {
    var cat := ModuleCatalog(list, mod);
    ModuleEntriesAre(list, list, mod);
    if exists d :: d in list && d.mod == mod && d.name == n {
      var d :| d in list && d.mod == mod && d.name == n;
      var i := OwnersAreLast(list, mod, n);
      assert LastListing(list, mod, n, i);
      assert Entry(d.name, list[i].owners, true, true) in cat;
      assert forall j: nat :: LastListing(list, mod, n, j) ==> j == i;
    } else {
      assert forall i: nat :: LastListing(list, mod, n, i) ==> list[i] in list;
    }
  }

  lemma NamesOfHead(e: Entry, tail: Catalog)
    ensures Names([e] + tail) == {e.name} + Names(tail) && Names([] + tail) == Names(tail)
  {
    assert [] + tail == tail;
    forall n | n in {e.name} + Names(tail)
      ensures n in Names([e] + tail)
    {
      if n == e.name {
        assert e in [e] + tail;
      } else {
        var f :| f in tail && f.name == n;
        assert f in [e] + tail;
      }
    }
  }

  function Held(attached: set<string>): Entry -> bool { e => IsActive(e, attached) }

  function NotHeld(attached: set<string>): Entry -> bool { e => !IsActive(e, attached) }

  function HeldForLinks(attached: set<string>): Entry -> bool { e => IsActive(e, attached) && !e.text }

  predicate Any(e: Entry) { true }

  ghost predicate Picks(cat: Catalog, test: Entry -> bool, n: string) {
    exists e :: e in cat && test(e) && e.name == n
  }

  lemma PicksNext(cat: Catalog, test: Entry -> bool, i: nat)
    requires i < |cat|
    ensures forall n :: Picks(cat[..i + 1], test, n) <==>
      Picks(cat[..i], test, n) || (test(cat[i]) && n == cat[i].name)
  {
    var upTo := cat[..i + 1];
    assert upTo == cat[..i] + [cat[i]];
    forall n
      ensures Picks(upTo, test, n) <==> Picks(cat[..i], test, n) || (test(cat[i]) && n == cat[i].name)
    {
      if e :| e in cat[..i] && test(e) && e.name == n {
        assert e in upTo;
      }
      assert cat[i] in upTo;
    }
  }

  lemma PicksAre(cat: Catalog, attached: set<string>)
    ensures forall n :: Picks(cat, Held(attached), n) <==> n in Active(cat, attached)
    ensures forall n :: Picks(cat, NotHeld(attached), n) <==> n in Inactive(cat, attached)
    ensures forall n :: Picks(cat, HeldForLinks(attached), n) <==> n in LinkOnly(cat, attached)
  {
  }

  lemma NamesArePicks(cat: Catalog, names: seq<string>)
    requires forall n :: n in names <==> Picks(cat, Any, n)
    ensures Names(cat) == set n | n in names
  {
    forall n
      ensures n in Names(cat) <==> Picks(cat, Any, n)
    {
    }
  }

  /** The names of the entries a test picks, in catalog order. */
  method Select(cat: Catalog, test: Entry -> bool) returns (out: seq<string>)
    ensures forall n :: n in out <==> Picks(cat, test, n)
  {
    out := [];
    for i := 0 to |cat|
      invariant forall n :: n in out <==> Picks(cat[..i], test, n)
    {
      PicksNext(cat, test, i);
      if test(cat[i]) {
        out := out + [cat[i].name];
      }
    }
    assert cat[..|cat|] == cat;
  }

  ghost function Union(hs: seq<set<string>>): set<string> {
    if hs == [] then {} else Union(hs[..|hs| - 1]) + hs[|hs| - 1]
  }

  ghost function Current(hs: seq<set<string>>): set<string> { if hs == [] then {} else hs[|hs| - 1] }

  lemma UnionNext(hs: seq<set<string>>, s: set<string>)
    ensures Union(hs + [s]) == Union(hs) + s && Current(hs + [s]) == s
  {
    assert (hs + [s])[..|hs|] == hs;
  }

  lemma {:induction false} UnionMeans(hs: seq<set<string>>, n: string)
    ensures n in Union(hs) <==> exists i :: 0 <= i < |hs| && n in hs[i]
  {
    if hs != [] {
      UnionMeans(hs[..|hs| - 1], n);
    }
  }
}
