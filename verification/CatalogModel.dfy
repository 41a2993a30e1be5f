/** The usecase catalog as data: usecases, the bundles they install, and the dependency graph. */
module CatalogModel {
  import opened Prelude
  import opened Digraph

  /** A type or collection declaration: its handle, and per property the relation target types. */
  datatype Declaration = Declaration(xKey: string, targets: seq<seq<string>>)

  datatype Bundle = Bundle(id: string, typeDecl: Option<Declaration>,
                           collection: Option<Declaration>, supersedes: seq<string>)

  /** `deps` is the usecase's `requires` list. */
  datatype Usecase = Usecase(id: string, deps: seq<string>, bundles: seq<Bundle>)

  datatype Code =
    | BadId | Duplicate | Missing | BadField | UnknownUsecase | CycleFound | BrokenLink

  datatype Problem = Problem(code: Code, detail: seq<string>)

  predicate InRange(us: seq<Usecase>, byId: map<string, nat>) {
    forall id :: id in byId ==> byId[id] < |us|
  }

  /** The dependency relation the lookup table resolves: id to each entry of its requires list. */
  function Requires(us: seq<Usecase>, byId: map<string, nat>): Rel
    requires InRange(us, byId)
  {
    set id, dep | id in byId.Keys && dep in us[byId[id]].deps :: (id, dep)
  }

  /** Position of the first occurrence. */
  function IndexOf(s: seq<string>, x: string): (i: nat)
    requires x in s
    ensures i < |s| && s[i] == x && x !in s[..i]
  {
    if s[0] == x then 0
    else
      var i := 1 + IndexOf(s[1..], x);
      assert s[..i] == [s[0]] + s[1..][..i - 1];
      i
  }
}
