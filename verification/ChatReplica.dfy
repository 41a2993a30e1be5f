/**
 * Replicas applying signed chat changes. The storage underneath is taken as given: per-path
 * last-writer-wins by the change version, the second writer at an equal version dropped, and a
 * deleted record turned into a tombstone that later changes do not touch.
 */
module ChatReplica {
  import opened Prelude
  import opened ChatHandler

  /** A change to one record as the gates read it; `Refused` is a create they do not accept. */
  datatype Body = Create(draft: Draft) | Refused | Modify(edits: seq<Edit>) | Delete

  datatype Change = Change(env: Envelope, id: string, body: Body)

  datatype RecordChange = CreateRecord(ops: seq<Op>) | ModifyRecord(mods: seq<Op>) | DeleteRecord

  /** Reading a received change: the part of the gates that looks at the change alone. */
  function Received(env: Envelope, id: string, rc: RecordChange): Change {
    Change(env, id, match rc
      case CreateRecord(ops) => (match DecodeCreate(ops) case Some(d) => Create(d) case None => Refused)
      case ModifyRecord(ops) => Modify(seq(|ops|, i requires 0 <= i < |ops| => DecodeOp(ops[i])))
      case DeleteRecord => Delete)
  }

  /** A change as it arrives. */
  datatype Raw = Raw(env: Envelope, id: string, rc: RecordChange)

  function ReceivedLog(raws: seq<Raw>): (log: seq<Change>)
    ensures |log| == |raws| && forall i :: 0 <= i < |log| ==> log[i] == Received(raws[i].env, raws[i].id, raws[i].rc)
  {
    seq(|raws|, i requires 0 <= i < |raws| => Received(raws[i].env, raws[i].id, raws[i].rc))
  }

  datatype Record = Live(regs: Regs) | Tombstone

  type Store = map<string, Record>

  // ---- storage ---------------------------------------------------------------

  function Put(regs: Regs, ver: nat, w: Write): Regs {
    if w.path in regs && regs[w.path].ver >= ver then regs else regs[w.path := Reg(ver, w.val)]
  }

  function PutAll(regs: Regs, ver: nat, ws: seq<Write>): Regs
    decreases |ws|
  {
    if ws == [] then regs else PutAll(Put(regs, ver, ws[0]), ver, ws[1..])
  }

  function ReadText(regs: Regs, p: Path): string {
    if p in regs && regs[p].val.Some? && regs[p].val.value.Text? then regs[p].val.value.text else ""
  }

  /** The live replied-to message's creator. */
  function AuthorOf(store: Store, id: string): Option<string> {
    if id != "" && id in store && store[id].Live? && ReadText(store[id].regs, PCreator) != ""
    then Some(ReadText(store[id].regs, PCreator)) else None
  }

  // ---- applying a change ---------------------------------------------------------

  /** The ops of a modify in order; a dropped op leaves the others alone. */
  function ApplyOps(regs: Regs, env: Envelope, ops: seq<Edit>, author: Option<string>): Regs
    decreases |ops|
  {
    if ops == [] then regs
    else
      var regs' := match Gate(env, ops[0], ReadText(regs, PCreator), author)
                   case None => regs
                   case Some(ws) => PutAll(regs, env.version, ws);
      ApplyOps(regs', env, ops[1..], author)
  }

  function Apply(store: Store, c: Change): Store {
    match c.body
    case Create(d) =>
      if c.id in store || !Contentful(d) then store
      else store[c.id := Live(PutAll(map[], c.env.version, CreateWrites(c.env, d, AuthorOf(store, ReplyOf(d)))))]
    case Refused => store
    case Modify(ops) =>
      if c.id !in store || store[c.id].Tombstone? then store
      else
        var regs := store[c.id].regs;
        store[c.id := Live(ApplyOps(regs, c.env, ops, AuthorOf(store, ReadText(regs, PReply))))]
    case Delete =>
      if c.id in store && store[c.id].Live? && IsAuthor(ReadText(store[c.id].regs, PCreator), c.env)
      then store[c.id := Tombstone] else store
  }

  function Run(log: seq<Change>): Store {
    if log == [] then map[] else Apply(Run(log[..|log| - 1]), log[|log| - 1])
  }

  // ---- what writes do to registers ----------------------------------------------

  /** The value a list of writes gives a path: its first write there. */
  function FirstWrite(ws: seq<Write>, p: Path): Option<Option<Cell>> {
    if ws == [] then None
    else if ws[0].path == p then Some(ws[0].val)
    else FirstWrite(ws[1..], p)
  }

  function Get(regs: Regs, p: Path): Option<Reg> {
    if p in regs then Some(regs[p]) else None
  }

  /** A register after one change that writes w there: the change wins iff its version is higher. */
  function Win(r: Option<Reg>, ver: nat, w: Option<Option<Cell>>): Option<Reg> {
    match w
    case None => r
    case Some(v) => if r.Some? && r.value.ver >= ver then r else Some(Reg(ver, v))
  }

  lemma {:induction false} PutAllAt(regs: Regs, ver: nat, ws: seq<Write>, p: Path)
    ensures Get(PutAll(regs, ver, ws), p) == Win(Get(regs, p), ver, FirstWrite(ws, p))
    decreases |ws|
  {
    if ws != [] {
      PutAllAt(Put(regs, ver, ws[0]), ver, ws[1..], p);
    }
  }

  lemma {:induction false} FirstWriteAppend(xs: seq<Write>, ys: seq<Write>, p: Path)
    ensures FirstWrite(xs + ys, p) == if FirstWrite(xs, p).Some? then FirstWrite(xs, p) else FirstWrite(ys, p)
    decreases |xs|
  {
    if xs == [] {
      assert xs + ys == ys;
    } else {
      assert (xs + ys)[1..] == xs[1..] + ys;
      FirstWriteAppend(xs[1..], ys, p);
    }
  }

  lemma OneWrite(path: Path, val: Option<Cell>, p: Path)
    ensures FirstWrite([Write(path, val)], p) == if p == path then Some(val) else None
  {
    assert [Write(path, val)][1..] == [];
  }

  /** What one op writes: nothing when it is dropped. */
  function OpWrites(env: Envelope, op: Edit, creator: string, author: Option<string>): seq<Write> {
    match Gate(env, op, creator, author) case None => [] case Some(ws) => ws
  }

  /** Everything a modify writes, decided by the record's creator and the reply author alone. */
  function EditWrites(env: Envelope, ops: seq<Edit>, creator: string, author: Option<string>): seq<Write> {
    if ops == [] then []
    else OpWrites(env, ops[0], creator, author) + EditWrites(env, ops[1..], creator, author)
  }

  /** The paths a modify can ever write. */
  predicate Editable(p: Path) {
    p.PText? || p.PModifiedAt? || p.PMentions? || p.PReaction?
  }

  // ---- what a create writes --------------------------------------------------------

  function TextValue(v: Option<string>): Option<Option<Cell>> {
    if v.Some? then Some(Some(Text(v.value))) else None
  }

  function GroupValue(v: Option<Value>): Option<Option<Cell>> {
    if v.Some? then Some(Some(Group(v.value))) else None
  }

  function MentionValue(text: string, author: Option<string>, isEdit: bool): Option<Option<Cell>> {
    if Derived(text, author) != [] then Some(Some(Ids(Derived(text, author))))
    else if isEdit then Some(None) else None
  }

  /** What a create gives each path. */
  function CreateValue(env: Envelope, d: Draft, author: Option<string>, p: Path): Option<Option<Cell>> {
    match p
    case PText => TextValue(d.text)
    case PReply => TextValue(d.replyTo)
    case PAgent => GroupValue(d.agent)
    case PAttachments => GroupValue(d.attachments)
    case PContext => GroupValue(d.context)
    case PControl => GroupValue(d.control)
    case PCreator => if env.creator != "" then Some(Some(Text(env.creator))) else None
    case PCreatedAt => if env.timestamp > 0 then Some(Some(Instant(env.timestamp * 1000))) else None
    case PModifiedAt => if env.timestamp > 0 then Some(Some(Instant(env.timestamp * 1000))) else None
    case PMentions => MentionValue(TextOf(d), author, false)
    case PReaction(_, _) => None
  }

  lemma TextWriteAt(v: Option<string>, path: Path, p: Path)
    ensures FirstWrite(TextWrite(v, path), p) == if p == path then TextValue(v) else None
  {
    if v.Some? { OneWrite(path, Some(Text(v.value)), p); }
  }

  lemma GroupWriteAt(v: Option<Value>, path: Path, p: Path)
    ensures FirstWrite(GroupWrite(v, path), p) == if p == path then GroupValue(v) else None
  {
    if v.Some? { OneWrite(path, Some(Group(v.value)), p); }
  }

  lemma MentionWriteAt(text: string, author: Option<string>, isEdit: bool, p: Path)
    ensures FirstWrite(MentionWrites(text, author, isEdit), p) ==
      if p == PMentions then MentionValue(text, author, isEdit) else None
  {
    var ws := MentionWrites(text, author, isEdit);
    assert ws != [] ==> ws[1..] == [];
  }

  lemma StampWriteAt(env: Envelope, p: Path)
    ensures FirstWrite(StampWrites(env), p) ==
      if p == PCreator && env.creator != "" then Some(Some(Text(env.creator)))
      else if (p == PCreatedAt || p == PModifiedAt) && env.timestamp > 0 then Some(Some(Instant(env.timestamp * 1000)))
      else None
  {
    var a := if env.creator != "" then [Write(PCreator, Some(Text(env.creator)))] else [];
    var at := Some(Instant(env.timestamp * 1000));
    var b := if env.timestamp > 0 then [Write(PCreatedAt, at), Write(PModifiedAt, at)] else [];
    FirstWriteAppend(a, b, p);
    assert a != [] ==> a[1..] == [];
    assert b != [] ==> b[1..] == [Write(PModifiedAt, at)] && b[1..][1..] == [];
  }

  lemma CreateWritesAt(env: Envelope, d: Draft, author: Option<string>, p: Path)
    ensures FirstWrite(CreateWrites(env, d, author), p) == CreateValue(env, d, author, p)
  {
    var w1, w2 := TextWrite(d.text, PText), TextWrite(d.replyTo, PReply);
    var w3, w4 := GroupWrite(d.agent, PAgent), GroupWrite(d.attachments, PAttachments);
    var w5, w6 := GroupWrite(d.context, PContext), GroupWrite(d.control, PControl);
    var w7, w8 := StampWrites(env), MentionWrites(TextOf(d), author, false);
    TextWriteAt(d.text, PText, p);
    TextWriteAt(d.replyTo, PReply, p);
    GroupWriteAt(d.agent, PAgent, p);
    GroupWriteAt(d.attachments, PAttachments, p);
    GroupWriteAt(d.context, PContext, p);
    GroupWriteAt(d.control, PControl, p);
    StampWriteAt(env, p);
    MentionWriteAt(TextOf(d), author, false, p);
    FirstWriteAppend(w1, w2, p);
    FirstWriteAppend(w1 + w2, w3, p);
    FirstWriteAppend(w1 + w2 + w3, w4, p);
    FirstWriteAppend(w1 + w2 + w3 + w4, w5, p);
    FirstWriteAppend(w1 + w2 + w3 + w4 + w5, w6, p);
    FirstWriteAppend(w1 + w2 + w3 + w4 + w5 + w6, w7, p);
    FirstWriteAppend(w1 + w2 + w3 + w4 + w5 + w6 + w7, w8, p);
  }

  /** A fresh record: every path holds what the create gives it, at the create's version. */
  lemma CreatedAt(env: Envelope, d: Draft, author: Option<string>, p: Path)
    ensures Get(PutAll(map[], env.version, CreateWrites(env, d, author)), p)
         == Win(None, env.version, CreateValue(env, d, author, p))
  {
    PutAllAt(map[], env.version, CreateWrites(env, d, author), p);
    CreateWritesAt(env, d, author, p);
  }

  // ---- what an accepted op writes ----------------------------------------------------

  /** The text an op sets, when it is an accepted text edit. */
  function EditedText(env: Envelope, op: Edit, creator: string): Option<string> {
    if op.TextEdit? && IsAuthor(creator, env) && 1 <= |op.text| <= MAX_TEXT then Some(op.text) else None
  }

  lemma OpWritesAt(env: Envelope, op: Edit, creator: string, author: Option<string>, p: Path)
    ensures var t := EditedText(env, op, creator);
      match p
      case PText => FirstWrite(OpWrites(env, op, creator, author), p) ==
        (if t.Some? then Some(Some(Text(t.value))) else None)
      case PMentions => FirstWrite(OpWrites(env, op, creator, author), p) ==
        (if t.Some? then MentionValue(t.value, author, true) else None)
      case PReaction(_, account) => FirstWrite(OpWrites(env, op, creator, author), p).Some? ==> account == env.creator
      case PModifiedAt => FirstWrite(OpWrites(env, op, creator, author), p) ==
        (if t.Some? && env.timestamp > 0 then Some(Some(Instant(env.timestamp * 1000))) else None)
      case _ => FirstWrite(OpWrites(env, op, creator, author), p) == None
  {
    match EditedText(env, op, creator)
    case Some(text) =>
      var a := [Write(PText, Some(Text(text)))];
      var b := if env.timestamp > 0 then [Write(PModifiedAt, Some(Instant(env.timestamp * 1000)))] else [];
      var c := MentionWrites(text, author, true);
      assert OpWrites(env, op, creator, author) == a + b + c;
      FirstWriteAppend(a + b, c, p);
      FirstWriteAppend(a, b, p);
      MentionWriteAt(text, author, true, p);
      OneWrite(PText, Some(Text(text)), p);
      OneWrite(PModifiedAt, Some(Instant(env.timestamp * 1000)), p);
    case None =>
      var ws := OpWrites(env, op, creator, author);
      if ws != [] {
        OneWrite(ws[0].path, ws[0].val, p);
        assert ws == [ws[0]] && ws[0].path == PReaction(op.emoji, op.account);
      }
  }

  /** The text the first accepted text edit of a modify sets. */
  function FirstText(env: Envelope, ops: seq<Edit>, creator: string): Option<string> {
    if ops == [] then None
    else if EditedText(env, ops[0], creator).Some? then EditedText(env, ops[0], creator)
    else FirstText(env, ops[1..], creator)
  }

  /** Text, its time and mentions of a modify come from one op; reactions are the signer's own; the rest stays. */
  lemma {:induction false} EditWritesAt(env: Envelope, ops: seq<Edit>, creator: string, author: Option<string>, p: Path)
    ensures var t := FirstText(env, ops, creator);
      match p
      case PText => FirstWrite(EditWrites(env, ops, creator, author), p) ==
        (if t.Some? then Some(Some(Text(t.value))) else None)
      case PMentions => FirstWrite(EditWrites(env, ops, creator, author), p) ==
        (if t.Some? then MentionValue(t.value, author, true) else None)
      case PReaction(_, account) => FirstWrite(EditWrites(env, ops, creator, author), p).Some? ==>
        account == env.creator
      case PModifiedAt => FirstWrite(EditWrites(env, ops, creator, author), p) ==
        (if t.Some? && env.timestamp > 0 then Some(Some(Instant(env.timestamp * 1000))) else None)
      case _ => FirstWrite(EditWrites(env, ops, creator, author), p) == None
    ensures FirstText(env, ops, creator).Some? ==> FirstText(env, ops, creator).value != "" && IsAuthor(creator, env)
    decreases |ops|
  {
    if ops != [] {
      EditWritesAt(env, ops[1..], creator, author, p);
      OpWritesAt(env, ops[0], creator, author, p);
      FirstWriteAppend(OpWrites(env, ops[0], creator, author), EditWrites(env, ops[1..], creator, author), p);
    }
  }

  /** A modify is one list of writes at one version, and it never moves the creator. */
  lemma {:induction false} ApplyOpsIsPutAll(regs: Regs, env: Envelope, ops: seq<Edit>, author: Option<string>)
    ensures forall p :: Get(ApplyOps(regs, env, ops, author), p)
                     == Win(Get(regs, p), env.version,
                       FirstWrite(EditWrites(env, ops, ReadText(regs, PCreator), author), p))
    decreases |ops|
  {
    if ops != [] {
      var creator := ReadText(regs, PCreator);
      var head := OpWrites(env, ops[0], creator, author);
      var regs' := PutAll(regs, env.version, head);
      PutAllAt(regs, env.version, head, PCreator);
      OpWritesAt(env, ops[0], creator, author, PCreator);
      assert Get(regs', PCreator) == Get(regs, PCreator);
      assert ReadText(regs', PCreator) == creator;
      ApplyOpsIsPutAll(regs', env, ops[1..], author);
      forall p
        ensures Get(ApplyOps(regs, env, ops, author), p)
             == Win(Get(regs, p), env.version, FirstWrite(EditWrites(env, ops, creator, author), p))
      {
        PutAllAt(regs, env.version, head, p);
        FirstWriteAppend(head, EditWrites(env, ops[1..], creator, author), p);
      }
    }
  }
}
