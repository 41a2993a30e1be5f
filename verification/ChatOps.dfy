/** One received change and the registers it leaves, read off the change as it arrived. */
module ChatOps {
  import opened Prelude
  import opened ChatHandler
  import opened ChatReplica
  import LinkIndex

  // ---- one op of a modify ------------------------------------------------------------

  predicate IsLive(store: Store, id: string) { id in store && store[id].Live? }

  /** The registers of a message; none when it is not live. */
  function RegsOf(store: Store, id: string): Regs {
    if IsLive(store, id) then store[id].regs else map[]
  }

  function CreatorOf(store: Store, id: string): string { ReadText(RegsOf(store, id), PCreator) }

  /** The author of the message a live message replies to. */
  function RepliedTo(store: Store, id: string): Option<string> {
    AuthorOf(store, ReadText(RegsOf(store, id), PReply))
  }

  /** The store after a signed modify with these ops has arrived. */
  function Modified(store: Store, env: Envelope, id: string, ops: seq<Op>): Store {
    Apply(store, Received(env, id, ModifyRecord(ops)))
  }

  /** `$set text` of a message, signed by its creator. */
  predicate SetsText(op: Op, signer: string, creator: string, text: string) {
    && op.kind == OpSet && op.path == ["text"] && op.payload == Some(Str(text)) && 1 <= |text| <= 32768
    && signer != "" && signer == creator
  }

  /** `reactions.<emoji>.<signer>` */
  predicate OwnLeaf(path: seq<string>, signer: string, emoji: string) {
    path == ["reactions", emoji, signer] && signer != "" && 1 <= |emoji| <= 64
  }

  predicate AddsReaction(op: Op, env: Envelope, emoji: string) {
    op.kind == OpSet && OwnLeaf(op.path, env.creator, emoji) && env.timestamp > 0
  }

  predicate RemovesReaction(op: Op, env: Envelope, emoji: string) {
    op.kind == OpUnset && OwnLeaf(op.path, env.creator, emoji)
  }

  /** An op that may write something: there is no other kind. */
  ghost predicate Accepted(op: Op, env: Envelope, creator: string) {
    || (exists text :: SetsText(op, env.creator, creator, text))
    || (exists emoji :: AddsReaction(op, env, emoji) || RemovesReaction(op, env, emoji))
  }

  lemma DecodesText(op: Op)
    ensures DecodeOp(op).TextEdit? <==>
      op.kind == OpSet && op.path == ["text"] && op.payload.Some? && op.payload.value.Str?
    ensures DecodeOp(op).TextEdit? ==> op.payload == Some(Str(DecodeOp(op).text))
  {
  }

  lemma DecodesLeaf(op: Op)
    ensures DecodeOp(op).Toggle? <==>
      (op.kind == OpSet || op.kind == OpUnset) && |op.path| == 3 && op.path[0] == "reactions" && op.path[1] != "" &&
        op.path[2] != ""
    ensures DecodeOp(op).Toggle? ==>
      op.path == ["reactions", DecodeOp(op).emoji, DecodeOp(op).account] && (DecodeOp(op).on <==> op.kind == OpSet)
  {
  }

  /** A text edit by the author writes the text, its time and its mentions. */
  lemma TextWrites(op: Op, env: Envelope, creator: string, author: Option<string>, text: string, p: Path)
    requires SetsText(op, env.creator, creator, text)
    ensures FirstWrite(OpWrites(env, DecodeOp(op), creator, author), p) ==
      EditedCell(env, text, Pinged(text, author), p)
  {
    DecodesText(op);
    OpWritesAt(env, DecodeOp(op), creator, author, p);
    if p.PReaction? {
      NoReactionInText(env, text, creator, author, p);
    }
  }

  lemma NoReactionInText(env: Envelope, text: string, creator: string, author: Option<string>, p: Path)
    requires p.PReaction? && IsAuthor(creator, env) && 1 <= |text| <= MAX_TEXT
    ensures FirstWrite(OpWrites(env, TextEdit(text), creator, author), p) == None
  {
    var a := [Write(PText, Some(Text(text)))];
    var b := if env.timestamp > 0 then [Write(PModifiedAt, Some(Instant(env.timestamp * 1000)))] else [];
    var c := MentionWrites(text, author, true);
    assert OpWrites(env, TextEdit(text), creator, author) == a + b + c;
    FirstWriteAppend(a + b, c, p);
    FirstWriteAppend(a, b, p);
    MentionWriteAt(text, author, true, p);
    OneWrite(PText, Some(Text(text)), p);
    OneWrite(PModifiedAt, Some(Instant(env.timestamp * 1000)), p);
  }

  lemma ReactionWrites(op: Op, env: Envelope, creator: string, author: Option<string>, emoji: string, p: Path)
    requires AddsReaction(op, env, emoji) || RemovesReaction(op, env, emoji)
    ensures FirstWrite(OpWrites(env, DecodeOp(op), creator, author), p) ==
      if p != PReaction(emoji, env.creator) then None
      else if op.kind == OpSet then Some(Some(Instant(env.timestamp * 1000))) else Some(None)
  {
    DecodesLeaf(op);
    var val := if op.kind == OpSet then Some(Instant(env.timestamp * 1000)) else None;
    assert DecodeOp(op) == Toggle(emoji, env.creator, op.kind == OpSet);
    assert OpWrites(env, DecodeOp(op), creator, author) == [Write(PReaction(emoji, env.creator), val)];
    OneWrite(PReaction(emoji, env.creator), val, p);
  }

  lemma OthersWriteNothing(op: Op, env: Envelope, creator: string, author: Option<string>)
    requires !Accepted(op, env, creator)
    ensures OpWrites(env, DecodeOp(op), creator, author) == []
  {
    DecodesText(op);
    DecodesLeaf(op);
    match DecodeOp(op)
    case TextEdit(text) => assert !SetsText(op, env.creator, creator, text);
    case Toggle(emoji, account, on) =>
      assert !(AddsReaction(op, env, emoji) || RemovesReaction(op, env, emoji));
      assert op.path == ["reactions", emoji, account] && emoji != "" && account != "";
    case Dropped =>
  }

  /** The registers an op writes. */
  ghost predicate Writes(op: Op, env: Envelope, creator: string, p: Path) {
    match p
    case PText => exists text :: SetsText(op, env.creator, creator, text)
    case PMentions => exists text :: SetsText(op, env.creator, creator, text)
    case PModifiedAt => env.timestamp > 0 && exists text :: SetsText(op, env.creator, creator, text)
    case PReaction(emoji, account) =>
      account == env.creator && (AddsReaction(op, env, emoji) || RemovesReaction(op, env, emoji))
    case _ => false
  }

  lemma WritesIff(op: Op, env: Envelope, creator: string, author: Option<string>, p: Path)
    ensures FirstWrite(OpWrites(env, DecodeOp(op), creator, author), p).Some? <==> Writes(op, env, creator, p)
  {
    if text :| SetsText(op, env.creator, creator, text) {
      TextWrites(op, env, creator, author, text, p);
    } else if emoji :| AddsReaction(op, env, emoji) || RemovesReaction(op, env, emoji) {
      ReactionWrites(op, env, creator, author, emoji, p);
    } else {
      OthersWriteNothing(op, env, creator, author);
    }
  }

  /** A register takes what is written to it at a higher version than its own. */
  predicate Takes(before: Regs, after: Regs, p: Path, version: nat, val: Option<Cell>) {
    Get(after, p) == if p in before && before[p].ver >= version then Some(before[p]) else Some(Reg(version, val))
  }

  predicate Keeps(before: Regs, after: Regs, p: Path) { Get(after, p) == Get(before, p) }

  ghost predicate Decoded(ops: seq<Op>, edits: seq<Edit>) {
    |edits| == |ops| && forall i :: 0 <= i < |ops| ==> edits[i] == DecodeOp(ops[i])
  }

  lemma ManyOps(store: Store, env: Envelope, id: string, ops: seq<Op>, edits: seq<Edit>, p: Path)
    requires IsLive(store, id) && Decoded(ops, edits)
    ensures IsLive(Modified(store, env, id, ops), id)
    ensures Get(RegsOf(Modified(store, env, id, ops), id), p) == Win(Get(RegsOf(store, id), p), env.version,
              FirstWrite(EditWrites(env, edits, CreatorOf(store, id), RepliedTo(store, id)), p))
  {
    assert seq(|ops|, i requires 0 <= i < |ops| => DecodeOp(ops[i])) == edits;
    assert Received(env, id, ModifyRecord(ops)) == Change(env, id, Modify(edits));
    ApplyOpsIsPutAll(RegsOf(store, id), env, edits, RepliedTo(store, id));
  }

  lemma OneOp(store: Store, env: Envelope, id: string, op: Op, p: Path)
    requires IsLive(store, id)
    ensures IsLive(Modified(store, env, id, [op]), id)
    ensures Get(RegsOf(Modified(store, env, id, [op]), id), p) ==
      Win(Get(RegsOf(store, id), p), env.version,
        FirstWrite(OpWrites(env, DecodeOp(op), CreatorOf(store, id), RepliedTo(store, id)), p))
  {
    var edits := [DecodeOp(op)];
    ManyOps(store, env, id, [op], edits, p);
    assert edits[1..] == [];
    assert EditWrites(env, [], CreatorOf(store, id), RepliedTo(store, id)) == [];
    var ws := OpWrites(env, DecodeOp(op), CreatorOf(store, id), RepliedTo(store, id));
    assert ws + [] == ws;
  }

  /** `$set` of one's own reaction stores when it was made, and touches nothing else. */
  lemma SetReaction(store: Store, env: Envelope, id: string, emoji: string, payload: Option<Value>)
    requires IsLive(store, id) && env.creator != "" && 1 <= |emoji| <= 64 && env.timestamp > 0
    ensures var before := RegsOf(store, id);
      var after := RegsOf(Modified(store, env, id, [Op(OpSet, ["reactions", emoji, env.creator], payload)]), id);
      && Takes(before, after, PReaction(emoji, env.creator), env.version, Some(Instant(env.timestamp * 1000)))
      && forall p :: p != PReaction(emoji, env.creator) ==> Keeps(before, after, p)
  {
    var op := Op(OpSet, ["reactions", emoji, env.creator], payload);
    assert AddsReaction(op, env, emoji);
    ReactionStored(store, env, id, op, emoji);
  }

  /** `$unset` of it clears it, whatever the timestamp, and touches nothing else. */
  lemma UnsetReaction(store: Store, env: Envelope, id: string, emoji: string, payload: Option<Value>)
    requires IsLive(store, id) && env.creator != "" && 1 <= |emoji| <= 64
    ensures var before := RegsOf(store, id);
      var after := RegsOf(Modified(store, env, id, [Op(OpUnset, ["reactions", emoji, env.creator], payload)]), id);
      && Takes(before, after, PReaction(emoji, env.creator), env.version, None)
      && forall p :: p != PReaction(emoji, env.creator) ==> Keeps(before, after, p)
  {
    var op := Op(OpUnset, ["reactions", emoji, env.creator], payload);
    assert RemovesReaction(op, env, emoji);
    ReactionStored(store, env, id, op, emoji);
  }

  lemma ReactionStored(store: Store, env: Envelope, id: string, op: Op, emoji: string)
    requires IsLive(store, id) && (AddsReaction(op, env, emoji) || RemovesReaction(op, env, emoji))
    ensures var before, after := RegsOf(store, id), RegsOf(Modified(store, env, id, [op]), id);
      && Takes(before, after, PReaction(emoji, env.creator), env.version,
           if op.kind == OpSet then Some(Instant(env.timestamp * 1000)) else None)
      && forall p :: p != PReaction(emoji, env.creator) ==> Keeps(before, after, p)
  {
    forall p
      ensures Get(RegsOf(Modified(store, env, id, [op]), id), p) == Win(Get(RegsOf(store, id), p), env.version,
                if p != PReaction(emoji, env.creator) then None
                else if op.kind == OpSet then Some(Some(Instant(env.timestamp * 1000))) else Some(None))
    {
      OneOp(store, env, id, op, p);
      ReactionWrites(op, env, CreatorOf(store, id), RepliedTo(store, id), emoji, p);
    }
  }

  /** `$set text` by the author stores the text, the time of the edit and the mentions of the new text. */
  lemma SetText(store: Store, env: Envelope, id: string, text: string)
    requires IsLive(store, id) && env.creator != "" && env.creator == CreatorOf(store, id) && 1 <= |text| <= 32768
    ensures var before := RegsOf(store, id);
      var after := RegsOf(Modified(store, env, id, [Op(OpSet, ["text"], Some(Str(text)))]), id);
      var ids := Pinged(text, RepliedTo(store, id));
      && Takes(before, after, PText, env.version, Some(Text(text)))
      && Takes(before, after, PMentions, env.version, if ids == [] then None else Some(Ids(ids)))
      && (if env.timestamp > 0 then Takes(before, after, PModifiedAt, env.version, Some(Instant(env.timestamp * 1000)))
          else Keeps(before, after, PModifiedAt))
      && forall p :: p != PText && p != PMentions && p != PModifiedAt ==> Keeps(before, after, p)
  {
    var op := Op(OpSet, ["text"], Some(Str(text)));
    assert SetsText(op, env.creator, CreatorOf(store, id), text);
    forall p
      ensures Get(RegsOf(Modified(store, env, id, [op]), id), p) ==
        Win(Get(RegsOf(store, id), p), env.version, EditedCell(env, text, Pinged(text, RepliedTo(store, id)), p))
    {
      TextStored(store, env, id, op, text, p);
    }
    EditedTakes(RegsOf(store, id), RegsOf(Modified(store, env, id, [op]), id), env, text,
      Pinged(text, RepliedTo(store, id)));
  }

  lemma EditedTakes(before: Regs, after: Regs, env: Envelope, text: string, ids: seq<string>)
    requires forall p :: Get(after, p) == Win(Get(before, p), env.version, EditedCell(env, text, ids, p))
    ensures Takes(before, after, PText, env.version, Some(Text(text)))
    ensures Takes(before, after, PMentions, env.version, if ids == [] then None else Some(Ids(ids)))
    ensures var at := Some(Instant(env.timestamp * 1000));
      if env.timestamp > 0 then Takes(before, after, PModifiedAt, env.version, at)
      else Keeps(before, after, PModifiedAt)
    ensures forall p :: p != PText && p != PMentions && p != PModifiedAt ==> Keeps(before, after, p)
  {
  }

  /** The identities a text pings: those it mentions, and the author replied to. */
  function Pinged(text: string, author: Option<string>): seq<string> { FoldIn(LinkIndex.Mentions(text), author) }

  /** What a text edit writes, by register. */
  function EditedCell(env: Envelope, text: string, ids: seq<string>, p: Path): Option<Option<Cell>> {
    match p
    case PText => Some(Some(Text(text)))
    case PModifiedAt => if env.timestamp > 0 then Some(Some(Instant(env.timestamp * 1000))) else None
    case PMentions => Some(if ids != [] then Some(Ids(ids)) else None)
    case _ => None
  }

  lemma TextStored(store: Store, env: Envelope, id: string, op: Op, text: string, p: Path)
    requires IsLive(store, id) && SetsText(op, env.creator, CreatorOf(store, id), text)
    ensures Get(RegsOf(Modified(store, env, id, [op]), id), p) ==
      Win(Get(RegsOf(store, id), p), env.version, EditedCell(env, text, Pinged(text, RepliedTo(store, id)), p))
  {
    OneOp(store, env, id, op, p);
    TextWrites(op, env, CreatorOf(store, id), RepliedTo(store, id), text, p);
  }

  /**
   * Every other op leaves every register alone: another operation or path, a payload that is no text or
   * too long or empty, someone else's message or reaction, an unsigned change, an oversized emoji, and
   * adding a reaction at no time.
   */
  lemma OtherOpsDropped(store: Store, env: Envelope, id: string, op: Op)
    requires IsLive(store, id) && !Accepted(op, env, CreatorOf(store, id))
    ensures forall p :: Keeps(RegsOf(store, id), RegsOf(Modified(store, env, id, [op]), id), p)
  {
    forall p
      ensures Keeps(RegsOf(store, id), RegsOf(Modified(store, env, id, [op]), id), p)
    {
      OneOp(store, env, id, op, p);
      OthersWriteNothing(op, env, CreatorOf(store, id), RepliedTo(store, id));
    }
  }

  /** A message that is not there, or is deleted, is not touched. */
  lemma NotLiveUntouched(store: Store, env: Envelope, id: string, ops: seq<Op>)
    requires !IsLive(store, id)
    ensures Modified(store, env, id, ops) == store
  {
  }

  /** What the edits write to a register is what the first that writes there does. */
  lemma {:induction false} FirstEditWins(env: Envelope, edits: seq<Edit>, creator: string, author: Option<string>,
      p: Path, k: nat)
    requires k <= |edits|
    requires forall j :: 0 <= j < k ==> FirstWrite(OpWrites(env, edits[j], creator, author), p) == None
    requires k < |edits| ==> FirstWrite(OpWrites(env, edits[k], creator, author), p).Some?
    ensures FirstWrite(EditWrites(env, edits, creator, author), p) ==
      if k < |edits| then FirstWrite(OpWrites(env, edits[k], creator, author), p) else None
    decreases |edits|
  {
    if edits != [] {
      FirstWriteAppend(OpWrites(env, edits[0], creator, author), EditWrites(env, edits[1..], creator, author), p);
      if k > 0 {
        FirstEditWins(env, edits[1..], creator, author, p, k - 1);
      }
    }
  }

  lemma SeveralOps(store: Store, env: Envelope, id: string, ops: seq<Op>, p: Path, k: nat)
    requires IsLive(store, id) && k <= |ops|
    requires forall j :: 0 <= j < k ==> !Writes(ops[j], env, CreatorOf(store, id), p)
    requires k < |ops| ==> Writes(ops[k], env, CreatorOf(store, id), p)
    ensures var creator, author := CreatorOf(store, id), RepliedTo(store, id);
      Get(RegsOf(Modified(store, env, id, ops), id), p) == Win(Get(RegsOf(store, id), p), env.version,
        if k < |ops| then FirstWrite(OpWrites(env, DecodeOp(ops[k]), creator, author), p) else None)
  {
    var edits := seq(|ops|, i requires 0 <= i < |ops| => DecodeOp(ops[i]));
    ManyOps(store, env, id, ops, edits, p);
    forall j | 0 <= j < |ops|
      ensures FirstWrite(OpWrites(env, edits[j], CreatorOf(store, id), RepliedTo(store, id)), p).Some? <==>
        Writes(ops[j], env, CreatorOf(store, id), p)
    {
      WritesIff(ops[j], env, CreatorOf(store, id), RepliedTo(store, id), p);
    }
    FirstEditWins(env, edits, CreatorOf(store, id), RepliedTo(store, id), p, k);
  }

  /** A modify of several ops leaves a register as the first of them that writes there would alone. */
  lemma FirstOpWins(store: Store, env: Envelope, id: string, ops: seq<Op>, p: Path, k: nat)
    requires IsLive(store, id) && k < |ops| && Writes(ops[k], env, CreatorOf(store, id), p)
    requires forall j :: 0 <= j < k ==> !Writes(ops[j], env, CreatorOf(store, id), p)
    ensures Get(RegsOf(Modified(store, env, id, ops), id), p) ==
      Get(RegsOf(Modified(store, env, id, [ops[k]]), id), p)
  {
    SeveralOps(store, env, id, ops, p, k);
    OneOp(store, env, id, ops[k], p);
  }

  /** And as it was when none of them does. */
  lemma NoOpWrites(store: Store, env: Envelope, id: string, ops: seq<Op>, p: Path)
    requires IsLive(store, id) && forall j :: 0 <= j < |ops| ==> !Writes(ops[j], env, CreatorOf(store, id), p)
    ensures Keeps(RegsOf(store, id), RegsOf(Modified(store, env, id, ops), id), p)
  {
    SeveralOps(store, env, id, ops, p, |ops|);
  }

  // ---- creates -----------------------------------------------------------------------

  predicate ShortText(v: Value, max: nat) { v.Str? && 1 <= |v.s| <= max }

  predicate Only(v: Value, names: set<string>) { v.Object? && v.fields.Keys <= names }

  predicate Optional(v: Value, name: string, max: nat)
    requires v.Object?
  {
    name in v.fields ==> ShortText(v.fields[name], max)
  }

  predicate MayBeFlag(v: Value, name: string)
    requires v.Object?
  {
    name in v.fields ==> v.fields[name].Flag?
  }

  /** The agent group: a name and whether it is done, with an optional link and outcome. */
  lemma AgentTable(v: Value)
    ensures FieldOk("agent", v) <==>
      && Only(v, {"name", "debugLink", "done", "outcome"}) && "name" in v.fields && "done" in v.fields
      && Optional(v, "name", 256) && Optional(v, "debugLink", 2048) && Optional(v, "outcome", 64)
      && MayBeFlag(v, "done")
  {
  }

  /** The context group: a space, with an optional object and view. */
  lemma ContextTable(v: Value)
    ensures FieldOk("context", v) <==>
      && Only(v, {"spaceId", "objectId", "view"}) && "spaceId" in v.fields
      && Optional(v, "spaceId", 256) && Optional(v, "objectId", 256) && Optional(v, "view", 64)
  {
  }

  /** The control group: a kind, with an optional flag. */
  lemma ControlTable(v: Value)
    ensures FieldOk("control", v) <==>
      && Only(v, {"kind", "hard"}) && "kind" in v.fields && Optional(v, "kind", 64) && MayBeFlag(v, "hard")
  {
  }

  /** An attachment: a type and a link, both required, nothing else. */
  predicate IsAttachment(v: Value) {
    && Only(v, {"type", "link"}) && "type" in v.fields && "link" in v.fields
    && ShortText(v.fields["type"], 64) && ShortText(v.fields["link"], 2048)
  }

  lemma AttachmentTable(v: Value)
    ensures GroupOk(v, ATTACHMENT_RULES, {"type", "link"}) <==> IsAttachment(v)
  {
  }

  /** One to sixty-four letters, digits, '_' and '-'. */
  predicate IsAttachmentId(id: string) {
    1 <= |id| <= 64 && forall i :: 0 <= i < |id| ==>
      'A' <= id[i] <= 'Z' || 'a' <= id[i] <= 'z' || '0' <= id[i] <= '9' || id[i] == '_' || id[i] == '-'
  }

  lemma AttachmentIds(id: string)
    ensures ValidAttachmentId(id) <==> IsAttachmentId(id)
  {
  }

  /** The attachments: one to thirty-two, each under an id. */
  lemma AttachmentsTable(v: Value)
    ensures FieldOk("attachments", v) <==>
      && v.Object? && 1 <= |v.fields| <= 32
      && forall id :: id in v.fields ==> IsAttachmentId(id) && IsAttachment(v.fields[id])
  {
    assert FieldOk("attachments", v) == AttachmentsOk(v);
    if v.Object? {
      forall id | id in v.fields
        ensures ValidAttachmentId(id) && GroupOk(v.fields[id], ATTACHMENT_RULES, {"type", "link"}) <==>
          IsAttachmentId(id) && IsAttachment(v.fields[id])
      {
        AttachmentIds(id);
        AttachmentTable(v.fields[id]);
      }
    }
  }

  lemma TextTable(v: Value)
    ensures FieldOk("text", v) <==> v.Str? && |v.s| <= 32768
    ensures FieldOk("replyToMessageId", v) <==> ShortText(v, 256)
  {
  }

  const FIELDS: set<string> := {"text", "replyToMessageId", "agent", "attachments", "context", "control"}

  /** The payload: no other field, each as its table says, and text, attachments or a control signal. */
  lemma PayloadTable(payload: map<string, Value>)
    ensures PayloadOk(payload) <==>
      && payload.Keys <= FIELDS && (forall k :: k in payload ==> FieldOk(k, payload[k]))
      && (("text" in payload && payload["text"] != Str("")) || "attachments" in payload || "control" in payload)
  {
    assert forall k, v :: FieldOk(k, v) ==> k in FIELDS;
    if "text" in payload && FieldOk("text", payload["text"]) {
      TextTable(payload["text"]);
    }
  }

  /** The store after a signed create with this payload has arrived. */
  function Created(store: Store, env: Envelope, id: string, payload: map<string, Value>): Store {
    Apply(store, Received(env, id, CreateRecord([Op(OpSet, [], Some(Object(payload)))])))
  }

  function FieldText(payload: map<string, Value>, key: string): string {
    if key in payload && payload[key].Str? then payload[key].s else ""
  }

  function TextCell(payload: map<string, Value>, key: string): Option<Cell> {
    if key in payload && payload[key].Str? then Some(Text(payload[key].s)) else None
  }

  function GroupCell(payload: map<string, Value>, key: string): Option<Cell> {
    if key in payload then Some(Group(payload[key])) else None
  }

  /** What an accepted create stores, field by field; server stamps come from the envelope. */
  function CreatedCell(env: Envelope, payload: map<string, Value>, author: Option<string>, p: Path): Option<Cell> {
    match p
    case PText => TextCell(payload, "text")
    case PReply => TextCell(payload, "replyToMessageId")
    case PAgent => GroupCell(payload, "agent")
    case PAttachments => GroupCell(payload, "attachments")
    case PContext => GroupCell(payload, "context")
    case PControl => GroupCell(payload, "control")
    case PCreator => if env.creator != "" then Some(Text(env.creator)) else None
    case PCreatedAt => if env.timestamp > 0 then Some(Instant(env.timestamp * 1000)) else None
    case PModifiedAt => if env.timestamp > 0 then Some(Instant(env.timestamp * 1000)) else None
    case PMentions =>
      var ids := Pinged(FieldText(payload, "text"), author);
      if ids != [] then Some(Ids(ids)) else None
    case PReaction(_, _) => None
  }

  /** A new message holds its payload, its signer and its time, at the version of the create, and no reaction. */
  lemma CreateStores(store: Store, env: Envelope, id: string, payload: map<string, Value>, p: Path)
    requires id !in store && PayloadOk(payload)
    ensures var author := AuthorOf(store, FieldText(payload, "replyToMessageId"));
      && IsLive(Created(store, env, id, payload), id)
      && Get(RegsOf(Created(store, env, id, payload), id), p) ==
        match CreatedCell(env, payload, author, p)
        case Some(cell) => Some(Reg(env.version, Some(cell)))
        case None => None
  {
    var author := AuthorOf(store, FieldText(payload, "replyToMessageId"));
    CreatedRecord(store, env, id, payload);
    CreatedAt(env, DraftOf(payload), author, p);
    CellIsValue(env, payload, author, p);
  }

  lemma CreatedRecord(store: Store, env: Envelope, id: string, payload: map<string, Value>)
    requires id !in store && PayloadOk(payload)
    ensures var author := AuthorOf(store, FieldText(payload, "replyToMessageId"));
      Created(store, env, id, payload) ==
      store[id := Live(PutAll(map[], env.version, CreateWrites(env, DraftOf(payload), author)))]
  {
    DecodesCreate(payload);
    DraftTexts(payload);
  }

  lemma CellIsValue(env: Envelope, payload: map<string, Value>, author: Option<string>, p: Path)
    ensures CreateValue(env, DraftOf(payload), author, p) ==
      match CreatedCell(env, payload, author, p) case Some(cell) => Some(Some(cell)) case None => None
  {
    DraftTexts(payload);
  }

  lemma DecodesCreate(payload: map<string, Value>)
    ensures DecodeCreate([Op(OpSet, [], Some(Object(payload)))]) ==
      if PayloadOk(payload) then Some(DraftOf(payload)) else None
  {
  }

  lemma DraftTexts(payload: map<string, Value>)
    ensures TextOf(DraftOf(payload)) == FieldText(payload, "text")
    ensures ReplyOf(DraftOf(payload)) == FieldText(payload, "replyToMessageId")
  {
  }

  lemma OnlyCreate(ops: seq<Op>)
    ensures DecodeCreate(ops).Some? ==>
      exists payload :: PayloadOk(payload) && ops == [Op(OpSet, [], Some(Object(payload)))]
  {
    if DecodeCreate(ops).Some? {
      var payload := ops[0].payload.value.fields;
      assert PayloadOk(payload) && ops == [Op(OpSet, [], Some(Object(payload)))];
    }
  }

  /** Anything else is refused whole: another payload, other ops, or an id that is taken. */
  lemma CreateRefused(store: Store, env: Envelope, id: string, ops: seq<Op>)
    requires id in store || !exists payload :: PayloadOk(payload) && ops == [Op(OpSet, [], Some(Object(payload)))]
    ensures Apply(store, Received(env, id, CreateRecord(ops))) == store
  {
    OnlyCreate(ops);
  }

  /** Who is pinged: the first sixty-four mentioned, or sixty-three of them and an author not among those. */
  lemma PingedTable(text: string, author: Option<string>)
    ensures var ids, m := LinkIndex.Mentions(text), Pinged(text, author);
      var first := if |ids| > 64 then ids[..64] else ids;
      && (author == None ==> m == first)
      && (author.Some? && author.value in first ==> m == first)
      && (author.Some? && author.value !in first && |ids| < 64 ==> m == ids + [author.value])
      && (author.Some? && author.value !in first && |ids| >= 64 ==> m == ids[..63] + [author.value])
  {
    var ids := LinkIndex.Mentions(text);
    if |ids| >= 64 {
      assert ids[..64][..63] == ids[..63];
    }
  }

  /** The author replied to: the creator on record of a live message. */
  lemma AuthorTable(store: Store, reply: string, a: string)
    ensures AuthorOf(store, reply) == Some(a) <==>
      reply != "" && IsLive(store, reply) && CreatorOf(store, reply) == a && a != ""
  {
  }

  // ---- deletes -----------------------------------------------------------------------

  /** A delete by the author leaves a tombstone; any other, or of a message not live, changes nothing. */
  lemma DeleteByAuthor(store: Store, env: Envelope, id: string)
    ensures Apply(store, Received(env, id, DeleteRecord)) ==
      if IsLive(store, id) && env.creator != "" && env.creator == CreatorOf(store, id) then store[id := Tombstone]
      else store
  {
  }
}
