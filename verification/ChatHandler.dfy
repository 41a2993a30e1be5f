/** The chat message handler: what a signed change may write to a message record. */
module ChatHandler {
  import opened Prelude
  import LinkIndex

  const MAX_TEXT := 32768
  const MAX_REPLY_ID := 256
  const MAX_EMOJI := 64
  const MAX_ATTACHMENTS := 32
  const MAX_ATTACHMENT_ID := 64
  const MAX_MENTIONS := 64

  // ---- changes as they arrive --------------------------------------------------

  /** A decoded payload value; `Other` is every type the handler never accepts. */
  datatype Value = Str(s: string) | Flag(b: bool) | Object(fields: map<string, Value>) | Other

  datatype OpType = OpSet | OpUnset | OpOther

  datatype Op = Op(kind: OpType, path: seq<string>, payload: Option<Value>)

  /** Who signed a change, when, and its place in the change order all replicas agree on. */
  datatype Envelope = Envelope(creator: string, timestamp: int, version: nat)

  // ---- records as they are stored ----------------------------------------------

  datatype Path =
    | PText | PReply | PAgent | PAttachments | PContext | PControl
    | PCreator | PCreatedAt | PModifiedAt | PMentions
    | PReaction(emoji: string, account: string)

  datatype Cell = Text(text: string) | Group(group: Value) | Instant(millis: int) | Ids(ids: seq<string>)

  /** A last-writer-wins register; an unset keeps its version and no value. */
  datatype Reg = Reg(ver: nat, val: Option<Cell>)

  type Regs = map<Path, Reg>

  datatype Write = Write(path: Path, val: Option<Cell>)

  // ---- payload grammar ------------------------------------------------------------

  datatype Rule = NonEmpty(max: nat) | Boolean

  predicate Obeys(v: Value, r: Rule) {
    match r
    case NonEmpty(max) => v.Str? && 1 <= |v.s| <= max
    case Boolean => v.Flag?
  }

  /** An object whose fields are all known and obey their rules, with none of the required ones missing. */
  predicate GroupOk(v: Value, rules: map<string, Rule>, needed: set<string>) {
    && v.Object?
    && (forall k :: k in v.fields ==> k in rules && Obeys(v.fields[k], rules[k]))
    && needed <= v.fields.Keys
  }

  const CONTEXT_RULES: map<string, Rule> :=
    map["spaceId" := NonEmpty(256), "objectId" := NonEmpty(256), "view" := NonEmpty(64)]
  const CONTROL_RULES: map<string, Rule> := map["kind" := NonEmpty(64), "hard" := Boolean]
  const AGENT_RULES: map<string, Rule> :=
    map["name" := NonEmpty(256), "debugLink" := NonEmpty(2048), "done" := Boolean, "outcome" := NonEmpty(64)]
  const ATTACHMENT_RULES: map<string, Rule> := map["type" := NonEmpty(64), "link" := NonEmpty(2048)]

  predicate ValidAttachmentId(id: string) {
    1 <= |id| <= MAX_ATTACHMENT_ID && forall i :: 0 <= i < |id| ==>
      'A' <= id[i] <= 'Z' || 'a' <= id[i] <= 'z' || '0' <= id[i] <= '9' || id[i] == '_' || id[i] == '-'
  }

  predicate AttachmentsOk(v: Value) {
    && v.Object? && 1 <= |v.fields| <= MAX_ATTACHMENTS
    && forall id :: id in v.fields ==>
      ValidAttachmentId(id) && GroupOk(v.fields[id], ATTACHMENT_RULES, {"type", "link"})
  }

  /** One field of a create payload: on the allow-list and well formed. */
  predicate FieldOk(key: string, v: Value) {
    if key == "text" then v.Str? && |v.s| <= MAX_TEXT
    else if key == "replyToMessageId" then v.Str? && 1 <= |v.s| <= MAX_REPLY_ID
    else if key == "agent" then GroupOk(v, AGENT_RULES, {"name", "done"})
    else if key == "attachments" then AttachmentsOk(v)
    else if key == "context" then GroupOk(v, CONTEXT_RULES, {"spaceId"})
    else if key == "control" then GroupOk(v, CONTROL_RULES, {"kind"})
    else false
  }

  predicate NonEmptyText(payload: map<string, Value>) {
    "text" in payload && payload["text"].Str? && payload["text"].s != ""
  }

  /** A create payload: allowed fields only, and content of some kind. */
  predicate PayloadOk(payload: map<string, Value>) {
    && (forall k :: k in payload ==> FieldOk(k, payload[k]))
    && (NonEmptyText(payload) || "attachments" in payload || "control" in payload)
  }

  /** The visit of the source: fields in the order the object yields them, flags decided at the end. */
  method ValidateCreatePayload(payload: map<string, Value>) returns (ok: bool)
    ensures ok <==> PayloadOk(payload)
  {
    var failed, hasText, hasAttachments, hasControl := false, false, false, false;
    var keys := payload.Keys;
    while keys != {}
      invariant keys <= payload.Keys
      invariant failed <==> exists k :: k in payload.Keys - keys && !FieldOk(k, payload[k])
      invariant !failed ==> (hasText <==> "text" !in keys && NonEmptyText(payload))
      invariant !failed ==> (hasAttachments <==> "attachments" in payload.Keys - keys)
      invariant !failed ==> (hasControl <==> "control" in payload.Keys - keys)
      decreases keys
    {
      var k :| k in keys;
      keys := keys - {k};
      if failed {
        continue;
      }
      if !FieldOk(k, payload[k]) {
        failed := true;
      } else if k == "text" {
        hasText := payload[k].s != "";
      } else if k == "attachments" {
        hasAttachments := true;
      } else if k == "control" {
        hasControl := true;
      }
    }
    return !failed && (hasText || hasAttachments || hasControl);
  }

  // ---- derived mentions ------------------------------------------------------------

  /** Text mentions capped, then the replied-to author folded in; at the cap the last text mention yields. */
  function FoldIn(ids: seq<string>, author: Option<string>): seq<string> {
    var capped := if |ids| > MAX_MENTIONS then ids[..MAX_MENTIONS] else ids;
    match author
    case None => capped
    case Some(a) =>
      if a in capped then capped
      else (if |capped| == MAX_MENTIONS then capped[..MAX_MENTIONS - 1] else capped) + [a]
  }

  /** What the fold-in promises: bounded, distinct, the author always pinged, text mentions kept in order. */
  lemma FoldInPromises(ids: seq<string>, author: Option<string>)
    requires Distinct(ids)
    ensures var m := FoldIn(ids, author);
      && |m| <= 64 && Distinct(m)
      && (author.Some? ==> author.value in m)
      && (forall x :: x in m ==> x in ids || author == Some(x))
      && (forall k :: 0 <= k < |ids| && k < 63 ==> k < |m| && m[k] == ids[k])
  {
  }

  function Derived(text: string, author: Option<string>): seq<string> {
    FoldIn(LinkIndex.Mentions(text), author)
  }

  /** The mentions a create or an edit stamps: nothing on a create without any, an unset on such an edit. */
  function MentionWrites(text: string, author: Option<string>, isEdit: bool): seq<Write> {
    var ids := Derived(text, author);
    if ids != [] then [Write(PMentions, Some(Ids(ids)))]
    else if isEdit then [Write(PMentions, None)]
    else []
  }

  // ---- the three gates ------------------------------------------------------------

  /** A create payload by field, once it has passed the gate. */
  datatype Draft = Draft(text: Option<string>, replyTo: Option<string>, agent: Option<Value>,
                         attachments: Option<Value>, context: Option<Value>, control: Option<Value>)

  predicate Contentful(d: Draft) {
    (d.text.Some? && d.text.value != "") || d.attachments.Some? || d.control.Some?
  }

  function StringField(payload: map<string, Value>, key: string): Option<string> {
    if key in payload && payload[key].Str? then Some(payload[key].s) else None
  }

  function GroupField(payload: map<string, Value>, key: string): Option<Value> {
    if key in payload then Some(payload[key]) else None
  }

  /** The create gate: exactly one multi-field $set of a valid object, or nothing. */
  function DecodeCreate(ops: seq<Op>): (d: Option<Draft>)
    ensures d.Some? ==> Contentful(d.value)
  {
    if |ops| == 1 && ops[0].kind.OpSet? && ops[0].path == [] && ops[0].payload.Some?
       && ops[0].payload.value.Object? && PayloadOk(ops[0].payload.value.fields)
    then
      Some(DraftOf(ops[0].payload.value.fields))
    else None
  }

  /** A payload by field. */
  function DraftOf(p: map<string, Value>): Draft {
    Draft(StringField(p, "text"), StringField(p, "replyToMessageId"), GroupField(p, "agent"),
          GroupField(p, "attachments"), GroupField(p, "context"), GroupField(p, "control"))
  }

  /** A draft loses nothing: the fields of an accepted payload are exactly the fields of its draft. */
  lemma DraftIsPayload(ops: seq<Op>)
    requires DecodeCreate(ops).Some?
    ensures var d, p := DecodeCreate(ops).value, ops[0].payload.value.fields;
      && (forall k :: k in p ==> FieldOk(k, p[k]))
      && (if d.text.Some? then GroupField(p, "text") == Some(Str(d.text.value)) && |d.text.value| <= MAX_TEXT
          else "text" !in p)
      && (if d.replyTo.Some?
          then GroupField(p, "replyToMessageId") == Some(Str(d.replyTo.value)) && d.replyTo.value != ""
          else "replyToMessageId" !in p)
      && d.agent == GroupField(p, "agent") && d.attachments == GroupField(p, "attachments")
      && d.context == GroupField(p, "context") && d.control == GroupField(p, "control")
      && p.Keys <= {"text", "replyToMessageId", "agent", "attachments", "context", "control"}
  {
    var p := ops[0].payload.value.fields;
    assert "text" in p ==> FieldOk("text", p["text"]);
    assert "replyToMessageId" in p ==> FieldOk("replyToMessageId", p["replyToMessageId"]);
    forall k | k in p
      ensures k in {"text", "replyToMessageId", "agent", "attachments", "context", "control"}
    {
      assert FieldOk(k, p[k]);
    }
  }

  /** A modify op by what it asks for; `Dropped` is every op off the allow-list or of the wrong shape. */
  datatype Edit = TextEdit(text: string) | Toggle(emoji: string, account: string, on: bool) | Dropped

  predicate IsTextEdit(op: Op) { op.kind.OpSet? && op.path == ["text"] }

  predicate IsReactionToggle(op: Op) {
    (op.kind.OpSet? || op.kind.OpUnset?) && |op.path| == 3 && op.path[0] == "reactions" && op.path[1] != "" &&
      op.path[2] != ""
  }

  function DecodeOp(op: Op): Edit {
    if IsTextEdit(op) then
      if op.payload.Some? && op.payload.value.Str? then TextEdit(op.payload.value.s) else Dropped
    else if IsReactionToggle(op) then Toggle(op.path[1], op.path[2], op.kind.OpSet?)
    else Dropped
  }

  // ---- what accepted changes write ----------------------------------------------------

  function TextOf(d: Draft): string { if d.text.Some? then d.text.value else "" }

  function ReplyOf(d: Draft): string { if d.replyTo.Some? then d.replyTo.value else "" }

  function TextWrite(v: Option<string>, path: Path): seq<Write> {
    if v.Some? then [Write(path, Some(Text(v.value)))] else []
  }

  function GroupWrite(v: Option<Value>, path: Path): seq<Write> {
    if v.Some? then [Write(path, Some(Group(v.value)))] else []
  }

  function StampWrites(env: Envelope): seq<Write> {
    (if env.creator != "" then [Write(PCreator, Some(Text(env.creator)))] else []) +
    (if env.timestamp > 0 then [Write(PCreatedAt, Some(Instant(env.timestamp * 1000))),
                                Write(PModifiedAt, Some(Instant(env.timestamp * 1000)))] else [])
  }

  function CreateWrites(env: Envelope, d: Draft, author: Option<string>): seq<Write> {
    TextWrite(d.text, PText) + TextWrite(d.replyTo, PReply)
    + GroupWrite(d.agent, PAgent) + GroupWrite(d.attachments, PAttachments)
    + GroupWrite(d.context, PContext) + GroupWrite(d.control, PControl)
    + StampWrites(env) + MentionWrites(TextOf(d), author, false)
  }

  /** Fail-closed authorship: the stored creator is the non-empty signer. */
  predicate IsAuthor(creator: string, env: Envelope) {
    env.creator != "" && creator == env.creator
  }

  /** What one edit writes, or None when it is dropped. `creator` is the record's, "" when unstamped. */
  function Gate(env: Envelope, edit: Edit, creator: string, author: Option<string>): Option<seq<Write>> {
    match edit
    case TextEdit(text) =>
      if IsAuthor(creator, env) && 1 <= |text| <= MAX_TEXT then
        Some([Write(PText, Some(Text(text)))]
             + (if env.timestamp > 0 then [Write(PModifiedAt, Some(Instant(env.timestamp * 1000)))] else [])
             + MentionWrites(text, author, true))
      else None
    case Toggle(emoji, account, on) =>
      if |emoji| <= MAX_EMOJI && account == env.creator && (on ==> env.timestamp > 0) then
        Some([Write(PReaction(emoji, account), if on then Some(Instant(env.timestamp * 1000)) else None)])
      else None
    case Dropped => None
  }
}
