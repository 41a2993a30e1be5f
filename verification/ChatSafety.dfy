/** What holds of every message in every run, whatever changes arrive and in whatever order. */
module ChatSafety {
  import opened Prelude
  import opened ChatHandler
  import opened ChatReplica
  import LinkIndex

  /** c is the create behind the record: creator, timestamps and create-only groups are still what it wrote. */
  ghost predicate BornOf(c: Change, id: string, regs: Regs) {
    && c.id == id && c.body.Create? && Contentful(c.body.draft)
    && forall p :: !Editable(p) ==> Get(regs, p) == Win(None, c.env.version, CreateValue(c.env, c.body.draft, None, p))
  }

  /** Every reaction leaf, set or cleared, holds what a toggle of it wrote that its own account signed. */
  ghost predicate ReactionsOwned(log: seq<Change>, id: string, regs: Regs) {
    forall p :: p in regs && p.PReaction? ==> SignedLeaf(log, id, p, regs[p])
  }

  ghost predicate SignedLeaf(log: seq<Change>, id: string, p: Path, r: Reg)
    requires p.PReaction?
  {
    exists m :: m in log && m.id == id && m.body.Modify? && m.env.creator == p.account && m.env.version == r.ver
             && Toggles(m.env, m.body.edits, p, r.val)
  }

  /** One of the edits toggles the leaf to that value: an instant when on, nothing when off. */
  predicate Toggles(env: Envelope, ops: seq<Edit>, p: Path, val: Option<Cell>)
    requires p.PReaction?
  {
    exists k :: 0 <= k < |ops| && ops[k].Toggle? && ops[k].emoji == p.emoji && ops[k].account == p.account
             && val == if ops[k].on then Some(Instant(env.timestamp * 1000)) else None
  }

  lemma {:induction false} ReactionFromToggle(env: Envelope, ops: seq<Edit>, creator: string, author: Option<string>,
      p: Path)
    requires p.PReaction? && FirstWrite(EditWrites(env, ops, creator, author), p).Some?
    ensures Toggles(env, ops, p, FirstWrite(EditWrites(env, ops, creator, author), p).value)
    decreases |ops|
  {
    var head, rest := OpWrites(env, ops[0], creator, author), EditWrites(env, ops[1..], creator, author);
    FirstWriteAppend(head, rest, p);
    if FirstWrite(head, p).Some? {
      OneToggle(env, ops[0], creator, author, p);
    } else {
      ReactionFromToggle(env, ops[1..], creator, author, p);
      var k :| 0 <= k < |ops[1..]| && ops[1..][k].Toggle? && ops[1..][k].emoji == p.emoji &&
        ops[1..][k].account == p.account
            && FirstWrite(rest, p).value == if ops[1..][k].on then Some(Instant(env.timestamp * 1000)) else None;
      assert ops[k + 1] == ops[1..][k];
    }
  }

  lemma OneToggle(env: Envelope, op: Edit, creator: string, author: Option<string>, p: Path)
    requires p.PReaction? && FirstWrite(OpWrites(env, op, creator, author), p).Some?
    ensures op.Toggle? && op.emoji == p.emoji && op.account == p.account
    ensures FirstWrite(OpWrites(env, op, creator, author), p)
         == Some(if op.on then Some(Instant(env.timestamp * 1000)) else None)
  {
    var ws := OpWrites(env, op, creator, author);
    if op.Toggle? {
      OneWrite(ws[0].path, ws[0].val, p);
      assert ws == [ws[0]];
    } else {
      TextWritesNoLeaf(env, op, creator, author, p);
    }
  }

  lemma TextWritesNoLeaf(env: Envelope, op: Edit, creator: string, author: Option<string>, p: Path)
    requires p.PReaction? && !op.Toggle?
    ensures FirstWrite(OpWrites(env, op, creator, author), p) == None
  {
    var ws := OpWrites(env, op, creator, author);
    assert forall i :: 0 <= i < |ws| ==> !ws[i].path.PReaction?;
    NoLeafIn(ws, p);
  }

  lemma {:induction false} NoLeafIn(ws: seq<Write>, p: Path)
    requires forall i :: 0 <= i < |ws| ==> ws[i].path != p
    ensures FirstWrite(ws, p) == None
  {
    if ws != [] {
      NoLeafIn(ws[1..], p);
    }
  }

  predicate HasContent(regs: Regs) {
    ReadText(regs, PText) != "" || PAttachments in regs || PControl in regs
  }

  predicate MentionsOk(regs: Regs) {
    PMentions in regs && regs[PMentions].val.Some? ==>
      regs[PMentions].val.value.Ids? && Distinct(regs[PMentions].val.value.ids)
      && 1 <= |regs[PMentions].val.value.ids| <= MAX_MENTIONS
  }

  ghost predicate Safe(log: seq<Change>, id: string, regs: Regs) {
    && (exists c :: c in log && BornOf(c, id, regs))
    && ReactionsOwned(log, id, regs)
    && HasContent(regs)
    && MentionsOk(regs)
  }

  lemma MentionValueOk(text: string, author: Option<string>, isEdit: bool)
    ensures match MentionValue(text, author, isEdit)
      case Some(Some(cell)) => cell.Ids? && Distinct(cell.ids) && 1 <= |cell.ids| <= MAX_MENTIONS
      case _ => true
  {
    FoldInPromises(LinkIndex.Mentions(text), author);
  }

  /** The registers hold, path by path, what a create gives them. */
  ghost predicate Fresh(regs: Regs, env: Envelope, d: Draft, author: Option<string>) {
    forall p :: Get(regs, p) == Win(None, env.version, CreateValue(env, d, author, p))
  }

  lemma FreshHasContent(regs: Regs, env: Envelope, d: Draft, author: Option<string>)
    requires Fresh(regs, env, d, author) && Contentful(d)
    ensures HasContent(regs)
  {
    assert Get(regs, PText) == Win(None, env.version, TextValue(d.text));
    assert Get(regs, PAttachments) == Win(None, env.version, GroupValue(d.attachments));
    assert Get(regs, PControl) == Win(None, env.version, GroupValue(d.control));
  }

  lemma FreshMentionsOk(regs: Regs, env: Envelope, d: Draft, author: Option<string>)
    requires Fresh(regs, env, d, author)
    ensures MentionsOk(regs)
  {
    MentionValueOk(TextOf(d), author, false);
    assert Get(regs, PMentions) == Win(None, env.version, MentionValue(TextOf(d), author, false));
  }

  /** Only the mentions of a create depend on whom it replies to, and it writes no reaction. */
  lemma CreateValueAuthor(env: Envelope, d: Draft, author: Option<string>, p: Path)
    ensures !p.PMentions? ==> CreateValue(env, d, author, p) == CreateValue(env, d, None, p)
    ensures p.PReaction? ==> CreateValue(env, d, author, p) == None
  {
  }

  lemma FreshIsBorn(regs: Regs, c: Change, author: Option<string>)
    requires c.body.Create? && Contentful(c.body.draft)
    requires Fresh(regs, c.env, c.body.draft, author)
    ensures BornOf(c, c.id, regs) && forall p :: p in regs ==> !p.PReaction?
  {
    var d := c.body.draft;
    forall p
      ensures !Editable(p) ==> Get(regs, p) == Win(None, c.env.version, CreateValue(c.env, d, None, p))
      ensures p in regs ==> !p.PReaction?
    {
      assert Get(regs, p) == Win(None, c.env.version, CreateValue(c.env, d, author, p));
      CreateValueAuthor(c.env, d, author, p);
    }
  }

  lemma CreateIsSafe(log: seq<Change>, c: Change, author: Option<string>)
    requires c in log && c.body.Create? && Contentful(c.body.draft)
    ensures Safe(log, c.id, PutAll(map[], c.env.version, CreateWrites(c.env, c.body.draft, author)))
  {
    var d := c.body.draft;
    var regs := PutAll(map[], c.env.version, CreateWrites(c.env, d, author));
    forall p
      ensures Get(regs, p) == Win(None, c.env.version, CreateValue(c.env, d, author, p))
    {
      CreatedAt(c.env, d, author, p);
    }
    FreshIsBorn(regs, c, author);
    FreshHasContent(regs, c.env, d, author);
    FreshMentionsOk(regs, c.env, d, author);
  }

  // ---- edits -------------------------------------------------------------------

  /** The registers after a modify, path by path. */
  ghost predicate Edited(regs: Regs, regs': Regs, env: Envelope, ops: seq<Edit>, author: Option<string>) {
    forall p :: Get(regs', p) ==
      Win(Get(regs, p), env.version, FirstWrite(EditWrites(env, ops, ReadText(regs, PCreator), author), p))
  }

  lemma EditKeepsBirth(c: Change, id: string, regs: Regs, regs': Regs, env: Envelope, ops: seq<Edit>,
      author: Option<string>)
    requires BornOf(c, id, regs) && Edited(regs, regs', env, ops, author)
    ensures BornOf(c, id, regs')
  {
    forall p | !Editable(p)
      ensures Get(regs', p) == Get(regs, p)
    {
      EditWritesAt(env, ops, ReadText(regs, PCreator), author, p);
      assert Get(regs', p) == Win(Get(regs, p), env.version, None);
    }
  }

  lemma EditKeepsContent(regs: Regs, regs': Regs, env: Envelope, ops: seq<Edit>, author: Option<string>)
    requires HasContent(regs) && MentionsOk(regs) && Edited(regs, regs', env, ops, author)
    ensures HasContent(regs') && MentionsOk(regs')
  {
    var creator := ReadText(regs, PCreator);
    var t := FirstText(env, ops, creator);
    EditWritesAt(env, ops, creator, author, PText);
    EditWritesAt(env, ops, creator, author, PMentions);
    EditWritesAt(env, ops, creator, author, PAttachments);
    EditWritesAt(env, ops, creator, author, PControl);
    assert Get(regs', PText) == Win(Get(regs, PText), env.version, if t.Some? then Some(Some(Text(t.value))) else None);
    assert Get(regs', PAttachments) == Get(regs, PAttachments);
    assert Get(regs', PControl) == Get(regs, PControl);
    if t.Some? {
      MentionValueOk(t.value, author, true);
      assert Get(regs', PMentions) == Win(Get(regs, PMentions), env.version, MentionValue(t.value, author, true));
    } else {
      assert Get(regs', PMentions) == Get(regs, PMentions);
    }
  }

  lemma EditKeepsReactions(log: seq<Change>, m: Change, regs: Regs, regs': Regs, author: Option<string>)
    requires m in log && m.body.Modify? && ReactionsOwned(log, m.id, regs) &&
      Edited(regs, regs', m.env, m.body.edits, author)
    ensures ReactionsOwned(log, m.id, regs')
  {
    forall p | p in regs' && p.PReaction?
      ensures SignedLeaf(log, m.id, p, regs'[p])
    {
      var creator := ReadText(regs, PCreator);
      var v := FirstWrite(EditWrites(m.env, m.body.edits, creator, author), p);
      assert Get(regs', p) == Win(Get(regs, p), m.env.version, v);
      if Get(regs', p) == Get(regs, p) {
        assert p in regs && SignedLeaf(log, m.id, p, regs[p]);
      } else {
        EditWritesAt(m.env, m.body.edits, creator, author, p);
        ReactionFromToggle(m.env, m.body.edits, creator, author, p);
      }
    }
  }

  lemma SafeInLonger(log: seq<Change>, c: Change, id: string, regs: Regs)
    requires Safe(log, id, regs)
    ensures Safe(log + [c], id, regs)
  {
    var b :| b in log && BornOf(b, id, regs);
    assert b in log + [c];
    forall p | p in regs && p.PReaction?
      ensures SignedLeaf(log + [c], id, p, regs[p])
    {
      assert SignedLeaf(log, id, p, regs[p]);
      var m :| m in log && m.id == id && m.body.Modify? && m.env.creator == p.account && m.env.version == regs[p].ver
            && Toggles(m.env, m.body.edits, p, regs[p].val);
      assert m in log + [c];
    }
  }

  lemma EditIsSafe(log: seq<Change>, m: Change, regs: Regs, author: Option<string>)
    requires m in log && m.body.Modify? && Safe(log, m.id, regs)
    ensures Safe(log, m.id, ApplyOps(regs, m.env, m.body.edits, author))
  {
    var regs' := ApplyOps(regs, m.env, m.body.edits, author);
    ApplyOpsIsPutAll(regs, m.env, m.body.edits, author);
    var b :| b in log && BornOf(b, m.id, regs);
    EditKeepsBirth(b, m.id, regs, regs', m.env, m.body.edits, author);
    EditKeepsContent(regs, regs', m.env, m.body.edits, author);
    EditKeepsReactions(log, m, regs, regs', author);
  }

  /** Every live message of every run is safe. */
  lemma {:induction false} EveryRunIsSafe(log: seq<Change>, id: string)
    requires id in Run(log) && Run(log)[id].Live?
    ensures Safe(log, id, Run(log)[id].regs)
    decreases |log|
  {
    var n := |log| - 1;
    var before, c := Run(log[..n]), log[n];
    assert log == log[..n] + [c];
    if id in before && before[id].Live? {
      EveryRunIsSafe(log[..n], id);
      SafeInLonger(log[..n], c, id, before[id].regs);
      if c.id == id && c.body.Modify? {
        EditIsSafe(log, c, before[id].regs, AuthorOf(before, ReadText(before[id].regs, PReply)));
      }
    } else {
      CreateIsSafe(log, c, AuthorOf(before, ReplyOf(c.body.draft)));
    }
  }

  // ---- logs of received changes ---------------------------------------------------------

  /** Stored text stays within the limit when every create's text is. */
  lemma {:induction false} TextBounded(log: seq<Change>, id: string)
    requires forall i :: 0 <= i < |log| && log[i].body.Create? ==> |TextOf(log[i].body.draft)| <= MAX_TEXT
    requires id in Run(log) && Run(log)[id].Live?
    ensures |ReadText(Run(log)[id].regs, PText)| <= MAX_TEXT
    decreases |log|
  {
    var n := |log| - 1;
    var before, c := Run(log[..n]), log[n];
    if id in before && before[id].Live? {
      TextBounded(log[..n], id);
      if c.id == id && c.body.Modify? {
        EditBounded(before[id].regs, c.env, c.body.edits, AuthorOf(before, ReadText(before[id].regs, PReply)));
      }
    } else {
      var author := AuthorOf(before, ReplyOf(c.body.draft));
      CreatedAt(c.env, c.body.draft, author, PText);
      assert Get(Run(log)[id].regs, PText) == Win(None, c.env.version, TextValue(c.body.draft.text));
    }
  }

  lemma EditBounded(regs: Regs, env: Envelope, ops: seq<Edit>, author: Option<string>)
    requires |ReadText(regs, PText)| <= MAX_TEXT
    ensures |ReadText(ApplyOps(regs, env, ops, author), PText)| <= MAX_TEXT
  {
    var creator := ReadText(regs, PCreator);
    ApplyOpsIsPutAll(regs, env, ops, author);
    EditWritesAt(env, ops, creator, author, PText);
    FirstTextBounded(env, ops, creator);
    assert Get(ApplyOps(regs, env, ops, author), PText)
        == Win(Get(regs, PText), env.version, FirstWrite(EditWrites(env, ops, creator, author), PText));
  }

  lemma {:induction false} FirstTextBounded(env: Envelope, ops: seq<Edit>, creator: string)
    ensures FirstText(env, ops, creator).Some? ==> |FirstText(env, ops, creator).value| <= MAX_TEXT
  {
    if ops != [] { FirstTextBounded(env, ops[1..], creator); }
  }

  /** A create-only group that is stored passed the rules for its field. */
  ghost predicate GroupKept(regs: Regs, p: Path, key: string) {
    p in regs ==> regs[p].val.Some? && regs[p].val.value.Group? && FieldOk(key, regs[p].val.value.group)
  }

  /** Whatever is received: live messages are safe, within the text limit, and their groups well formed. */
  lemma ReceivedRunIsSafe(raws: seq<Raw>, id: string)
    requires id in Run(ReceivedLog(raws)) && Run(ReceivedLog(raws))[id].Live?
    ensures var regs := Run(ReceivedLog(raws))[id].regs;
      && Safe(ReceivedLog(raws), id, regs) && |ReadText(regs, PText)| <= MAX_TEXT
      && forall p :: IsGroup(p) ==> GroupKept(regs, p, GroupKey(p))
  {
    var log := ReceivedLog(raws);
    EveryRunIsSafe(log, id);
    forall i | 0 <= i < |log| && log[i].body.Create?
      ensures |TextOf(log[i].body.draft)| <= MAX_TEXT
    {
      DraftIsPayload(raws[i].rc.ops);
    }
    TextBounded(log, id);
    var regs := Run(log)[id].regs;
    var c :| c in log && BornOf(c, id, regs);
    var i :| 0 <= i < |log| && log[i] == c;
    forall p | IsGroup(p)
      ensures GroupKept(regs, p, GroupKey(p))
    {
      BornGroup(c, id, regs, raws[i].rc.ops, p);
    }
  }

  lemma OneGroup(regs: Regs, p: Path, ver: nat, key: string, payload: map<string, Value>)
    requires Get(regs, p) == Win(None, ver, GroupValue(GroupField(payload, key)))
    requires forall k :: k in payload ==> FieldOk(k, payload[k])
    ensures GroupKept(regs, p, key)
  {
    assert key in payload ==> FieldOk(key, payload[key]);
  }

  predicate IsGroup(p: Path) { p.PAgent? || p.PAttachments? || p.PContext? || p.PControl? }

  /** The payload field a create-only group comes from. */
  function GroupKey(p: Path): string
    requires IsGroup(p)
  {
    match p
    case PAgent => "agent"
    case PAttachments => "attachments"
    case PContext => "context"
    case PControl => "control"
  }

  /** A draft's group is the payload's field. */
  lemma DraftGroup(env: Envelope, payload: map<string, Value>, p: Path)
    requires IsGroup(p)
    ensures CreateValue(env, DraftOf(payload), None, p) == GroupValue(GroupField(payload, GroupKey(p)))
  {
  }

  lemma BornGroup(c: Change, id: string, regs: Regs, ops: seq<Op>, p: Path)
    requires BornOf(c, id, regs) && DecodeCreate(ops) == Some(c.body.draft) && IsGroup(p)
    ensures GroupKept(regs, p, GroupKey(p))
  {
    var payload := ops[0].payload.value.fields;
    DraftGroup(c.env, payload, p);
    assert !Editable(p) && Get(regs, p) == Win(None, c.env.version, CreateValue(c.env, c.body.draft, None, p));
    OneGroup(regs, p, c.env.version, GroupKey(p), payload);
  }

  lemma AuthorDerived(text: string, a: string)
    ensures a in Derived(text, Some(a)) && Derived(text, Some(a)) != []
    ensures MentionValue(text, Some(a), true) == Some(Some(Ids(Derived(text, Some(a)))))
    ensures MentionValue(text, Some(a), false) == Some(Some(Ids(Derived(text, Some(a)))))
  {
    FoldInPromises(LinkIndex.Mentions(text), Some(a));
  }

  /** An accepted create pings the live replied-to author. */
  lemma CreatePingsRepliedTo(store: Store, c: Change, a: string)
    requires c.body.Create? && Contentful(c.body.draft) && c.id !in store
    requires AuthorOf(store, ReplyOf(c.body.draft)) == Some(a)
    ensures var after := Apply(store, c)[c.id].regs;
      PMentions in after && after[PMentions].val.Some? && after[PMentions].val.value.Ids?
      && a in after[PMentions].val.value.ids
  {
    var d := c.body.draft;
    CreatedAt(c.env, d, Some(a), PMentions);
    AuthorDerived(TextOf(d), a);
    assert Get(Apply(store, c)[c.id].regs, PMentions) ==
      Win(None, c.env.version, MentionValue(TextOf(d), Some(a), false));
  }

  /** An accepted edit that wins pings the live replied-to author. */
  lemma EditPingsRepliedTo(store: Store, m: Change, a: string)
    requires m.id in store && store[m.id].Live? && m.body.Modify?
    requires var regs := store[m.id].regs;
      && FirstText(m.env, m.body.edits, ReadText(regs, PCreator)).Some?
      && (PMentions in regs ==> regs[PMentions].ver < m.env.version)
      && AuthorOf(store, ReadText(regs, PReply)) == Some(a)
    ensures var after := Apply(store, m)[m.id].regs;
      PMentions in after && after[PMentions].val.Some? && after[PMentions].val.value.Ids?
      && a in after[PMentions].val.value.ids
  {
    var regs := store[m.id].regs;
    var creator := ReadText(regs, PCreator);
    var t := FirstText(m.env, m.body.edits, creator).value;
    ApplyOpsIsPutAll(regs, m.env, m.body.edits, Some(a));
    EditWritesAt(m.env, m.body.edits, creator, Some(a), PMentions);
    AuthorDerived(t, a);
    assert Get(Apply(store, m)[m.id].regs, PMentions) ==
      Win(Get(regs, PMentions), m.env.version, Some(Some(Ids(Derived(t, Some(a))))));
  }

  /**
   * Who can change what: text, the time of its last edit, mentions and life only the author, a reaction leaf
   * only its account, the rest nobody.
   */
  lemma OnlyOwnersChange(store: Store, c: Change, id: string, p: Path)
    requires id in store && store[id].Live?
    ensures var creator := ReadText(store[id].regs, PCreator);
      && id in Apply(store, c)
      && (Apply(store, c)[id].Tombstone? ==> c.id == id && creator != "" && c.env.creator == creator)
      && (Apply(store, c)[id].Live? && Get(Apply(store, c)[id].regs, p) != Get(store[id].regs, p) ==>
            && c.id == id && Editable(p)
            && (p.PText? || p.PModifiedAt? || p.PMentions? ==> creator != "" && c.env.creator == creator)
            && (p.PReaction? ==> p.account == c.env.creator))
  {
    if c.id == id && c.body.Modify? {
      var regs := store[id].regs;
      var author := AuthorOf(store, ReadText(regs, PReply));
      ApplyOpsIsPutAll(regs, c.env, c.body.edits, author);
      EditWritesAt(c.env, c.body.edits, ReadText(regs, PCreator), author, p);
      assert Get(Apply(store, c)[id].regs, p)
          == Win(Get(regs, p), c.env.version,
            FirstWrite(EditWrites(c.env, c.body.edits, ReadText(regs, PCreator), author), p));
    }
  }
}
