/** Replicas that apply the same changes, in any causal order, agree on every message. */
module ChatConvergence {
  import opened Prelude
  import opened ChatHandler
  import opened ChatReplica
  import ChatSafety

  predicate Creates(c: Change, id: string) { c.id == id && c.body.Create? }

  predicate Births(c: Change, id: string) { Creates(c, id) && Contentful(c.body.draft) }

  predicate Edits(m: Change, id: string) { m.id == id && m.body.Modify? }

  /** d deletes the message c creates, and may: it is signed by the same account. */
  predicate Rightful(c: Change, d: Change) {
    d.body.Delete? && d.id == c.id && d.env.creator != "" && d.env.creator == c.env.creator
  }

  /**
   * What identifiers and versions guarantee: versions tell changes apart, an id has one create, and an
   * edit is versioned after the create it depends on.
   */
  ghost predicate Lawful(cs: set<Change>) {
    && (forall c, d :: c in cs && d in cs && c.env.version == d.env.version ==> c == d)
    && (forall c, d :: c in cs && d in cs && c.body.Create? && d.body.Create? && c.id == d.id ==> c == d)
    && (forall c, d :: c in cs && d in cs && c.body.Create? && Edits(d, c.id) ==> c.env.version < d.env.version)
  }

  /** d creates a message in reply to the one c creates. */
  predicate RepliesTo(d: Change, c: Change) {
    Births(d, d.id) && Creates(c, ReplyOf(d.body.draft))
  }

  /** m depends on the create c: it edits or deletes the message, or replies to it, unless it is c itself. */
  predicate Needs(m: Change, c: Change) {
    ((m.body.Modify? || m.body.Delete?) && Creates(c, m.id)) || (RepliesTo(m, c) && m != c)
  }

  /** The log applies changes of cs, each after the creates it depends on. */
  ghost predicate Causal(cs: set<Change>, log: seq<Change>) {
    && (forall i :: 0 <= i < |log| ==> log[i] in cs)
    && (forall i, c :: 0 <= i < |log| && c in cs && Needs(log[i], c) ==> c in log[..i])
  }

  /** Nobody entitled to deletes the message. */
  ghost predicate Kept(cs: set<Change>, id: string) {
    forall c, d :: c in cs && d in cs && Births(c, id) ==> !Rightful(c, d)
  }

  lemma CausalPrefix(cs: set<Change>, log: seq<Change>, n: nat)
    requires Causal(cs, log) && n <= |log|
    ensures Causal(cs, log[..n])
  {
    forall i | 0 <= i < n
      ensures log[..n][..i] == log[..i]
    {
    }
  }

  // ---- what a set of changes says about a message, without any order ------------------

  /** Who is looked up as the replied-to author when a change is applied. */
  type Authors = Change -> Option<string>

  /** What change m writes to path p of the message c creates. */
  function Writes(au: Authors, c: Change, m: Change, p: Path): Option<Option<Cell>> {
    if c.body.Create? && m == c then CreateValue(c.env, c.body.draft, au(m), p)
    else if Edits(m, c.id) then FirstWrite(EditWrites(m.env, m.body.edits, c.env.creator, au(m)), p)
    else None
  }

  /** The same for a fixed message and path. */
  function WritesTo(au: Authors, c: Change, p: Path): Change -> Option<Option<Cell>> {
    m => Writes(au, c, m, p)
  }

  /** r is the write of the highest version among the changes seen. */
  ghost predicate WinnerOf(r: Option<Reg>, seen: set<Change>, w: Change -> Option<Option<Cell>>) {
    && (r.Some? ==> exists m :: m in seen && w(m) == Some(r.value.val) && m.env.version == r.value.ver)
    && (forall m :: m in seen && w(m).Some? ==> r.Some? && m.env.version <= r.value.ver)
  }

  /** The winner's writer is no older than any writer seen. */
  lemma WinnersWriter(r: Option<Reg>, seen: set<Change>, w: Change -> Option<Option<Cell>>) returns (m: Change)
    requires WinnerOf(r, seen, w) && r.Some?
    ensures m in seen && w(m) == Some(r.value.val) && m.env.version == r.value.ver
    ensures forall e :: e in seen && w(e).Some? ==> e.env.version <= m.env.version
  {
    m :| m in seen && w(m) == Some(r.value.val) && m.env.version == r.value.ver;
  }

  /** A set of changes with distinct versions has one winner. */
  lemma WinnerIsUnique(r: Option<Reg>, s: Option<Reg>, seen: set<Change>, w: Change -> Option<Option<Cell>>)
    requires forall c, d :: c in seen && d in seen && c.env.version == d.env.version ==> c == d
    requires WinnerOf(r, seen, w) && WinnerOf(s, seen, w)
    ensures r == s
  {
    if r.Some? {
      var m := WinnersWriter(r, seen, w);
      var n := WinnersWriter(s, seen, w);
    }
  }

  /** One more change moves the winner exactly as last-writer-wins does. */
  lemma WinnerStep(r: Option<Reg>, seen: set<Change>, w: Change -> Option<Option<Cell>>, m: Change)
    requires WinnerOf(r, seen, w)
    ensures WinnerOf(Win(r, m.env.version, w(m)), seen + {m}, w)
  {
    var r' := Win(r, m.env.version, w(m));
    if r' == r && r.Some? {
      var n := WinnersWriter(r, seen, w);
      assert n in seen + {m};
    } else if w(m).Some? {
      assert m in seen + {m};
    }
  }

  /** Only the mentions of an edit depend on the reply author. */
  lemma {:induction false} EditWritesAuthor(env: Envelope, ops: seq<Edit>, creator: string, a: Option<string>,
      b: Option<string>, p: Path)
    requires !p.PMentions?
    ensures FirstWrite(EditWrites(env, ops, creator, a), p) == FirstWrite(EditWrites(env, ops, creator, b), p)
    decreases |ops|
  {
    if ops != [] {
      EditWritesAuthor(env, ops[1..], creator, a, b, p);
      OpWritesAuthor(env, ops[0], creator, a, b, p);
      FirstWriteAppend(OpWrites(env, ops[0], creator, a), EditWrites(env, ops[1..], creator, a), p);
      FirstWriteAppend(OpWrites(env, ops[0], creator, b), EditWrites(env, ops[1..], creator, b), p);
    }
  }

  lemma OpWritesAuthor(env: Envelope, op: Edit, creator: string, a: Option<string>, b: Option<string>, p: Path)
    requires !p.PMentions?
    ensures FirstWrite(OpWrites(env, op, creator, a), p) == FirstWrite(OpWrites(env, op, creator, b), p)
  {
    if EditedText(env, op, creator).Some? {
      var text := EditedText(env, op, creator).value;
      var head := [Write(PText, Some(Text(text)))]
                + (if env.timestamp > 0 then [Write(PModifiedAt, Some(Instant(env.timestamp * 1000)))] else []);
      FirstWriteAppend(head, MentionWrites(text, a, true), p);
      FirstWriteAppend(head, MentionWrites(text, b, true), p);
      MentionWriteAt(text, a, true, p);
      MentionWriteAt(text, b, true, p);
    }
  }

  /** Only the mentions depend on whom a message replies to. */
  lemma WritesAuthor(a: Authors, b: Authors, c: Change, m: Change, p: Path)
    requires !p.PMentions? || a(m) == b(m)
    ensures Writes(a, c, m, p) == Writes(b, c, m, p)
  {
    if !p.PMentions? {
      if c.body.Create? && m == c {
        ChatSafety.CreateValueAuthor(c.env, c.body.draft, a(m), p);
        ChatSafety.CreateValueAuthor(c.env, c.body.draft, b(m), p);
      } else if Edits(m, c.id) {
        EditWritesAuthor(m.env, m.body.edits, c.env.creator, a(m), b(m), p);
      }
    }
  }

  /** A winner under one lookup is one under any other that writes the same. */
  lemma WinnerSame(r: Option<Reg>, seen: set<Change>, w: Change -> Option<Option<Cell>>,
      v: Change -> Option<Option<Cell>>)
    requires WinnerOf(r, seen, w) && forall m :: m in seen ==> w(m) == v(m)
    ensures WinnerOf(r, seen, v)
  {
    if r.Some? {
      var m := WinnersWriter(r, seen, w);
      assert v(m) == Some(r.value.val);
    }
  }

  // ---- what a run holds --------------------------------------------------------------

  function Seen(log: seq<Change>): set<Change> {
    set c | c in log
  }

  /** The registers of a message hold the winners among the changes seen. */
  ghost predicate Holds(au: Authors, seen: set<Change>, c: Change, regs: Regs) {
    forall p: Path :: WinnerOf(Get(regs, p), seen, WritesTo(au, c, p))
  }

  lemma HoldsSame(a: Authors, b: Authors, seen: set<Change>, c: Change, regs: Regs)
    requires Holds(a, seen, c, regs) && forall m :: m in seen ==> a(m) == b(m)
    ensures Holds(b, seen, c, regs)
  {
    forall p: Path
      ensures WinnerOf(Get(regs, p), seen, WritesTo(b, c, p))
    {
      forall m | m in seen
        ensures WritesTo(a, c, p)(m) == WritesTo(b, c, p)(m)
      {
        WritesAuthor(a, b, c, m, p);
      }
      WinnerSame(Get(regs, p), seen, WritesTo(a, c, p), WritesTo(b, c, p));
    }
  }

  /** Non-editable paths are the create's for good. */
  lemma HeldPath(au: Authors, seen: set<Change>, c: Change, regs: Regs, p: Path)
    requires c in seen && c.body.Create? && Holds(au, seen, c, regs) && !Editable(p)
    ensures Get(regs, p) == Win(None, c.env.version, CreateValue(c.env, c.body.draft, None, p))
  {
    var r, w := Get(regs, p), WritesTo(au, c, p);
    assert WinnerOf(r, seen, w);
    ChatSafety.CreateValueAuthor(c.env, c.body.draft, au(c), p);
    forall m | m in seen && w(m).Some?
      ensures m == c
    {
      if m != c {
        EditWritesAt(m.env, m.body.edits, c.env.creator, au(m), p);
      }
    }
  }

  lemma HeldText(au: Authors, seen: set<Change>, c: Change, regs: Regs)
    requires c in seen && c.body.Create? && Holds(au, seen, c, regs)
    ensures ReadText(regs, PCreator) == c.env.creator && ReadText(regs, PReply) == ReplyOf(c.body.draft)
  {
    HeldPath(au, seen, c, regs, PCreator);
    HeldPath(au, seen, c, regs, PReply);
  }

  ghost predicate Born(log: seq<Change>, id: string) {
    exists c :: c in log && Births(c, id)
  }

  /** The message was created and rightfully deleted. */
  ghost predicate Gone(log: seq<Change>, id: string) {
    exists c, d :: c in log && d in log && Births(c, id) && Rightful(c, d)
  }

  /** Where a log first applies a change. */
  function FirstAt(log: seq<Change>, m: Change): (k: nat)
    requires m in log
    ensures k < |log| && log[k] == m && m !in log[..k]
  {
    if log[0] == m then 0
    else
      var k := 1 + FirstAt(log[1..], m);
      assert log[..k] == [log[0]] + log[1..][..k - 1];
      k
  }

  /** Whom change m finds as the author of message t when the log applies it. */
  function AuthorAt(log: seq<Change>, m: Change, t: string): Option<string> {
    if m in log then AuthorOf(Run(log[..FirstAt(log, m)]), t) else None
  }

  function AuthorsIn(log: seq<Change>, t: string): Authors { m => AuthorAt(log, m, t) }

  lemma FirstAtIs(log: seq<Change>, m: Change, k: nat)
    requires k < |log| && log[k] == m && m !in log[..k]
    ensures FirstAt(log, m) == k
  {
    assert forall i, n :: 0 <= i < n < |log| ==> log[i] in log[..n];
  }

  /** A longer log finds the same for the changes it already had, and looks in the store so far for a new one. */
  lemma AuthorAtNext(log: seq<Change>, x: Change, m: Change, t: string)
    ensures m in log ==> AuthorAt(log + [x], m, t) == AuthorAt(log, m, t)
    ensures x !in log ==> AuthorAt(log + [x], x, t) == AuthorOf(Run(log), t)
  {
    var all := log + [x];
    if m in log {
      var k := FirstAt(log, m);
      assert all[k] == m && all[..k] == log[..k];
      FirstAtIs(all, m, k);
    }
    if x !in log {
      assert all[|log|] == x && all[..|log|] == log;
      FirstAtIs(all, x, |log|);
    }
  }

  /** The state of one message after a log: absent until born, a tombstone once gone, else holding the winners. */
  ghost predicate Settled(log: seq<Change>, id: string, store: Store) {
    && (id in store <==> Born(log, id))
    && (id in store ==> (store[id].Tombstone? <==> Gone(log, id)))
    && (forall c :: c in log && Births(c, id) && !Gone(log, id) ==>
      store[id].Live? && Holds(AuthorsIn(log, ReplyOf(c.body.draft)), Seen(log), c, store[id].regs))
  }

  /** A change that does not write to the message leaves its winners alone. */
  lemma OtherChange(au: Authors, seen: set<Change>, m: Change, c: Change, regs: Regs)
    requires Holds(au, seen, c, regs) && c in seen && (m == c || !Edits(m, c.id))
    ensures Holds(au, seen + {m}, c, regs)
  {
    forall p: Path
      ensures WinnerOf(Get(regs, p), seen + {m}, WritesTo(au, c, p))
    {
      assert WinnerOf(Get(regs, p), seen, WritesTo(au, c, p));
      if m == c {
        assert seen + {m} == seen;
      } else {
        WinnerStep(Get(regs, p), seen, WritesTo(au, c, p), m);
      }
    }
  }

  /** The create itself: its writes are the winners when nothing seen has written. */
  lemma CreateSettles(au: Authors, seen: set<Change>, c: Change)
    requires c.body.Create? && forall m :: m in seen ==> m != c && !Edits(m, c.id)
    ensures Holds(au, seen + {c}, c, PutAll(map[], c.env.version, CreateWrites(c.env, c.body.draft, au(c))))
  {
    var regs := PutAll(map[], c.env.version, CreateWrites(c.env, c.body.draft, au(c)));
    forall p: Path
      ensures WinnerOf(Get(regs, p), seen + {c}, WritesTo(au, c, p))
    {
      CreatedAt(c.env, c.body.draft, au(c), p);
      assert WinnerOf(None, seen, WritesTo(au, c, p));
      WinnerStep(None, seen, WritesTo(au, c, p), c);
    }
  }

  /** An edit: its writes compete with the winners so far. */
  lemma EditSettles(au: Authors, seen: set<Change>, m: Change, c: Change, regs: Regs)
    requires c in seen && c.body.Create? && Holds(au, seen, c, regs) && Edits(m, c.id)
    ensures Holds(au, seen + {m}, c, ApplyOps(regs, m.env, m.body.edits, au(m)))
  {
    HeldText(au, seen, c, regs);
    ApplyOpsIsPutAll(regs, m.env, m.body.edits, au(m));
    var regs' := ApplyOps(regs, m.env, m.body.edits, au(m));
    forall p: Path
      ensures WinnerOf(Get(regs', p), seen + {m}, WritesTo(au, c, p))
    {
      assert WinnerOf(Get(regs, p), seen, WritesTo(au, c, p));
      assert Get(regs', p) == Win(Get(regs, p), m.env.version, WritesTo(au, c, p)(m));
      WinnerStep(Get(regs, p), seen, WritesTo(au, c, p), m);
    }
  }

  /** Whether an edit writes a path does not depend on whom it finds. */
  lemma WritesAtAll(m: Change, creator: string, a: Option<string>, b: Option<string>, p: Path)
    requires m.body.Modify?
    ensures FirstWrite(EditWrites(m.env, m.body.edits, creator, a), p).Some?
         <==> FirstWrite(EditWrites(m.env, m.body.edits, creator, b), p).Some?
  {
    if p.PMentions? {
      EditWritesAt(m.env, m.body.edits, creator, a, p);
      EditWritesAt(m.env, m.body.edits, creator, b, p);
    } else {
      EditWritesAuthor(m.env, m.body.edits, creator, a, b, p);
    }
  }

  /** An edit applied again changes nothing, whomever it finds. */
  lemma AgainIsNothing(au: Authors, seen: set<Change>, m: Change, c: Change, regs: Regs, author: Option<string>)
    requires c in seen && c.body.Create? && m in seen && m != c && Holds(au, seen, c, regs) && Edits(m, c.id)
    ensures forall p: Path :: Get(ApplyOps(regs, m.env, m.body.edits, author), p) == Get(regs, p)
  {
    HeldText(au, seen, c, regs);
    ApplyOpsIsPutAll(regs, m.env, m.body.edits, author);
    forall p: Path
      ensures Get(ApplyOps(regs, m.env, m.body.edits, author), p) == Get(regs, p)
    {
      WritesAtAll(m, c.env.creator, author, au(m), p);
      assert WinnerOf(Get(regs, p), seen, WritesTo(au, c, p));
      assert WritesTo(au, c, p)(m) == FirstWrite(EditWrites(m.env, m.body.edits, c.env.creator, au(m)), p);
    }
  }

  lemma BornGrows(log: seq<Change>, m: Change, id: string)
    ensures Born(log + [m], id) <==> Born(log, id) || Births(m, id)
  {
    if Births(m, id) {
      assert m in log + [m];
    }
    if c :| c in log && Births(c, id) {
      assert c in log + [m];
    }
  }

  /** One message has one create. */
  lemma OneBirth(cs: set<Change>, log: seq<Change>, c: Change, d: Change, id: string)
    requires Lawful(cs) && Causal(cs, log) && c in log && d in log && Births(c, id) && Births(d, id)
    ensures c == d
  {
    assert c in cs && d in cs;
  }

  /** A message goes with the first rightful delete. */
  lemma GoneGrows(cs: set<Change>, log: seq<Change>, m: Change, c: Change, id: string)
    requires Lawful(cs) && Causal(cs, log + [m]) && c in log && Births(c, id)
    ensures Gone(log + [m], id) <==> Gone(log, id) || Rightful(c, m)
  {
    var all := log + [m];
    assert c in all && m in all && forall x :: x in all <==> x in log || x == m;
    if e, d :| e in log && d in log && Births(e, id) && Rightful(e, d) {
      assert e in all && d in all;
    }
    if e, d :| e in all && d in all && Births(e, id) && Rightful(e, d) {
      OneBirth(cs, all, c, e, id);
    }
  }

  /** Nothing before the create of a message edits or deletes it. */
  lemma NothingBefore(cs: set<Change>, log: seq<Change>, c: Change, m: Change)
    requires Lawful(cs) && Causal(cs, log + [c]) && Births(c, c.id) && !Born(log, c.id) && m in log
    ensures m != c && !(m.id == c.id && (m.body.Modify? || m.body.Delete?))
  {
    var all := log + [c];
    var i :| 0 <= i < |log| && log[i] == m;
    assert all[i] == m && all[..i] == log[..i] && all[|log|] == c && c in cs;
    assert forall x :: x in log[..i] ==> x in log;
  }

  lemma NotGoneAtBirth(cs: set<Change>, log: seq<Change>, c: Change)
    requires Lawful(cs) && Causal(cs, log + [c]) && Births(c, c.id) && !Born(log, c.id)
    ensures !Gone(log + [c], c.id)
  {
    var all := log + [c];
    forall e, d | e in all && d in all && Births(e, c.id)
      ensures !Rightful(e, d)
    {
      if d in log {
        NothingBefore(cs, log, c, d);
      }
    }
  }

  /** The winners so far, under the lookups of a longer log. */
  lemma HoldsLater(log: seq<Change>, m: Change, c: Change, regs: Regs, t: string)
    requires Holds(AuthorsIn(log, t), Seen(log), c, regs)
    ensures Holds(AuthorsIn(log + [m], t), Seen(log), c, regs) && Seen(log + [m]) == Seen(log) + {m}
  {
    forall x | x in Seen(log)
      ensures AuthorsIn(log, t)(x) == AuthorsIn(log + [m], t)(x)
    {
      AuthorAtNext(log, m, x, t);
    }
    HoldsSame(AuthorsIn(log, t), AuthorsIn(log + [m], t), Seen(log), c, regs);
  }

  /** A live state that holds the winners of the one create is settled. */
  lemma SettledBy(cs: set<Change>, log: seq<Change>, c: Change, id: string, store: Store)
    requires Lawful(cs) && Causal(cs, log) && c in log && Births(c, id) && !Gone(log, id)
    requires id in store && store[id].Live?
    requires Holds(AuthorsIn(log, ReplyOf(c.body.draft)), Seen(log), c, store[id].regs)
    ensures Settled(log, id, store)
  {
    forall d | d in log && Births(d, id)
      ensures d == c
    {
      OneBirth(cs, log, c, d, id);
    }
  }

  lemma ApplyUntouched(store: Store, m: Change, id: string)
    requires id in store
    requires store[id].Tombstone? || m.id != id || m.body.Create? || m.body.Refused?
          || (m.body.Delete? && !IsAuthor(ReadText(store[id].regs, PCreator), m.env))
    ensures id in Apply(store, m) && Apply(store, m)[id] == store[id]
  {
  }

  /** Once gone, a message stays gone. */
  lemma SettleGone(cs: set<Change>, before: seq<Change>, m: Change, id: string, prev: Store)
    requires Lawful(cs) && Causal(cs, before + [m]) && Settled(before, id, prev) && Gone(before, id)
    ensures Settled(before + [m], id, Apply(prev, m))
  {
    var c :| c in before && Births(c, id);
    GoneGrows(cs, before, m, c, id);
    BornGrows(before, m, id);
    ApplyUntouched(prev, m, id);
  }

  /** A change that neither edits nor rightfully deletes a live message leaves it settled. */
  lemma SettleUntouched(cs: set<Change>, before: seq<Change>, m: Change, c: Change, id: string, prev: Store)
    requires Lawful(cs) && Causal(cs, before + [m]) && Settled(before, id, prev) && !Gone(before, id)
    requires c in before && Births(c, id) && !Edits(m, id) && !Rightful(c, m)
    ensures Settled(before + [m], id, Apply(prev, m))
  {
    var t := ReplyOf(c.body.draft);
    assert c in before + [m];
    HeldText(AuthorsIn(before, t), Seen(before), c, prev[id].regs);
    HoldsLater(before, m, c, prev[id].regs, t);
    OtherChange(AuthorsIn(before + [m], t), Seen(before), m, c, prev[id].regs);
    ApplyUntouched(prev, m, id);
    GoneGrows(cs, before, m, c, id);
    SettledBy(cs, before + [m], c, id, Apply(prev, m));
  }

  lemma SettleDelete(cs: set<Change>, before: seq<Change>, m: Change, c: Change, id: string, prev: Store)
    requires Lawful(cs) && Causal(cs, before + [m]) && Settled(before, id, prev) && !Gone(before, id)
    requires c in before && Births(c, id) && Rightful(c, m)
    ensures Settled(before + [m], id, Apply(prev, m))
  {
    HeldText(AuthorsIn(before, ReplyOf(c.body.draft)), Seen(before), c, prev[id].regs);
    GoneGrows(cs, before, m, c, id);
    BornGrows(before, m, id);
    assert Apply(prev, m)[id] == Tombstone;
  }

  /** The registers after an edit, applied for the first time or again. */
  lemma EditHolds(before: seq<Change>, m: Change, c: Change, regs: Regs, t: string, author: Option<string>)
    requires c in before && c.body.Create? && Edits(m, c.id) && Holds(AuthorsIn(before, t), Seen(before), c, regs)
    requires author == AuthorOf(Run(before), t)
    ensures Holds(AuthorsIn(before + [m], t), Seen(before + [m]), c, ApplyOps(regs, m.env, m.body.edits, author))
  {
    var au, seen := AuthorsIn(before + [m], t), Seen(before);
    HoldsLater(before, m, c, regs, t);
    AuthorAtNext(before, m, m, t);
    if m in before {
      AgainIsNothing(au, seen, m, c, regs, author);
      assert seen + {m} == seen;
      SameWinners(au, seen, c, regs, ApplyOps(regs, m.env, m.body.edits, author));
    } else {
      EditSettles(au, seen, m, c, regs);
    }
  }

  lemma SettleEdit(cs: set<Change>, before: seq<Change>, m: Change, c: Change, id: string, prev: Store)
    requires Lawful(cs) && Causal(cs, before + [m]) && Settled(before, id, prev) && !Gone(before, id)
    requires prev == Run(before) && c in before && Births(c, id) && Edits(m, id)
    ensures Settled(before + [m], id, Apply(prev, m))
  {
    var t, regs := ReplyOf(c.body.draft), prev[id].regs;
    assert c in before + [m];
    HeldText(AuthorsIn(before, t), Seen(before), c, regs);
    EditHolds(before, m, c, regs, t, AuthorOf(prev, t));
    GoneGrows(cs, before, m, c, id);
    SettledBy(cs, before + [m], c, id, Apply(prev, m));
  }

  lemma SameWinners(au: Authors, seen: set<Change>, c: Change, regs: Regs, regs': Regs)
    requires Holds(au, seen, c, regs) && forall p: Path :: Get(regs', p) == Get(regs, p)
    ensures Holds(au, seen, c, regs')
  {
  }

  /** The registers after a create. */
  lemma CreateHolds(cs: set<Change>, before: seq<Change>, c: Change, author: Option<string>)
    requires Lawful(cs) && Causal(cs, before + [c]) && Births(c, c.id) && !Born(before, c.id)
    requires author == AuthorOf(Run(before), ReplyOf(c.body.draft))
    ensures Holds(AuthorsIn(before + [c], ReplyOf(c.body.draft)), Seen(before + [c]), c,
      PutAll(map[], c.env.version, CreateWrites(c.env, c.body.draft, author)))
  {
    var t := ReplyOf(c.body.draft);
    assert c !in before;
    AuthorAtNext(before, c, c, t);
    forall m | m in Seen(before)
      ensures m != c && !Edits(m, c.id)
    {
      NothingBefore(cs, before, c, m);
    }
    CreateSettles(AuthorsIn(before + [c], t), Seen(before), c);
    assert Seen(before + [c]) == Seen(before) + {c};
  }

  lemma SettleCreate(cs: set<Change>, before: seq<Change>, c: Change, id: string, prev: Store)
    requires Lawful(cs) && Causal(cs, before + [c]) && Settled(before, id, prev) && prev == Run(before)
    requires !Born(before, id) && Births(c, id)
    ensures Settled(before + [c], id, Apply(prev, c))
  {
    assert c in before + [c];
    CreateHolds(cs, before, c, AuthorOf(prev, ReplyOf(c.body.draft)));
    NotGoneAtBirth(cs, before, c);
    SettledBy(cs, before + [c], c, id, Apply(prev, c));
  }

  /** Before its create, a message is absent and stays so. */
  lemma SettleUnborn(before: seq<Change>, m: Change, id: string, prev: Store)
    requires Settled(before, id, prev) && !Born(before, id) && !Births(m, id)
    ensures Settled(before + [m], id, Apply(prev, m))
  {
    BornGrows(before, m, id);
  }

  /** Every causal run settles every message. */
  lemma {:induction false} RunSettles(cs: set<Change>, log: seq<Change>, id: string)
    requires Lawful(cs) && Causal(cs, log)
    ensures Settled(log, id, Run(log))
    decreases |log|
  {
    if log != [] {
      var n := |log| - 1;
      var m, before := log[n], log[..n];
      assert log == before + [m];
      CausalPrefix(cs, log, n);
      RunSettles(cs, before, id);
      if Gone(before, id) {
        SettleGone(cs, before, m, id, Run(before));
      } else if c :| c in before && Births(c, id) {
        if Edits(m, id) {
          SettleEdit(cs, before, m, c, id, Run(before));
        } else if Rightful(c, m) {
          SettleDelete(cs, before, m, c, id, Run(before));
        } else {
          SettleUntouched(cs, before, m, c, id, Run(before));
        }
      } else if Births(m, id) {
        SettleCreate(cs, before, m, id, Run(before));
      } else {
        SettleUnborn(before, m, id, Run(before));
      }
    }
  }

  // ---- lookups -----------------------------------------------------------------------

  /** The author of a message according to the whole set of changes. */
  ghost function AuthorIn(cs: set<Change>, id: string): Option<string> {
    if exists c :: c in cs && Births(c, id) then
      var c :| c in cs && Births(c, id);
      if id != "" && c.env.creator != "" then Some(c.env.creator) else None
    else None
  }

  lemma AuthorInIs(cs: set<Change>, c: Change, id: string)
    requires Lawful(cs) && c in cs && Births(c, id)
    ensures AuthorIn(cs, id) == if id != "" && c.env.creator != "" then Some(c.env.creator) else None
  {
  }

  /** Once a message's create is in the log, its author is found until it is gone, and then no more. */
  lemma AuthorFound(cs: set<Change>, log: seq<Change>, t: string)
    requires Lawful(cs) && Causal(cs, log) && forall d :: d in cs && Creates(d, t) ==> d in log
    ensures AuthorOf(Run(log), t) == if Gone(log, t) then None else AuthorIn(cs, t)
  {
    RunSettles(cs, log, t);
    assert forall d :: d in log ==> d in cs;
    if d :| d in cs && Births(d, t) {
      AuthorInIs(cs, d, t);
      if !Gone(log, t) {
        HeldText(AuthorsIn(log, ReplyOf(d.body.draft)), Seen(log), d, Run(log)[t].regs);
      }
    }
  }

  /** A message that replies to itself. */
  predicate RepliesToSelf(c: Change) { Births(c, c.id) && ReplyOf(c.body.draft) == c.id }

  /** The reply target of a change to a message is in the log before the change, unless the change is its create. */
  lemma TargetBefore(cs: set<Change>, log: seq<Change>, c: Change, i: nat)
    requires Lawful(cs) && Causal(cs, log) && c in cs && Births(c, c.id) && i < |log|
    requires (log[i] == c && !RepliesToSelf(c)) || Edits(log[i], c.id)
    ensures forall d :: d in cs && Creates(d, ReplyOf(c.body.draft)) ==> d in log[..i]
  {
    forall d | d in cs && Creates(d, ReplyOf(c.body.draft))
      ensures d in log[..i]
    {
      if log[i] == c {
        assert Needs(log[i], d);
      } else {
        assert Needs(log[i], c) && c in log[..i];
        var j :| 0 <= j < i && log[j] == c;
        if d != c {
          assert Needs(log[j], d) && d in log[..j];
          assert forall x :: x in log[..j] ==> x in log[..i];
        }
      }
    }
  }

  /** The author a change to the message is to find: that of its target, which its own create cannot see. */
  ghost function TargetAuthor(cs: set<Change>, c: Change, m: Change): Option<string>
    requires c.body.Create?
  {
    if m == c && RepliesToSelf(c) then None else AuthorIn(cs, ReplyOf(c.body.draft))
  }

  /** Whom a change of the message finds: its target's author, unless the target was gone by then. */
  lemma AuthorAtIs(cs: set<Change>, log: seq<Change>, c: Change, m: Change)
    requires Lawful(cs) && Causal(cs, log) && c in cs && Births(c, c.id) && m in log && (m == c || Edits(m, c.id))
    ensures var t := ReplyOf(c.body.draft);
      AuthorAt(log, m, t) == if Gone(log[..FirstAt(log, m)], t) then None else TargetAuthor(cs, c, m)
  {
    var k := FirstAt(log, m);
    CausalPrefix(cs, log, k);
    if m == c && RepliesToSelf(c) {
      NotYetBorn(cs, log[..k], c);
    } else {
      TargetBefore(cs, log, c, k);
      AuthorFound(cs, log[..k], ReplyOf(c.body.draft));
    }
  }

  /** Before its create a message is neither there nor gone. */
  lemma NotYetBorn(cs: set<Change>, log: seq<Change>, c: Change)
    requires Lawful(cs) && Causal(cs, log) && c in cs && Births(c, c.id) && c !in log
    ensures !Gone(log, c.id) && AuthorOf(Run(log), c.id).None?
  {
    RunSettles(cs, log, c.id);
    assert !Born(log, c.id);
  }

  // ---- theorems ------------------------------------------------------------------------

  /** What two replicas with the same changes always agree on: everything but mentions. */
  lemma MessagesConverge(cs: set<Change>, l1: seq<Change>, l2: seq<Change>, id: string)
    requires Lawful(cs) && Causal(cs, l1) && Causal(cs, l2) && Seen(l1) == Seen(l2)
    ensures id in Run(l1) <==> id in Run(l2)
    ensures id in Run(l1) ==> (Run(l1)[id].Tombstone? <==> Run(l2)[id].Tombstone?)
    ensures id in Run(l1) ==> (Run(l1)[id].Tombstone? <==> Gone(l1, id))
    ensures id in Run(l1) && Run(l1)[id].Live? ==>
      forall p: Path :: !p.PMentions? ==> Get(Run(l1)[id].regs, p) == Get(Run(l2)[id].regs, p)
  {
    RunSettles(cs, l1, id);
    RunSettles(cs, l2, id);
    SameFate(l1, l2, id);
    if id in Run(l1) && Run(l1)[id].Live? {
      var c :| c in l1 && Births(c, id);
      assert c in Seen(l2) && c in l2;
      var a, b := AuthorsIn(l1, ReplyOf(c.body.draft)), AuthorsIn(l2, ReplyOf(c.body.draft));
      forall p: Path | !p.PMentions?
        ensures Get(Run(l1)[id].regs, p) == Get(Run(l2)[id].regs, p)
      {
        SameWinner(cs, a, b, Seen(l1), c, Run(l1)[id].regs, Run(l2)[id].regs, p);
      }
    }
  }

  lemma SameFate(l1: seq<Change>, l2: seq<Change>, id: string)
    requires Seen(l1) == Seen(l2)
    ensures (Born(l1, id) <==> Born(l2, id)) && (Gone(l1, id) <==> Gone(l2, id))
  {
    assert forall c :: c in l1 <==> c in Seen(l1);
    assert forall c :: c in l2 <==> c in Seen(l2);
  }

  /** The winners of the same changes are the same, where both logs write the same. */
  lemma SameWinner(cs: set<Change>, a: Authors, b: Authors, seen: set<Change>, c: Change, r: Regs, s: Regs, p: Path)
    requires Lawful(cs) && seen <= cs && Holds(a, seen, c, r) && Holds(b, seen, c, s)
    requires !p.PMentions? || forall m :: m in seen ==> Writes(a, c, m, p) == Writes(b, c, m, p)
    ensures Get(r, p) == Get(s, p)
  {
    forall m | m in seen
      ensures WritesTo(a, c, p)(m) == WritesTo(b, c, p)(m)
    {
      if !p.PMentions? { WritesAuthor(a, b, c, m, p); }
    }
    assert WinnerOf(Get(r, p), seen, WritesTo(a, c, p)) && WinnerOf(Get(s, p), seen, WritesTo(b, c, p));
    WinnerSame(Get(r, p), seen, WritesTo(a, c, p), WritesTo(b, c, p));
    WinnerIsUnique(Get(r, p), Get(s, p), seen, WritesTo(b, c, p));
  }

  lemma KeptIsNotGone(cs: set<Change>, log: seq<Change>, id: string)
    requires Kept(cs, id) && forall i :: 0 <= i < |log| ==> log[i] in cs
    ensures !Gone(log, id)
  {
  }

  /** A kept target is found by every change of the message, in every log. */
  lemma KeptIsFound(cs: set<Change>, log: seq<Change>, c: Change, m: Change)
    requires Lawful(cs) && Causal(cs, log) && c in cs && Births(c, c.id) && m in log && (m == c || Edits(m, c.id))
    requires Kept(cs, ReplyOf(c.body.draft))
    ensures AuthorAt(log, m, ReplyOf(c.body.draft)) == TargetAuthor(cs, c, m)
  {
    AuthorAtIs(cs, log, c, m);
    KeptIsNotGone(cs, log[..FirstAt(log, m)], ReplyOf(c.body.draft));
  }

  /** They agree on the whole message when nobody entitled to deletes the one it replies to. */
  lemma RecordsConverge(cs: set<Change>, l1: seq<Change>, l2: seq<Change>, c: Change)
    requires Lawful(cs) && Causal(cs, l1) && Causal(cs, l2) && Seen(l1) == Seen(l2)
    requires c in l1 && Births(c, c.id) && Kept(cs, ReplyOf(c.body.draft))
    ensures c.id in Run(l1) && c.id in Run(l2) && Run(l1)[c.id] == Run(l2)[c.id]
  {
    MessagesConverge(cs, l1, l2, c.id);
    RunSettles(cs, l1, c.id);
    RunSettles(cs, l2, c.id);
    SameFate(l1, l2, c.id);
    assert c in Seen(l2) && c in l2 && Seen(l1) <= cs;
    if Run(l1)[c.id].Live? {
      var a, b := AuthorsIn(l1, ReplyOf(c.body.draft)), AuthorsIn(l2, ReplyOf(c.body.draft));
      var r, s := Run(l1)[c.id].regs, Run(l2)[c.id].regs;
      forall m | m in Seen(l1)
        ensures Writes(a, c, m, PMentions) == Writes(b, c, m, PMentions)
      {
        assert m in Seen(l2) && m in l2;
        if m == c || Edits(m, c.id) {
          KeptIsFound(cs, l1, c, m);
          KeptIsFound(cs, l2, c, m);
        }
      }
      SameWinner(cs, a, b, Seen(l1), c, r, s, PMentions);
      SameRegs(r, s);
    }
  }

  lemma SameRegs(a: Regs, b: Regs)
    requires forall p: Path :: Get(a, p) == Get(b, p)
    ensures a == b
  {
    forall p: Path
      ensures p in a <==> p in b
      ensures p in a ==> a[p] == b[p]
    {
      assert Get(a, p) == Get(b, p);
    }
  }

  /** Whole replicas agree when no message that is replied to is rightfully deleted; other deletes do no harm. */
  lemma ReplicasConverge(cs: set<Change>, l1: seq<Change>, l2: seq<Change>)
    requires Lawful(cs) && Causal(cs, l1) && Causal(cs, l2) && Seen(l1) == Seen(l2)
    requires forall c :: c in cs && Births(c, c.id) ==> Kept(cs, ReplyOf(c.body.draft))
    ensures Run(l1) == Run(l2)
  {
    forall id
      ensures id in Run(l1) <==> id in Run(l2)
      ensures id in Run(l1) ==> Run(l1)[id] == Run(l2)[id]
    {
      MessagesConverge(cs, l1, l2, id);
      RunSettles(cs, l1, id);
      if id in Run(l1) {
        var c :| c in l1 && Births(c, id);
        RecordsConverge(cs, l1, l2, c);
      }
    }
  }

  /** Whether op k of a modify is accepted, and what it writes. */
  function Verdict(store: Store, m: Change, k: nat): Option<seq<Write>>
    requires m.id in store && store[m.id].Live? && m.body.Modify? && k < |m.body.edits|
  {
    var regs := store[m.id].regs;
    Gate(m.env, m.body.edits[k], ReadText(regs, PCreator), AuthorOf(store, ReadText(regs, PReply)))
  }

  /** At its turn an edit of a message that is still there is judged against its creator and reply author. */
  lemma JudgedAgainst(cs: set<Change>, log: seq<Change>, i: nat, c: Change)
    requires Lawful(cs) && Causal(cs, log) && i < |log| && Edits(log[i], c.id)
    requires c in cs && Births(c, c.id) && !Gone(log[..i], c.id)
    ensures c.id in Run(log[..i]) && Run(log[..i])[c.id].Live?
    ensures var regs, t := Run(log[..i])[c.id].regs, ReplyOf(c.body.draft);
      && ReadText(regs, PCreator) == c.env.creator
      && AuthorOf(Run(log[..i]), ReadText(regs, PReply)) == if Gone(log[..i], t) then None else AuthorIn(cs, t)
  {
    var before := log[..i];
    CausalPrefix(cs, log, i);
    RunSettles(cs, before, c.id);
    assert Needs(log[i], c) && c in before;
    HeldText(AuthorsIn(before, ReplyOf(c.body.draft)), Seen(before), c, Run(before)[c.id].regs);
    TargetBefore(cs, log, c, i);
    AuthorFound(cs, before, ReplyOf(c.body.draft));
  }

  /** Acceptance does not depend on whom a message replies to. */
  lemma GateAccepts(env: Envelope, edit: Edit, creator: string, a: Option<string>, b: Option<string>)
    ensures Gate(env, edit, creator, a).Some? <==> Gate(env, edit, creator, b).Some?
  {
  }

  lemma VerdictIs(cs: set<Change>, log: seq<Change>, i: nat, c: Change, k: nat)
    requires Lawful(cs) && Causal(cs, log) && i < |log| && Edits(log[i], c.id) && k < |log[i].body.edits|
    requires c in cs && Births(c, c.id) && !Gone(log[..i], c.id)
    ensures c.id in Run(log[..i]) && Run(log[..i])[c.id].Live?
    ensures var t := ReplyOf(c.body.draft);
      Verdict(Run(log[..i]), log[i], k)
      == Gate(log[i].env, log[i].body.edits[k], c.env.creator, if Gone(log[..i], t) then None else AuthorIn(cs, t))
  {
    JudgedAgainst(cs, log, i, c);
  }

  /** In either log an edit finds the same verdict: accepted or dropped always, what it writes with a kept target. */
  lemma VerdictsAgree(cs: set<Change>, l1: seq<Change>, i: nat, l2: seq<Change>, j: nat, k: nat, c: Change)
    requires Lawful(cs) && Causal(cs, l1) && Causal(cs, l2) && i < |l1| && j < |l2| && l1[i] == l2[j]
    requires c in cs && Births(c, c.id) && Edits(l1[i], c.id) && k < |l1[i].body.edits|
    requires !Gone(l1[..i], c.id) && !Gone(l2[..j], c.id)
    ensures var s1, s2 := Run(l1[..i]), Run(l2[..j]);
      && c.id in s1 && c.id in s2 && s1[c.id].Live? && s2[c.id].Live?
      && (Verdict(s1, l1[i], k).Some? <==> Verdict(s2, l1[i], k).Some?)
      && (Kept(cs, ReplyOf(c.body.draft)) ==> Verdict(s1, l1[i], k) == Verdict(s2, l1[i], k))
  {
    var t := ReplyOf(c.body.draft);
    VerdictIs(cs, l1, i, c, k);
    VerdictIs(cs, l2, j, c, k);
    GateAccepts(l1[i].env, l1[i].body.edits[k], c.env.creator, None, AuthorIn(cs, t));
    if Kept(cs, t) {
      CausalPrefix(cs, l1, i);
      CausalPrefix(cs, l2, j);
      KeptIsNotGone(cs, l1[..i], t);
      KeptIsNotGone(cs, l2[..j], t);
    }
  }

  /** The same for replicas that received the same changes, each in its own order. */
  lemma ReceivedReplicasConverge(r1: seq<Raw>, r2: seq<Raw>)
    requires var cs := Seen(ReceivedLog(r1));
      && Lawful(cs) && Causal(cs, ReceivedLog(r1)) && Causal(cs, ReceivedLog(r2))
      && (forall c :: c in cs && Births(c, c.id) ==> Kept(cs, ReplyOf(c.body.draft)))
    requires forall x :: x in r1 <==> x in r2
    ensures Run(ReceivedLog(r1)) == Run(ReceivedLog(r2))
  {
    var l1, l2 := ReceivedLog(r1), ReceivedLog(r2);
    forall c
      ensures c in l1 <==> c in l2
    {
      if c in l1 {
        var i :| 0 <= i < |l1| && l1[i] == c;
        assert r1[i] in r2;
        var j :| 0 <= j < |r2| && r2[j] == r1[i];
        assert l2[j] == c;
      }
      if c in l2 {
        var j :| 0 <= j < |l2| && l2[j] == c;
        assert r2[j] in r1;
        var i :| 0 <= i < |r1| && r1[i] == r2[j];
        assert l1[i] == c;
      }
    }
    assert Seen(l1) == Seen(l2);
    ReplicasConverge(Seen(l1), l1, l2);
  }
}
