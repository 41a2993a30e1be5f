/** The mentions replicas show: which change stamped them, and exactly when two replicas differ. */
module ChatMentions {
  import opened Prelude
  import opened ChatHandler
  import opened ChatReplica
  import opened ChatConvergence
  import LinkIndex

  function VisibleMentions(regs: Regs): seq<string> {
    if PMentions in regs && regs[PMentions].val.Some? && regs[PMentions].val.value.Ids?
    then regs[PMentions].val.value.ids else []
  }

  /** m stamps text and mentions of the message c creates: the create, or an edit with an accepted text. */
  predicate Stamps(c: Change, m: Change) {
    m == c || (Edits(m, c.id) && FirstText(m.env, m.body.edits, c.env.creator).Some?)
  }

  /** The text a stamp sets; nothing for any other change. */
  function StampedText(c: Change, m: Change): string {
    if c.body.Create? && m == c then TextOf(c.body.draft)
    else if Stamps(c, m) && m.body.Modify? then EditText(c, m)
    else ""
  }

  function EditText(c: Change, m: Change): string
    requires m.body.Modify?
  {
    match FirstText(m.env, m.body.edits, c.env.creator) case Some(t) => t case None => ""
  }

  /** The stamp of the highest version among the changes seen. */
  ghost predicate LastStamp(seen: set<Change>, c: Change, w: Change) {
    w in seen && Stamps(c, w) && forall m :: m in seen && Stamps(c, m) ==> m.env.version <= w.env.version
  }

  lemma {:induction false} LastStampExists(seen: set<Change>, c: Change) returns (w: Change)
    requires c in seen
    ensures LastStamp(seen, c, w)
    decreases |seen|
  {
    w := c;
    if m :| m in seen && m != c {
      var v := LastStampExists(seen - {m}, c);
      w := if Stamps(c, m) && v.env.version < m.env.version then m else v;
      assert forall x :: x in seen ==> x == m || x in seen - {m};
    }
  }

  /** What an edit writes to text and mentions: both or neither, from one text. */
  lemma EditStamps(au: Authors, c: Change, m: Change)
    requires Edits(m, c.id) && m != c
    ensures Writes(au, c, m, PText) == if Stamps(c, m) then Some(Some(Text(StampedText(c, m)))) else None
    ensures Writes(au, c, m, PMentions) == if Stamps(c, m) then MentionValue(StampedText(c, m), au(m), true) else None
  {
    EditWritesAt(m.env, m.body.edits, c.env.creator, au(m), PText);
    EditWritesAt(m.env, m.body.edits, c.env.creator, au(m), PMentions);
  }

  /** The writer with the highest version has won. */
  lemma TopWins(cs: set<Change>, r: Option<Reg>, seen: set<Change>, w: Change -> Option<Option<Cell>>, m: Change)
    requires Lawful(cs) && seen <= cs && WinnerOf(r, seen, w) && m in seen && w(m).Some?
    requires forall e :: e in seen && w(e).Some? ==> e.env.version <= m.env.version
    ensures r == Some(Reg(m.env.version, w(m).value))
  {
    var n := WinnersWriter(r, seen, w);
  }

  lemma OnlyWriterWins(r: Option<Reg>, seen: set<Change>, w: Change -> Option<Option<Cell>>, c: Change)
    requires WinnerOf(r, seen, w) && c in seen && forall m :: m in seen && m != c ==> w(m) == None
    ensures r == Win(None, c.env.version, w(c))
  {
  }

  lemma ShownFromEdit(regs: Regs, t: string, author: Option<string>)
    requires PText in regs && regs[PText].val == Some(Text(t))
    requires PMentions in regs && Some(regs[PMentions].val) == MentionValue(t, author, true)
    ensures VisibleMentions(regs) == Derived(ReadText(regs, PText), author)
  {
  }

  lemma ShownFromCreate(regs: Regs, env: Envelope, d: Draft, author: Option<string>)
    requires Get(regs, PText) == Win(None, env.version, TextValue(d.text))
    requires Get(regs, PMentions) == Win(None, env.version, MentionValue(TextOf(d), author, false))
    ensures VisibleMentions(regs) == Derived(ReadText(regs, PText), author)
  {
    assert ReadText(regs, PText) == TextOf(d);
  }

  /** When an edit is the last stamp, text and mentions are its. */
  lemma ShownByEdit(cs: set<Change>, au: Authors, seen: set<Change>, c: Change, regs: Regs, w: Change)
    requires Lawful(cs) && seen <= cs && c in seen && c.body.Create? && Holds(au, seen, c, regs)
    requires LastStamp(seen, c, w) && w != c
    ensures ReadText(regs, PText) == StampedText(c, w)
    ensures VisibleMentions(regs) == Derived(StampedText(c, w), au(w))
  {
    EditStamps(au, c, w);
    forall e | e in seen && (Writes(au, c, e, PText).Some? || Writes(au, c, e, PMentions).Some?)
      ensures e.env.version <= w.env.version
    {
      if e != c {
        EditStamps(au, c, e);
      }
    }
    TopWins(cs, Get(regs, PText), seen, WritesTo(au, c, PText), w);
    TopWins(cs, Get(regs, PMentions), seen, WritesTo(au, c, PMentions), w);
    ShownFromEdit(regs, StampedText(c, w), au(w));
  }

  /** When no edit stamps, they are the create's. */
  lemma ShownByCreate(cs: set<Change>, au: Authors, seen: set<Change>, c: Change, regs: Regs)
    requires Lawful(cs) && seen <= cs && c in seen && c.body.Create? && Holds(au, seen, c, regs)
    requires LastStamp(seen, c, c)
    ensures ReadText(regs, PText) == StampedText(c, c)
    ensures VisibleMentions(regs) == Derived(StampedText(c, c), au(c))
  {
    forall e | e in seen && e != c
      ensures Writes(au, c, e, PText) == None && Writes(au, c, e, PMentions) == None
    {
      if Edits(e, c.id) {
        assert c.env.version < e.env.version && !Stamps(c, e);
        EditStamps(au, c, e);
      }
    }
    OnlyWriterWins(Get(regs, PText), seen, WritesTo(au, c, PText), c);
    OnlyWriterWins(Get(regs, PMentions), seen, WritesTo(au, c, PMentions), c);
    ShownFromCreate(regs, c.env, c.body.draft, au(c));
  }

  /**
   * In every causal run a live message shows the text of its last stamp, and the mentions derived from
   * that text and from whom the stamp found as replied-to author when it was applied.
   */
  lemma MentionsFollowText(cs: set<Change>, log: seq<Change>, c: Change, w: Change)
    requires Lawful(cs) && Causal(cs, log) && c in log && Births(c, c.id) && !Gone(log, c.id)
    requires LastStamp(Seen(log), c, w)
    ensures c.id in Run(log) && Run(log)[c.id].Live?
    ensures var regs, t := Run(log)[c.id].regs, ReplyOf(c.body.draft);
      && ReadText(regs, PText) == StampedText(c, w)
      && VisibleMentions(regs) == Derived(ReadText(regs, PText), FoundBy(cs, log, c, w))
  {
    RunSettles(cs, log, c.id);
    var regs, au := Run(log)[c.id].regs, AuthorsIn(log, ReplyOf(c.body.draft));
    assert Seen(log) <= cs && c in Seen(log) && Holds(au, Seen(log), c, regs);
    AuthorAtIs(cs, log, c, w);
    if w == c {
      ShownByCreate(cs, au, Seen(log), c, regs);
    } else {
      ShownByEdit(cs, au, Seen(log), c, regs, w);
    }
  }

  /** The target was rightfully deleted before the log applied change w. */
  ghost predicate GoneBefore(log: seq<Change>, w: Change, t: string) {
    w in log && Gone(log[..FirstAt(log, w)], t)
  }

  /** Whom change w of the message c creates found as author of the message it replies to. */
  ghost function FoundBy(cs: set<Change>, log: seq<Change>, c: Change, w: Change): Option<string>
    requires c.body.Create?
  {
    if GoneBefore(log, w, ReplyOf(c.body.draft)) then None else TargetAuthor(cs, c, w)
  }

  /** The text mentions that fit under the cap. */
  function Capped(ids: seq<string>): seq<string> {
    if |ids| > MAX_MENTIONS then ids[..MAX_MENTIONS] else ids
  }

  /** Folding an author in changes nothing exactly when the capped text mentions already name it. */
  lemma FoldInMatters(ids: seq<string>, author: string)
    ensures FoldIn(ids, Some(author)) == FoldIn(ids, None) <==> author in Capped(ids)
  {
    if author !in Capped(ids) {
      var m := FoldIn(ids, Some(author));
      assert m[|m| - 1] == author;
    }
  }

  /**
   * Two replicas with the same changes show the same mentions of a live message exactly when the last
   * stamp found the replied-to message in the same state on both, or there is no author to fold in, or
   * the winning text already names that author among its first 64 mentions.
   */
  lemma MentionsAgreeIff(cs: set<Change>, l1: seq<Change>, l2: seq<Change>, c: Change, w: Change)
    requires Lawful(cs) && Causal(cs, l1) && Causal(cs, l2) && Seen(l1) == Seen(l2)
    requires c in l1 && Births(c, c.id) && !Gone(l1, c.id) && LastStamp(Seen(l1), c, w)
    ensures c.id in Run(l1) && Run(l1)[c.id].Live? && c.id in Run(l2) && Run(l2)[c.id].Live?
    ensures var t, text := ReplyOf(c.body.draft), StampedText(c, w);
      VisibleMentions(Run(l1)[c.id].regs) == VisibleMentions(Run(l2)[c.id].regs) <==>
      ((GoneBefore(l1, w, t) <==> GoneBefore(l2, w, t)) || TargetAuthor(cs, c, w).None? ||
       TargetAuthor(cs, c, w).value in Capped(LinkIndex.Mentions(text)))
  {
    var t, text := ReplyOf(c.body.draft), StampedText(c, w);
    assert c in Seen(l2) && c in l2;
    SameFate(l1, l2, c.id);
    MentionsFollowText(cs, l1, c, w);
    MentionsFollowText(cs, l2, c, w);
    if TargetAuthor(cs, c, w).Some? {
      FoldInMatters(LinkIndex.Mentions(text), TargetAuthor(cs, c, w).value);
    }
  }

  // ---- the race with a delete of the target ----------------------------------------------

  /** A message, a reply to it, edits of the reply, and the author's delete of the message. */
  ghost predicate Race(t: Change, r: Change, es: seq<Change>, d: Change) {
    && Births(t, t.id) && t.id != "" && t.env.creator != "" && ReplyOf(t.body.draft) == ""
    && Births(r, r.id) && r.id != "" && r.id != t.id && ReplyOf(r.body.draft) == t.id
    && Rightful(t, d) && (forall e :: e in es ==> Edits(e, r.id))
    && Lawful(RaceChanges(t, r, es, d))
  }

  ghost function RaceChanges(t: Change, r: Change, es: seq<Change>, d: Change): set<Change> {
    {t, r, d} + set e | e in es
  }

  /** Any order that puts the message first and the reply before its edits is causal. */
  lemma RaceIsCausal(t: Change, r: Change, es: seq<Change>, d: Change, log: seq<Change>)
    requires Race(t, r, es, d) && log != [] && log[0] == t && Seen(log) <= RaceChanges(t, r, es, d)
    requires forall i :: 0 < i < |log| ==> log[i] != t && (log[i] in es ==> r in log[..i])
    ensures Causal(RaceChanges(t, r, es, d), log)
  {
    var cs := RaceChanges(t, r, es, d);
    assert forall i :: 0 <= i < |log| ==> log[i] in Seen(log);
    forall i, x | 0 <= i < |log| && x in cs && Needs(log[i], x)
      ensures x in log[..i]
    {
      if log[i] in es {
        assert x == r;
      } else {
        assert x == t && i > 0;
        assert log[..i][0] == t;
      }
    }
  }

  /**
   * One replica applies the delete last, the other before the reply: both orders are causal, and they show
   * the same mentions exactly when the last text of the reply names the author among its first 64.
   */
  lemma DeletedTargetDiverges(t: Change, r: Change, es: seq<Change>, d: Change, w: Change)
    requires Race(t, r, es, d) && LastStamp(Seen([t, r] + es + [d]), r, w)
    ensures var cs, l1, l2 := RaceChanges(t, r, es, d), [t, r] + es + [d], [t, d, r] + es;
      && Causal(cs, l1) && Causal(cs, l2) && Seen(l1) == Seen(l2)
      && r.id in Run(l1) && r.id in Run(l2) && Run(l1)[r.id].Live? && Run(l2)[r.id].Live?
      && (VisibleMentions(Run(l1)[r.id].regs) == VisibleMentions(Run(l2)[r.id].regs) <==>
          t.env.creator in Capped(LinkIndex.Mentions(StampedText(r, w))))
  {
    var cs, l1, l2 := RaceChanges(t, r, es, d), [t, r] + es + [d], [t, d, r] + es;
    BothCausal(t, r, es, d);
    RaceTarget(t, r, es, d, w);
    DeletedLast(t, r, es, d, w);
    DeletedFirst(t, r, es, d, w);
    MentionsAgreeIff(cs, l1, l2, r, w);
  }

  lemma BothCausal(t: Change, r: Change, es: seq<Change>, d: Change)
    requires Race(t, r, es, d)
    ensures var cs, l1, l2 := RaceChanges(t, r, es, d), [t, r] + es + [d], [t, d, r] + es;
      Causal(cs, l1) && Causal(cs, l2) && Seen(l1) == Seen(l2) && r in l1
  {
    RaceLogs(t, r, es, d);
    RaceIsCausal(t, r, es, d, [t, r] + es + [d]);
    RaceIsCausal(t, r, es, d, [t, d, r] + es);
    assert ([t, r] + es + [d])[1] == r;
  }

  /** What every change of the reply is to find, and which changes can be its last stamp. */
  lemma RaceTarget(t: Change, r: Change, es: seq<Change>, d: Change, w: Change)
    requires Race(t, r, es, d) && LastStamp(Seen([t, r] + es + [d]), r, w)
    ensures TargetAuthor(RaceChanges(t, r, es, d), r, w) == Some(t.env.creator) && (w == r || w in es)
  {
    var cs := RaceChanges(t, r, es, d);
    assert t in cs;
    AuthorInIs(cs, t, t.id);
    LateLogSeen(t, r, es, d);
  }

  lemma RaceLogs(t: Change, r: Change, es: seq<Change>, d: Change)
    requires Race(t, r, es, d)
    ensures var l1, l2 := [t, r] + es + [d], [t, d, r] + es;
      && l1[0] == t && l2[0] == t
      && Seen(l1) == RaceChanges(t, r, es, d) && Seen(l2) == RaceChanges(t, r, es, d)
      && (forall i :: 0 < i < |l1| ==> l1[i] != t && (l1[i] in es ==> r in l1[..i]))
      && (forall i :: 0 < i < |l2| ==> l2[i] != t && (l2[i] in es ==> r in l2[..i]))
  {
    LateLogSeen(t, r, es, d);
    EarlyLogSeen(t, r, es, d);
    LateLogOrder(t, r, es, d);
    EarlyLogOrder(t, r, es, d);
  }

  lemma LateLogSeen(t: Change, r: Change, es: seq<Change>, d: Change)
    ensures Seen([t, r] + es + [d]) == RaceChanges(t, r, es, d)
  {
    var log := [t, r] + es + [d];
    assert forall x :: x in log <==> x == t || x == r || x in es || x == d;
  }

  lemma EarlyLogSeen(t: Change, r: Change, es: seq<Change>, d: Change)
    ensures Seen([t, d, r] + es) == RaceChanges(t, r, es, d)
  {
    var log := [t, d, r] + es;
    assert forall x :: x in log <==> x == t || x == r || x in es || x == d;
  }

  lemma RaceApart(t: Change, r: Change, es: seq<Change>, d: Change)
    requires Race(t, r, es, d)
    ensures t != r && t != d && r != d && forall e :: e in es ==> e != t && e != r && e != d
  {
  }

  lemma LateLogOrder(t: Change, r: Change, es: seq<Change>, d: Change)
    requires Race(t, r, es, d)
    ensures var log := [t, r] + es + [d]; forall i :: 0 < i < |log| ==> log[i] != t && (log[i] in es ==> r in log[..i])
  {
    var log := [t, r] + es + [d];
    RaceApart(t, r, es, d);
    forall i | 0 < i < |log|
      ensures log[i] != t && (log[i] in es ==> r in log[..i])
    {
      assert log[i] == if i == 1 then r else if i - 2 < |es| then es[i - 2] else d;
      assert i > 1 ==> log[..i][1] == r;
    }
  }

  lemma EarlyLogOrder(t: Change, r: Change, es: seq<Change>, d: Change)
    requires Race(t, r, es, d)
    ensures var log := [t, d, r] + es; forall i :: 0 < i < |log| ==> log[i] != t && (log[i] in es ==> r in log[..i])
  {
    var log := [t, d, r] + es;
    RaceApart(t, r, es, d);
    forall i | 0 < i < |log|
      ensures log[i] != t && (log[i] in es ==> r in log[..i])
    {
      assert log[i] == if i == 1 then d else if i == 2 then r else es[i - 3];
      assert i > 2 ==> log[..i][2] == r;
    }
  }

  /** The delete comes after every change of the reply in one log, */
  lemma DeletedLast(t: Change, r: Change, es: seq<Change>, d: Change, w: Change)
    requires Race(t, r, es, d) && (w == r || w in es)
    ensures var l1 := [t, r] + es + [d]; w in l1 && !GoneBefore(l1, w, t.id) && !Gone(l1, r.id)
  {
    var part, l1 := [t, r] + es, [t, r] + es + [d];
    assert w in part && w in l1 && w != d && part[1] == r;
    var k := FirstAt(l1, w);
    assert k < |part| by { assert l1[|part|] == d; }
    assert forall x :: x in l1[..k] ==> x in part;
    assert forall x :: x in part ==> !x.body.Delete?;
  }

  /** and before all of them in the other. */
  lemma DeletedFirst(t: Change, r: Change, es: seq<Change>, d: Change, w: Change)
    requires Race(t, r, es, d) && (w == r || w in es)
    ensures var l2 := [t, d, r] + es; w in l2 && GoneBefore(l2, w, t.id)
  {
    var l2 := [t, d, r] + es;
    assert l2[0] == t && l2[1] == d && l2[2] == r && w in l2 && w != t && w != d;
    var j := FirstAt(l2, w);
    assert l2[..j][0] == t && l2[..j][1] == d;
  }
}
