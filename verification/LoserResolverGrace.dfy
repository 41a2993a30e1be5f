/** The grace period against the clock: what a date sampled before the lock can and cannot promise. */
module LoserResolverGrace {
  import opened Prelude
  import opened LoserResolver
  import opened LoserResolverTheorems

  // ---- the grace period since the last drop --------------------------------------------

  /** Everything an observation under way is about to date was sampled after the key was last dropped. */
  ghost predicate Unstraddled(s: State, e: Event) {
    match e
    case Observes(c) => c in s.calls && s.calls[c].Observing? ==>
      forall l :: l in s.calls[c].row.losers ==> LastDrop(s.log, Key(s.calls[c].t.space, l)) <= s.calls[c].sampled
    case OtherObserves(o) => o in s.readers ==>
      forall l :: l in s.readers[o].1 ==> LastDrop(s.log, Key(s.readers[o].0, l)) <= s.readers[o].2
    case _ => true
  }

  ghost predicate UnstraddledRun(grace: nat, s: State, es: seq<Event>)
    requires Legal(grace, s, es)
    decreases |es|
  {
    es == [] || (Unstraddled(s, es[0]) && UnstraddledRun(grace, Next(grace, s, es[0]), es[1..]))
  }

  /** Every date on record is no older than the last drop of its key, and no drop lies in the future. */
  ghost predicate Current(now: nat, log: seq<Mark>) {
    forall key :: LastDrop(log, key) <= now &&
      (FirstSince(log, key).Some? ==> LastDrop(log, key) <= FirstSince(log, key).value)
  }

  lemma CurrentNext(now: nat, log: seq<Mark>, m: Mark)
    requires Current(now, log) && m.when <= now && (m.Seen? ==> LastDrop(log, m.key) <= m.date)
    ensures Current(now, log + [m])
  {
    assert (log + [m])[..|log|] == log;
    forall key
      ensures LastDrop(log + [m], key) <= now
      ensures FirstSince(log + [m], key).Some? ==> LastDrop(log + [m], key) <= FirstSince(log + [m], key).value
    {
      assert LastDrop(log, key) <= now;
    }
  }

  lemma {:induction false} CurrentSightings(now: nat, log: seq<Mark>, space: string, losers: seq<string>, date: nat)
    requires Current(now, log) && forall l :: l in losers ==> LastDrop(log, Key(space, l)) <= date
    ensures Current(now, log + Sightings(space, losers, date, now))
    decreases |losers|
  {
    if losers == [] {
      assert log + [] == log;
    } else {
      var m := Seen(Key(space, losers[0]), date, now);
      CurrentNext(now, log, m);
      assert (log + [m])[..|log|] == log;
      CurrentSightings(now, log + [m], space, losers[1..], date);
      Regroup(log, [m], Sightings(space, losers[1..], date, now));
    }
  }

  lemma CurrentKept(grace: nat, s: State, e: Event)
    requires Enabled(grace, s, e) && Current(s.now, s.log) && Unstraddled(s, e)
    ensures Current(Next(grace, s, e).now, Next(grace, s, e).log)
  {
    match e
    case Observes(c) =>
      CurrentSightings(s.now, s.log, s.calls[c].t.space, s.calls[c].row.losers, s.calls[c].sampled);
    case OtherObserves(o) => CurrentSightings(s.now, s.log, s.readers[o].0, s.readers[o].1, s.readers[o].2);
    case Judges(c) => CurrentSightings(s.now, s.log, s.calls[c].t.space, [s.calls[c].t.root], s.now);
    case Deletes(c) => CurrentNext(s.now, s.log, Added(grace, s, e)[0]);
    case Forgets(c) => CurrentNext(s.now, s.log, Added(grace, s, e)[0]);
    case OtherForgets(key) => CurrentNext(s.now, s.log, Added(grace, s, e)[0]);
    case Resets => CurrentNext(s.now, s.log, Wiped(s.now));
    case _ =>
  }

  /** Each deletion comes at least a grace period after the last drop its verdict could see. */
  ghost predicate Timely(grace: nat, log: seq<Mark>) {
    forall i :: 0 <= i < |log| && log[i].Deleted? && log[i].locked <= i ==>
      LastDrop(log[..log[i].locked], Key(log[i].t.space, log[i].t.root)) + grace <= log[i].verdictAt
  }

  /** A call past its readiness section, and a deletion, rest on a date no older than the last drop before it. */
  ghost predicate FreshDate(log: seq<Mark>, t: Target, first: nat, locked: nat) {
    locked <= |log| ==> LastDrop(log[..locked], Key(t.space, t.root)) <= first
  }

  ghost predicate FreshCall(log: seq<Mark>, k: Call) {
    k.Timing? || k.Probing? || k.Deleting? ==> k.locked <= |log| && FreshDate(log, k.t, k.first, k.locked)
  }

  ghost predicate FreshDates(s: State) {
    && Current(s.now, s.log)
    && (forall c :: c in s.calls ==> FreshCall(s.log, s.calls[c]))
    && (forall i :: 0 <= i < |s.log| && s.log[i].Deleted? ==>
      s.log[i].locked <= |s.log| && FreshDate(s.log, s.log[i].t, s.log[i].first, s.log[i].locked))
  }

  lemma FreshStays(log: seq<Mark>, more: seq<Mark>, t: Target, first: nat, locked: nat)
    requires locked <= |log| && FreshDate(log, t, first, locked)
    ensures FreshDate(log + more, t, first, locked)
  {
    assert (log + more)[..locked] == log[..locked];
  }

  lemma FreshJudged(grace: nat, s: State, c: nat)
    requires Sound(grace, s) && FreshDates(s) && Enabled(grace, s, Judges(c))
    requires IsLoser(s.calls[c].t, s.calls[c].row)
    ensures var t := Next(grace, s, Judges(c)); c in t.calls && FreshCall(t.log, t.calls[c])
  {
    var t := Next(grace, s, Judges(c));
    JudgedOk(grace, s, c);
    CurrentKept(grace, s, Judges(c));
    assert t.log[..|t.log|] == t.log;
    assert LastDrop(t.log, Key(s.calls[c].t.space, s.calls[c].t.root)) <= t.now;
  }

  /** A call that the event leaves past its readiness section, with the same date. */
  lemma FreshMoved(log: seq<Mark>, more: seq<Mark>, k: Call, k': Call)
    requires FreshCall(log, k) && (k.Timing? || k.Probing? || k.Deleting?)
    requires k'.Timing? || k'.Probing? || k'.Deleting? ==> k'.t == k.t && k'.first == k.first && k'.locked == k.locked
    ensures FreshCall(log + more, k')
  {
    FreshStays(log, more, k.t, k.first, k.locked);
  }

  predicate PastLock(k: Call) { k.Timing? || k.Probing? || k.Deleting? }

  /** The event is a step of call c. */
  predicate Acts(e: Event, c: nat) {
    match e
    case CallResolve(d, _) => d == c
    case ReadsRow(d, _) => d == c
    case Observes(d) => d == c
    case Judges(d) => d == c
    case Times(d) => d == c
    case Probes(d, _) => d == c
    case Deletes(d) => d == c
    case Forgets(d) => d == c
    case GivesUp(d) => d == c
    case _ => false
  }

  lemma OthersStay(grace: nat, s: State, e: Event, c: nat)
    requires Enabled(grace, s, e) && !Acts(e, c) && c in Next(grace, s, e).calls
    ensures c in s.calls && Next(grace, s, e).calls[c] == s.calls[c]
  {
  }

  /** A call gets past its readiness section by judging a loser, and then keeps its date. */
  lemma PastLockMoves(grace: nat, s: State, e: Event, c: nat)
    requires Enabled(grace, s, e) && c in Next(grace, s, e).calls && PastLock(Next(grace, s, e).calls[c])
    ensures c in s.calls
    ensures var k, k' := s.calls[c], Next(grace, s, e).calls[c];
      if PastLock(k) then k'.t == k.t && k'.first == k.first && k'.locked == k.locked
      else e == Judges(c) && IsLoser(k.t, k.row)
  {
    if !Acts(e, c) {
      OthersStay(grace, s, e, c);
    }
  }

  lemma FreshCallKept(grace: nat, s: State, e: Event, c: nat)
    requires Sound(grace, s) && FreshDates(s) && Enabled(grace, s, e)
    requires c in Next(grace, s, e).calls && PastLock(Next(grace, s, e).calls[c])
    ensures FreshCall(Next(grace, s, e).log, Next(grace, s, e).calls[c])
  {
    PastLockMoves(grace, s, e, c);
    AddedIs(grace, s, e);
    if PastLock(s.calls[c]) {
      FreshMoved(s.log, Added(grace, s, e), s.calls[c], Next(grace, s, e).calls[c]);
    } else {
      FreshJudged(grace, s, c);
    }
  }

  lemma FreshKept(grace: nat, s: State, e: Event)
    requires Sound(grace, s) && FreshDates(s) && Enabled(grace, s, e) && Unstraddled(s, e)
    ensures FreshDates(Next(grace, s, e))
  {
    var t := Next(grace, s, e);
    AddedIs(grace, s, e);
    CurrentKept(grace, s, e);
    forall c | c in t.calls
      ensures FreshCall(t.log, t.calls[c])
    {
      if PastLock(t.calls[c]) {
        FreshCallKept(grace, s, e, c);
      }
    }
    FreshDeletionsKept(grace, s, e);
  }

  lemma FreshDeletionsKept(grace: nat, s: State, e: Event)
    requires FreshDates(s) && Enabled(grace, s, e)
    ensures var log := Next(grace, s, e).log;
      forall i :: 0 <= i < |log| && log[i].Deleted? ==>
        log[i].locked <= |log| && FreshDate(log, log[i].t, log[i].first, log[i].locked)
  {
    var log, more := Next(grace, s, e).log, Added(grace, s, e);
    AddedIs(grace, s, e);
    if !e.Deletes? { OnlyDeletesDelete(grace, s, e); }
    assert forall i :: |s.log| <= i < |log| ==> log[i] == more[i - |s.log|] && log[i] in more;
    forall i | 0 <= i < |log| && log[i].Deleted?
      ensures log[i].locked <= |log| && FreshDate(log, log[i].t, log[i].first, log[i].locked)
    {
      if i < |s.log| {
        assert log[i] == s.log[i];
      } else {
        assert e.Deletes? && FreshCall(s.log, s.calls[e.c]);
      }
      FreshStays(s.log, more, log[i].t, log[i].first, log[i].locked);
    }
  }

  lemma {:induction false} RunIsFresh(grace: nat, s: State, es: seq<Event>)
    requires Sound(grace, s) && FreshDates(s) && Legal(grace, s, es) && UnstraddledRun(grace, s, es)
    ensures FreshDates(After(grace, s, es))
    decreases |es|
  {
    if es != [] {
      SoundKept(grace, s, es[0]);
      FreshKept(grace, s, es[0]);
      RunIsFresh(grace, Next(grace, s, es[0]), es[1..]);
    }
  }

  /** With no drop between an observation's clock and its lock, every deletion is a grace period after the last drop. */
  lemma DeletionsAreTimely(grace: nat, es: seq<Event>)
    requires Legal(grace, INIT, es) && UnstraddledRun(grace, INIT, es)
    ensures Timely(grace, After(grace, INIT, es).log)
  {
    InitIsSound(grace);
    RunIsSound(grace, INIT, es);
    RunIsFresh(grace, INIT, es);
    var s := After(grace, INIT, es);
    forall i | 0 <= i < |s.log| && s.log[i].Deleted? && s.log[i].locked <= i
      ensures LastDrop(s.log[..s.log[i].locked], Key(s.log[i].t.space, s.log[i].t.root)) + grace <= s.log[i].verdictAt
    {
      assert DeletionOk(grace, s.now, s.log, i);
    }
  }

  // ---- exactly when a record promises the grace period ---------------------------------

  /** Marks are never taken back, and later ones are later. */
  lemma {:induction false} LogGrows(grace: nat, s: State, es: seq<Event>)
    requires Legal(grace, s, es)
    ensures var log := After(grace, s, es).log;
      s.log <= log && forall i :: |s.log| <= i < |log| ==> s.now <= log[i].when
    decreases |es|
  {
    if es != [] {
      var t := Next(grace, s, es[0]);
      AddedIs(grace, s, es[0]);
      AddedNow(grace, s, es[0]);
      LogGrows(grace, t, es[1..]);
      var log := After(grace, t, es[1..]).log;
      forall i | |s.log| <= i < |log|
        ensures s.now <= log[i].when
      {
        if i < |t.log| {
          assert log[i] == t.log[i] == Added(grace, s, es[0])[i - |s.log|];
        }
      }
    }
  }

  lemma AddedNow(grace: nat, s: State, e: Event)
    requires Enabled(grace, s, e)
    ensures forall m :: m in Added(grace, s, e) ==> m.when == s.now
  {
    match e
    case Observes(c) => SightingsNow(s.calls[c].t.space, s.calls[c].row.losers, s.calls[c].sampled, s.now);
    case OtherObserves(o) => SightingsNow(s.readers[o].0, s.readers[o].1, s.readers[o].2, s.now);
    case Judges(c) => SightingsNow(s.calls[c].t.space, [s.calls[c].t.root], s.now, s.now);
    case _ =>
  }

  lemma {:induction false} SightingsNow(space: string, losers: seq<string>, date: nat, when: nat)
    ensures forall m :: m in Sightings(space, losers, date, when) ==> m.when == when
    decreases |losers|
  {
    if losers != [] {
      SightingsNow(space, losers[1..], date, when);
    }
  }

  /** Mark i of a continuation from s deletes a loser on the record that s has of it. */
  ghost predicate DeletesOn(grace: nat, s: State, es: seq<Event>, i: nat, key: string) {
    && Legal(grace, s, es)
    && var log := After(grace, s, es).log;
    && |s.log| <= i < |log| && log[i].Deleted? && Key(log[i].t.space, log[i].t.root) == key
    && |s.log| < log[i].locked <= i && forall k :: |s.log| <= k < log[i].locked ==> !Drops(log[k], key)
  }

  lemma DeletionIsLate(grace: nat, s: State, es: seq<Event>, i: nat, key: string, x: nat)
    requires Sound(grace, s) && Lookup(s.firstSeen, key) == Some(x) && DeletesOn(grace, s, es, i, key)
    ensures s.now <= After(grace, s, es).log[i].when && x + grace <= After(grace, s, es).log[i].when
  {
    RunIsSound(grace, s, es);
    LogGrows(grace, s, es);
    var t := After(grace, s, es);
    var d := t.log[i];
    assert DeletionOk(grace, t.now, t.log, i);
    assert t.log[..|s.log|] == s.log && t.log[..i][..d.locked] == t.log[..d.locked];
    DateStays(t.log, key, x, |s.log|, d.locked);
  }

  /** A number larger than all of a set. */
  lemma {:induction false} Above(s: set<nat>) returns (c: nat)
    ensures forall x :: x in s ==> x < c
    decreases |s|
  {
    c := 0;
    if s != {} {
      var x :| x in s;
      var d := Above(s - {x});
      c := if d <= x then x + 1 else d;
      assert forall y :: y in s ==> y == x || y in s - {x};
    }
  }

  function Later(a: nat, b: nat): nat { if a < b then b else a }

  /** A call that is timing its loser can go on to delete it as soon as the grace period is over. */
  lemma TimingDeletes(grace: nat, s: State, c: nat) returns (es: seq<Event>)
    requires c in s.calls && s.calls[c].Timing?
    ensures Legal(grace, s, es)
    ensures var k := s.calls[c]; var end := Later(s.now, k.first + grace);
      After(grace, s, es).log == s.log + [Deleted(k.t, k.row, k.first, k.locked, true, end, end)]
  {
    var wait := Later(s.now, s.calls[c].first + grace) - s.now;
    var s1 := Next(grace, s, Tick(wait));
    var s2 := Next(grace, s1, Times(c));
    var s3 := Next(grace, s2, Probes(c, true));
    var s4 := Next(grace, s3, Deletes(c));
    Then(grace, s3, Deletes(c), []);
    Then(grace, s2, Probes(c, true), [Deletes(c)] + []);
    Then(grace, s1, Times(c), [Probes(c, true)] + ([Deletes(c)] + []));
    es := [Times(c)] + ([Probes(c, true)] + ([Deletes(c)] + []));
    Then(grace, s, Tick(wait), es);
    es := [Tick(wait)] + es;
  }

  /** A fresh Resolve call that reads the root as a loser gets to timing it, on the date on record. */
  lemma CallTimes(grace: nat, s: State, c: nat, t: Target, row: Row, x: nat, es: seq<Event>) returns (all: seq<Event>)
    requires c !in s.calls && IsLoser(t, row) && row.losers == [t.root]
    requires Lookup(s.firstSeen, Key(t.space, t.root)) == Some(x)
    requires var seen := Seen(Key(t.space, t.root), s.now, s.now);
      Legal(grace, s.(log := s.log + [seen] + [seen], calls := s.calls[c := Timing(t, row, x, |s.log| + 2)]), es)
    ensures var seen := Seen(Key(t.space, t.root), s.now, s.now);
      var s' := s.(log := s.log + [seen] + [seen], calls := s.calls[c := Timing(t, row, x, |s.log| + 2)]);
      Legal(grace, s, all) && After(grace, s, all) == After(grace, s', es)
  {
    var seen := Seen(Key(t.space, t.root), s.now, s.now);
    var s1 := Next(grace, s, CallResolve(c, t));
    var s2 := Next(grace, s1, ReadsRow(c, row));
    OneSighting(s.firstSeen, t, s.now, x);
    var s3 := Next(grace, s2, Observes(c));
    assert s3 == s.(log := s.log + [seen], calls := s.calls[c := Judging(t, row)]);
    var s4 := Next(grace, s3, Judges(c));
    assert s4 == s.(log := s.log + [seen] + [seen], calls := s.calls[c := Timing(t, row, x, |s.log| + 2)]);
    Then(grace, s3, Judges(c), es);
    Then(grace, s2, Observes(c), [Judges(c)] + es);
    Then(grace, s1, ReadsRow(c, row), [Observes(c)] + ([Judges(c)] + es));
    all := [ReadsRow(c, row)] + ([Observes(c)] + ([Judges(c)] + es));
    Then(grace, s, CallResolve(c, t), all);
    all := [CallResolve(c, t)] + all;
  }

  lemma OneSighting(seen: map<string, nat>, t: Target, now: nat, x: nat)
    requires Lookup(seen, Key(t.space, t.root)) == Some(x)
    ensures Dated(seen, t.space, [t.root], now) == seen
    ensures Sightings(t.space, [t.root], now, now) == [Seen(Key(t.space, t.root), now, now)]
  {
    DatedOne(seen, t.space, t.root, now);
    assert [t.root][1..] == [];
  }

  /** The soonest a loser on record can go: at once when its grace period is over, else when it is. */
  lemma SoonestDeletion(grace: nat, s: State, space: string, root: string, x: nat) returns (es: seq<Event>, i: nat)
    requires Lookup(s.firstSeen, Key(space, root)) == Some(x)
    ensures DeletesOn(grace, s, es, i, Key(space, root))
    ensures var d := After(grace, s, es).log[i];
      d.when == Later(s.now, x + grace) && d.t.space == space && d.t.root == root
  {
    var c := Above(s.calls.Keys);
    var t, row := Target(space, "", root), Row(root + "/", [root], [root]);
    var seen := Seen(Key(space, root), s.now, s.now);
    var s' := s.(log := s.log + [seen] + [seen], calls := s.calls[c := Timing(t, row, x, |s.log| + 2)]);
    var rest := TimingDeletes(grace, s', c);
    es := CallTimes(grace, s, c, t, row, x, rest);
    i := |s.log| + 2;
    var log := After(grace, s, es).log;
    assert log[|s.log|] == seen && log[|s.log| + 1] == seen;
  }

  /**
   * A record promises that no deletion resting on it comes within the grace period of the last drop exactly
   * when its date is no older than that drop, or the period is over already.
   */
  lemma GracePromisedIff(grace: nat, s: State, space: string, root: string, x: nat)
    requires Sound(grace, s) && Lookup(s.firstSeen, Key(space, root)) == Some(x)
    ensures var key := Key(space, root); var w := LastDrop(s.log, key);
      (forall es: seq<Event>, i: nat :: DeletesOn(grace, s, es, i, key) ==>
        w + grace <= After(grace, s, es).log[i].when) <==>
      (w <= x || w + grace <= s.now)
  {
    var key := Key(space, root);
    var w := LastDrop(s.log, key);
    if w <= x || w + grace <= s.now {
      forall es: seq<Event>, i: nat | DeletesOn(grace, s, es, i, key)
        ensures w + grace <= After(grace, s, es).log[i].when
      {
        DeletionIsLate(grace, s, es, i, key, x);
      }
    } else {
      var es, i := SoonestDeletion(grace, s, space, root, x);
      assert DeletesOn(grace, s, es, i, key) && After(grace, s, es).log[i].when < w + grace;
    }
  }

  lemma StaleLog(log: seq<Mark>, before: seq<Mark>, key: string, grace: nat, locked: nat)
    requires before == [Wiped(grace)] + [Seen(key, 0, grace)] && before <= log && 2 <= locked <= |log|
    requires forall k :: 2 <= k < locked ==> !Drops(log[k], key)
    ensures LastDrop(log[..locked], key) == grace
  {
    assert before[..1] == [Wiped(grace)] && log[..2] == before;
    assert [Wiped(grace)][..0] == [];
    DateStays(log, key, 0, 2, locked);
  }

  /** A clock read, a Reset a grace period later, then the section: the loser goes at the instant of the Reset. */
  lemma StaleSampleRun(grace: nat, space: string, root: string) returns (es: seq<Event>, i: nat)
    ensures Legal(grace, INIT, es)
    ensures var log := After(grace, INIT, es).log;
      && i < |log| && log[i].Deleted? && log[i].t.space == space && log[i].t.root == root && log[i].locked <= i
      && log[i].when == grace && LastDrop(log[..log[i].locked], Key(space, root)) == grace
  {
    var key := Key(space, root);
    var s1 := Next(grace, INIT, OtherReads(0, space, [root]));
    var s2 := Next(grace, s1, Tick(grace));
    var s3 := Next(grace, s2, Resets);
    DatedOne(map[], space, root, 0);
    assert [root][1..] == [] && Sightings(space, [root], 0, grace) == [Seen(key, 0, grace)];
    var s4 := Next(grace, s3, OtherObserves(0));
    assert s4.log == [Wiped(grace)] + [Seen(key, 0, grace)] && Lookup(s4.firstSeen, key) == Some(0);
    es, i := SoonestDeletion(grace, s4, space, root, 0);
    LogGrows(grace, s4, es);
    StaleLog(After(grace, s4, es).log, s4.log, key, grace, After(grace, s4, es).log[i].locked);
    Then(grace, s3, OtherObserves(0), es);
    es := [OtherObserves(0)] + es;
    Then(grace, s2, Resets, es);
    es := [Resets] + es;
    Then(grace, s1, Tick(grace), es);
    es := [Tick(grace)] + es;
    Then(grace, INIT, OtherReads(0, space, [root]), es);
    es := [OtherReads(0, space, [root])] + es;
  }
}
