/** What the resolver guarantees over every run: dates, deletions and retry loops. */
module LoserResolverTheorems {
  import opened Prelude
  import opened LoserResolver

  // ---- dates ------------------------------------------------------------------------

  predicate Drops(m: Mark, key: string) { (m.Dropped? && m.key == key) || m.Wiped? }

  predicate Sees(m: Mark, key: string) { m.Seen? && m.key == key }

  /** The date a loser should have, read off what happened. */
  function FirstSince(log: seq<Mark>, key: string): Option<nat> {
    if log == [] then None
    else
      var m, before := log[|log| - 1], FirstSince(log[..|log| - 1], key);
      if Drops(m, key) then None else if Sees(m, key) && before.None? then Some(m.date) else before
  }

  /** When the key was last dropped; 0, the start of the clock, when it never was. */
  function LastDrop(log: seq<Mark>, key: string): nat {
    if log == [] then 0
    else if Drops(log[|log| - 1], key) then log[|log| - 1].when
    else LastDrop(log[..|log| - 1], key)
  }

  /** Mark i is the first sighting since the last time the key was dropped. */
  ghost predicate OnRecord(log: seq<Mark>, key: string, i: nat) {
    && i < |log| && Sees(log[i], key)
    && (forall k :: i < k < |log| ==> !Drops(log[k], key))
    && (forall j :: 0 <= j < i && Sees(log[j], key) ==> exists k :: j < k < i && Drops(log[k], key))
  }

  lemma {:induction false} AllDropped(log: seq<Mark>, key: string)
    requires forall j :: 0 <= j < |log| && Sees(log[j], key) ==> exists k :: j < k < |log| && Drops(log[k], key)
    ensures FirstSince(log, key).None?
  {
    if log != [] && !Drops(log[|log| - 1], key) {
      var rest := log[..|log| - 1];
      forall j | 0 <= j < |rest| && Sees(rest[j], key)
        ensures exists k :: j < k < |rest| && Drops(rest[k], key)
      {
        var k :| j < k < |log| && Drops(log[k], key);
        assert rest[k] == log[k];
      }
      AllDropped(rest, key);
    }
  }

  lemma {:induction false} RecordStays(log: seq<Mark>, key: string, i: nat, n: nat)
    requires OnRecord(log, key, i) && i < n <= |log|
    ensures FirstSince(log[..n], key) == Some(log[i].date)
    decreases n
  {
    assert log[..n][..n - 1] == log[..n - 1];
    if n == i + 1 {
      var rest := log[..i];
      forall j | 0 <= j < |rest| && Sees(rest[j], key)
        ensures exists k :: j < k < |rest| && Drops(rest[k], key)
      {
        var k :| j < k < i && Drops(log[k], key);
        assert rest[k] == log[k];
      }
      AllDropped(rest, key);
    } else {
      RecordStays(log, key, i, n - 1);
    }
  }

  lemma {:induction false} RecordExists(log: seq<Mark>, key: string) returns (i: nat)
    requires FirstSince(log, key).Some?
    ensures OnRecord(log, key, i) && FirstSince(log, key) == Some(log[i].date)
  {
    var n := |log| - 1;
    var rest := log[..n];
    if FirstSince(rest, key).Some? {
      i := RecordExists(rest, key);
      forall j | 0 <= j < i && Sees(log[j], key)
        ensures exists k :: j < k < i && Drops(log[k], key)
      {
        assert rest[j] == log[j];
        var k :| j < k < i && Drops(rest[k], key);
        assert log[k] == rest[k];
      }
    } else {
      i := n;
      NoRecordMeansDropped(rest, key);
      forall j | 0 <= j < i && Sees(log[j], key)
        ensures exists k :: j < k < i && Drops(log[k], key)
      {
        assert rest[j] == log[j];
        var k :| j < k < |rest| && Drops(rest[k], key);
        assert log[k] == rest[k];
      }
    }
  }

  lemma {:induction false} NoRecordMeansDropped(log: seq<Mark>, key: string)
    requires FirstSince(log, key).None?
    ensures forall j :: 0 <= j < |log| && Sees(log[j], key) ==> exists k :: j < k < |log| && Drops(log[k], key)
  {
    if log != [] {
      var n := |log| - 1;
      var rest := log[..n];
      forall j | 0 <= j < |log| && Sees(log[j], key)
        ensures exists k :: j < k < |log| && Drops(log[k], key)
      {
        if Drops(log[n], key) {
          assert j < n;
        } else {
          NoRecordMeansDropped(rest, key);
          assert rest[j] == log[j];
          var k :| j < k < |rest| && Drops(rest[k], key);
          assert log[k] == rest[k];
        }
      }
    }
  }

  /** The date is that of the first sighting since the key was last dropped, and there is none otherwise. */
  lemma FirstSinceMeans(log: seq<Mark>, key: string, at: nat)
    ensures FirstSince(log, key) == Some(at) <==> exists i: nat :: OnRecord(log, key, i) && log[i].date == at
  {
    if FirstSince(log, key).Some? {
      var i := RecordExists(log, key);
    }
    forall i: nat | OnRecord(log, key, i)
      ensures FirstSince(log, key) == Some(log[i].date)
    {
      RecordStays(log, key, i, |log|);
      assert log[..|log|] == log;
    }
  }

  function Lookup(seen: map<string, nat>, key: string): Option<nat> {
    if key in seen then Some(seen[key]) else None
  }

  ghost predicate Matches(seen: map<string, nat>, log: seq<Mark>) {
    forall key :: Lookup(seen, key) == FirstSince(log, key)
  }

  lemma MatchesOne(seen: map<string, nat>, log: seq<Mark>, m: Mark)
    requires Matches(seen, log)
    ensures m.Seen? ==> Matches(if m.key in seen then seen else seen[m.key := m.date], log + [m])
    ensures m.Dropped? ==> Matches(seen - {m.key}, log + [m])
    ensures m.Wiped? ==> Matches(map[], log + [m])
    ensures m.Deleted? ==> Matches(seen, log + [m])
  {
    assert (log + [m])[..|log|] == log;
    forall key
      ensures FirstSince(log + [m], key) ==
        if Drops(m, key) then None else if Sees(m, key) && key !in seen then Some(m.date) else Lookup(seen, key)
    {
      assert Lookup(seen, key) == FirstSince(log, key);
    }
  }

  lemma {:induction false} MatchesDated(seen: map<string, nat>, log: seq<Mark>, space: string, losers: seq<string>,
                                              at: nat, when: nat)
    requires Matches(seen, log)
    ensures Matches(Dated(seen, space, losers, at), log + Sightings(space, losers, at, when))
    decreases |losers|
  {
    if losers == [] {
      assert log + [] == log;
    } else {
      var m := Seen(Key(space, losers[0]), at, when);
      MatchesOne(seen, log, m);
      MatchesDated(if m.key in seen then seen else seen[m.key := at], log + [m], space, losers[1..], at, when);
      Regroup(log, [m], Sightings(space, losers[1..], at, when));
    }
  }

  lemma RecordedKept(grace: nat, s: State, e: Event)
    requires Matches(s.firstSeen, s.log) && Enabled(grace, s, e)
    ensures Matches(Next(grace, s, e).firstSeen, Next(grace, s, e).log)
  {
    match e
    case Observes(c) => MatchesDated(s.firstSeen, s.log, s.calls[c].t.space, s.calls[c].row.losers,
      s.calls[c].sampled, s.now);
    case OtherObserves(o) => MatchesDated(s.firstSeen, s.log, s.readers[o].0, s.readers[o].1, s.readers[o].2, s.now);
    case Judges(c) => MatchesDated(s.firstSeen, s.log, s.calls[c].t.space, [s.calls[c].t.root], s.now, s.now);
    case Deletes(c) =>
      var k := s.calls[c];
      MatchesOne(s.firstSeen, s.log, Deleted(k.t, k.row, k.first, k.locked, k.quiescent, k.verdictAt, s.now));
    case Forgets(c) => MatchesOne(s.firstSeen, s.log, Dropped(Key(s.calls[c].t.space, s.calls[c].t.root), s.now));
    case OtherForgets(key) => MatchesOne(s.firstSeen, s.log, Dropped(key, s.now));
    case Resets => MatchesOne(s.firstSeen, s.log, Wiped(s.now));
    case _ =>
  }

  // ---- deletions ---------------------------------------------------------------------

  /** A call past its readiness section holds the date that was on record when the section ended. */
  ghost predicate Verdict(log: seq<Mark>, t: Target, row: Row, first: nat, locked: nat) {
    IsLoser(t, row) && locked <= |log| && FirstSince(log[..locked], Key(t.space, t.root)) == Some(first)
  }

  ghost predicate CallOk(grace: nat, now: nat, log: seq<Mark>, k: Call) {
    match k
    case Timing(t, row, first, locked) => Verdict(log, t, row, first, locked)
    case Probing(t, row, first, locked, at) => Verdict(log, t, row, first, locked) && first + grace <= at <= now
    case Deleting(t, row, first, locked, quiescent, at) =>
      Verdict(log, t, row, first, locked) && first + grace <= at <= now && quiescent
    case _ => true
  }

  /** A deletion of a claimed loser, judged quiescent and dated at least the grace period before. */
  ghost predicate DeletionOk(grace: nat, now: nat, log: seq<Mark>, i: nat)
    requires i < |log| && log[i].Deleted?
  {
    var d := log[i];
    Verdict(log[..i], d.t, d.row, d.first, d.locked) && d.first + grace <= d.verdictAt <= d.when <= now && d.quiescent
  }

  ghost predicate DeletionsOk(grace: nat, now: nat, log: seq<Mark>) {
    forall i :: 0 <= i < |log| && log[i].Deleted? ==> DeletionOk(grace, now, log, i)
  }

  ghost predicate Sound(grace: nat, s: State) {
    && Matches(s.firstSeen, s.log)
    && (forall c :: c in s.calls ==> CallOk(grace, s.now, s.log, s.calls[c]))
    && DeletionsOk(grace, s.now, s.log)
  }

  lemma VerdictStays(log: seq<Mark>, more: seq<Mark>, t: Target, row: Row, first: nat, locked: nat)
    requires Verdict(log, t, row, first, locked)
    ensures Verdict(log + more, t, row, first, locked)
  {
    assert (log + more)[..locked] == log[..locked];
  }

  lemma CallStays(grace: nat, now: nat, now': nat, log: seq<Mark>, more: seq<Mark>, k: Call)
    requires CallOk(grace, now, log, k) && now <= now'
    ensures CallOk(grace, now', log + more, k)
  {
    if k.Timing? || k.Probing? || k.Deleting? {
      VerdictStays(log, more, k.t, k.row, k.first, k.locked);
    }
  }

  lemma DeletionsStay(grace: nat, now: nat, now': nat, log: seq<Mark>, more: seq<Mark>)
    requires DeletionsOk(grace, now, log) && now <= now' && forall m :: m in more ==> !m.Deleted?
    ensures DeletionsOk(grace, now', log + more)
  {
    assert forall i :: |log| <= i < |log + more| ==> (log + more)[i] in more;
    forall i | 0 <= i < |log + more| && (log + more)[i].Deleted?
      ensures DeletionOk(grace, now', log + more, i)
    {
      assert (log + more)[..i] == log[..i] && DeletionOk(grace, now, log, i);
    }
  }

  /** What one event appends to the log. */
  ghost function Added(grace: nat, s: State, e: Event): seq<Mark>
    requires Enabled(grace, s, e)
  {
    match e
    case Observes(c) => Sightings(s.calls[c].t.space, s.calls[c].row.losers, s.calls[c].sampled, s.now)
    case OtherObserves(o) => Sightings(s.readers[o].0, s.readers[o].1, s.readers[o].2, s.now)
    case Judges(c) =>
      if IsLoser(s.calls[c].t, s.calls[c].row)
      then Sightings(s.calls[c].t.space, [s.calls[c].t.root], s.now, s.now) else []
    case Deletes(c) =>
      var k := s.calls[c];
      [Deleted(k.t, k.row, k.first, k.locked, k.quiescent, k.verdictAt, s.now)]
    case Forgets(c) => [Dropped(Key(s.calls[c].t.space, s.calls[c].t.root), s.now)]
    case OtherForgets(key) => [Dropped(key, s.now)]
    case Resets => [Wiped(s.now)]
    case _ => []
  }

  lemma AddedIs(grace: nat, s: State, e: Event)
    requires Enabled(grace, s, e)
    ensures Next(grace, s, e).log == s.log + Added(grace, s, e) && s.now <= Next(grace, s, e).now
  {
    assert s.log + [] == s.log;
  }

  lemma OnlyDeletesDelete(grace: nat, s: State, e: Event)
    requires Enabled(grace, s, e) && !e.Deletes?
    ensures forall m :: m in Added(grace, s, e) ==> !m.Deleted?
  {
    match e
    case Observes(c) => SightingsOnly(s.calls[c].t.space, s.calls[c].row.losers, s.calls[c].sampled, s.now);
    case OtherObserves(o) => SightingsOnly(s.readers[o].0, s.readers[o].1, s.readers[o].2, s.now);
    case Judges(c) => SightingsOnly(s.calls[c].t.space, [s.calls[c].t.root], s.now, s.now);
    case _ =>
  }

  lemma {:induction false} SightingsOnly(space: string, losers: seq<string>, date: nat, when: nat)
    ensures forall m :: m in Sightings(space, losers, date, when) ==> m.Seen?
    decreases |losers|
  {
    if losers != [] {
      SightingsOnly(space, losers[1..], date, when);
    }
  }

  lemma DeletionAdded(grace: nat, now: nat, log: seq<Mark>, d: Mark)
    requires DeletionsOk(grace, now, log) && d.Deleted? && d.when == now
    requires Verdict(log, d.t, d.row, d.first, d.locked) && d.first + grace <= d.verdictAt <= now && d.quiescent
    ensures DeletionsOk(grace, now, log + [d])
  {
    forall i | 0 <= i < |log + [d]| && (log + [d])[i].Deleted?
      ensures DeletionOk(grace, now, log + [d], i)
    {
      assert (log + [d])[..i] == log[..i] && log[..|log|] == log;
      if i < |log| {
        assert DeletionOk(grace, now, log, i);
      }
    }
  }

  lemma DeletionsKept(grace: nat, s: State, e: Event)
    requires Sound(grace, s) && Enabled(grace, s, e)
    ensures DeletionsOk(grace, Next(grace, s, e).now, Next(grace, s, e).log)
  {
    var more := Added(grace, s, e);
    AddedIs(grace, s, e);
    if e.Deletes? {
      assert CallOk(grace, s.now, s.log, s.calls[e.c]);
      DeletionAdded(grace, s.now, s.log, more[0]);
    } else {
      OnlyDeletesDelete(grace, s, e);
      DeletionsStay(grace, s.now, Next(grace, s, e).now, s.log, more);
    }
  }

  lemma JudgedOk(grace: nat, s: State, c: nat)
    requires Sound(grace, s) && Enabled(grace, s, Judges(c)) && IsLoser(s.calls[c].t, s.calls[c].row)
    ensures var t := Next(grace, s, Judges(c)); c in t.calls && CallOk(grace, t.now, t.log, t.calls[c])
  {
    var t, k := Next(grace, s, Judges(c)), s.calls[c];
    var key := Key(k.t.space, k.t.root);
    RecordedKept(grace, s, Judges(c));
    DatedOne(s.firstSeen, k.t.space, k.t.root, s.now);
    assert t.log[..|t.log|] == t.log && Lookup(t.firstSeen, key) == FirstSince(t.log, key);
  }

  /** A call that the event moves: what its new position promises. */
  lemma CallMoved(grace: nat, s: State, e: Event, c: nat)
    requires Sound(grace, s) && Enabled(grace, s, e) && c in Next(grace, s, e).calls
    requires c !in s.calls || Next(grace, s, e).calls[c] != s.calls[c]
    ensures CallOk(grace, Next(grace, s, e).now, Next(grace, s, e).log, Next(grace, s, e).calls[c])
  {
    assert c in s.calls ==> CallOk(grace, s.now, s.log, s.calls[c]);
    if e == Judges(c) && IsLoser(s.calls[c].t, s.calls[c].row) {
      JudgedOk(grace, s, c);
    }
  }

  lemma CallsKept(grace: nat, s: State, e: Event, c: nat)
    requires Sound(grace, s) && Enabled(grace, s, e) && c in Next(grace, s, e).calls
    ensures CallOk(grace, Next(grace, s, e).now, Next(grace, s, e).log, Next(grace, s, e).calls[c])
  {
    if c in s.calls && Next(grace, s, e).calls[c] == s.calls[c] {
      AddedIs(grace, s, e);
      CallStays(grace, s.now, Next(grace, s, e).now, s.log, Added(grace, s, e), s.calls[c]);
    } else {
      CallMoved(grace, s, e, c);
    }
  }

  lemma SoundKept(grace: nat, s: State, e: Event)
    requires Sound(grace, s) && Enabled(grace, s, e)
    ensures Sound(grace, Next(grace, s, e))
  {
    RecordedKept(grace, s, e);
    DeletionsKept(grace, s, e);
    forall c | c in Next(grace, s, e).calls
      ensures CallOk(grace, Next(grace, s, e).now, Next(grace, s, e).log, Next(grace, s, e).calls[c])
    {
      CallsKept(grace, s, e, c);
    }
  }

  lemma {:induction false} RunIsSound(grace: nat, s: State, es: seq<Event>)
    requires Sound(grace, s) && Legal(grace, s, es)
    ensures Sound(grace, After(grace, s, es))
    decreases |es|
  {
    if es != [] {
      SoundKept(grace, s, es[0]);
      RunIsSound(grace, Next(grace, s, es[0]), es[1..]);
    }
  }

  lemma InitIsSound(grace: nat)
    ensures Sound(grace, INIT)
  {
  }

  /** In every run the date kept for a loser is that of its first sighting since it was last forgotten or reset. */
  lemma DatesAreFirstSightings(grace: nat, es: seq<Event>, key: string, at: nat)
    requires Legal(grace, INIT, es)
    ensures var s := After(grace, INIT, es);
      Lookup(s.firstSeen, key) == Some(at) <==> exists i: nat :: OnRecord(s.log, key, i) && s.log[i].date == at
  {
    InitIsSound(grace);
    RunIsSound(grace, INIT, es);
    var s := After(grace, INIT, es);
    assert Lookup(s.firstSeen, key) == FirstSince(s.log, key);
    FirstSinceMeans(s.log, key, at);
  }

  /**
   * In every run each deletion is of a claimed loser that is not the winner, quiescent, a grace period after
   * its date.
   */
  lemma DeletionsAreRight(grace: nat, es: seq<Event>, i: nat)
    requires Legal(grace, INIT, es)
    requires i < |After(grace, INIT, es).log| && After(grace, INIT, es).log[i].Deleted?
    ensures var log := After(grace, INIT, es).log; var d := log[i];
      && d.t.root != d.row.rootId && d.t.root in d.row.roots && d.t.root in d.row.losers && d.quiescent
      && d.first + grace <= d.verdictAt <= d.when && d.locked <= i
      && exists j: nat :: OnRecord(log[..d.locked], Key(d.t.space, d.t.root), j) && log[j].date == d.first
  {
    InitIsSound(grace);
    RunIsSound(grace, INIT, es);
    var s := After(grace, INIT, es);
    var d := s.log[i];
    assert DeletionOk(grace, s.now, s.log, i);
    assert s.log[..i][..d.locked] == s.log[..d.locked];
    FirstSinceMeans(s.log[..d.locked], Key(d.t.space, d.t.root), d.first);
  }

  lemma {:induction false} DateStays(log: seq<Mark>, key: string, first: nat, lo: nat, hi: nat)
    requires lo <= hi <= |log| && FirstSince(log[..lo], key) == Some(first)
    requires forall k :: lo <= k < hi ==> !Drops(log[k], key)
    ensures FirstSince(log[..hi], key) == Some(first) && LastDrop(log[..hi], key) == LastDrop(log[..lo], key)
    decreases hi
  {
    if lo < hi {
      DateStays(log, key, first, lo, hi - 1);
      assert log[..hi][..hi - 1] == log[..hi - 1];
    }
  }

  // ---- the record at the deletion ----------------------------------------------------

  /** A sighting on record stays the one on record exactly as long as nothing drops the key. */
  lemma RecordStaysIff(log: seq<Mark>, key: string, j: nat, lo: nat, hi: nat)
    requires lo <= hi <= |log| && OnRecord(log[..lo], key, j)
    ensures OnRecord(log[..hi], key, j) <==> forall k :: lo <= k < hi ==> !Drops(log[k], key)
  {
    var a, b := log[..lo], log[..hi];
    assert forall k :: 0 <= k < lo ==> a[k] == b[k];
    assert forall k :: 0 <= k < hi ==> b[k] == log[k];
    if forall k :: lo <= k < hi ==> !Drops(log[k], key) {
      forall i | 0 <= i < j && Sees(b[i], key)
        ensures exists k :: i < k < j && Drops(b[k], key)
      {
        assert Sees(a[i], key);
        var k :| i < k < j && Drops(a[k], key);
        assert Drops(b[k], key);
      }
    }
  }

  /**
   * The sighting that the readiness verdict rests on is still on record when the deletion happens exactly
   * when neither a forget nor a Reset came between the two.
   */
  lemma OnRecordAtDeletionIff(grace: nat, es: seq<Event>, i: nat, j: nat)
    requires Legal(grace, INIT, es)
    requires i < |After(grace, INIT, es).log| && After(grace, INIT, es).log[i].Deleted?
    requires var log := After(grace, INIT, es).log;
      log[i].locked <= i && OnRecord(log[..log[i].locked], Key(log[i].t.space, log[i].t.root), j)
    ensures var log := After(grace, INIT, es).log; var d := log[i];
      && log[j].date == d.first && d.first + grace <= d.verdictAt <= d.when
      && (OnRecord(log[..i], Key(d.t.space, d.t.root), j) <==>
          forall k :: d.locked <= k < i ==> !Drops(log[k], Key(d.t.space, d.t.root)))
  {
    InitIsSound(grace);
    RunIsSound(grace, INIT, es);
    var s := After(grace, INIT, es);
    var d := s.log[i];
    var key := Key(d.t.space, d.t.root);
    assert DeletionOk(grace, s.now, s.log, i);
    assert s.log[..i][..d.locked] == s.log[..d.locked];
    FirstSinceMeans(s.log[..d.locked], key, s.log[..d.locked][j].date);
    RecordStaysIff(s.log, key, j, d.locked, i);
  }

  lemma Then(grace: nat, s: State, e: Event, es: seq<Event>)
    requires Enabled(grace, s, e) && Legal(grace, Next(grace, s, e), es)
    ensures Legal(grace, s, [e] + es) && After(grace, s, [e] + es) == After(grace, Next(grace, s, e), es)
  {
    assert ([e] + es)[1..] == es;
  }

  lemma TwoEvents(grace: nat, s: State, a: Event, b: Event)
    requires Enabled(grace, s, a) && Enabled(grace, Next(grace, s, a), b)
    ensures Legal(grace, s, [a, b]) && After(grace, s, [a, b]) == Next(grace, Next(grace, s, a), b)
  {
    var t := Next(grace, s, a);
    assert [a, b][1..] == [b] && [b][1..] == [];
    assert Legal(grace, t, [b]) && After(grace, t, [b]) == After(grace, Next(grace, t, b), []);
  }

  /** A Reset or a forget in that gap, and the deletion goes ahead with nothing on record, whatever came before. */
  lemma DropBeforeDeletion(grace: nat, s: State, c: nat, e: Event)
    requires Enabled(grace, s, Deletes(c))
    requires e.Resets? || e == OtherForgets(Key(s.calls[c].t.space, s.calls[c].t.root))
    ensures Legal(grace, s, [e, Deletes(c)])
    ensures var log := After(grace, s, [e, Deletes(c)]).log; var n := |log| - 1;
      n >= 0 && log[n].Deleted? && log[n].t == s.calls[c].t &&
        FirstSince(log[..n], Key(log[n].t.space, log[n].t.root)).None?
  {
    var t := Next(grace, s, e);
    var u := Next(grace, t, Deletes(c));
    TwoEvents(grace, s, e, Deletes(c));
    assert u.log[..|t.log|] == t.log && t.log[..|s.log|] == s.log;
  }

  // ---- after the deletion -----------------------------------------------------------

  /** The Resolve call an event is a step of. */
  function CallOf(e: Event): Option<nat> {
    match e
    case CallResolve(c, _) => Some(c)
    case ReadsRow(c, _) => Some(c)
    case Observes(c) => Some(c)
    case Judges(c) => Some(c)
    case Times(c) => Some(c)
    case Probes(c, _) => Some(c)
    case Deletes(c) => Some(c)
    case Forgets(c) => Some(c)
    case GivesUp(c) => Some(c)
    case _ => None
  }

  ghost predicate Aside(es: seq<Event>, c: nat) { forall i :: 0 <= i < |es| ==> CallOf(es[i]) != Some(c) }

  /** What others do leaves a call where it is. */
  lemma {:induction false} CallWaits(grace: nat, s: State, es: seq<Event>, c: nat)
    requires Legal(grace, s, es) && Aside(es, c) && c in s.calls
    ensures c in After(grace, s, es).calls && After(grace, s, es).calls[c] == s.calls[c]
    decreases |es|
  {
    if es != [] {
      assert CallOf(es[0]) != Some(c);
      CallWaits(grace, Next(grace, s, es[0]), es[1..], c);
    }
  }

  /** The one step a call at Forgetting has left: it drops its loser's record, no other, and returns. */
  lemma ForgettingForgets(grace: nat, s: State, c: nat)
    requires c in s.calls && s.calls[c].Forgetting?
    ensures forall e :: CallOf(e) == Some(c) ==> (Enabled(grace, s, e) <==> e == Forgets(c))
    ensures Enabled(grace, s, Forgets(c))
    ensures var u, key := Next(grace, s, Forgets(c)), Key(s.calls[c].t.space, s.calls[c].t.root);
      && c !in u.calls && key !in u.firstSeen
      && (forall k :: k != key ==> Lookup(u.firstSeen, k) == Lookup(s.firstSeen, k))
  {
  }

  /**
   * A deletion is followed by forgetting: whatever others do in between, the call's next step drops the
   * record of the loser it deleted.
   */
  lemma DeletionForgets(grace: nat, s: State, c: nat, es: seq<Event>)
    requires Enabled(grace, s, Deletes(c)) && Legal(grace, Next(grace, s, Deletes(c)), es) && Aside(es, c)
    ensures var u, t := After(grace, Next(grace, s, Deletes(c)), es), s.calls[c].t;
      && (forall e :: CallOf(e) == Some(c) ==> (Enabled(grace, u, e) <==> e == Forgets(c)))
      && Key(t.space, t.root) !in Next(grace, u, Forgets(c)).firstSeen
  {
    CallWaits(grace, Next(grace, s, Deletes(c)), es, c);
    ForgettingForgets(grace, After(grace, Next(grace, s, Deletes(c)), es), c);
  }

  /** A claimed root the row no longer lists is forgotten too; the winner and an unclaimed root are refused. */
  lemma VerdictsFirst(grace: nat, s: State, c: nat)
    requires Enabled(grace, s, Judges(c))
    ensures var u, t, row := Next(grace, s, Judges(c)), s.calls[c].t, s.calls[c].row;
      && (t.root == row.rootId || t.root !in row.roots ==> u == s.(calls := s.calls - {c}))
      && (t.root != row.rootId && t.root in row.roots && t.root !in row.losers ==>
            c in u.calls && (forall e :: CallOf(e) == Some(c) ==> (Enabled(grace, u, e) <==> e == Forgets(c)))
            && Key(t.space, t.root) !in Next(grace, u, Forgets(c)).firstSeen)
      && (IsLoser(t, row) ==>
            Enabled(grace, u, GivesUp(c)) && Key(t.space, t.root) in u.firstSeen
            && (Enabled(grace, u, Times(c)) <==> u.now >= u.firstSeen[Key(t.space, t.root)] + grace))
  {
    if IsLoser(s.calls[c].t, s.calls[c].row) {
      DatedOne(s.firstSeen, s.calls[c].t.space, s.calls[c].t.root, s.now);
    }
  }

  // ---- retry loops ------------------------------------------------------------------

  /** Every loop holds its own claim, every claim has a loop, and no loop tries more than six times. */
  ghost predicate Paired(loops: map<nat, Loop>, retrying: set<string>) {
    && (forall l :: l in loops ==> loops[l].key in retrying && loops[l].attempts <= ATTEMPTS)
    && (forall l, m :: l in loops && m in loops && loops[l].key == loops[m].key ==> l == m)
    && (forall k :: k in retrying ==> exists l :: l in loops && loops[l].key == k)
  }

  ghost predicate LoopsOk(s: State) { Paired(s.loops, s.retrying) }

  /** The rule for the owner of the goroutines: join them before a Reset. */
  predicate Joined(s: State, e: Event) { e.Resets? ==> s.loops == map[] }

  predicate JoinedRun(grace: nat, s: State, es: seq<Event>)
    requires Legal(grace, s, es)
    decreases |es|
  {
    es == [] || (Joined(s, es[0]) && JoinedRun(grace, Next(grace, s, es[0]), es[1..]))
  }

  lemma PairedClaims(loops: map<nat, Loop>, retrying: set<string>, l: nat, key: string)
    requires Paired(loops, retrying) && l !in loops && key !in retrying
    ensures Paired(loops[l := Loop(key, 0, false)], retrying + {key})
  {
    var after := loops[l := Loop(key, 0, false)];
    forall k | k in retrying + {key}
      ensures exists m :: m in after && after[m].key == k
    {
      if k == key {
        assert after[l].key == k;
      } else {
        var m :| m in loops && loops[m].key == k;
        assert after[m].key == k;
      }
    }
  }

  lemma PairedChanges(loops: map<nat, Loop>, retrying: set<string>, l: nat, loop: Loop)
    requires Paired(loops, retrying) && l in loops && loop.key == loops[l].key && loop.attempts <= ATTEMPTS
    ensures Paired(loops[l := loop], retrying)
  {
    var after := loops[l := loop];
    forall k | k in retrying
      ensures exists m :: m in after && after[m].key == k
    {
      var m :| m in loops && loops[m].key == k;
      assert after[m].key == k;
    }
  }

  lemma PairedReleases(loops: map<nat, Loop>, retrying: set<string>, l: nat)
    requires Paired(loops, retrying) && l in loops
    ensures Paired(loops - {l}, retrying - {loops[l].key})
  {
    var after := loops - {l};
    forall k | k in retrying - {loops[l].key}
      ensures exists m :: m in after && after[m].key == k
    {
      var m :| m in loops && loops[m].key == k;
      assert m in after && after[m].key == k;
    }
  }

  lemma LoopsKept(grace: nat, s: State, e: Event)
    requires LoopsOk(s) && Enabled(grace, s, e) && Joined(s, e)
    ensures LoopsOk(Next(grace, s, e))
  {
    match e
    case LoopClaims(l, t) => if RetryKey(t) !in s.retrying { PairedClaims(s.loops, s.retrying, l, RetryKey(t)); }
    case LoopAttempts(l) => PairedChanges(s.loops, s.retrying, l, s.loops[l].(attempts := s.loops[l].attempts + 1));
    case LoopEnds(l) => PairedChanges(s.loops, s.retrying, l, s.loops[l].(releasing := true));
    case LoopReleases(l) => PairedReleases(s.loops, s.retrying, l);
    case _ =>
  }

  lemma {:induction false} OneLoopPerLoser(grace: nat, s: State, es: seq<Event>)
    requires LoopsOk(s) && Legal(grace, s, es) && JoinedRun(grace, s, es)
    ensures LoopsOk(After(grace, s, es))
    decreases |es|
  {
    if es != [] {
      LoopsKept(grace, s, es[0]);
      OneLoopPerLoser(grace, Next(grace, s, es[0]), es[1..]);
    }
  }

  /** In every run from the start that keeps the rule. */
  lemma OneLoopInEveryRun(grace: nat, es: seq<Event>)
    requires Legal(grace, INIT, es) && JoinedRun(grace, INIT, es)
    ensures var s := After(grace, INIT, es);
      && (forall l, m :: l in s.loops && m in s.loops && s.loops[l].key == s.loops[m].key ==> l == m)
      && (forall l :: l in s.loops ==> s.loops[l].attempts <= 6)
  {
    OneLoopPerLoser(grace, INIT, es);
  }

  /** The rule is needed: a Reset over a live loop lets a second one claim the same loser. */
  lemma ResetOverLiveLoop(grace: nat, s: State, l: nat, m: nat, t: Target)
    requires l in s.loops && m !in s.loops && s.loops[l].key == RetryKey(t)
    ensures Legal(grace, s, [Resets, LoopClaims(m, t)])
    ensures var u := After(grace, s, [Resets, LoopClaims(m, t)]);
      l in u.loops && m in u.loops && l != m && u.loops[l].key == u.loops[m].key
  {
    TwoEvents(grace, s, Resets, LoopClaims(m, t));
  }
}
