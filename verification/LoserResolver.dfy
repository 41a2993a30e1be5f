/** The resolver of losing bundle roots: what it remembers, and its critical sections. */
module LoserResolver {
  import opened Strings

  const ATTEMPTS := 6

  /** A registry row: the winning root, every root ever claimed, and the losers still there. */
  datatype Row = Row(rootId: string, roots: seq<string>, losers: seq<string>)

  datatype Target = Target(space: string, bundle: string, root: string)

  /** A loser's observation is kept under its space and root, */
  function Key(space: string, root: string): string { space + "/" + root }

  /** a retry claim under its space, bundle and root. */
  function RetryKey(t: Target): string { t.space + "/" + (t.bundle + "/" + t.root) }

  predicate IsLoser(t: Target, row: Row) { t.root != row.rootId && t.root in row.roots && t.root in row.losers }

  /** Space ids have no slash, so different losers have different keys. */
  lemma KeyInjective(s: string, r: string, s': string, r': string)
    requires Lacks(s, '/') && Lacks(s', '/') && Key(s, r) == Key(s', r')
    ensures s == s' && r == r'
  {
    CutAt(s, '/', r);
    CutAt(s', '/', r');
    assert Key(s, r) == s + ['/'] + r && Key(s', r') == s' + ['/'] + r';
  }

  /** Root ids have no slash either, so different claims have different retry keys. */
  lemma RetryKeyInjective(t: Target, u: Target)
    requires Lacks(t.space, '/') && Lacks(u.space, '/') && Lacks(t.root, '/') && Lacks(u.root, '/')
    requires RetryKey(t) == RetryKey(u)
    ensures t == u
  {
    KeyInjective(t.space, t.bundle + "/" + t.root, u.space, u.bundle + "/" + u.root);
    var s := t.bundle + "/" + t.root;
    assert s[|t.bundle|] == '/' && s[|u.bundle|] == '/';
    assert forall i :: |t.bundle| < i < |s| ==> s[i] == t.root[i - |t.bundle| - 1];
    assert forall i :: |u.bundle| < i < |s| ==> s[i] == u.root[i - |u.bundle| - 1];
    assert |t.bundle| == |u.bundle|;
    assert s[..|t.bundle|] == t.bundle && s[..|u.bundle|] == u.bundle;
    assert s[|t.bundle| + 1..] == t.root && s[|u.bundle| + 1..] == u.root;
  }

  /** Dates the losers that are not dated yet, and nothing else. */
  function Dated(seen: map<string, nat>, space: string, losers: seq<string>, date: nat): (r: map<string, nat>)
    ensures forall key :: key in r <==> key in seen || exists i :: 0 <= i < |losers| && key == Key(space, losers[i])
    ensures forall key :: key in r ==> r[key] == if key in seen then seen[key] else date
    decreases |losers|
  {
    if losers == [] then seen
    else
      var key := Key(space, losers[0]);
      assert forall i :: 0 < i < |losers| ==> losers[i] == losers[1..][i - 1];
      Dated(if key in seen then seen else seen[key := date], space, losers[1..], date)
  }

  // ---- the protocol -----------------------------------------------------------------

  /**
   * What happened to a loser's record, in the order of the critical sections. `when` is the clock in the
   * section; the `date` of a sighting was read before it.
   */
  datatype Mark =
    | Seen(key: string, date: nat, when: nat)
    | Dropped(key: string, when: nat)
    | Wiped(when: nat)
    | Deleted(t: Target, row: Row, first: nat, locked: nat, quiescent: bool, verdictAt: nat, when: nat)

  /** A Resolve call under way; `locked` is how many marks there were when its readiness section ended. */
  datatype Call =
    | Reading(t: Target)
    | Observing(t: Target, row: Row, sampled: nat)
    | Judging(t: Target, row: Row)
    | Timing(t: Target, row: Row, first: nat, locked: nat)
    | Probing(t: Target, row: Row, first: nat, locked: nat, verdictAt: nat)
    | Deleting(t: Target, row: Row, first: nat, locked: nat, quiescent: bool, verdictAt: nat)
    | Forgetting(t: Target)

  /** A retry goroutine that holds a claim: asleep or attempting, then about to release. */
  datatype Loop = Loop(key: string, attempts: nat, releasing: bool)

  datatype State = State(
    now: nat,
    firstSeen: map<string, nat>,
    retrying: set<string>,
    calls: map<nat, Call>,
    readers: map<nat, (string, seq<string>, nat)>,
    loops: map<nat, Loop>,
    log: seq<Mark>)

  const INIT := State(0, map[], {}, map[], map[], map[], [])

  datatype Event =
    | Tick(elapsed: nat)
    | CallResolve(c: nat, target: Target)
    | ReadsRow(c: nat, row: Row)
    | Observes(c: nat)
    | Judges(c: nat)
    | Times(c: nat)
    | Probes(c: nat, quiescent: bool)
    | Deletes(c: nat)
    | Forgets(c: nat)
    | GivesUp(c: nat)
    | OtherReads(o: nat, space: string, losers: seq<string>)
    | OtherObserves(o: nat)
    | OtherForgets(key: string)
    | Resets
    | LoopClaims(l: nat, loopTarget: Target)
    | LoopAttempts(l: nat)
    | LoopEnds(l: nat)
    | LoopReleases(l: nat)

  /** One mark for every loser a row carries. */
  function Sightings(space: string, losers: seq<string>, date: nat, when: nat): seq<Mark> {
    if losers == [] then []
    else [Seen(Key(space, losers[0]), date, when)] + Sightings(space, losers[1..], date, when)
  }

  function Observed(s: State, space: string, losers: seq<string>, date: nat): State {
    s.(firstSeen := Dated(s.firstSeen, space, losers, date), log := s.log + Sightings(space, losers, date, s.now))
  }

  function Forgotten(s: State, key: string): State {
    s.(firstSeen := s.firstSeen - {key}, log := s.log + [Dropped(key, s.now)])
  }

  function Erased(s: State): State {
    s.(firstSeen := map[], retrying := {}, log := s.log + [Wiped(s.now)])
  }

  function Claimed(s: State, l: nat, key: string): State {
    if key in s.retrying then s
    else s.(retrying := s.retrying + {key}, loops := s.loops[l := Loop(key, 0, false)])
  }

  function Released(s: State, l: nat): State
    requires l in s.loops
  {
    s.(retrying := s.retrying - {s.loops[l].key}, loops := s.loops - {l})
  }

  function Moves(s: State, c: nat, k: Call): State { s.(calls := s.calls[c := k]) }

  function Returns(s: State, c: nat): State { s.(calls := s.calls - {c}) }

  predicate Enabled(grace: nat, s: State, e: Event) {
    match e
    case Tick(_) => true
    case CallResolve(c, _) => c !in s.calls
    case ReadsRow(c, _) => c in s.calls && s.calls[c].Reading?
    case Observes(c) => c in s.calls && s.calls[c].Observing?
    case Judges(c) => c in s.calls && s.calls[c].Judging?
    case Times(c) => c in s.calls && s.calls[c].Timing? && s.now >= s.calls[c].first + grace
    case Probes(c, _) => c in s.calls && s.calls[c].Probing?
    case Deletes(c) => c in s.calls && s.calls[c].Deleting?
    case Forgets(c) => c in s.calls && s.calls[c].Forgetting?
    case GivesUp(c) => c in s.calls && (s.calls[c].Reading? || s.calls[c].Timing? || s.calls[c].Deleting?)
    case OtherReads(o, _, _) => o !in s.readers
    case OtherObserves(o) => o in s.readers
    case OtherForgets(_) => true
    case Resets => true
    case LoopClaims(l, _) => l !in s.loops
    case LoopAttempts(l) => l in s.loops && !s.loops[l].releasing && s.loops[l].attempts < ATTEMPTS
    case LoopEnds(l) => l in s.loops && !s.loops[l].releasing
    case LoopReleases(l) => l in s.loops && s.loops[l].releasing
  }

  /** The verdicts that cannot change, then the section of the readiness check. */
  function Judge(s: State, c: nat, t: Target, row: Row): State {
    if t.root == row.rootId || t.root !in row.roots then Returns(s, c)
    else if t.root !in row.losers then Moves(s, c, Forgetting(t))
    else
      var s' := Observed(s, t.space, [t.root], s.now);
      DatedOne(s.firstSeen, t.space, t.root, s.now);
      Moves(s', c, Timing(t, row, s'.firstSeen[Key(t.space, t.root)], |s'.log|))
  }

  lemma DatedOne(seen: map<string, nat>, space: string, root: string, now: nat)
    ensures Dated(seen, space, [root], now) == if Key(space, root) in seen then seen else seen[Key(space, root) := now]
  {
    assert [root][1..] == [];
  }

  function Next(grace: nat, s: State, e: Event): State
    requires Enabled(grace, s, e)
  {
    match e
    case Tick(elapsed) => s.(now := s.now + elapsed)
    case CallResolve(c, t) => Moves(s, c, Reading(t))
    case ReadsRow(c, row) => Moves(s, c, Observing(s.calls[c].t, row, s.now))
    case Observes(c) =>
      var k := s.calls[c];
      Moves(Observed(s, k.t.space, k.row.losers, k.sampled), c, Judging(k.t, k.row))
    case Judges(c) => Judge(s, c, s.calls[c].t, s.calls[c].row)
    case Times(c) => var k := s.calls[c]; Moves(s, c, Probing(k.t, k.row, k.first, k.locked, s.now))
    case Probes(c, quiescent) =>
      var k := s.calls[c];
      if quiescent then Moves(s, c, Deleting(k.t, k.row, k.first, k.locked, quiescent, k.verdictAt)) else Returns(s, c)
    case Deletes(c) =>
      var k := s.calls[c];
      var d := Deleted(k.t, k.row, k.first, k.locked, k.quiescent, k.verdictAt, s.now);
      Moves(s, c, Forgetting(k.t)).(log := s.log + [d])
    case Forgets(c) => Returns(Forgotten(s, Key(s.calls[c].t.space, s.calls[c].t.root)), c)
    case GivesUp(c) => Returns(s, c)
    case OtherReads(o, space, losers) => s.(readers := s.readers[o := (space, losers, s.now)])
    case OtherObserves(o) =>
      Observed(s, s.readers[o].0, s.readers[o].1, s.readers[o].2).(readers := s.readers - {o})
    case OtherForgets(key) => Forgotten(s, key)
    case Resets => Erased(s)
    case LoopClaims(l, t) => Claimed(s, l, RetryKey(t))
    case LoopAttempts(l) => s.(loops := s.loops[l := s.loops[l].(attempts := s.loops[l].attempts + 1)])
    case LoopEnds(l) => s.(loops := s.loops[l := s.loops[l].(releasing := true)])
    case LoopReleases(l) => Released(s, l)
  }

  predicate Legal(grace: nat, s: State, es: seq<Event>)
    decreases |es|
  {
    es == [] || (Enabled(grace, s, es[0]) && Legal(grace, Next(grace, s, es[0]), es[1..]))
  }

  function After(grace: nat, s: State, es: seq<Event>): State
    requires Legal(grace, s, es)
    decreases |es|
  {
    if es == [] then s else After(grace, Next(grace, s, es[0]), es[1..])
  }

  // ---- the code of the critical sections ----------------------------------------------

  /** The fields behind the mutex; each method is one section, tied to the protocol step it takes. */
  class Resolver {
    var firstSeen: map<string, nat>
    var retrying: set<string>

    ghost predicate Mirrors(s: State)
      reads this
    {
      firstSeen == s.firstSeen && retrying == s.retrying
    }

    constructor ()
      ensures Mirrors(INIT)
    {
      firstSeen, retrying := map[], {};
    }

    method Observe(space: string, losers: seq<string>, now: nat, ghost s: State)
      requires Mirrors(s)
      modifies this`firstSeen
      ensures Mirrors(Observed(s, space, losers, now))
    {
      assert losers[0..] == losers;
      for i := 0 to |losers|
        invariant Dated(firstSeen, space, losers[i..], now) == Dated(s.firstSeen, space, losers, now)
      {
        assert losers[i..][1..] == losers[i + 1..];
        var key := Key(space, losers[i]);
        if key !in firstSeen {
          firstSeen := firstSeen[key := now];
        }
      }
    }

    /** The section of the readiness check: the date on record, or now. */
    method FirstSight(space: string, root: string, now: nat, ghost s: State) returns (first: nat)
      requires Mirrors(s)
      modifies this`firstSeen
      ensures Mirrors(Observed(s, space, [root], now))
      ensures Key(space, root) in firstSeen && first == firstSeen[Key(space, root)]
      ensures first == if Key(space, root) in s.firstSeen then s.firstSeen[Key(space, root)] else now
    {
      var key := Key(space, root);
      DatedOne(firstSeen, space, root, now);
      if key !in firstSeen {
        firstSeen := firstSeen[key := now];
      }
      first := firstSeen[key];
    }

    method Forget(space: string, root: string, ghost s: State)
      requires Mirrors(s)
      modifies this`firstSeen
      ensures Mirrors(Forgotten(s, Key(space, root)))
    {
      firstSeen := firstSeen - {Key(space, root)};
    }

    method ClaimRetry(key: string, ghost s: State, ghost l: nat) returns (claimed: bool)
      requires Mirrors(s)
      modifies this`retrying
      ensures claimed <==> key !in s.retrying
      ensures Mirrors(Claimed(s, l, key))
    {
      if key in retrying {
        return false;
      }
      retrying := retrying + {key};
      return true;
    }

    method ReleaseRetry(key: string, ghost s: State, ghost l: nat)
      requires Mirrors(s) && l in s.loops && s.loops[l].key == key
      modifies this`retrying
      ensures Mirrors(Released(s, l))
    {
      retrying := retrying - {key};
    }

    method Reset(ghost s: State)
      requires Mirrors(s)
      modifies this
      ensures Mirrors(Erased(s))
    {
      firstSeen, retrying := map[], {};
    }
  }
}
