/**
 * The start/stop protocol of the in-process server: the mutex-guarded `handle` and `stopping`, the
 * host's calls, the run goroutines and the watcher goroutines, one critical section or wait per step.
 */
module EmbeddedProtocol {
  import opened Prelude

  /** One engine run. A run that is not live has returned and closed its done channel. */
  datatype Run = Run(bound: bool, live: bool)

  /** A host call that has not returned yet, and where it stands. */
  datatype Call =
    | StartCalled
    | StartWaits(prev: Option<nat>)
    | StartBoots(run: nat)
    | StopCalled(graceful: bool)
    | StopCancels(run: nat, graceful: bool)
    | StopJoins(run: nat)

  /** A run is named by a number, which stands for its done channel. */
  datatype State = State(
    handle: Option<nat>,
    stopping: Option<nat>,
    calls: map<nat, Call>,
    runs: map<nat, Run>,
    watchers: set<nat>,
    cancelled: set<nat>,
    next: nat)

  datatype Event =
    | CallStart(c: nat)
    | CallStop(c: nat, graceful: bool)
    | Locks(c: nat)
    | Refuses(c: nat)
    | Spawns(c: nat)
    | SeesReady(c: nat)
    | SeesError(c: nat)
    | Cancels(c: nat)
    | Joins(c: nat)
    | RunBinds(r: nat)
    | RunReturns(r: nat)
    | WatcherWakes(r: nat)

  const INIT := State(None, None, map[], map[], {}, {}, 0)

  predicate Live(s: State, r: nat) { r in s.runs && s.runs[r].live }

  predicate Bound(s: State, r: nat) { r in s.runs && s.runs[r].bound }

  /** The wait on a channel is over: there was none, or its run has returned. */
  predicate WaitOver(s: State, prev: Option<nat>) { prev.None? || !Live(s, prev.value) }

  predicate At(s: State, c: nat, k: Call) { c in s.calls && s.calls[c] == k }

  predicate Enabled(s: State, e: Event) {
    match e
    case CallStart(c) => c !in s.calls
    case CallStop(c, _) => c !in s.calls
    case Locks(c) => c in s.calls && (s.calls[c].StartCalled? || s.calls[c].StopCalled?)
    case Refuses(c) => c in s.calls && s.calls[c].StartWaits? && WaitOver(s, s.calls[c].prev)
    case Spawns(c) => c in s.calls && s.calls[c].StartWaits? && WaitOver(s, s.calls[c].prev)
    case SeesReady(c) => c in s.calls && s.calls[c].StartBoots? && Bound(s, s.calls[c].run)
    case SeesError(c) => c in s.calls && s.calls[c].StartBoots? && !Live(s, s.calls[c].run)
    case Cancels(c) => c in s.calls && s.calls[c].StopCancels?
    case Joins(c) => c in s.calls && s.calls[c].StopJoins? && !Live(s, s.calls[c].run)
    case RunBinds(r) => Live(s, r) && !Bound(s, r)
    case RunReturns(r) => Live(s, r)
    case WatcherWakes(r) => r in s.watchers && !Live(s, r)
  }

  function Moves(s: State, c: nat, k: Call): State { s.(calls := s.calls[c := k]) }

  function Returns(s: State, c: nat): State { s.(calls := s.calls - {c}) }

  /** The critical section at the head of Start: refuse when running, else remember what to wait for. */
  function LockStart(s: State, c: nat): State {
    if s.handle.Some? then Returns(s, c) else Moves(s, c, StartWaits(s.stopping))
  }

  /** The critical section of Stop: take the handle; a hard stop also publishes the run and watches it. */
  function LockStop(s: State, c: nat, graceful: bool): State {
    if s.handle.None? then Returns(s, c)
    else
      var r := s.handle.value;
      var taken := Moves(s, c, StopCancels(r, graceful)).(handle := None);
      if graceful then taken else taken.(stopping := Some(r), watchers := s.watchers + {r})
  }

  function Next(s: State, e: Event): State
    requires Enabled(s, e)
  {
    match e
    case CallStart(c) => Moves(s, c, StartCalled)
    case CallStop(c, graceful) => Moves(s, c, StopCalled(graceful))
    case Locks(c) => if s.calls[c].StartCalled? then LockStart(s, c) else LockStop(s, c, s.calls[c].graceful)
    case Refuses(c) => Returns(s, c)
    case Spawns(c) => Moves(s, c, StartBoots(s.next)).(runs := s.runs[s.next := Run(false, true)], next := s.next + 1)
    case SeesReady(c) => Returns(s, c).(handle := Some(s.calls[c].run))
    case SeesError(c) => Returns(s, c)
    case Cancels(c) =>
      var h := s.calls[c];
      (if h.graceful then Moves(s, c, StopJoins(h.run)) else Returns(s, c)).(cancelled := s.cancelled + {h.run})
    case Joins(c) => Returns(s, c)
    case RunBinds(r) => s.(runs := s.runs[r := s.runs[r].(bound := true)])
    case RunReturns(r) => s.(runs := s.runs[r := s.runs[r].(live := false)])
    case WatcherWakes(r) =>
      s.(watchers := s.watchers - {r}, stopping := if s.stopping == Some(r) then None else s.stopping)
  }

  /** Every event of the list can happen when its turn comes. */
  predicate Legal(s: State, es: seq<Event>)
    decreases |es|
  {
    es == [] || (Enabled(s, es[0]) && Legal(Next(s, es[0]), es[1..]))
  }

  function After(s: State, es: seq<Event>): State
    requires Legal(s, es)
    decreases |es|
  {
    if es == [] then s else After(Next(s, es[0]), es[1..])
  }

  lemma Chain(s: State, e: Event, es: seq<Event>)
    requires Enabled(s, e) && Legal(Next(s, e), es)
    ensures Legal(s, [e] + es) && After(s, [e] + es) == After(Next(s, e), es)
  {
    assert ([e] + es)[1..] == es;
  }

  // ---- when a Start may pass its lock ---------------------------------------

  /** A Start past its lock that can still boot an engine or publish a handle. */
  predicate Claims(s: State, c: nat) {
    && c in s.calls
    && match s.calls[c]
       case StartWaits(_) => true
       case StartBoots(r) => Live(s, r) || Bound(s, r)
       case _ => false
  }

  predicate OnlyLive(s: State, r: Option<nat>) {
    forall q :: q in s.runs && s.runs[q].live ==> r == Some(q)
  }

  /** Nothing a Start would boot beside: the only live run is the one it waits for, and no rival is past its lock. */
  ghost predicate Clear(s: State, c: nat) {
    OnlyLive(s, s.stopping) && forall d :: d in s.calls && d != c ==> !Claims(s, d)
  }

  /** The one step whose safety is the host's responsibility. */
  ghost predicate Careful(s: State, e: Event) {
    e.Locks? && At(s, e.c, StartCalled) && s.handle.None? ==> Clear(s, e.c)
  }

  ghost predicate CarefulRun(s: State, es: seq<Event>)
    requires Legal(s, es)
    decreases |es|
  {
    es == [] || (Careful(s, es[0]) && CarefulRun(Next(s, es[0]), es[1..]))
  }

  predicate IsStart(k: Call) { k.StartCalled? || k.StartWaits? || k.StartBoots? }

  predicate IsGraceful(k: Call) {
    (k.StopCalled? && k.graceful) || (k.StopCancels? && k.graceful) || k.StopJoins?
  }

  predicate NoStart(s: State) { forall c :: c in s.calls ==> !IsStart(s.calls[c]) }

  predicate NoGraceful(s: State) { forall c :: c in s.calls ==> !IsGraceful(s.calls[c]) }

  /** The rule a host can follow: a Start overlaps neither another Start nor a graceful Stop. */
  predicate Apart(s: State, e: Event) {
    match e
    case CallStart(_) => NoStart(s) && NoGraceful(s)
    case CallStop(_, graceful) => graceful ==> NoStart(s)
    case _ => true
  }

  predicate ApartRun(s: State, es: seq<Event>)
    requires Legal(s, es)
    decreases |es|
  {
    es == [] || (Apart(s, es[0]) && ApartRun(Next(s, es[0]), es[1..]))
  }

  // ---- the invariant -------------------------------------------------------------

  /** Call c has run r in hand. */
  predicate Holds(s: State, c: nat, r: nat) {
    && c in s.calls
    && match s.calls[c]
       case StartBoots(q) => q == r
       case StopCancels(q, _) => q == r
       case StopJoins(q) => q == r
       case _ => false
  }

  predicate GracefullyHeld(s: State, r: nat) {
    exists c: nat :: c in s.calls && Holds(s, c, r) && IsGraceful(s.calls[c])
  }

  predicate ToCancel(s: State, r: nat) {
    exists c :: c in s.calls && Holds(s, c, r) && s.calls[c].StopCancels?
  }

  predicate Booted(s: State, r: nat) {
    exists c :: c in s.calls && BootedBy(s, c, r)
  }

  predicate BootedBy(s: State, c: nat, r: nat) { At(s, c, StartBoots(r)) }

  ghost predicate Numbered(s: State) {
    && (forall r: nat :: r in s.runs ==> r < s.next)
    && (s.handle.Some? ==> s.handle.value in s.runs)
    && (s.stopping.Some? ==> s.stopping.value in s.watchers)
    && (forall r: nat :: r in s.watchers ==> r in s.runs)
    && (forall c: nat, r: nat :: Holds(s, c, r) ==> r in s.runs)
    && (forall c: nat, r: nat :: At(s, c, StartWaits(Some(r))) ==> r in s.runs)
  }

  /** A run that the handle names, or that a Start still boots, is in no other hands. */
  ghost predicate Unshared(s: State) {
    && (forall c: nat :: s.handle.Some? ==> !Holds(s, c, s.handle.value))
    && (s.handle.Some? ==> s.handle.value !in s.watchers)
    && (forall c: nat, r: nat :: BootedBy(s, c, r) ==> r !in s.watchers)
    && (forall c: nat, d: nat, r: nat :: BootedBy(s, c, r) && Holds(s, d, r) ==> c == d)
  }

  /** At most one Start may still boot or publish, and only while there is no handle. */
  ghost predicate OneClaim(s: State) {
    && (forall c: nat, d: nat :: Claims(s, c) && Claims(s, d) ==> c == d)
    && (forall c: nat :: Claims(s, c) ==> s.handle.None?)
  }

  /** No run is live beside the one the handle names, a Start waits for, or a Start boots. */
  ghost predicate Exclusive(s: State) {
    && (forall q, r :: q in s.runs && s.runs[q].live && r in s.runs && s.runs[r].live ==> q == r)
    && (s.handle.Some? ==> OnlyLive(s, s.handle))
    && (forall c: nat :: Claims(s, c) ==>
      OnlyLive(s, if s.calls[c].StartWaits? then s.calls[c].prev else Some(s.calls[c].run)))
  }

  /** A hard-stopped run is the one `stopping` names until it has returned. */
  ghost predicate Watched(s: State) {
    forall r: nat :: r in s.watchers && Live(s, r) ==> s.stopping == Some(r)
  }

  /** Somebody will see the end of every live run: the handle, a watcher, or a call that has it in hand. */
  ghost predicate Known(s: State) {
    forall r: nat :: Live(s, r) ==> s.handle == Some(r) || r in s.watchers || GracefullyHeld(s, r) || Booted(s, r)
  }

  /** Every live run the handle no longer reaches is booting, cancelled, or about to be. */
  ghost predicate Told(s: State) {
    forall r: nat :: Live(s, r) ==> s.handle == Some(r) || r in s.cancelled || Booted(s, r) || ToCancel(s, r)
  }

  ghost predicate Inv(s: State) {
    Numbered(s) && Unshared(s) && OneClaim(s) && Exclusive(s) && Watched(s) && Known(s) && Told(s)
  }
}
