/** What the start/stop protocol guarantees over every run, and exactly what it needs of the host. */
module EmbeddedTheorems {
  import opened Prelude
  import opened EmbeddedProtocol

  /** The event is a step of call c. */
  predicate Acts(e: Event, c: nat) {
    !e.RunBinds? && !e.RunReturns? && !e.WatcherWakes? && e.c == c
  }

  /** An event leaves every other call where it stands, and makes no other Start a claimant. */
  lemma OthersStay(s: State, e: Event)
    requires Numbered(s) && Enabled(s, e)
    ensures var t := Next(s, e);
      && (forall d: nat, r: nat :: !Acts(e, d) ==> (Holds(t, d, r) <==> Holds(s, d, r)))
      && (forall d: nat, r: nat :: !Acts(e, d) ==> (BootedBy(t, d, r) <==> BootedBy(s, d, r)))
      && (forall d: nat :: !Acts(e, d) ==> (d in t.calls <==> d in s.calls))
      && (forall d: nat :: !Acts(e, d) && d in s.calls ==> t.calls[d] == s.calls[d])
      && (forall d: nat :: !Acts(e, d) && Claims(t, d) ==> Claims(s, d))
  {
    var t := Next(s, e);
    assert forall d: nat :: !Acts(e, d) ==> (d in t.calls <==> d in s.calls);
    assert forall d: nat :: !Acts(e, d) && d in s.calls ==> t.calls[d] == s.calls[d];
    forall d: nat | !Acts(e, d) && Claims(t, d)
      ensures Claims(s, d)
    {
      if t.calls[d].StartBoots? {
        assert Holds(s, d, t.calls[d].run);
      }
    }
  }

  /** Where a call gets a run from: Stop takes the handle, Start boots a new one or waits for `stopping`. */
  lemma Handovers(s: State, e: Event)
    requires Enabled(s, e)
    ensures var t := Next(s, e);
      && (forall c: nat, r: nat :: Holds(t, c, r) && !Holds(s, c, r) ==>
        (s.handle == Some(r) && t.handle.None? && !BootedBy(t, c, r)) ||
          (e.Spawns? && r == s.next && BootedBy(t, c, r)))
      && (forall c: nat, r: nat :: BootedBy(t, c, r) && !BootedBy(s, c, r) ==> e == Spawns(c) && r == s.next)
      && (forall c: nat, r: nat :: At(t, c, StartWaits(Some(r))) && !At(s, c, StartWaits(Some(r))) ==>
        s.stopping == Some(r))
  {
  }

  /** Where the globals get a run from: the handle from a Start, a watcher from the handle. */
  lemma Publications(s: State, e: Event)
    requires Enabled(s, e)
    ensures var t := Next(s, e);
      && (forall r: nat :: t.handle == Some(r) && s.handle != Some(r) ==>
        e.SeesReady? && BootedBy(s, e.c, r) && e.c !in t.calls)
      && (forall r: nat :: r in t.watchers && r !in s.watchers ==> s.handle == Some(r) && t.handle.None?)
      && (forall r: nat :: r in s.runs ==> r in t.runs)
      && (e.Spawns? ==> t.handle == s.handle && t.watchers == s.watchers)
  {
  }

  lemma NumberedKept(s: State, e: Event)
    requires Numbered(s) && Enabled(s, e)
    ensures Numbered(Next(s, e))
  {
    Handovers(s, e);
    Publications(s, e);
    assert forall c: nat, r: nat :: BootedBy(s, c, r) ==> Holds(s, c, r);
  }

  lemma UnsharedKept(s: State, e: Event)
    requires Inv(s) && Enabled(s, e)
    ensures Unshared(Next(s, e))
  {
    var t := Next(s, e);
    Handovers(s, e);
    Publications(s, e);
    assert forall c: nat, r: nat :: BootedBy(s, c, r) ==> Holds(s, c, r);
    UnsharedFrom(s, t, e);
  }

  /** The conclusion from the moves alone. */
  lemma UnsharedFrom(s: State, t: State, e: Event)
    requires Numbered(s) && Unshared(s)
    requires forall c: nat, r: nat :: BootedBy(s, c, r) ==> Holds(s, c, r)
    requires forall c: nat, r: nat :: Holds(t, c, r) && !Holds(s, c, r) ==>
      (s.handle == Some(r) && t.handle.None? && !BootedBy(t, c, r)) || (e.Spawns? && r == s.next && BootedBy(t, c, r))
    requires forall c: nat, r: nat :: BootedBy(t, c, r) && !BootedBy(s, c, r) ==> e == Spawns(c) && r == s.next
    requires forall r: nat :: t.handle == Some(r) && s.handle != Some(r) ==>
      e.SeesReady? && BootedBy(s, e.c, r) && e.c !in t.calls
    requires forall r: nat :: r in t.watchers && r !in s.watchers ==> s.handle == Some(r) && t.handle.None?
    requires e.Spawns? ==> t.handle == s.handle && t.watchers == s.watchers
    ensures Unshared(t)
  {
  }

  lemma OneClaimKept(s: State, e: Event)
    requires Inv(s) && Enabled(s, e) && Careful(s, e)
    ensures OneClaim(Next(s, e))
  {
    var t := Next(s, e);
    OthersStay(s, e);
    assert forall d: nat :: Claims(t, d) && !Claims(s, d) ==> e == Locks(d) && At(s, d, StartCalled) && s.handle.None?;
    if e.SeesReady? {
      assert Claims(s, e.c);
    }
  }

  lemma ExclusiveKept(s: State, e: Event)
    requires Inv(s) && Enabled(s, e) && Careful(s, e)
    ensures Exclusive(Next(s, e))
  {
    var t := Next(s, e);
    OthersStay(s, e);
    OneClaimKept(s, e);
    if e.Spawns? || e.SeesReady? {
      assert Claims(s, e.c);
    }
  }

  lemma WatchedKept(s: State, e: Event)
    requires Inv(s) && Enabled(s, e) && Careful(s, e)
    ensures Watched(Next(s, e))
  {
    OthersStay(s, e);
  }

  lemma KnownKept(s: State, e: Event)
    requires Inv(s) && Enabled(s, e) && Careful(s, e)
    ensures Known(Next(s, e))
  {
    var t := Next(s, e);
    OthersStay(s, e);
    forall r: nat | Live(t, r)
      ensures t.handle == Some(r) || r in t.watchers || GracefullyHeld(t, r) || Booted(t, r)
    {
      if e.Spawns? && r == s.next {
        assert BootedBy(t, e.c, r);
      } else if e.Locks? && s.handle == Some(r) {
        assert s.calls[e.c].StopCalled? && s.calls[e.c].graceful ==> Holds(t, e.c, r);
      } else if GracefullyHeld(s, r) {
        var c: nat :| c in s.calls && Holds(s, c, r) && IsGraceful(s.calls[c]);
        assert Holds(t, c, r);
      } else if Booted(s, r) {
        var c: nat :| c in s.calls && BootedBy(s, c, r);
        assert Acts(e, c) || BootedBy(t, c, r);
      }
    }
  }

  lemma ToldKept(s: State, e: Event)
    requires Inv(s) && Enabled(s, e) && Careful(s, e)
    ensures Told(Next(s, e))
  {
    var t := Next(s, e);
    OthersStay(s, e);
    forall r: nat | Live(t, r)
      ensures t.handle == Some(r) || r in t.cancelled || Booted(t, r) || ToCancel(t, r)
    {
      if e.Spawns? && r == s.next {
        assert BootedBy(t, e.c, r);
      } else if e.Locks? && s.handle == Some(r) {
        assert s.calls[e.c].StopCalled? ==> Holds(t, e.c, r);
      } else if ToCancel(s, r) {
        var c: nat :| c in s.calls && Holds(s, c, r) && s.calls[c].StopCancels?;
        assert Acts(e, c) || Holds(t, c, r);
      } else if Booted(s, r) {
        var c: nat :| c in s.calls && BootedBy(s, c, r);
        assert Acts(e, c) || BootedBy(t, c, r);
      }
    }
  }

  lemma StepKeeps(s: State, e: Event)
    requires Inv(s) && Enabled(s, e) && Careful(s, e)
    ensures Inv(Next(s, e))
  {
    NumberedKept(s, e);
    UnsharedKept(s, e);
    OneClaimKept(s, e);
    ExclusiveKept(s, e);
    WatchedKept(s, e);
    KnownKept(s, e);
    ToldKept(s, e);
  }

  lemma {:induction false} RunKeeps(s: State, es: seq<Event>)
    requires Inv(s) && Legal(s, es) && CarefulRun(s, es)
    ensures Inv(After(s, es))
    decreases |es|
  {
    if es != [] {
      StepKeeps(s, es[0]);
      RunKeeps(Next(s, es[0]), es[1..]);
    }
  }

  /** Whatever the scheduling, two engines are never live at once, and none is out of reach yet not told to stop. */
  lemma AtMostOneEngine(es: seq<Event>)
    requires Legal(INIT, es) && CarefulRun(INIT, es)
    ensures var s := After(INIT, es);
      && (forall q: nat, r: nat :: Live(s, q) && Live(s, r) ==> q == r)
      && (forall r: nat :: Live(s, r) ==> s.handle == Some(r) || r in s.cancelled || Booted(s, r) || ToCancel(s, r))
  {
    RunKeeps(INIT, es);
  }

  /** A Start boots only when every earlier run has returned, hard-stopped ones included. */
  lemma BootsAfterDrain(es: seq<Event>, c: nat)
    requires Legal(INIT, es) && CarefulRun(INIT, es) && Enabled(After(INIT, es), Spawns(c))
    ensures forall r: nat :: !Live(After(INIT, es), r)
  {
    RunKeeps(INIT, es);
    assert Claims(After(INIT, es), c);
  }

  /** `stopping` names a hard-stopped run until that run has returned: no watcher and no later stop drops it early. */
  lemma StoppingOutlivesItsRun(es: seq<Event>, e: Event, r: nat)
    requires Legal(INIT, es) && CarefulRun(INIT, es) && Enabled(After(INIT, es), e)
    requires After(INIT, es).stopping == Some(r) && Live(Next(After(INIT, es), e), r)
    ensures Next(After(INIT, es), e).stopping == Some(r)
  {
    RunKeeps(INIT, es);
  }

  /** A late watcher leaves a newer `stopping` alone, and its own run is over. */
  lemma LateWatcher(es: seq<Event>, r: nat, newer: nat)
    requires Legal(INIT, es) && CarefulRun(INIT, es) && Enabled(After(INIT, es), WatcherWakes(r))
    requires After(INIT, es).stopping == Some(newer) && newer != r
    ensures var t := Next(After(INIT, es), WatcherWakes(r));
      t.stopping == Some(newer) && newer in t.watchers && forall q: nat :: Live(t, q) && q in t.watchers ==> q == newer
  {
    RunKeeps(INIT, es);
    StepKeeps(After(INIT, es), WatcherWakes(r));
  }

  // ---- what the host owes -------------------------------------------------------

  /** While a Start is pending it is the only one, and no graceful Stop is. */
  ghost predicate Separate(s: State) {
    forall c: nat, d: nat :: c in s.calls && d in s.calls && IsStart(s.calls[c]) ==>
      !IsGraceful(s.calls[d]) && (IsStart(s.calls[d]) ==> c == d)
  }

  lemma SeparateKept(s: State, e: Event)
    requires Separate(s) && Enabled(s, e) && Apart(s, e)
    ensures Separate(Next(s, e))
  {
    var t := Next(s, e);
    assert forall d: nat :: d in t.calls && d in s.calls ==>
      (IsStart(t.calls[d]) <==> IsStart(s.calls[d])) && (IsGraceful(t.calls[d]) <==> IsGraceful(s.calls[d]));
  }

  lemma ApartIsClear(s: State, c: nat)
    requires Inv(s) && Separate(s) && At(s, c, StartCalled) && s.handle.None?
    ensures Clear(s, c)
  {
    forall q | q in s.runs && s.runs[q].live
      ensures s.stopping == Some(q)
    {
      assert Live(s, q);
      assert !GracefullyHeld(s, q);
      if Booted(s, q) {
        var d: nat :| d in s.calls && BootedBy(s, d, q);
        assert IsStart(s.calls[d]);
      }
    }
    assert forall d: nat :: Claims(s, d) ==> IsStart(s.calls[d]);
  }

  /** Calls that do not overlap are enough. */
  lemma {:induction false} ApartIsCareful(s: State, es: seq<Event>)
    requires Inv(s) && Separate(s) && Legal(s, es) && ApartRun(s, es)
    ensures CarefulRun(s, es)
    decreases |es|
  {
    if es != [] {
      if es[0].Locks? && At(s, es[0].c, StartCalled) && s.handle.None? {
        ApartIsClear(s, es[0].c);
      }
      StepKeeps(s, es[0]);
      SeparateKept(s, es[0]);
      ApartIsCareful(Next(s, es[0]), es[1..]);
    }
  }

  /** The host's rule end to end. */
  lemma ApartIsSafe(es: seq<Event>)
    requires Legal(INIT, es) && ApartRun(INIT, es)
    ensures CarefulRun(INIT, es)
    ensures forall q: nat, r: nat :: Live(After(INIT, es), q) && Live(After(INIT, es), r) ==> q == r
  {
    ApartIsCareful(INIT, es);
    AtMostOneEngine(es);
  }

  ghost predicate TwoEngines(s: State) {
    exists q: nat, r: nat :: q != r && Live(s, q) && Live(s, r)
  }

  /** The events lead from s to two live engines. */
  ghost predicate Breaks(s: State, es: seq<Event>) {
    Legal(s, es) && TwoEngines(After(s, es))
  }

  lemma Then(s: State, e: Event, es: seq<Event>)
    requires Enabled(s, e) && Breaks(Next(s, e), es)
    ensures Breaks(s, [e] + es)
  {
    Chain(s, e, es);
  }

  predicate MaySpawn(s: State, c: nat) {
    Enabled(s, Spawns(c)) && (s.calls[c].prev.Some? ==> s.calls[c].prev.value < s.next)
  }

  /** A Start with nothing to wait for boots beside a live run. */
  lemma BootsBeside(s: State, c: nat, q: nat)
    requires MaySpawn(s, c) && Live(s, q) && q < s.next
    ensures Breaks(s, [Spawns(c)])
  {
    var t := Next(s, Spawns(c));
    assert Live(t, q) && Live(t, s.next) && Breaks(t, []);
    Then(s, Spawns(c), []);
  }

  lemma BothBoot(s: State, c: nat, d: nat)
    requires c != d && MaySpawn(s, c) && MaySpawn(s, d)
    ensures Breaks(s, [Spawns(d)] + [Spawns(c)])
  {
    var t := Next(s, Spawns(d));
    BootsBeside(t, c, s.next);
    Then(s, Spawns(d), [Spawns(c)]);
  }

  /** Starting again after a hard stop that took the wrong handle. */
  lemma BootsAgain(s: State, c: nat, r: nat, lost: nat)
    requires c !in s.calls && s.handle == Some(r) && !Live(s, r) && r < s.next && Live(s, lost) && lost < s.next
    ensures Breaks(s, [CallStop(c, false)] +
      ([Locks(c)] + ([Cancels(c)] + ([CallStart(c)] + ([Locks(c)] + [Spawns(c)])))))
  {
    var s1 := Next(s, CallStop(c, false));
    var s2 := Next(s1, Locks(c));
    var s3 := Next(s2, Cancels(c));
    var s4 := Next(s3, CallStart(c));
    var s5 := Next(s4, Locks(c));
    BootsBeside(s5, c, lost);
    Then(s4, Locks(c), [Spawns(c)]);
    Then(s3, CallStart(c), [Locks(c)] + [Spawns(c)]);
    Then(s2, Cancels(c), [CallStart(c)] + ([Locks(c)] + [Spawns(c)]));
    Then(s1, Locks(c), [Cancels(c)] + ([CallStart(c)] + ([Locks(c)] + [Spawns(c)])));
    Then(s, CallStop(c, false), [Locks(c)] + ([Cancels(c)] + ([CallStart(c)] + ([Locks(c)] + [Spawns(c)]))));
  }

  /** A rival that publishes a dead run over a live one loses the live one. */
  lemma LosesHandle(s: State, c: nat, d: nat, r: nat) returns (es: seq<Event>)
    requires Numbered(s) && c != d && MaySpawn(s, c) && At(s, d, StartBoots(r)) && Bound(s, r) && !Live(s, r)
    ensures Breaks(s, es)
  {
    var n := s.next;
    var s1 := Next(s, Spawns(c));
    var s2 := Next(s1, RunBinds(n));
    var s3 := Next(s2, SeesReady(c));
    var s4 := Next(s3, SeesReady(d));
    BootsAgain(s4, c, r, n);
    es := [CallStop(c, false)] + ([Locks(c)] + ([Cancels(c)] + ([CallStart(c)] + ([Locks(c)] + [Spawns(c)]))));
    Then(s3, SeesReady(d), es);
    es := [SeesReady(d)] + es;
    Then(s2, SeesReady(c), es);
    es := [SeesReady(c)] + es;
    Then(s1, RunBinds(n), es);
    es := [RunBinds(n)] + es;
    Then(s, Spawns(c), es);
    es := [Spawns(c)] + es;
  }

  /**
   * The condition is exact: let a Start pass its lock when it is not clear, and some continuation
   * has two engines live.
   */
  lemma UnclearBreaks(s: State, c: nat) returns (es: seq<Event>)
    requires Inv(s) && At(s, c, StartCalled) && s.handle.None? && !Clear(s, c)
    ensures Breaks(s, [Locks(c)] + es)
  {
    var t := Next(s, Locks(c));
    if !OnlyLive(s, s.stopping) {
      var q :| q in s.runs && s.runs[q].live && s.stopping != Some(q);
      BootsBeside(t, c, q);
      es := [Spawns(c)];
    } else {
      var d :| d in s.calls && d != c && Claims(s, d);
      es := RivalBreaks(s, c, d);
    }
    Then(s, Locks(c), es);
  }

  lemma RivalBreaks(s: State, c: nat, d: nat) returns (es: seq<Event>)
    requires Inv(s) && At(s, c, StartCalled) && s.handle.None? && OnlyLive(s, s.stopping) && d != c && Claims(s, d)
    ensures Breaks(Next(s, Locks(c)), es)
  {
    var t := Next(s, Locks(c));
    assert t.runs == s.runs && t.calls[d] == s.calls[d];
    NumberedKept(s, Locks(c));
    assert s.calls[d].StartWaits? && s.calls[d].prev.Some? ==> At(s, d, StartWaits(Some(s.calls[d].prev.value)));
    if s.calls[d].StartBoots? {
      assert BootedBy(s, d, s.calls[d].run);
      es := LosesHandle(t, c, d, s.calls[d].run);
    } else if s.stopping.Some? && Live(s, s.stopping.value) {
      var p := s.stopping.value;
      BothBoot(Next(t, RunReturns(p)), c, d);
      Then(t, RunReturns(p), [Spawns(d)] + [Spawns(c)]);
      es := [RunReturns(p)] + ([Spawns(d)] + [Spawns(c)]);
    } else {
      BothBoot(t, c, d);
      es := [Spawns(d)] + [Spawns(c)];
    }
  }

  /** Two Starts at once from scratch: both find no handle and nothing to wait for. */
  lemma OverlappingStartsBreak() returns (es: seq<Event>)
    ensures Breaks(INIT, [CallStart(0)] + ([CallStart(1)] + ([Locks(0)] + ([Locks(1)] + es))))
  {
    var s1 := Next(INIT, CallStart(0));
    var s2 := Next(s1, CallStart(1));
    var s3 := Next(s2, Locks(0));
    var s4 := Next(s3, Locks(1));
    BothBoot(s4, 1, 0);
    es := [Spawns(0)] + [Spawns(1)];
    Then(s3, Locks(1), es);
    Then(s2, Locks(0), [Locks(1)] + es);
    Then(s1, CallStart(1), [Locks(0)] + ([Locks(1)] + es));
    Then(INIT, CallStart(0), [CallStart(1)] + ([Locks(0)] + ([Locks(1)] + es)));
  }

  /** From a running server, a Start made while a graceful Stop still drains does not wait for it. */
  lemma StartDuringGracefulStopBreaks(s: State, c: nat, d: nat)
    requires Numbered(s) && s.calls == map[] && s.stopping.None? && s.handle.Some? && Live(s, s.handle.value) && c != d
    ensures Breaks(s, [CallStop(c, true)] +
      ([Locks(c)] + ([Cancels(c)] + ([CallStart(d)] + ([Locks(d)] + [Spawns(d)])))))
  {
    var r := s.handle.value;
    var s1 := Next(s, CallStop(c, true));
    var s2 := Next(s1, Locks(c));
    var s3 := Next(s2, Cancels(c));
    var s4 := Next(s3, CallStart(d));
    var s5 := Next(s4, Locks(d));
    BootsBeside(s5, d, r);
    Then(s4, Locks(d), [Spawns(d)]);
    Then(s3, CallStart(d), [Locks(d)] + [Spawns(d)]);
    Then(s2, Cancels(c), [CallStart(d)] + ([Locks(d)] + [Spawns(d)]));
    Then(s1, Locks(c), [Cancels(c)] + ([CallStart(d)] + ([Locks(d)] + [Spawns(d)])));
    Then(s, CallStop(c, true), [Locks(c)] + ([Cancels(c)] + ([CallStart(d)] + ([Locks(d)] + [Spawns(d)]))));
  }

  /** A server that was started, bound and published, and nothing else. */
  const RUNNING := State(Some(0), None, map[], map[0 := Run(true, true)], {}, {}, 1)

  /** What leads from a running server to two engines leads there from scratch. */
  lemma FromScratch(es: seq<Event>)
    requires Breaks(RUNNING, es)
    ensures Breaks(INIT,
      [CallStart(0)] + ([Locks(0)] + ([Spawns(0)] + ([RunBinds(0)] + ([SeesReady(0)] + es)))))
  {
    var s1 := INIT.(calls := map[0 := StartCalled]);
    var s2 := INIT.(calls := map[0 := StartWaits(None)]);
    var s3 := INIT.(calls := map[0 := StartBoots(0)], runs := map[0 := Run(false, true)], next := 1);
    var s4 := s3.(runs := map[0 := Run(true, true)]);
    assert Next(INIT, CallStart(0)) == s1 && Next(s1, Locks(0)) == s2 && Next(s2, Spawns(0)) == s3;
    assert Next(s3, RunBinds(0)) == s4 && Next(s4, SeesReady(0)) == RUNNING;
    Then(s4, SeesReady(0), es);
    Then(s3, RunBinds(0), [SeesReady(0)] + es);
    Then(s2, Spawns(0), [RunBinds(0)] + ([SeesReady(0)] + es));
    Then(s1, Locks(0), [Spawns(0)] + ([RunBinds(0)] + ([SeesReady(0)] + es)));
    Then(INIT, CallStart(0), [Locks(0)] + ([Spawns(0)] + ([RunBinds(0)] + ([SeesReady(0)] + es))));
  }

  /** From scratch: a server is started, then stopped gracefully, with a Start during its drain. */
  lemma GracefulStopRun() returns (es: seq<Event>)
    ensures Breaks(INIT, es)
    ensures |es| == 11 && es[0] == CallStart(0) && es[5] == CallStop(1, true) && es[8] == CallStart(2)
  {
    StartDuringGracefulStopBreaks(RUNNING, 1, 2);
    es := [CallStop(1, true)] + ([Locks(1)] + ([Cancels(1)] + ([CallStart(2)] + ([Locks(2)] + [Spawns(2)]))));
    FromScratch(es);
    es := [CallStart(0)] + ([Locks(0)] + ([Spawns(0)] + ([RunBinds(0)] + ([SeesReady(0)] + es))));
  }
}
