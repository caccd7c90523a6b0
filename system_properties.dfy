/**
  What the window systems guarantee, stated over the functions that specify
  them: the exit policies, the deferred-close protocol within one call and
  across many, and the idempotence of token provisioning.
*/
module WindowSystemProperties {
  import opened EcsWorld
  import opened WindowSystem

  // ---------------------------------------------------------------------
  // Exit policies
  // ---------------------------------------------------------------------

  /** When every window is gone, the primary one is gone too: both policies fire. */
  lemma AllClosedImpliesPrimaryClosed(w: World)
    ensures ExitOnAllClosed(w) == [AppExit] ==> ExitOnPrimaryClosed(w) == [AppExit]
  {
  }

  /**
    Two policies, one scenario: with the primary window `p` and another window
    `q` open, neither policy fires; once `p` alone is despawned the
    primary-closed policy fires and the all-closed policy does not.
  */
  lemma PrimaryClosedWhileOthersOpen(w: World, p: Entity, q: Entity, freshSafe: bool)
    requires PrimaryWindows(w) == {p}
    requires q in w.windows && q != p
    ensures ExitOnPrimaryClosed(w) == [] && ExitOnAllClosed(w) == []
    ensures var after := Apply(w, [Despawn(p)], freshSafe);
      ExitOnPrimaryClosed(after) == [AppExit] && ExitOnAllClosed(after) == []
  {
    assert p in w.windows && p in w.primary by { assert p in PrimaryWindows(w); }
    var after := Apply(w, [Despawn(p)], freshSafe);
    ApplyDespawns(w, [Despawn(p)], freshSafe);
    assert Targets([Despawn(p)]) == {p};
    assert q in after.windows;
    assert forall e :: e in w.windows && e in w.primary ==> e in PrimaryWindows(w);
  }

  // ---------------------------------------------------------------------
  // One call of close_when_requested
  // ---------------------------------------------------------------------

  /** The entities named by the requests. */
  function Requested(closed: seq<CloseRequest>): set<Entity>
  {
    set i | 0 <= i < |closed| :: closed[i].window
  }

  /** The requested entities whose token reports "not yet safe". */
  function UnsafeTargets(w: World, closed: seq<CloseRequest>): set<Entity>
  {
    set i | 0 <= i < |closed| && NotYetSafe(w, closed[i].window) :: closed[i].window
  }

  /** The requested entities whose token reports "safe". */
  function SafeTargets(w: World, closed: seq<CloseRequest>): set<Entity>
  {
    set i | 0 <= i < |closed| && SafeToClose(w, closed[i].window) :: closed[i].window
  }

  /** How the target sets grow by the last request. */
  lemma TargetsSnoc(w: World, closed: seq<CloseRequest>)
    requires closed != []
    ensures var n := |closed| - 1; var e := closed[n].window;
      && UnsafeTargets(w, closed) == UnsafeTargets(w, closed[..n]) + (if NotYetSafe(w, e) then {e} else {})
      && SafeTargets(w, closed) == SafeTargets(w, closed[..n]) + (if SafeToClose(w, e) then {e} else {})
      && Requested(closed) == Requested(closed[..n]) + {e}
  {
  }

  /** The pending set after the event loop: the old one plus every target whose token is not yet safe. */
  lemma {:induction false} EventPassPending(w: World, closed: seq<CloseRequest>, waiting: set<Entity>)
    ensures EventPass(w, closed, waiting).pending == waiting + UnsafeTargets(w, closed)
    decreases |closed|
  {
    if closed != [] {
      EventPassPending(w, closed[..|closed| - 1], waiting);
      TargetsSnoc(w, closed);
    }
  }

  /**
    The commands of the event loop: only despawns, one per request whose
    token is safe, so a safe entity requested k times is despawned k times.
  */
  lemma {:induction false} EventPassCommands(w: World, closed: seq<CloseRequest>, waiting: set<Entity>)
    ensures forall e ::
      multiset(EventPass(w, closed, waiting).cmds)[Despawn(e)]
        == if SafeToClose(w, e) then multiset(closed)[CloseRequest(e)] else 0
    ensures forall e :: multiset(EventPass(w, closed, waiting).cmds)[InsertToken(e)] == 0
    decreases |closed|
  {
    if closed != [] {
      var n := |closed| - 1;
      EventPassCommands(w, closed[..n], waiting);
      assert closed == closed[..n] + [closed[n]];
      assert multiset(closed) == multiset(closed[..n]) + multiset{closed[n]};
    }
  }

  /** A request for an entity without a token changes nothing, wherever it stands among the others. */
  lemma {:induction false} RequestWithoutTokenIgnored(
    w: World, before: seq<CloseRequest>, after: seq<CloseRequest>, e: Entity, waiting: set<Entity>)
    requires e !in w.tokens
    ensures EventPass(w, before + [CloseRequest(e)] + after, waiting) == EventPass(w, before + after, waiting)
    ensures NextWaiting(w, before + [CloseRequest(e)] + after, waiting) == NextWaiting(w, before + after, waiting)
    ensures TickCommands(w, before + [CloseRequest(e)] + after, waiting) == TickCommands(w, before + after, waiting)
    decreases |after|
  {
    var with := before + [CloseRequest(e)] + after;
    if after == [] {
      assert with[..|with| - 1] == before;
      assert before + after == before;
    } else {
      var n := |after| - 1;
      RequestWithoutTokenIgnored(w, before, after[..n], e, waiting);
      assert with[..|with| - 1] == before + [CloseRequest(e)] + after[..n];
      assert (before + after)[..|before + after| - 1] == before + after[..n];
    }
  }

  /** A request whose token is safe is despawned by the event loop and never stashed. */
  lemma SafeRequestDespawnedAtOnce(w: World, closed: seq<CloseRequest>, waiting: set<Entity>, e: Entity)
    requires SafeToClose(w, e) && CloseRequest(e) in closed
    ensures Despawn(e) in EventPass(w, closed, waiting).cmds
    ensures e in EventPass(w, closed, waiting).pending <==> e in waiting
    ensures e !in NextWaiting(w, closed, waiting)
  {
    EventPassCommands(w, closed, waiting);
    EventPassPending(w, closed, waiting);
    assert multiset(EventPass(w, closed, waiting).cmds)[Despawn(e)] > 0;
  }

  /**
    Requesting the close of a window whose token is not yet safe any number
    of times issues nothing and leaves it in the pending set once.
  */
  lemma {:induction false} UnsafeRequestsStashedOnce(w: World, e: Entity, n: nat, waiting: set<Entity>)
    requires NotYetSafe(w, e) && n > 0
    ensures EventPass(w, seq(n, _ => CloseRequest(e)), waiting) == Pass(waiting + {e}, [])
    ensures NextWaiting(w, seq(n, _ => CloseRequest(e)), waiting) == (waiting + {e}) - ReadyToClose(w, waiting)
  {
    var closed := seq(n, _ => CloseRequest(e));
    if n > 1 {
      UnsafeRequestsStashedOnce(w, e, n - 1, waiting);
      assert closed[..n - 1] == seq(n - 1, _ => CloseRequest(e));
    } else {
      assert closed[..0] == [];
    }
  }

  /**
    `waiting_to_close` after a call: the old set plus the unsafe targets,
    minus the entries whose token is safe. An entry whose entity has no
    token is kept; nothing that remains is safe to close.
  */
  lemma NextWaitingClosedForm(w: World, closed: seq<CloseRequest>, waiting: set<Entity>)
    ensures NextWaiting(w, closed, waiting) == (waiting + UnsafeTargets(w, closed)) - ReadyToClose(w, waiting)
    ensures forall e :: e in waiting && e !in w.tokens ==> e in NextWaiting(w, closed, waiting)
    ensures forall e :: e in NextWaiting(w, closed, waiting) ==> !SafeToClose(w, e)
  {
    EventPassPending(w, closed, waiting);
  }

  /** `Despawns(s)` holds one despawn per member of `s` and nothing else. */
  lemma DespawnsCount(s: set<Entity>)
    ensures forall e :: Despawns(s)[Despawn(e)] == if e in s then 1 else 0
    ensures forall e :: Despawns(s)[InsertToken(e)] == 0
  {
  }

  /**
    Every command one call issues, counted per entity: only despawns, only
    of entities whose token is safe, one per request for it plus one more
    when it was already pending. A pending entity that is also requested is
    therefore despawned twice in the same call.
  */
  lemma TickCommandsCount(w: World, closed: seq<CloseRequest>, waiting: set<Entity>)
    ensures forall e ::
      TickCommands(w, closed, waiting)[Despawn(e)] == if SafeToClose(w, e) then multiset(closed)[CloseRequest(e)] + (if e in waiting then 1 else 0) else 0
    ensures forall e :: TickCommands(w, closed, waiting)[InsertToken(e)] == 0
  {
    var p := EventPass(w, closed, waiting);
    EventPassCommands(w, closed, waiting);
    EventPassPending(w, closed, waiting);
    assert ReadyToClose(w, p.pending) == ReadyToClose(w, waiting);
    DespawnsCount(ReadyToClose(w, waiting));
  }

  /** The double despawn: a pending, now safe window that is requested again is despawned at least twice. */
  lemma PendingAndRequestedDespawnedTwice(w: World, closed: seq<CloseRequest>, waiting: set<Entity>, e: Entity)
    requires e in waiting && SafeToClose(w, e) && CloseRequest(e) in closed
    ensures TickCommands(w, closed, waiting)[Despawn(e)] >= 2
  {
    TickCommandsCount(w, closed, waiting);
  }

  /** The entities one call despawns. */
  function TickDespawned(w: World, closed: seq<CloseRequest>, waiting: set<Entity>): set<Entity>
  {
    SafeTargets(w, closed) + ReadyToClose(w, waiting)
  }

  /** Once a call's commands are applied, exactly the despawned windows are gone. */
  lemma TickRemovesDespawned(
    w: World, closed: seq<CloseRequest>, waiting: set<Entity>, cmds: seq<Command>, freshSafe: bool)
    requires multiset(cmds) == TickCommands(w, closed, waiting)
    ensures Apply(w, cmds, freshSafe).windows.Keys == w.windows.Keys - TickDespawned(w, closed, waiting)
  {
    TickCommandsCount(w, closed, waiting);
    forall i | 0 <= i < |cmds| ensures cmds[i].Despawn? {
      assert cmds[i] in multiset(cmds);
    }
    forall x | x in Targets(cmds) ensures x in TickDespawned(w, closed, waiting) {
      var i :| 0 <= i < |cmds| && cmds[i].entity == x;
      assert cmds[i] == Despawn(x) && cmds[i] in multiset(cmds);
      if x !in waiting {
        var j :| 0 <= j < |closed| && closed[j] == CloseRequest(x);
      }
    }
    forall x | x in TickDespawned(w, closed, waiting) ensures x in Targets(cmds) {
      if x !in waiting {
        var j :| 0 <= j < |closed| && SafeToClose(w, closed[j].window) && closed[j].window == x;
        assert closed[j] in multiset(closed);
      }
      assert Despawn(x) in multiset(cmds);
      var i :| 0 <= i < |cmds| && cmds[i] == Despawn(x);
    }
    ApplyDespawns(w, cmds, freshSafe);
  }

  // ---------------------------------------------------------------------
  // Many calls of close_when_requested
  // ---------------------------------------------------------------------

  /** What one tick hands the system: the snapshot and the requests read that tick. */
  datatype Tick = Tick(world: World, closed: seq<CloseRequest>)

  /** `waiting_to_close` after running the system on every tick in turn. */
  function RunWaiting(ticks: seq<Tick>, waiting: set<Entity>): set<Entity>
    decreases |ticks|
  {
    if ticks == [] then waiting
    else RunWaiting(ticks[1..], NextWaiting(ticks[0].world, ticks[0].closed, waiting))
  }

  /** Every entity despawned over the run. */
  function RunDespawned(ticks: seq<Tick>, waiting: set<Entity>): set<Entity>
    decreases |ticks|
  {
    if ticks == [] then {}
    else
      TickDespawned(ticks[0].world, ticks[0].closed, waiting)
      + RunDespawned(ticks[1..], NextWaiting(ticks[0].world, ticks[0].closed, waiting))
  }

  /** Every entity whose close was requested over the run. */
  function RunRequested(ticks: seq<Tick>): set<Entity>
    decreases |ticks|
  {
    if ticks == [] then {} else Requested(ticks[0].closed) + RunRequested(ticks[1..])
  }

  /** A window whose token never reports safe is never despawned by the close protocol. */
  lemma {:induction false} NeverSafeNeverDespawned(ticks: seq<Tick>, waiting: set<Entity>, e: Entity)
    requires forall k :: 0 <= k < |ticks| ==> !SafeToClose(ticks[k].world, e)
    ensures e !in RunDespawned(ticks, waiting)
    decreases |ticks|
  {
    if ticks != [] {
      NeverSafeNeverDespawned(ticks[1..], NextWaiting(ticks[0].world, ticks[0].closed, waiting), e);
    }
  }

  /** ... and, once pending, it stays pending. */
  lemma {:induction false} NeverSafeStaysPending(ticks: seq<Tick>, waiting: set<Entity>, e: Entity)
    requires e in waiting
    requires forall k :: 0 <= k < |ticks| ==> !SafeToClose(ticks[k].world, e)
    ensures e in RunWaiting(ticks, waiting)
    decreases |ticks|
  {
    if ticks != [] {
      NextWaitingClosedForm(ticks[0].world, ticks[0].closed, waiting);
      NeverSafeStaysPending(ticks[1..], NextWaiting(ticks[0].world, ticks[0].closed, waiting), e);
    }
  }

  /** Nothing enters the pending set except through a close request. */
  lemma {:induction false} PendingOnlyFromRequests(ticks: seq<Tick>, waiting: set<Entity>)
    ensures RunWaiting(ticks, waiting) <= waiting + RunRequested(ticks)
    decreases |ticks|
  {
    if ticks != [] {
      var next := NextWaiting(ticks[0].world, ticks[0].closed, waiting);
      NextWaitingClosedForm(ticks[0].world, ticks[0].closed, waiting);
      assert UnsafeTargets(ticks[0].world, ticks[0].closed) <= Requested(ticks[0].closed);
      PendingOnlyFromRequests(ticks[1..], next);
    }
  }

  /**
    A pending window is despawned on the first tick its token reports safe,
    not earlier, and leaves the pending set on that tick.
  */
  lemma {:induction false} ReleasedOnFirstSafeTick(ticks: seq<Tick>, waiting: set<Entity>, e: Entity, k: nat)
    requires k < |ticks| && e in waiting
    requires forall j :: 0 <= j < k ==> !SafeToClose(ticks[j].world, e)
    requires SafeToClose(ticks[k].world, e)
    ensures e !in RunDespawned(ticks[..k], waiting)
    ensures e in TickDespawned(ticks[k].world, ticks[k].closed, RunWaiting(ticks[..k], waiting))
    ensures e !in RunWaiting(ticks[..k + 1], waiting)
    decreases k
  {
    if k == 0 {
      assert ticks[..0] == [];
      assert ticks[..1][1..] == [];
      NextWaitingClosedForm(ticks[0].world, ticks[0].closed, waiting);
    } else {
      var next := NextWaiting(ticks[0].world, ticks[0].closed, waiting);
      NextWaitingClosedForm(ticks[0].world, ticks[0].closed, waiting);
      assert e in next;
      ReleasedOnFirstSafeTick(ticks[1..], next, e, k - 1);
      assert ticks[..k][1..] == ticks[1..][..k - 1];
      assert ticks[..k + 1][1..] == ticks[1..][..k];
      assert ticks[1..][k - 1] == ticks[k];
      NeverSafeNeverDespawned(ticks[..1], waiting, e);
    }
  }

  // ---------------------------------------------------------------------
  // Token provisioning
  // ---------------------------------------------------------------------

  /**
    Once the commands of `fixup_window_surface` are applied, every window
    holds a token, so the next run issues nothing; no window is touched.
  */
  lemma FixupIdempotent(w: World, cmds: seq<Command>, freshSafe: bool)
    requires multiset(cmds) == Inserts(MissingToken(w))
    ensures Apply(w, cmds, freshSafe).windows == w.windows
    ensures MissingToken(Apply(w, cmds, freshSafe)) == {}
    ensures Inserts(MissingToken(Apply(w, cmds, freshSafe))) == multiset{}
  {
    forall i | 0 <= i < |cmds| ensures cmds[i].InsertToken? {
      assert cmds[i] in multiset(cmds);
    }
    ApplyInserts(w, cmds, freshSafe);
    var after := Apply(w, cmds, freshSafe);
    forall e | e in MissingToken(w) ensures e in after.tokens {
      assert InsertToken(e) in multiset(cmds);
      var i :| 0 <= i < |cmds| && cmds[i] == InsertToken(e);
      assert e in Targets(cmds);
    }
    forall e | e in after.windows ensures e in after.tokens {
      if e !in w.tokens {
        assert e in MissingToken(w);
      }
    }
    assert MissingToken(after) == {};
  }
}
