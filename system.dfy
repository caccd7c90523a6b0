/**
  The window-lifecycle systems of `bevy_window`: the two exit policies, the
  deferred-close protocol behind `WindowCloseRequested`, closing the focused
  window on Escape, and provisioning a `SurfaceToken` for every window.

  Every system reads one `World` snapshot and answers with commands or exit
  events; only the close protocol keeps state between ticks, the
  `waiting_to_close` set owned by a `WindowCloser`.
*/
module WindowSystem {
  import opened EcsWorld

  /** A `WindowCloseRequested` event: the platform asked to close `window`. */
  datatype CloseRequest = CloseRequest(window: Entity)

  // ---------------------------------------------------------------------
  // Exit policies
  // ---------------------------------------------------------------------

  /** `exit_on_all_closed`: one `AppExit` when no entity carries a `Window`. */
  function ExitOnAllClosed(w: World): (exits: seq<AppExit>)
    ensures |exits| <= 1
    ensures exits == [AppExit] <==> forall e :: e !in w.windows
  {
    if w.windows == map[] then [AppExit] else []
  }

  /** The entities matched by `Query<(), (With<Window>, With<PrimaryWindow>)>`. */
  function PrimaryWindows(w: World): set<Entity>
  {
    set e | e in w.windows && e in w.primary
  }

  /** `exit_on_primary_closed`: one `AppExit` when no entity carries both `Window` and `PrimaryWindow`. */
  function ExitOnPrimaryClosed(w: World): (exits: seq<AppExit>)
    ensures |exits| <= 1
    ensures exits == [AppExit] <==> forall e :: e in w.windows ==> e !in w.primary
  {
    assert forall e :: e in w.windows && e in w.primary ==> e in PrimaryWindows(w);
    if PrimaryWindows(w) == {} then [AppExit] else []
  }

  // ---------------------------------------------------------------------
  // Deferred close (`close_when_requested`)
  // ---------------------------------------------------------------------

  /** `tokens.get(e)` succeeds and the token reports that the surface is released. */
  predicate SafeToClose(w: World, e: Entity)
  {
    e in w.tokens && w.tokens[e]
  }

  /** `tokens.get(e)` succeeds but the renderer still holds the surface. */
  predicate NotYetSafe(w: World, e: Entity)
  {
    e in w.tokens && !w.tokens[e]
  }

  /** The state of the event loop: the pending set and the commands issued so far. */
  datatype Pass = Pass(pending: set<Entity>, cmds: seq<Command>)

  /**
    The event loop of `close_when_requested`, over the requests in the order
    they were read: a request for an entity without a token is dropped, a
    safe one is despawned at once, an unsafe one is stashed in the pending set.
  */
  function EventPass(w: World, closed: seq<CloseRequest>, waiting: set<Entity>): Pass
    decreases |closed|
  {
    if closed == [] then Pass(waiting, [])
    else
      var p := EventPass(w, closed[..|closed| - 1], waiting);
      var e := closed[|closed| - 1].window;
      if e !in w.tokens then p
      else if w.tokens[e] then p.(cmds := p.cmds + [Despawn(e)])
      else p.(pending := p.pending + {e})
  }

  /** The pending entries the `retain` pass despawns and drops. */
  function ReadyToClose(w: World, pending: set<Entity>): set<Entity>
  {
    set e | e in pending && SafeToClose(w, e)
  }

  /** `waiting_to_close` at the end of a call that started with `waiting`. */
  function NextWaiting(w: World, closed: seq<CloseRequest>, waiting: set<Entity>): set<Entity>
  {
    var p := EventPass(w, closed, waiting).pending;
    p - ReadyToClose(w, p)
  }

  /** One `Despawn` per entity of `s`. */
  function Despawns(s: set<Entity>): multiset<Command>
  {
    multiset(set e | e in s :: Despawn(e))
  }

  /** One `InsertToken` per entity of `s`. */
  function Inserts(s: set<Entity>): multiset<Command>
  {
    multiset(set e | e in s :: InsertToken(e))
  }

  /** Every command one call of `close_when_requested` issues, regardless of the set's iteration order. */
  function TickCommands(w: World, closed: seq<CloseRequest>, waiting: set<Entity>): multiset<Command>
  {
    var p := EventPass(w, closed, waiting);
    multiset(p.cmds) + Despawns(ReadyToClose(w, p.pending))
  }

  /** Adding a new entity adds exactly its despawn. */
  lemma DespawnsAdd(s: set<Entity>, e: Entity)
    requires e !in s
    ensures Despawns(s + {e}) == Despawns(s) + multiset{Despawn(e)}
  {
  }

  /** Adding a new entity adds exactly its token insertion. */
  lemma InsertsAdd(s: set<Entity>, e: Entity)
    requires e !in s
    ensures Inserts(s + {e}) == Inserts(s) + multiset{InsertToken(e)}
  {
  }

  /**
    The system's `Local<HashSet<Entity>>`: the windows whose close was
    requested while their surface was still in use.
  */
  class WindowCloser {
    var waitingToClose: set<Entity>

    constructor ()
      ensures waitingToClose == {}
    {
      waitingToClose := {};
    }

    /**
      One run of `close_when_requested`. The despawns of the event loop come
      first, in event order; those of the `retain` pass follow in the set's
      iteration order, which the model leaves open.
    */
    method CloseWhenRequested(w: World, closed: seq<CloseRequest>) returns (cmds: seq<Command>)
      modifies this
      ensures waitingToClose == NextWaiting(w, closed, old(waitingToClose))
      ensures multiset(cmds) == TickCommands(w, closed, old(waitingToClose))
      ensures var p := EventPass(w, closed, old(waitingToClose));
        && |p.cmds| <= |cmds| && cmds[..|p.cmds|] == p.cmds
        && multiset(cmds[|p.cmds|..]) == Despawns(ReadyToClose(w, p.pending))
    {
      cmds := [];
      var i := 0;
      while i < |closed|
        invariant 0 <= i <= |closed|
        invariant Pass(waitingToClose, cmds) == EventPass(w, closed[..i], old(waitingToClose))
      {
        assert closed[..i + 1][..i] == closed[..i];
        var e := closed[i].window;
        if e in w.tokens {
          if w.tokens[e] {
            cmds := cmds + [Despawn(e)];
          } else {
            waitingToClose := waitingToClose + {e};
          }
        }
        i := i + 1;
      }
      assert closed[..i] == closed;

      ghost var stashed := waitingToClose;
      ghost var eventCmds := cmds;
      var unvisited := waitingToClose;
      while unvisited != {}
        invariant unvisited <= stashed
        invariant waitingToClose == stashed - ReadyToClose(w, stashed - unvisited)
        invariant |eventCmds| <= |cmds| && cmds[..|eventCmds|] == eventCmds
        invariant multiset(cmds[|eventCmds|..]) == Despawns(ReadyToClose(w, stashed - unvisited))
        decreases unvisited
      {
        var e :| e in unvisited;
        ghost var done := ReadyToClose(w, stashed - unvisited);
        if e in w.tokens && w.tokens[e] {
          assert cmds[..|eventCmds|] == (cmds + [Despawn(e)])[..|eventCmds|];
          assert (cmds + [Despawn(e)])[|eventCmds|..] == cmds[|eventCmds|..] + [Despawn(e)];
          DespawnsAdd(done, e);
          assert ReadyToClose(w, stashed - (unvisited - {e})) == done + {e};
          cmds := cmds + [Despawn(e)];
          waitingToClose := waitingToClose - {e};
        } else {
          assert ReadyToClose(w, stashed - (unvisited - {e})) == done;
        }
        unvisited := unvisited - {e};
      }
      assert cmds == eventCmds + cmds[|eventCmds|..];
    }
  }

  // ---------------------------------------------------------------------
  // Escape closes the focused window (`close_on_esc`)
  // ---------------------------------------------------------------------

  /** The windows whose `focused` flag is set. */
  function Focused(w: World): set<Entity>
  {
    set e | e in w.windows && w.windows[e]
  }

  /**
    `close_on_esc`: every window is visited; a focused one is despawned when
    Escape was just pressed. `escJustPressed` stands for
    `input.just_pressed(KeyCode::Escape)`, which is the same for every window
    of one run.
  */
  method CloseOnEsc(w: World, escJustPressed: bool) returns (cmds: seq<Command>)
    ensures multiset(cmds) == if escJustPressed then Despawns(Focused(w)) else multiset{}
  {
    cmds := [];
    var unvisited := w.windows.Keys;
    while unvisited != {}
      invariant unvisited <= w.windows.Keys
      invariant multiset(cmds) == if escJustPressed then Despawns(Focused(w) - unvisited) else multiset{}
      decreases unvisited
    {
      var window :| window in unvisited;
      ghost var done := Focused(w) - unvisited;
      unvisited := unvisited - {window};
      if !w.windows[window] {
        assert Focused(w) - unvisited == done;
        continue;
      }
      assert Focused(w) - unvisited == done + {window};
      if escJustPressed {
        DespawnsAdd(done, window);
        cmds := cmds + [Despawn(window)];
      }
    }
  }

  // ---------------------------------------------------------------------
  // Token provisioning (`fixup_window_surface`)
  // ---------------------------------------------------------------------

  /** The entities matched by `Query<Entity, (With<Window>, Without<SurfaceToken>)>`. */
  function MissingToken(w: World): set<Entity>
  {
    set e | e in w.windows && e !in w.tokens
  }

  /** `fixup_window_surface`: one `InsertToken` for each window that lacks a token. */
  method FixupWindowSurface(w: World) returns (cmds: seq<Command>)
    ensures multiset(cmds) == Inserts(MissingToken(w))
  {
    cmds := [];
    var unvisited := MissingToken(w);
    while unvisited != {}
      invariant unvisited <= MissingToken(w)
      invariant multiset(cmds) == Inserts(MissingToken(w) - unvisited)
      decreases unvisited
    {
      var entity :| entity in unvisited;
      InsertsAdd(MissingToken(w) - unvisited, entity);
      assert MissingToken(w) - (unvisited - {entity}) == (MissingToken(w) - unvisited) + {entity};
      cmds := cmds + [InsertToken(entity)];
      unvisited := unvisited - {entity};
    }
  }
}
