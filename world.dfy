/**
  The part of the entity store that the window systems see: a snapshot of the
  components they query, and the deferred command buffer they write into.

  A system never changes the store while it runs. It reads one snapshot and
  returns commands; the scheduler applies them afterwards (`Apply`), so a
  command issued in a tick is invisible to every read made in that tick.
*/
module EcsWorld {

  /** An entity handle: a slot index and the generation that tells a reused slot apart. */
  datatype Entity = Entity(index: nat, generation: nat)

  /**
    The components the window systems read:
    - `windows`: the entities carrying a `Window`, each with its `focused` flag;
    - `primary`: the entities carrying the `PrimaryWindow` marker;
    - `tokens`: the entities carrying a `SurfaceToken`, each with what the
      token's `is_safe_to_close_window` reports in this snapshot.
  */
  datatype World = World(windows: map<Entity, bool>, primary: set<Entity>, tokens: map<Entity, bool>)

  /** A deferred structural change: despawn an entity, or insert a default `SurfaceToken` on it. */
  datatype Command = Despawn(entity: Entity) | InsertToken(entity: Entity)

  /** The payload-less event that asks the application to exit. */
  datatype AppExit = AppExit

  /** Entity `e` looks the same in `a` and in `b`. */
  predicate AgreeAt(a: World, b: World, e: Entity)
  {
    && (e in a.windows <==> e in b.windows)
    && (e in a.windows ==> a.windows[e] == b.windows[e])
    && (e in a.primary <==> e in b.primary)
    && (e in a.tokens <==> e in b.tokens)
    && (e in a.tokens ==> a.tokens[e] == b.tokens[e])
  }

  /**
    One command applied to the store. `freshSafe` is what a newly inserted
    default token reports; the token's internals belong to the renderer.
  */
  function Exec(w: World, c: Command, freshSafe: bool): (r: World)
    ensures c.Despawn? ==> c.entity !in r.windows && c.entity !in r.primary && c.entity !in r.tokens
    ensures c.InsertToken? ==>
      && r.windows == w.windows && r.primary == w.primary
      && c.entity in r.tokens && r.tokens[c.entity] == freshSafe
    ensures forall e :: e != c.entity ==> AgreeAt(w, r, e)
  {
    match c
    case Despawn(e) => World(w.windows - {e}, w.primary - {e}, w.tokens - {e})
    case InsertToken(e) => w.(tokens := w.tokens[e := freshSafe])
  }

  /** The command buffer applied in order, as the scheduler does between systems. */
  function Apply(w: World, cmds: seq<Command>, freshSafe: bool): World
    decreases |cmds|
  {
    if cmds == [] then w else Apply(Exec(w, cmds[0], freshSafe), cmds[1..], freshSafe)
  }

  /** The entities a command buffer names. */
  function Targets(cmds: seq<Command>): set<Entity>
  {
    set i | 0 <= i < |cmds| :: cmds[i].entity
  }

  /** The targets of a buffer: those of its first command and of the rest. */
  lemma TargetsCons(cmds: seq<Command>)
    requires cmds != []
    ensures Targets(cmds) == {cmds[0].entity} + Targets(cmds[1..])
  {
  }

  /** Applying despawns removes exactly their targets from every component and touches nothing else. */
  lemma {:induction false} ApplyDespawns(w: World, cmds: seq<Command>, freshSafe: bool)
    requires forall i :: 0 <= i < |cmds| ==> cmds[i].Despawn?
    ensures Apply(w, cmds, freshSafe).windows.Keys == w.windows.Keys - Targets(cmds)
    ensures Apply(w, cmds, freshSafe).primary == w.primary - Targets(cmds)
    ensures Apply(w, cmds, freshSafe).tokens.Keys == w.tokens.Keys - Targets(cmds)
    ensures forall e :: e !in Targets(cmds) ==> AgreeAt(w, Apply(w, cmds, freshSafe), e)
    decreases |cmds|
  {
    if cmds != [] {
      var w' := Exec(w, cmds[0], freshSafe);
      ApplyDespawns(w', cmds[1..], freshSafe);
      TargetsCons(cmds);
    }
  }

  /** Applying token insertions adds exactly their targets to `tokens` and leaves windows and markers alone. */
  lemma {:induction false} ApplyInserts(w: World, cmds: seq<Command>, freshSafe: bool)
    requires forall i :: 0 <= i < |cmds| ==> cmds[i].InsertToken?
    ensures Apply(w, cmds, freshSafe).windows == w.windows
    ensures Apply(w, cmds, freshSafe).primary == w.primary
    ensures Apply(w, cmds, freshSafe).tokens.Keys == w.tokens.Keys + Targets(cmds)
    decreases |cmds|
  {
    if cmds != [] {
      var w' := Exec(w, cmds[0], freshSafe);
      ApplyInserts(w', cmds[1..], freshSafe);
      TargetsCons(cmds);
    }
  }
}
