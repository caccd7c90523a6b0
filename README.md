# Window lifecycle systems of `bevy_window`, modelled in Dafny

This project models the window-lifecycle systems of Bevy's `bevy_window`
crate (`crates/bevy_window/src/system.rs`). Each tick, these systems do the following:

- **`fixup_window_surface`** gives every `Window` entity that lacks one a
  default `SurfaceToken`.
- **`close_when_requested`** handles `WindowCloseRequested` events. A request
  for an entity without a token is dropped. If the entity's token says the
  renderer has released the surface, the entity is despawned at once.
  Otherwise it goes into the system's persistent `waiting_to_close` set.
  A `retain` pass then despawns and drops every pending entry whose token is
  now safe. It keeps every other entry, including entries whose entity has no
  token any more.
- **`close_on_esc`** despawns every focused window when Escape was just
  pressed.
- **`exit_on_all_closed`** and **`exit_on_primary_closed`** each send one
  `AppExit` when no window, or no primary window, is left.

The model has three files:

- `world.dfy` (module `EcsWorld`) is the snapshot of the entity store the
  systems read, the commands they issue, and `Apply`, which plays a command
  buffer against a snapshot. `World` holds the `Window` entities with their
  `focused` flag, the `PrimaryWindow` markers, and the `SurfaceToken`
  entities with what `is_safe_to_close_window` reports.
- `system.dfy` (module `WindowSystem`) holds the five systems:
  - The exit policies are functions.
  - `close_on_esc` and `fixup_window_surface` are methods that loop over the
    query results and build the command list.
  - `close_when_requested` is the method `CloseWhenRequested` of the class
    `WindowCloser`. The class owns `waitingToClose`, the system's
    `Local<HashSet<Entity>>`, which the event loop grows and the `retain` loop
    shrinks in place.
  - Each method is proved against a specification function:
    `EventPass`, `NextWaiting` and `TickCommands` for the close protocol,
    `Focused` and `MissingToken` for the other two.
- `system_properties.dfy` (module `WindowSystemProperties`) proves lemmas about
  those functions. They cover one call of the close protocol, a run of many
  ticks (`RunWaiting`, `RunDespawned`), the two exit policies, and the
  idempotence of token provisioning.

Commands are deferred, so every system reads one unchanged snapshot for the
whole call. This is why the model reproduces a quirk of the source. Take an
entity that is already pending and that is requested again once its token is
safe. The event loop despawns it, and `retain` then despawns it a second time
in the same call (`PendingAndRequestedDespawnedTwice`). The `retain` pass
walks the `HashSet` in hash order. The two queries of `close_on_esc` and
`fixup_window_surface` walk the entities in the store's archetype/table
storage order. The source fixes neither order, so the methods state their
output up to order: as a multiset, plus the exact prefix that the ordered
event loop produces.

## Model

| member | source | states |
|---|---|---|
| `WindowSystem.ExitOnAllClosed` | crates/bevy_window/src/system.rs:15-19 | emits at most one `AppExit`, and exactly one iff no entity carries a `Window` |
| `WindowSystem.ExitOnPrimaryClosed` | crates/bevy_window/src/system.rs:27-35 | emits at most one `AppExit`, and exactly one iff no entity carries both `Window` and `PrimaryWindow` |
| `WindowSystemProperties.AllClosedImpliesPrimaryClosed` | crates/bevy_window/src/system.rs:15-35 | whenever the all-closed policy fires, the primary-closed policy fires too |
| `WindowSystemProperties.PrimaryClosedWhileOthersOpen` | crates/bevy_window/src/system.rs:15-35 | with the primary window and another window open, neither policy fires; after despawning only the primary, the primary-closed policy fires and the all-closed policy does not |
| `WindowSystem.WindowCloser.constructor` | crates/bevy_window/src/system.rs:48 | the `Local` pending set starts empty |
| `WindowSystem.WindowCloser.CloseWhenRequested` | crates/bevy_window/src/system.rs:44-72 | the new pending set is `NextWaiting` of the old one; the commands are the event loop's despawns in event order, followed by one despawn per pending entry that is safe, in any order |
| `WindowSystemProperties.EventPassPending` | crates/bevy_window/src/system.rs:50-60 | after the event loop, the pending set is the old set plus every requested entity whose token is not yet safe |
| `WindowSystemProperties.EventPassCommands` | crates/bevy_window/src/system.rs:50-60 | the event loop issues only despawns, one for each request whose token is safe, and none for any other entity |
| `WindowSystemProperties.RequestWithoutTokenIgnored` | crates/bevy_window/src/system.rs:51 | a request for an entity with no token changes neither the pending set nor the commands, wherever it stands among the events |
| `WindowSystemProperties.SafeRequestDespawnedAtOnce` | crates/bevy_window/src/system.rs:53-54 | a request whose token is safe yields a despawn from the event loop, does not enter the pending set, and the entity is not pending after the call |
| `WindowSystemProperties.UnsafeRequestsStashedOnce` | crates/bevy_window/src/system.rs:55-57 | any positive number of requests for one not-yet-safe entity issue no command and leave that entity in the pending set exactly once |
| `WindowSystemProperties.NextWaitingClosedForm` | crates/bevy_window/src/system.rs:62-71 | the pending set after a call is (old set plus unsafe targets) minus the old entries whose token is safe; an entry without a token is kept; no remaining entry is safe |
| `WindowSystemProperties.TickCommandsCount` | crates/bevy_window/src/system.rs:50-71 | per entity, one call issues no insertions; it issues despawns only when the token is safe: one per request, plus one if the entity was already pending |
| `WindowSystemProperties.PendingAndRequestedDespawnedTwice` | crates/bevy_window/src/system.rs:53-66 | a pending entity that is requested again once its token is safe is despawned at least twice in one call |
| `WindowSystemProperties.TickRemovesDespawned` | crates/bevy_window/src/system.rs:44-72 | applying the commands of one call removes exactly the safe requested entities and the safe pending entries from the windows |
| `WindowSystemProperties.NeverSafeNeverDespawned` | crates/bevy_window/src/system.rs:53-70 | over any number of calls, an entity whose token never reports safe is never despawned by the close protocol |
| `WindowSystemProperties.NeverSafeStaysPending` | crates/bevy_window/src/system.rs:55-70 | over any number of calls, a pending entity whose token never reports safe stays pending |
| `WindowSystemProperties.PendingOnlyFromRequests` | crates/bevy_window/src/system.rs:50-60 | over any number of calls, the pending set only ever holds its initial entries and requested entities |
| `WindowSystemProperties.ReleasedOnFirstSafeTick` | crates/bevy_window/src/system.rs:62-71 | a pending entity is despawned on the first tick its token reports safe, not before, and leaves the pending set on that tick |
| `WindowSystem.CloseOnEsc` | crates/bevy_window/src/system.rs:82-89 | issues one despawn for each focused window, and nothing else, when Escape was just pressed; issues nothing otherwise |
| `WindowSystem.FixupWindowSurface` | crates/bevy_window/src/system.rs:97-100 | issues exactly one token insertion for each `Window` entity lacking a `SurfaceToken`, and nothing else |
| `WindowSystemProperties.FixupIdempotent` | crates/bevy_window/src/system.rs:95-101 | once those insertions are applied, the windows are unchanged, every window has a token, and a second run issues nothing |

## Left out

- Logging: the `tracing::info!` calls of the exit policies only write to the log.
- The ECS runtime is not modelled. This covers scheduling, parallelism,
  `EventReader`/`EventWriter` buffering and `Query` filtering. The events one
  call reads are given as a sequence. The queries are set comprehensions over
  the snapshot.
- `Apply` plays commands in order on the snapshot. A despawn of a missing
  entity is a no-op. Bevy warns in that case, and it panics on an insertion
  into a missing entity. Neither the warning nor the panic is modelled.
- `SurfaceToken::is_safe_to_close_window` belongs to the renderer and is not
  part of this model. Each snapshot gives it as one boolean per token.
  Between ticks the renderer may change these booleans at will. What a
  freshly inserted default token reports is a parameter of `Apply`.
- `WindowSystem.WindowCloser.CloseWhenRequested` reads each token's safety
  once per call. The source asks the same token twice in one call: once in
  the event loop and once in `retain` (system.rs:53 and :64). The model
  assumes both answers agree. So it cannot show an entity that is stashed by
  the event loop and then released by `retain` in the same call, which the
  source would do if the token turned safe between the two reads.
- `Input<KeyCode>::just_pressed` edge detection belongs to `bevy_input` and
  is not part of this model. `CloseOnEsc` takes its answer as a boolean.
- The `WindowPlugin` configuration that decides which systems are registered
  is not modelled.
- Iteration order is not modelled. `retain` walks the `HashSet` in hash
  order; the queries of `close_on_esc` and `fixup_window_surface` walk the
  store's storage order. Their commands are stated up to order, as multisets.
- The exit policies send one `AppExit` on every tick their condition holds,
  not only on the tick it first becomes true (system.rs:16-18 and :31-33).
  The model does the same; it keeps no memory of earlier ticks.
- An entry of `waiting_to_close` whose entity has lost its token is kept by
  `retain` (system.rs:63-70) and is never removed. The model keeps this
  behaviour (`NextWaitingClosedForm`, `NeverSafeStaysPending`).
