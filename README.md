# Single-contact pointer tracker

A model of the pointer tracking at the heart of `src/main.tsx`, with the
`Pointer` types of `src/schema.ts`. The tracker follows at most one touch or
mouse contact at a time. It is idle (`pointer` is null) until a pointerdown
arrives. It then holds a `down` pointer with the contact's id and position,
and attaches move, up, cancel and leave listeners tied to one
AbortController. The first move of that contact turns the pointer into a
`drag`, whatever the distance moved, and freezes its `origin` at the pressed
position. Later moves replace only the position. An up, cancel or leave of
the contact aborts the controller: the listeners are detached and `pointer`
is null again. Events of any other contact are filtered out. A second
pointerdown while a contact is tracked is ignored.

Files:

- `wrappers.dfy`: `Option`, standing for the source's `T | null`.
- `schema.dfy` (module `Schema`): `Vec2`, the tag `PointerState`, the union
  `Pointer = Down | Drag`, and the run-time object shape of the union with
  the conversions both ways.
- `transitions.dfy` (module `Transitions`): events, the `Snapshot` of the
  tracker's state, and each handler as a pure function (`Moved`, `Press`,
  `Deliver`, and `Step` for the document's dispatch).
- `handlers.dfy` (module `Handlers`): class `PointerTracker`, holding
  `pointer` and `listening` as fields that its handler methods update in
  place. Each method is proved against its function in `Transitions`.
- `traces.dfy` (module `Traces`): `Run` over event sequences, one contact's
  whole life, and freedom from `invariant` failures.
- `as_written.dfy` (module `AsWritten`): the pointerdown handler as the code
  is written, with the redraw that throws, and the contact it strands.

Notes on the source:

- Field name. `src/main.tsx` names the coordinate field `current`
  (lines 53, 57, 71). `src/schema.ts` (lines 6, 13) and
  `src/pointer-container.ts` (lines 23-24) name it `position`. The model uses
  `position` throughout. As written, the objects built in `src/main.tsx` do
  not carry the field that the renderer reads, so the redraw at line 74
  throws and the contact is never released; see "## Findings". The rest of
  the model follows the evident intent, where both files use one name.
- Listeners. The source never stores whether the per-contact listeners are
  attached: that state lives in the AbortController's signal. The model
  keeps it as the flag `listening`. The invariant `Consistent` says the
  listeners are attached exactly while a contact is tracked. That invariant
  is why the `invariant(pointer)` check inside `filterPointerId`
  (`src/main.tsx:86`) cannot fail.
- Failed checks. A pointerdown that reuses the tracked id fails
  `invariant(pointer.id !== ev.pointerId)` (`src/main.tsx:64`). That check
  throws before anything is assigned, so it is modelled as the outcome
  `Violation` with the state unchanged. The checks at lines 47 and 86 are
  preconditions of `OnPointerMove` and `Filtered`, which their callers meet.
- Release. The code does not hand the released pointer to anyone. A release
  only clears the state (lines 79-82, 96-98), and the model does the same.

## Model

| member | source | states |
|---|---|---|
| Schema.ToObject | src/schema.ts:3-16 | a pointer is stored with its id and position; the `state` tag is `drag` and an `origin` is present exactly for a drag pointer |
| Schema.FromObject | src/schema.ts:3-16 | an object is a `Pointer` exactly when its tag agrees with whether it has an `origin`; the pointer read back stores as the same object |
| Schema.ObjectRoundTrip | src/schema.ts:3-16 | every pointer is read back unchanged from its object, and its tag is its variant |
| Schema.ObjectDeterminesPointer | src/schema.ts:3-16 | tag, id, origin and position together determine the pointer |
| Transitions.Moved | src/main.tsx:46-58 | a move always gives a drag pointer, with no threshold; the id is kept and the position is the event's; the origin is the down position on the first move and kept unchanged afterwards |
| Transitions.Press | src/main.tsx:62-72 | from idle, a down tracks a `down` pointer with the event's id and position and attaches the listeners; while a contact is tracked, a down of another id changes nothing and a down of the same id fails the invariant |
| Transitions.Deliver | src/main.tsx:79-98 | with a contact tracked, another contact's move or release changes nothing; a matching move is `Moved`; a matching up, cancel or leave returns to idle with the listeners detached |
| Transitions.Step | src/main.tsx:62-99 | one event keeps listeners attached exactly while a contact is tracked, never changes the tracked id, fails only on a down of the tracked id, drops other contacts' events, and is a no-op on move or release when idle |
| Handlers.PointerTracker.constructor | src/main.tsx:44 | the tracker starts idle with no per-contact listener |
| Handlers.PointerTracker.OnPointerMove | src/main.tsx:46-60 | for the tracked contact's move, the new pointer is `Moved` of the old one; the listeners are untouched |
| Handlers.PointerTracker.Abort | src/main.tsx:79-82 | aborting detaches the listeners and clears `pointer` |
| Handlers.PointerTracker.OnPointerDown | src/main.tsx:62-99 | the handler's new state is exactly `Press`'s; on a failed invariant nothing changes; the listener invariant is kept |
| Handlers.PointerTracker.Filtered | src/main.tsx:84-91 | given a tracked pointer, the filtered listener's new state is exactly `Deliver`'s |
| Handlers.PointerTracker.Dispatch | src/main.tsx:94-99 | delivering an event to the document gives exactly `Step`'s new state, or no change on a failed invariant |
| Traces.Run | src/main.tsx:62-99 | over any event sequence the listener invariant is kept and at most one failed check is counted per event; a failed check leaves the state as it was and later events are still delivered; after a release event the released contact is no longer tracked |
| Traces.FailedPressIsSkipped | src/main.tsx:63-66 | a down that reuses the tracked id counts one failed check and otherwise leaves the rest of the run exactly as if it had not come |
| Traces.Tracked | src/main.tsx:46-91 | while a pointer is tracked, its own moves and any events of other contacts keep its id, fix the origin at the first move and put the position at the last move |
| Traces.Contact | src/main.tsx:44-99 | from idle, down then the contact's moves mixed with other contacts' events tracks that contact, as `down` without moves and otherwise as a drag from the pressed position to the last move; its up, cancel or leave then returns to idle |
| Traces.TrackedIdStable | src/main.tsx:44-99 | at every point between a contact's down and its release, that contact is the tracked one |
| Traces.NoViolation | src/main.tsx:62-91 | if no down reuses an id that was pressed and not yet released by an up, cancel or leave, no `invariant` check ever fails, from any consistent state whose tracked contact is such an id |
| Traces.SessionNoViolation | src/main.tsx:44-99 | a whole session from start-up in which no id is pressed again before its up, cancel or leave runs without a failed check |
| AsWritten.StepAsWritten | src/main.tsx:62-74 | as written, a down from idle stores the `down` pointer and then throws in the redraw with no listener attached; with a contact stored, nothing an event does changes the state |
| AsWritten.RunAsWritten | src/main.tsx:62-99 | as written, the listeners are never attached over any event sequence, and a stored contact stays stored |
| AsWritten.FirstContactStuck | src/main.tsx:62-99 | as written, after the first down no events clear `pointer`, and every later down of that contact fails the check at line 64 |
| AsWritten.PressUpPress | src/main.tsx:62-99 | for down, up, down of one mouse, the code as written keeps the first press and fails on the second, while the intended tracker releases the contact and tracks the second press |

## Left out

- Rendering and start-up: React mounting, the iOS touchstart suppression and the Pixi `Application` (`src/main.tsx:1-42`) are user-interface set-up.
- The `pointerContainer.update` redraws (`src/main.tsx:59`, 74, 81) are assumed to return, which holds when the stored pointer carries `position`. As written it does not, and the redraw at line 74 throws before the listeners are attached; module `AsWritten` models that consequence and "## Findings" records it. The redraw at line 59 throws in the same way after a move, but it is never reached as written, because no move listener is ever attached.
- `src/pointer-container.ts` and `src/world-container.ts`. They only draw: they show or hide a Pixi container and copy coordinates into graphics objects.
- Browser event dispatch. Listener registration with `AbortController` is reduced to the `listening` flag and its effect: events other than pointerdown reach the tracker only while the listeners are attached.
- `Vec2` arithmetic. `./vec2` is not part of this model. Coordinates are pairs of reals that are only stored and copied, and no floating-point behaviour is modelled.
- Handlers.PointerTracker.OnPointerMove: the source mutates `pointer.current` on the existing drag object. The model reassigns the field with a new value, so object identity and any aliasing of that object are not captured.
- The thrown error of a failed `invariant` is modelled as the outcome `Violation` and counted by `Traces.Run`. Its message and its reporting by the browser are left out.
- Physics, gravity, time dilation and release impulses. None of these appears in the core files.

## Findings

| source | as written | input that shows it | evidently intended | confidence | as-written member | corrected member |
|---|---|---|---|---|---|---|
| src/main.tsx:68-74 | the pointer is built with a `current` field, and the redraw at line 74 reads `pointer.position.x` (src/pointer-container.ts:22-24), which throws before lines 76-99 attach the listeners, so `pointer` is never cleared | a mouse down, up, down with `pointerId` 1: the first press stays tracked and the second fails `invariant` at line 64 | the field is named `position` as in src/schema.ts:6,13, the handler attaches the listeners, and the up returns the tracker to idle | not executed; follows from the field names in the three files | AsWritten.FirstContactStuck | Traces.Contact |
