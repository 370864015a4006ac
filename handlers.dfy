/**
 * The module-level state of src/main.tsx and its event handlers, in place.
 *
 * `pointer` is the `let pointer: Pointer | null` variable; `listening` stands
 * for the AbortController whose signal owns the per-contact listeners (true
 * while they are attached). Each handler is proved against the function of
 * module Transitions that describes it.
 */
module Handlers {
  import opened Wrappers
  import opened Schema
  import opened Transitions

  class PointerTracker {
    var pointer: Option<Pointer>
    var listening: bool

    function Current(): Snapshot
      reads this
    {
      Snapshot(pointer, listening)
    }

    ghost predicate Valid()
      reads this
    {
      Consistent(Current())
    }

    /** Start-up: `pointer` is null and only the pointerdown listener exists. */
    constructor ()
      ensures Valid() && Current() == Idle
    {
      pointer := None;
      listening := false;
    }

    /**
     * `onPointerMove`. The caller guarantees that a pointer is tracked and
     * that the event is its own. A down pointer is replaced by a new drag
     * pointer; a drag pointer gets its position overwritten.
     */
    method OnPointerMove(id: int, at: Vec2)
      requires pointer.Some? && pointer.value.id == id
      modifies this
      ensures pointer == Some(Moved(old(pointer.value), at))
      ensures listening == old(listening)
    {
      var p := pointer.value;
      if p.Down? {
        pointer := Some(Drag(p.id, p.position, at));
      } else {
        pointer := Some(p.(position := at));
      }
    }

    /** The abort path: the signal detaches the listeners and `pointer` becomes null. */
    method Abort()
      modifies this
      ensures Current() == Idle
    {
      listening := false;
      pointer := None;
    }

    /**
     * The pointerdown listener. `ok` is false when the invariant that a
     * second down never reuses the tracked id fails; nothing changes then.
     */
    method OnPointerDown(id: int, at: Vec2) returns (ok: bool)
      requires Valid()
      modifies this
      ensures Valid()
      ensures ok == Press(old(Current()), id, at).Handled?
      ensures ok ==> Current() == Press(old(Current()), id, at).after
      ensures !ok ==> Current() == old(Current())
    {
      if pointer.Some? {
        ok := pointer.value.id != id;
        return;
      }
      pointer := Some(Down(id, at));
      listening := true;
      ok := true;
    }

    /**
     * A listener wrapped by `filterPointerId`: it demands a tracked pointer
     * and runs the wrapped handler only for that pointer's own events.
     */
    method Filtered(e: Event)
      requires Valid() && !e.PointerDown? && pointer.Some?
      modifies this
      ensures Valid()
      ensures Current() == Deliver(old(pointer.value), e)
    {
      if e.id == pointer.value.id {
        if e.PointerMove? {
          OnPointerMove(e.id, e.at);
        } else {
          Abort();
        }
      }
    }

    /**
     * The document delivers one event: a down to the pointerdown listener,
     * anything else to the filtered listeners if they are attached.
     */
    method Dispatch(e: Event) returns (ok: bool)
      requires Valid()
      modifies this
      ensures Valid()
      ensures ok == Step(old(Current()), e).Handled?
      ensures Current() == if ok then Step(old(Current()), e).after else old(Current())
    {
      if e.PointerDown? {
        ok := OnPointerDown(e.id, e.at);
      } else if listening {
        Filtered(e);
        ok := true;
      } else {
        ok := true;
      }
    }
  }
}
