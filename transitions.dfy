/**
 * The pointer tracker of src/main.tsx as pure transition functions.
 *
 * Between two events the module holds the `pointer` variable and, implicitly,
 * whether the per-contact listeners (pointermove, pointerup, pointercancel,
 * pointerleave, registered with one AbortController's signal) are attached.
 * A `Snapshot` records both. The handlers of the class in handlers.dfy are
 * proved against these functions.
 */
module Transitions {
  import opened Wrappers
  import opened Schema

  /** A raw input event: a contact id and, for down and move, a coordinate. */
  datatype Event =
    | PointerDown(id: int, at: Vec2)
    | PointerMove(id: int, at: Vec2)
    | PointerUp(id: int)
    | PointerCancel(id: int)
    | PointerLeave(id: int)
  {
    /** Up, cancel and leave all end the tracked contact. */
    predicate IsRelease() {
      PointerUp? || PointerCancel? || PointerLeave?
    }
  }

  /** The `pointer` variable and whether the per-contact listeners are attached. */
  datatype Snapshot = Snapshot(pointer: Option<Pointer>, listening: bool)

  /** No contact tracked and no per-contact listener attached. */
  const Idle := Snapshot(None, false)

  /** The per-contact listeners are attached exactly while a contact is tracked. */
  predicate Consistent(s: Snapshot) {
    s.listening == s.pointer.Some?
  }

  /**
   * The result of delivering one event: the handlers ran to completion, or an
   * `invariant(...)` check threw before anything was assigned.
   */
  datatype Outcome = Handled(after: Snapshot) | Violation

  /**
   * `onPointerMove` on the tracked pointer: the first move promotes a down
   * pointer to a drag whatever the distance, freezing the origin at the
   * pressed position; a later move replaces only the position.
   */
  function Moved(p: Pointer, at: Vec2): (r: Pointer)
    ensures r.Drag? && r.id == p.id && r.position == at
    ensures p.Down? ==> r.origin == p.position
    ensures p.Drag? ==> r.origin == p.origin
  {
    match p
    case Down(id, position) => Drag(id, position, at)
    case Drag(id, origin, _) => p.(position := at)
  }

  /**
   * The pointerdown handler. With no contact tracked it tracks the new one as
   * down and attaches the per-contact listeners; with one tracked it ignores
   * the event, and a down for the tracked id itself fails its invariant.
   */
  function Press(s: Snapshot, id: int, at: Vec2): (r: Outcome)
    requires Consistent(s)
    ensures r.Violation? <==> s.pointer.Some? && s.pointer.value.id == id
    ensures r.Handled? ==> Consistent(r.after) && r.after.pointer.Some?
    ensures s.pointer.None? ==> r == Handled(Snapshot(Some(Down(id, at)), true))
    ensures s.pointer.Some? && s.pointer.value.id != id ==> r == Handled(s)
  {
    if s.pointer.Some? then
      if s.pointer.value.id != id then Handled(s) else Violation
    else
      Handled(Snapshot(Some(Down(id, at)), true))
  }

  /**
   * A move, up, cancel or leave event reaching the listeners wrapped by
   * `filterPointerId` while `p` is tracked: an event of another contact is
   * dropped, a matching move runs `onPointerMove`, and a matching release
   * aborts the controller, which detaches the listeners and clears `pointer`.
   */
  function Deliver(p: Pointer, e: Event): (r: Snapshot)
    requires !e.PointerDown?
    ensures Consistent(r)
    ensures e.id != p.id ==> r == Snapshot(Some(p), true)
    ensures e.id == p.id && e.IsRelease() ==> r == Idle
    ensures e.id == p.id && e.PointerMove? ==> r == Snapshot(Some(Moved(p, e.at)), true)
  {
    if e.id != p.id then Snapshot(Some(p), true)
    else if e.PointerMove? then Snapshot(Some(Moved(p, e.at)), true)
    else Idle
  }

  /**
   * Delivering one event to the document: a down goes to the pointerdown
   * handler; any other event reaches the filtered listeners only while they
   * are attached, and is otherwise not observed at all.
   */
  function Step(s: Snapshot, e: Event): (r: Outcome)
    requires Consistent(s)
    ensures r.Handled? ==> Consistent(r.after)
    ensures r.Violation? <==> e.PointerDown? && s.pointer.Some? && s.pointer.value.id == e.id
    ensures r.Handled? && s.pointer.Some? && r.after.pointer.Some? ==> r.after.pointer.value.id == s.pointer.value.id
    ensures s.pointer.Some? && e.id != s.pointer.value.id ==> r == Handled(s)
    ensures s.pointer.None? && !e.PointerDown? ==> r == Handled(s)
  {
    if e.PointerDown? then Press(s, e.id, e.at)
    else if s.listening then Handled(Deliver(s.pointer.value, e))
    else Handled(s)
  }
}
