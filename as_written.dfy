/**
 * The pointerdown handler of src/main.tsx as the code is written, where the
 * object it stores names its coordinate `current` while the redraw at line 74
 * reads `position` (src/pointer-container.ts:22-24). Reading a field of the
 * missing `position` throws, after `pointer` is assigned and before the
 * AbortController and the per-contact listeners are set up.
 */
module AsWritten {
  import opened Wrappers
  import opened Schema
  import opened Transitions

  /** A listener either returns, or throws and leaves the state it had reached. */
  datatype Delivery = Returned(after: Snapshot) | Threw(after: Snapshot)

  /**
   * One event, for a tracker whose per-contact listeners are not attached
   * (the only kind this version of the handler ever produces). A down from
   * idle stores the pointer and then throws in the redraw; a down while
   * tracked is ignored, or fails its check for the tracked id; any other
   * event reaches no listener.
   */
  function StepAsWritten(s: Snapshot, e: Event): (r: Delivery)
    requires !s.listening
    ensures !r.after.listening
    ensures s.pointer.None? && e.PointerDown? ==> r == Threw(Snapshot(Some(Down(e.id, e.at)), false))
    ensures s.pointer.Some? ==> r.after == s
  {
    if e.PointerDown? then
      if s.pointer.Some? then
        if s.pointer.value.id != e.id then Returned(s) else Threw(s)
      else
        Threw(Snapshot(Some(Down(e.id, e.at)), false))
    else Returned(s)
  }

  /** Delivers the events in order; a thrown error does not stop later events. */
  function RunAsWritten(s: Snapshot, t: seq<Event>): (r: Snapshot)
    requires !s.listening
    ensures !r.listening
    ensures s.pointer.Some? ==> r == s
    decreases |t|
  {
    if t == [] then s else RunAsWritten(StepAsWritten(s, t[0]).after, t[1..])
  }

  /**
   * As written, the first contact is never released: after its down, no
   * sequence of events (its up included) clears `pointer`, and every later
   * down of the same contact fails the check at src/main.tsx:64.
   */
  lemma {:induction false} FirstContactStuck(id: int, at: Vec2, t: seq<Event>, later: Vec2)
    ensures RunAsWritten(Idle, [PointerDown(id, at)] + t) == Snapshot(Some(Down(id, at)), false)
    ensures StepAsWritten(RunAsWritten(Idle, [PointerDown(id, at)] + t), PointerDown(id, later)).Threw?
  {
    var down := PointerDown(id, at);
    assert ([down] + t)[0] == down && ([down] + t)[1..] == t;
    assert StepAsWritten(Idle, down).after == Snapshot(Some(Down(id, at)), false);
  }

  /**
   * The concrete session down, up, down of one mouse: as written the tracker
   * is left holding the first press and the second press fails its check,
   * while the tracker of module Transitions releases the contact and tracks
   * the second press without a failure.
   */
  lemma PressUpPress(at: Vec2)
    ensures RunAsWritten(Idle, [PointerDown(1, at), PointerUp(1)]) == Snapshot(Some(Down(1, at)), false)
    ensures StepAsWritten(RunAsWritten(Idle, [PointerDown(1, at), PointerUp(1)]), PointerDown(1, at)).Threw?
    ensures Step(Step(Idle, PointerDown(1, at)).after, PointerUp(1)) == Handled(Idle)
    ensures Press(Idle, 1, at) == Handled(Snapshot(Some(Down(1, at)), true))
  {
    FirstContactStuck(1, at, [PointerUp(1)], at);
  }
}
