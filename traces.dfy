/**
 * Properties of the tracker over whole sequences of events: one contact's
 * life from down to release, with any events of other contacts in between,
 * and the absence of invariant failures under the input source's guarantee
 * that a contact id is never pressed again before it is released.
 */
module Traces {
  import opened Wrappers
  import opened Schema
  import opened Transitions

  /**
   * Where a run of events leaves the tracker, and how many events failed an
   * `invariant(...)` check on the way.
   */
  datatype RunResult = RunResult(after: Snapshot, failures: nat)

  /**
   * Delivers the events in order. An event whose handler fails a check is
   * reported and leaves the state as it was, and the following events are
   * still delivered. After a release event the tracker never holds the
   * released contact.
   */
  function Run(s: Snapshot, t: seq<Event>): (r: RunResult)
    requires Consistent(s)
    ensures Consistent(r.after)
    ensures r.failures <= |t|
    ensures t != [] && t[|t| - 1].IsRelease() ==>
              r.after.pointer.None? || r.after.pointer.value.id != t[|t| - 1].id
    decreases |t|
  {
    if t == [] then RunResult(s, 0)
    else
      match Step(s, t[0])
      case Violation =>
        var rest := Run(s, t[1..]);
        RunResult(rest.after, rest.failures + 1)
      case Handled(next) => Run(next, t[1..])
  }

  /** Running `a + b` is running `a`, then `b` from where `a` stopped. */
  lemma {:induction false} RunAppend(s: Snapshot, a: seq<Event>, b: seq<Event>)
    requires Consistent(s)
    ensures var m := Run(s, a);
            var n := Run(m.after, b);
            Run(s, a + b) == RunResult(n.after, m.failures + n.failures)
    decreases |a|
  {
    if a == [] {
      assert a + b == b;
    } else {
      assert (a + b)[1..] == a[1..] + b;
      match Step(s, a[0])
      case Violation => RunAppend(s, a[1..], b);
      case Handled(next) => RunAppend(next, a[1..], b);
    }
  }

  /**
   * A down that reuses the tracked id fails its check and is otherwise
   * invisible: the rest of the events run exactly as if it had not come.
   */
  lemma FailedPressIsSkipped(s: Snapshot, at: Vec2, t: seq<Event>)
    requires Consistent(s) && s.pointer.Some?
    ensures var id := s.pointer.value.id;
            Run(s, [PointerDown(id, at)] + t) == RunResult(Run(s, t).after, Run(s, t).failures + 1)
  {
    var down := PointerDown(s.pointer.value.id, at);
    assert ([down] + t)[0] == down && ([down] + t)[1..] == t;
  }

  /** Events of the contact `id` other than its down and its release, or events of other contacts. */
  predicate DuringContact(id: int, body: seq<Event>) {
    forall i :: 0 <= i < |body| ==> body[i].PointerMove? || body[i].id != id
  }

  /** The coordinates of the contact's own moves, in order. */
  function MovesOf(id: int, body: seq<Event>): seq<Vec2>
    decreases |body|
  {
    if body == [] then []
    else if body[0].PointerMove? && body[0].id == id then [body[0].at] + MovesOf(id, body[1..])
    else MovesOf(id, body[1..])
  }

  /** The position at which a pointer's drag started, or would start. */
  function OriginOf(p: Pointer): Vec2 {
    if p.Down? then p.position else p.origin
  }

  /**
   * What a tracked pointer `p` becomes after the moves `ms` of its contact:
   * unchanged without moves, otherwise a drag from `OriginOf(p)` to the last
   * move's coordinate.
   */
  function After(p: Pointer, ms: seq<Vec2>): Pointer {
    if ms == [] then p else Drag(p.id, OriginOf(p), ms[|ms| - 1])
  }

  /**
   * While `p` is tracked, the events `body` of its contact's life leave it
   * tracked with the same id, the drag origin fixed at the first move and the
   * position at the last one; events of other contacts have no effect.
   */
  lemma {:induction false} Tracked(p: Pointer, body: seq<Event>)
    requires DuringContact(p.id, body)
    ensures Run(Snapshot(Some(p), true), body) == RunResult(Snapshot(Some(After(p, MovesOf(p.id, body))), true), 0)
    decreases |body|
  {
    if body != [] {
      var e, rest := body[0], body[1..];
      assert DuringContact(p.id, rest) by {
        forall i | 0 <= i < |rest| ensures rest[i].PointerMove? || rest[i].id != p.id {
          assert rest[i] == body[i + 1];
        }
      }
      assert e.PointerMove? || e.id != p.id by { assert e == body[0]; }
      if e.PointerMove? && e.id == p.id {
        var q := Moved(p, e.at);
        Tracked(q, rest);
        assert MovesOf(p.id, body) == [e.at] + MovesOf(p.id, rest);
      } else {
        Tracked(p, rest);
      }
    }
  }

  /**
   * One contact's life from a standing start: a down, then its moves mixed
   * with other contacts' events, leaves it tracked under its own id, still
   * down if it never moved, otherwise a drag whose origin is the pressed
   * position and whose position is the last move's; its release then
   * returns the tracker to no contact, with the listeners detached.
   */
  lemma Contact(id: int, at: Vec2, body: seq<Event>, release: Event)
    requires DuringContact(id, body)
    requires release.IsRelease() && release.id == id
    ensures var ms := MovesOf(id, body);
            Run(Idle, [PointerDown(id, at)] + body)
              == RunResult(Snapshot(Some(if ms == [] then Down(id, at) else Drag(id, at, ms[|ms| - 1])), true), 0)
    ensures Run(Idle, [PointerDown(id, at)] + body + [release]) == RunResult(Idle, 0)
  {
    var down := PointerDown(id, at);
    RunAppend(Idle, [down], body);
    Tracked(Down(id, at), body);
    RunAppend(Idle, [down] + body, [release]);
  }

  /** At every point of a contact's life its own id stays the tracked one. */
  lemma TrackedIdStable(id: int, at: Vec2, body: seq<Event>, k: nat)
    requires DuringContact(id, body) && k <= |body|
    ensures var r := Run(Idle, [PointerDown(id, at)] + body[..k]);
            r.failures == 0 && r.after.pointer.Some? && r.after.pointer.value.id == id
  {
    assert DuringContact(id, body[..k]) by {
      forall i | 0 <= i < k ensures body[..k][i].PointerMove? || body[..k][i].id != id {
        assert body[..k][i] == body[i];
      }
    }
    Contact(id, at, body[..k], PointerUp(id));
  }

  /**
   * The input source's guarantee: a down never names a contact that is still
   * active. `active` holds the ids pressed and not yet released by an up, a
   * cancel or a leave.
   */
  predicate WellFormed(active: set<int>, t: seq<Event>)
    decreases |t|
  {
    if t == [] then true
    else match t[0]
      case PointerDown(id, _) => id !in active && WellFormed(active + {id}, t[1..])
      case PointerUp(id) => WellFormed(active - {id}, t[1..])
      case PointerCancel(id) => WellFormed(active - {id}, t[1..])
      case PointerLeave(id) => WellFormed(active - {id}, t[1..])
      case PointerMove(_, _) => WellFormed(active, t[1..])
  }

  /**
   * Under that guarantee no `invariant(...)` of the tracker ever fails: the
   * tracked contact, if any, is always one that is still active.
   */
  lemma {:induction false} NoViolation(s: Snapshot, active: set<int>, t: seq<Event>)
    requires Consistent(s)
    requires s.pointer.Some? ==> s.pointer.value.id in active
    requires WellFormed(active, t)
    ensures Run(s, t).failures == 0
    decreases |t|
  {
    if t != [] {
      var e := t[0];
      var next := Step(s, e).after;
      match e
      case PointerDown(id, _) => NoViolation(next, active + {id}, t[1..]);
      case PointerUp(id) => NoViolation(next, active - {id}, t[1..]);
      case PointerCancel(id) => NoViolation(next, active - {id}, t[1..]);
      case PointerMove(_, _) => NoViolation(next, active, t[1..]);
      case PointerLeave(id) => NoViolation(next, active - {id}, t[1..]);
    }
  }

  /** In particular every well-formed session from start-up runs without failure. */
  lemma SessionNoViolation(t: seq<Event>)
    requires WellFormed({}, t)
    ensures Run(Idle, t).failures == 0
  {
    NoViolation(Idle, {}, t);
  }
}
