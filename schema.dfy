/**
 * The pointer types of src/schema.ts.
 *
 * `Pointer` is the tagged union `DownPointer | DragPointer`; the absence of a
 * contact is not one of its variants (the tracker holds an `Option<Pointer>`).
 * The coordinate field is called `position`, as in src/schema.ts.
 */
module Schema {
  import opened Wrappers

  /** A screen coordinate (`Vec2`). The tracker only stores and copies these. */
  datatype Vec2 = Vec2(x: real, y: real)

  /** The value of the `state` discriminant. */
  datatype PointerState = DownState | DragState

  /** A tracked contact: pressed but not yet moved, or being dragged. */
  datatype Pointer =
    | Down(id: int, position: Vec2)
    | Drag(id: int, origin: Vec2, position: Vec2)
  {
    function State(): PointerState {
      if Down? then DownState else DragState
    }
  }

  /**
   * The object shape that both interfaces describe at run time: a numeric
   * `id`, the `state` tag, an optional `origin` field and a `position`.
   */
  datatype PointerObject = PointerObject(id: int, state: PointerState, origin: Option<Vec2>, position: Vec2)

  /** The object a `Pointer` is stored as. */
  function ToObject(p: Pointer): (o: PointerObject)
    ensures o.id == p.id && o.position == p.position
    ensures o.state == DragState <==> p.Drag?
    ensures o.origin.Some? <==> p.Drag?
    ensures p.Drag? ==> o.origin == Some(p.origin)
  {
    match p
    case Down(id, position) => PointerObject(id, DownState, None, position)
    case Drag(id, origin, position) => PointerObject(id, DragState, Some(origin), position)
  }

  /**
   * Reads an object as a `Pointer`: it is one exactly when the `state` tag
   * agrees with the presence of `origin` (a `down` object has none, a `drag`
   * object has one).
   */
  function FromObject(o: PointerObject): (r: Option<Pointer>)
    ensures r.Some? <==> (o.state == DragState <==> o.origin.Some?)
    ensures r.Some? ==> ToObject(r.value) == o
  {
    match o.state
    case DownState => if o.origin.None? then Some(Down(o.id, o.position)) else None
    case DragState => if o.origin.Some? then Some(Drag(o.id, o.origin.value, o.position)) else None
  }

  /** Every `Pointer` survives being stored as an object and read back. */
  lemma ObjectRoundTrip(p: Pointer)
    ensures FromObject(ToObject(p)) == Some(p)
    ensures ToObject(p).state == p.State()
  {
  }

  /** Two pointers that agree on every field of their object are equal. */
  lemma ObjectDeterminesPointer(p: Pointer, q: Pointer)
    requires ToObject(p) == ToObject(q)
    ensures p == q
  {
    ObjectRoundTrip(p);
    ObjectRoundTrip(q);
  }
}
