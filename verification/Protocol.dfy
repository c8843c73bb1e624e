/** The events the compositor sends to its controller clients over one
    connection, and the client-side mirror they maintain. */
module Protocol {
  import opened WlList

  /** A set of input devices: the ILM_INPUT_DEVICE_* bits. */
  datatype Devices = Devices(kbd: bool, ptr: bool, touch: bool)

  const KEYBOARD := Devices(true, false, false)
  const POINTING := Devices(false, true, false)

  /** Events of `ivi_wm` (the first four) and of `ivi_input` (the rest). */
  datatype Event =
    | SurfaceCreated(surface: nat)
    | SurfaceDestroyed(surface: nat)
    | LayerCreated(layer: nat)
    | LayerDestroyed(layer: nat)
    | SeatCreated(seat: string)
    | SeatDestroyed(seat: string)
    | InputFocus(surface: nat, device: Devices, enabled: bool)
    | InputAcceptance(surface: nat, seat: string, accepted: bool)

  predicate IsWm(e: Event) {
    e.SurfaceCreated? || e.SurfaceDestroyed? || e.LayerCreated? || e.LayerDestroyed?
  }

  /** What a client knows: surfaces with the names of the seats they accept,
      layers, and seats. All lists head first. */
  datatype Mirror = Mirror(surfaces: seq<(nat, seq<string>)>, layers: seq<nat>, seats: seq<string>)

  const EMPTY_MIRROR := Mirror([], [], [])

  /** The client's reaction to one event. */
  function Apply(m: Mirror, e: Event): Mirror {
    match e
    case SurfaceCreated(id) =>
      if Lookup(m.surfaces, id).Some? then m else m.(surfaces := [(id, [])] + m.surfaces)
    case SurfaceDestroyed(id) => m.(surfaces := Remove(m.surfaces, id))
    case LayerCreated(id) => if id in m.layers then m else m.(layers := [id] + m.layers)
    case LayerDestroyed(id) => m.(layers := Drop(m.layers, id))
    case SeatCreated(name) => if name in m.seats then m else m.(seats := [name] + m.seats)
    case SeatDestroyed(name) => m.(seats := Drop(m.seats, name))
    case InputFocus(_, _, _) => m
    case InputAcceptance(id, name, accepted) =>
      match Lookup(m.surfaces, id)
      case None => m
      case Some(names) =>
        if !accepted then m.(surfaces := Put(m.surfaces, id, Drop(names, name)))
        else if name in names then m
        else m.(surfaces := Put(m.surfaces, id, [name] + names))
  }

  /** The mirror after a queue of events has been dispatched in order. */
  function Drain(m: Mirror, q: seq<Event>): Mirror
    decreases |q|
  {
    if q == [] then m else Drain(Apply(m, q[0]), q[1..])
  }

  lemma {:induction false} DrainAppend(m: Mirror, q: seq<Event>, r: seq<Event>)
    ensures Drain(m, q + r) == Drain(Drain(m, q), r)
    decreases |q|
  {
    if q == [] {
      assert q + r == r;
    } else {
      assert (q + r)[0] == q[0] && (q + r)[1..] == q[1..] + r;
      DrainAppend(Apply(m, q[0]), q[1..], r);
    }
  }

  /** Names accepted by surface `id` according to a mirror. */
  function Accepted(m: Mirror, id: nat): seq<string> {
    match Lookup(m.surfaces, id) case None => [] case Some(names) => names
  }
}
