/** The input controller's decisions as functions on its state
    (ivi-input-controller.c): which surface accepts which seat, where the
    pointer and keyboard focus of each seat is, and what is sent to whom. */
module Input {
  import opened WlList
  import opened Protocol

  /** A weston view: the surface it shows and that surface's main surface. */
  datatype View = View(id: nat, surface: nat, main: Option<nat>)

  /** One `seat_focus` record. `session` tells apart records that exist one
      after another for the same seat and surface. */
  datatype Record = Record(focus: Devices, session: nat)

  /** An `ivisurface`: its weston surface and its accepted_seat_list. */
  datatype Surface = Surface(wsurf: nat, accepted: seq<(nat, Record)>)

  /** A `seat_ctx` with the devices of its weston seat. `focus` is
      `pointer->focus`. */
  datatype Seat = Seat(name: string, keyboard: bool, pointer: bool, focus: Option<View>,
                       forced: Option<nat>, forcedOn: bool, buttons: nat)

  /** wl_keyboard traffic to a surface's client, by record session. */
  datatype KbdEvent = Enter(session: nat) | Leave(session: nat) | Key(session: nat)

  /** Surfaces are keyed by surface id, seats by the identity of their
      seat_ctx. `out` is the broadcast to every ivi_input resource. */
  datatype State = State(defaultSeat: string,
                         surfaces: seq<(nat, Surface)>, seats: seq<(nat, Seat)>,
                         sessions: nat, kbd: seq<KbdEvent>, out: seq<Event>)

  /** What the compositor answers: the view under a seat's pointer, and the
      first view of a surface. */
  datatype Env = Env(pick: nat -> Option<View>, first: nat -> Option<View>)

  // ---------- lookups ----------

  function RecordOf(s: State, id: nat, k: nat): Option<Record> {
    match Lookup(s.surfaces, id) case None => None case Some(sf) => Lookup(sf.accepted, k)
  }

  /** Surface list search by weston surface (input_ctrl_get_surf_ctx). */
  function FindSurface(l: seq<(nat, Surface)>, w: nat): Option<nat> {
    if l == [] then None else if l[0].1.wsurf == w then Some(l[0].0) else FindSurface(l[1..], w)
  }

  /** The ivi surface a view belongs to (input_ctrl_get_surf_ctx_from_surf). */
  function SurfaceOf(s: State, v: View): Option<nat> {
    if v.main.None? then None else FindSurface(s.surfaces, v.main.value)
  }

  /** Seat list search by name (input_ctrl_get_seat_ctx). */
  function FindSeat(l: seq<(nat, Seat)>, name: string): Option<nat> {
    if l == [] then None else if l[0].1.name == name then Some(l[0].0) else FindSeat(l[1..], name)
  }

  // ---------- primitive updates ----------

  function PutRecord(s: State, id: nat, k: nat, r: Record): State {
    match Lookup(s.surfaces, id)
    case None => s
    case Some(sf) => s.(surfaces := Put(s.surfaces, id, sf.(accepted := Put(sf.accepted, k, r))))
  }

  function PutSeat(s: State, k: nat, seat: Seat): State {
    s.(seats := Put(s.seats, k, seat))
  }

  function Send(s: State, e: Event): State {
    s.(out := s.out + [e])
  }

  // ---------- pointer focus ----------

  /** Sets or clears the pointer bit and tells the controllers
      (input_ctrl_snd_focus_to_controller for the pointer). */
  function SendPointer(s: State, id: nat, k: nat, on: bool): State {
    match RecordOf(s, id, k)
    case None => s
    case Some(r) => Send(PutRecord(s, id, k, r.(focus := r.focus.(ptr := on))), InputFocus(id, POINTING, on))
  }

  function SetFocus(s: State, k: nat, v: Option<View>): State {
    match Lookup(s.seats, k) case None => s case Some(seat) => PutSeat(s, k, seat.(focus := v))
  }

  /** Takes the pointer bit away from the surface that owns the focus. */
  function Unmark(s: State, k: nat): State {
    match Lookup(s.seats, k)
    case None => s
    case Some(seat) =>
      if seat.focus.None? then s
      else match SurfaceOf(s, seat.focus.value) case None => s case Some(id) => SendPointer(s, id, k, false)
  }

  /** input_ctrl_ptr_leave_west_focus. */
  function LeavePointer(s: State, k: nat): State {
    SetFocus(Unmark(s, k), k, None)
  }

  /** input_ctrl_ptr_set_west_focus; `target` is None when the view under the
      pointer has to be picked. */
  function SetWestFocus(s: State, k: nat, target: Option<View>, env: Env): State {
    match Lookup(s.seats, k)
    case None => s
    case Some(seat) =>
      var view := if target.None? then env.pick(k) else target;
      if seat.focus == view then s
      else
        var s1 := Unmark(s, k);
        if view.None? then SetFocus(s1, k, None)
        else match SurfaceOf(s1, view.value)
          case None => SetFocus(s1, k, view)
          case Some(id) =>
            if RecordOf(s1, id, k).Some? then SetFocus(SendPointer(s1, id, k, true), k, view)
            else SetFocus(s1, k, None)
  }

  /** pointer_grab_focus. */
  function GrabFocus(s: State, k: nat, env: Env): State {
    match Lookup(s.seats, k)
    case None => s
    case Some(seat) =>
      if seat.buttons > 0 then s
      else if seat.forced.None? then SetWestFocus(s, k, None, env)
      else if seat.forcedOn then
        (var v := env.first(seat.forced.value);
         if v.Some? then SetWestFocus(s, k, v, env) else s)
      else if seat.focus.Some? then
        var s1 := if ShowsForced(s, seat) then LeavePointer(s, k) else s;
        SetForced(s1, k, None, seat.forcedOn)
      else s
  }

  /** `pointer->focus->surface == forced_west_surf`. */
  predicate ShowsForced(s: State, seat: Seat)
    requires seat.focus.Some? && seat.forced.Some?
  {
    var sf := Lookup(s.surfaces, seat.forced.value);
    sf.Some? && sf.value.wsurf == seat.focus.value.surface
  }

  function SetForced(s: State, k: nat, forced: Option<nat>, on: bool): State {
    match Lookup(s.seats, k)
    case None => s
    case Some(seat) => PutSeat(s, k, seat.(forced := forced, forcedOn := on))
  }

  /** input_ctrl_ptr_clear_focus, also run when the grab is cancelled. */
  function ClearPointer(s: State, k: nat): State {
    match Lookup(s.seats, k)
    case None => s
    case Some(seat) =>
      if seat.focus.None? then s else SetForced(LeavePointer(s, k), k, None, seat.forcedOn)
  }

  /** input_ctrl_ptr_set_focus_surf. */
  function ForcePointer(s: State, id: nat, k: nat, enabled: bool, env: Env): State {
    match Lookup(s.seats, k)
    case None => s
    case Some(seat) =>
      if !seat.pointer then s
      else if enabled then
        if seat.forced == Some(id) then s else GrabFocus(SetForced(s, k, Some(id), true), k, env)
      else
        if seat.forced == Some(id) then GrabFocus(SetForced(s, k, seat.forced, false), k, env) else s
  }

  // ---------- keyboard focus ----------

  /** input_ctrl_kbd_leave_surf. */
  function KbdLeave(s: State, id: nat, k: nat): State {
    match RecordOf(s, id, k)
    case None => s
    case Some(r) =>
      if !r.focus.kbd then s
      else
        var s1 := s.(kbd := s.kbd + [Leave(r.session)]);
        Send(PutRecord(s1, id, k, r.(focus := r.focus.(kbd := false))), InputFocus(id, KEYBOARD, false))
  }

  /** input_ctrl_kbd_enter_surf. */
  function KbdEnter(s: State, id: nat, k: nat): State {
    match RecordOf(s, id, k)
    case None => s
    case Some(r) =>
      if r.focus.kbd then s
      else
        var s1 := s.(kbd := s.kbd + [Enter(r.session)]);
        Send(PutRecord(s1, id, k, r.(focus := r.focus.(kbd := true))), InputFocus(id, KEYBOARD, true))
  }

  /** input_ctrl_kbd_set_focus_surf. */
  function KbdSetFocus(s: State, id: nat, k: nat, enabled: bool): State {
    match Lookup(s.seats, k)
    case None => s
    case Some(seat) =>
      if !seat.keyboard then s else if enabled then KbdEnter(s, id, k) else KbdLeave(s, id, k)
  }

  /** Key events go to every surface with the keyboard bit, in list order
      (keyboard_grab_key). */
  function KeyEvents(l: seq<(nat, Surface)>, k: nat): seq<KbdEvent> {
    if l == [] then []
    else
      var r := Lookup(l[0].1.accepted, k);
      (if r.Some? && r.value.focus.kbd then [Key(r.value.session)] else []) + KeyEvents(l[1..], k)
  }

  /** keyboard_grab_cancel over the surfaces `ids`. */
  function LeaveAll(s: State, ids: seq<nat>, k: nat): State
    decreases |ids|
  {
    if ids == [] then s else LeaveAll(KbdLeave(s, ids[0], k), ids[1..], k)
  }

  // ---------- requests ----------

  /** One round of the loop in setup_input_focus. */
  function FocusSeat(s: State, id: nat, k: nat, device: Devices, enabled: bool, env: Env): State {
    var s1 := if device.ptr then ForcePointer(s, id, k, enabled, env) else s;
    var s2 := if device.kbd then KbdSetFocus(s1, id, k, enabled) else s1;
    if device.touch then Send(s2, InputFocus(id, device, enabled)) else s2
  }

  function FocusSeats(s: State, id: nat, ks: seq<nat>, device: Devices, enabled: bool, env: Env): State
    decreases |ks|
  {
    if ks == [] then s
    else FocusSeats(FocusSeat(s, id, ks[0], device, enabled, env), id, ks[1..], device, enabled, env)
  }

  /** setup_input_focus. */
  function SetInputFocus(s: State, id: nat, device: Devices, enabled: bool, env: Env): State {
    match Lookup(s.surfaces, id)
    case None => s
    case Some(sf) => FocusSeats(s, id, Keys(sf.accepted), device, enabled, env)
  }

  /** add_accepted_seat: a fresh record at the head unless there is one. */
  function AddAccepted(s: State, id: nat, k: nat): State {
    match Lookup(s.surfaces, id)
    case None => s
    case Some(sf) =>
      if Lookup(sf.accepted, k).Some? then s
      else
        var r := Record(Devices(false, false, false), s.sessions);
        s.(surfaces := Put(s.surfaces, id, sf.(accepted := [(k, r)] + sf.accepted)), sessions := s.sessions + 1)
  }

  /** remove_if_seat_accepted. */
  function RemoveAccepted(s: State, id: nat, k: nat): State {
    match Lookup(s.surfaces, id)
    case None => s
    case Some(sf) => s.(surfaces := Put(s.surfaces, id, sf.(accepted := Remove(sf.accepted, k))))
  }

  /** The accepting half of setup_input_acceptance, before the broadcast. */
  function Accept(s: State, id: nat, k: nat, env: Env): State {
    var s1 := AddAccepted(s, id, k);
    match Lookup(s.seats, k)
    case None => s1
    case Some(seat) => if seat.pointer && seat.focus.None? then GrabFocus(s1, k, env) else s1
  }

  /** What a surface loses before its record goes: the pointer, if it has the
      pointer bit, and the keyboard, if it has the KEYBOARD bit. */
  function Unfocus(s: State, id: nat, k: nat): State {
    match Lookup(s.seats, k)
    case None => s
    case Some(seat) =>
      match RecordOf(s, id, k)
      case None => s
      case Some(r) =>
        var s1 := if seat.pointer && r.focus.ptr then ClearPointer(s, k) else s;
        if seat.keyboard && r.focus.kbd then KbdLeave(s1, id, k) else s1
  }

  /** The dropping half of setup_input_acceptance, before the broadcast. */
  function Reject(s: State, id: nat, k: nat): State {
    if Lookup(s.seats, k).None? || RecordOf(s, id, k).None? then s else RemoveAccepted(Unfocus(s, id, k), id, k)
  }

  /** setup_input_acceptance. */
  function SetInputAcceptance(s: State, id: nat, name: string, accepted: bool, env: Env): State {
    match FindSeat(s.seats, name)
    case None => s
    case Some(k) =>
      if Lookup(s.surfaces, id).None? then s
      else if accepted then Send(Accept(s, id, k, env), InputAcceptance(id, name, true))
      else if RecordOf(s, id, k).None? then s
      else Send(Reject(s, id, k), InputAcceptance(id, name, false))
  }

  // ---------- seats and surfaces ----------

  /** The default seat is added to every surface in list order. */
  function AcceptEverywhere(s: State, ids: seq<nat>, k: nat, name: string): State
    decreases |ids|
  {
    if ids == [] then s
    else AcceptEverywhere(Send(AddAccepted(s, ids[0], k), InputAcceptance(ids[0], name, true)), ids[1..], k, name)
  }

  /** A new seat is listed and announced. */
  function AnnounceSeat(s: State, k: nat, name: string, keyboard: bool, pointer: bool): State {
    Send(s.(seats := [(k, Seat(name, keyboard, pointer, None, None, false, 0))] + s.seats), SeatCreated(name))
  }

  /** handle_seat_create. */
  function CreateSeat(s: State, k: nat, name: string, keyboard: bool, pointer: bool): State {
    var s1 := AnnounceSeat(s, k, name, keyboard, pointer);
    if name == s.defaultSeat then AcceptEverywhere(s1, Keys(s.surfaces), k, name) else s1
  }

  function ForgetSeat(s: State, ids: seq<nat>, k: nat): State
    decreases |ids|
  {
    if ids == [] then s else ForgetSeat(RemoveAccepted(s, ids[0], k), ids[1..], k)
  }

  /** destroy_seat. */
  function DestroySeat(s: State, k: nat): State {
    match Lookup(s.seats, k)
    case None => s
    case Some(seat) =>
      var s1 := Send(ForgetSeat(s, Keys(s.surfaces), k), SeatDestroyed(seat.name));
      s1.(seats := Remove(s1.seats, k))
  }

  /** The shell lists a new surface. */
  function ListSurface(s: State, id: nat, wsurf: nat): State {
    s.(surfaces := [(id, Surface(wsurf, []))] + s.surfaces)
  }

  /** The shell's list insertion followed by handle_surface_create. */
  function CreateSurface(s: State, id: nat, wsurf: nat): State {
    var s1 := ListSurface(s, id, wsurf);
    match FindSeat(s.seats, s.defaultSeat)
    case None => s1
    case Some(k) => Send(AddAccepted(s1, id, k), InputAcceptance(id, s.defaultSeat, true))
  }

  /** Forced pointer focus on `id` ends for every seat that `id` accepts. */
  function Unforce(s: State, id: nat, ks: seq<nat>): State
    decreases |ks|
  {
    if ks == [] then s
    else
      var seat := Lookup(s.seats, ks[0]);
      var s1 := if seat.Some? && seat.value.forced == Some(id)
                then SetForced(s, ks[0], None, seat.value.forcedOn) else s;
      Unforce(s1, id, ks[1..])
  }

  /** handle_surface_destroy followed by the shell's list removal. */
  function DestroySurface(s: State, id: nat): State {
    match Lookup(s.surfaces, id)
    case None => s
    case Some(sf) =>
      var s1 := Unforce(s, id, Keys(sf.accepted));
      s1.(surfaces := Remove(s1.surfaces, id))
  }

  // ---------- device events ----------

  /** Weston changes a seat's devices; a pointer only goes away unfocused. */
  function ChangeCaps(s: State, k: nat, keyboard: bool, pointer: bool): State {
    match Lookup(s.seats, k)
    case None => s
    case Some(seat) => PutSeat(s, k, seat.(keyboard := keyboard, pointer := pointer))
  }

  /** pointer_grab_motion. */
  function Motion(s: State, k: nat): State {
    match Lookup(s.seats, k) case None => s case Some(seat) => SetForced(s, k, None, seat.forcedOn)
  }

  /** pointer_grab_button, after weston updated the button count. */
  function Button(s: State, k: nat, count: nat, released: bool, env: Env): State {
    match Lookup(s.seats, k)
    case None => s
    case Some(seat) =>
      var s1 := PutSeat(s, k, seat.(buttons := count));
      if count == 0 && released then GrabFocus(s1, k, env) else s1
  }

  function KeyPress(s: State, k: nat): State {
    s.(kbd := s.kbd + KeyEvents(s.surfaces, k))
  }

  function CancelKeyboard(s: State, k: nat): State {
    LeaveAll(s, Keys(s.surfaces), k)
  }

  // ---------- steps ----------

  datatype Op =
    | SeatCreate(k: nat, name: string, keyboard: bool, pointer: bool)
    | SeatDestroy(k: nat)
    | Caps(k: nat, keyboard: bool, pointer: bool)
    | SurfaceCreate(id: nat, wsurf: nat)
    | SurfaceDestroy(id: nat)
    | FocusRequest(id: nat, device: Devices, enabled: bool, env: Env)
    | AcceptanceRequest(id: nat, name: string, accepted: bool, env: Env)
    | PointerFocus(k: nat, env: Env)
    | PointerMotion(k: nat)
    | PointerButton(k: nat, count: nat, released: bool, env: Env)
    | PointerCancel(k: nat)
    | KeyboardKey(k: nat)
    | KeyboardCancel(k: nat)

  function Step(s: State, op: Op): State {
    match op
    case SeatCreate(k, name, keyboard, pointer) => CreateSeat(s, k, name, keyboard, pointer)
    case SeatDestroy(k) => DestroySeat(s, k)
    case Caps(k, keyboard, pointer) => ChangeCaps(s, k, keyboard, pointer)
    case SurfaceCreate(id, wsurf) => CreateSurface(s, id, wsurf)
    case SurfaceDestroy(id) => DestroySurface(s, id)
    case FocusRequest(id, device, enabled, env) => SetInputFocus(s, id, device, enabled, env)
    case AcceptanceRequest(id, name, accepted, env) => SetInputAcceptance(s, id, name, accepted, env)
    case PointerFocus(k, env) => if HasPointer(s, k) then GrabFocus(s, k, env) else s
    case PointerMotion(k) => Motion(s, k)
    case PointerButton(k, count, released, env) => if HasPointer(s, k) then Button(s, k, count, released, env) else s
    case PointerCancel(k) => ClearPointer(s, k)
    case KeyboardKey(k) => KeyPress(s, k)
    case KeyboardCancel(k) => CancelKeyboard(s, k)
  }

  predicate HasPointer(s: State, k: nat) {
    var seat := Lookup(s.seats, k);
    seat.Some? && seat.value.pointer
  }

  /** What weston guarantees about its own notifications: identities of live
      objects are unique, a new surface is not yet under a pointer, and a
      pointer device disappears only after its focus was cleared. */
  predicate Legal(s: State, op: Op) {
    match op
    case SeatCreate(k, name, _, _) => Lookup(s.seats, k).None? && FindSeat(s.seats, name).None?
    case Caps(k, _, pointer) =>
      var seat := Lookup(s.seats, k);
      seat.Some? && (seat.value.focus.Some? ==> pointer)
    case SurfaceCreate(id, wsurf) =>
      && Lookup(s.surfaces, id).None? && FindSurface(s.surfaces, wsurf).None?
      && forall i :: 0 <= i < |s.seats| ==> !OnSurface(s.seats[i].1.focus, wsurf)
    case _ => true
  }

  predicate OnSurface(v: Option<View>, wsurf: nat) {
    v.Some? && v.value.main == Some(wsurf)
  }
}
