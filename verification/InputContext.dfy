/** The input controller as the code runs it: one object whose lists are
    searched and updated in place. Every method is proved to do what the
    function of the same operation in `Input` says, and every bound
    ivi_input resource to get exactly the broadcast. */
module InputContext {
  import opened WlList
  import opened Protocol
  import opened Input
  import opened System

  // ---------- list loops ----------

  /** wl_list_for_each with an early exit on the first match. */
  method Search<K(==), V>(l: seq<(K, V)>, k: K) returns (i: nat)
    ensures i <= |l|
    ensures i < |l| ==> l[i].0 == k
    ensures forall j :: 0 <= j < i ==> l[j].0 != k
    ensures Lookup(l, k) == if i < |l| then Some(l[i].1) else None
  {
    i := 0;
    while i < |l| && l[i].0 != k
      invariant i <= |l|
      invariant forall j :: 0 <= j < i ==> l[j].0 != k
      invariant Lookup(l, k) == Lookup(l[i..], k)
    {
      assert l[i..][1..] == l[i + 1..];
      i := i + 1;
    }
  }

  class InputController {
    var defaultSeat: string
    /** ivishell->list_surface with the accepted_seat_list of each surface. */
    var surfaces: seq<(nat, Surface)>
    var seats: seq<(nat, Seat)>
    var sessions: nat
    /** wl_keyboard events sent. */
    var kbd: seq<KbdEvent>
    /** resource_list: bound clients and what each was sent. */
    var resources: seq<(nat, seq<Event>)>
    /** Everything broadcast since start-up. */
    ghost var out: seq<Event>
    /** Per resource, the length of `out` when it was bound and its replay. */
    ghost var bound: seq<(nat, seq<Event>)>

    ghost function St(): State
      reads this
    {
      State(defaultSeat, surfaces, seats, sessions, kbd, out)
    }

    /** Every resource received its replay and then the whole broadcast. */
    ghost predicate Valid()
      reads this
    {
      |resources| == |bound|
      && forall i :: 0 <= i < |resources| ==>
           bound[i].0 <= |out| && resources[i].1 == bound[i].1 + out[bound[i].0..]
    }

    twostate predicate Kept()
      reads this
    {
      Valid() && bound == old(bound) && Keys(resources) == Keys(old(resources))
    }

    constructor (name: string)
      ensures Valid() && St() == State(name, [], [], 0, [], []) && resources == []
    {
      defaultSeat, surfaces, seats, sessions, kbd, resources := name, [], [], 0, [], [];
      out, bound := [], [];
    }

    /** send_input_focus and send_input_acceptance: a loop over the resources. */
    method Broadcast(e: Event)
      requires Valid()
      modifies this`resources, this`out
      ensures St() == Input.Send(old(St()), e) && Kept()
    {
      out := out + [e];
      var i := 0;
      while i < |resources|
        invariant i <= |resources| == |bound| && out == old(out) + [e]
        invariant Keys(resources) == Keys(old(resources))
        invariant forall j :: 0 <= j < i ==>
                    bound[j].0 <= |out| && resources[j].1 == bound[j].1 + out[bound[j].0..]
        invariant forall j :: i <= j < |resources| ==> resources[j] == old(resources)[j]
      {
        assert bound[i].1 + out[bound[i].0..] == (bound[i].1 + old(out)[bound[i].0..]) + [e];
        resources := resources[i := (resources[i].0, resources[i].1 + [e])];
        i := i + 1;
      }
    }

    /** get_accepted_seat. */
    method GetAcceptedSeat(id: nat, k: nat) returns (r: Option<Record>)
      ensures r == RecordOf(St(), id, k)
    {
      var i := Search(surfaces, id);
      if i == |surfaces| {
        return None;
      }
      var j := Search(surfaces[i].1.accepted, k);
      r := if j < |surfaces[i].1.accepted| then Some(surfaces[i].1.accepted[j].1) else None;
    }

    /** Writes through the `seat_focus` pointer get_accepted_seat returned. */
    method WriteRecord(id: nat, k: nat, r: Record)
      requires Valid()
      modifies this`surfaces
      ensures St() == PutRecord(old(St()), id, k, r) && Kept()
    {
      var i := Search(surfaces, id);
      if i < |surfaces| {
        var sf := surfaces[i].1;
        var j := Search(sf.accepted, k);
        if j < |sf.accepted| {
          AtIndex(sf.accepted, k, j, r);
          AtIndex(surfaces, id, i, sf.(accepted := sf.accepted[j := (k, r)]));
          surfaces := surfaces[i := (id, sf.(accepted := sf.accepted[j := (k, r)]))];
        } else {
          NoMatch(sf.accepted, k, r);
          AtIndex(surfaces, id, i, sf);
          assert surfaces[i := (id, sf)] == surfaces;
        }
      }
    }

    lemma {:induction false} NoMatch<V>(l: seq<(nat, V)>, k: nat, v: V)
      requires Lookup(l, k).None?
      ensures Put(l, k, v) == l && Remove(l, k) == l
    {
      if l != [] {
        NoMatch(l[1..], k, v);
      }
    }

    /** Writes through a `seat_ctx` pointer. */
    method WriteSeat(k: nat, seat: Seat)
      requires Valid()
      modifies this`seats
      ensures St() == PutSeat(old(St()), k, seat) && Kept()
      ensures Keys(seats) == Keys(old(seats))
    {
      var i := Search(seats, k);
      if i < |seats| {
        AtIndex(seats, k, i, seat);
        seats := seats[i := (k, seat)];
      } else {
        NoMatch(seats, k, seat);
      }
    }

    method GetSeat(k: nat) returns (seat: Option<Seat>)
      ensures seat == Lookup(seats, k)
    {
      var i := Search(seats, k);
      seat := if i < |seats| then Some(seats[i].1) else None;
    }

    /** input_ctrl_get_seat_ctx. */
    method GetSeatByName(name: string) returns (k: Option<nat>)
      ensures k == FindSeat(seats, name)
    {
      var i := 0;
      while i < |seats|
        invariant i <= |seats|
        invariant FindSeat(seats, name) == FindSeat(seats[i..], name)
      {
        assert seats[i..][1..] == seats[i + 1..];
        if seats[i].1.name == name {
          return Some(seats[i].0);
        }
        i := i + 1;
      }
      k := None;
    }

    /** input_ctrl_get_surf_ctx_from_surf. */
    method GetSurface(v: View) returns (id: Option<nat>)
      ensures id == SurfaceOf(St(), v)
    {
      if v.main.None? {
        return None;
      }
      var i := 0;
      while i < |surfaces|
        invariant i <= |surfaces|
        invariant FindSurface(surfaces, v.main.value) == FindSurface(surfaces[i..], v.main.value)
      {
        assert surfaces[i..][1..] == surfaces[i + 1..];
        if surfaces[i].1.wsurf == v.main.value {
          return Some(surfaces[i].0);
        }
        i := i + 1;
      }
      id := None;
    }

    // ---------- pointer ----------

    /** input_ctrl_snd_focus_to_controller for the pointer. */
    method SndFocusToController(id: Option<nat>, k: nat, enabled: bool) returns (accepted: bool)
      requires Valid()
      modifies this`surfaces, this`resources, this`out
      ensures St() == (if id.None? then old(St()) else SendPointer(old(St()), id.value, k, enabled)) && Kept()
      ensures accepted == (id.Some? && RecordOf(old(St()), id.value, k).Some?)
    {
      accepted := false;
      if id.Some? {
        var r := GetAcceptedSeat(id.value, k);
        if r.Some? {
          WriteRecord(id.value, k, r.value.(focus := r.value.focus.(ptr := enabled)));
          Broadcast(InputFocus(id.value, POINTING, enabled));
          accepted := true;
        }
      }
    }

    /** weston_pointer_set_focus and weston_pointer_clear_focus. */
    method SetPointerFocus(k: nat, v: Option<View>)
      requires Valid()
      modifies this`seats
      ensures St() == Input.SetFocus(old(St()), k, v) && Kept()
      ensures Keys(seats) == Keys(old(seats))
    {
      var seat := GetSeat(k);
      if seat.Some? {
        WriteSeat(k, seat.value.(focus := v));
      }
    }

    /** input_ctrl_ptr_leave_west_focus, of a pointer that has a focus. */
    method PtrLeaveWestFocus(k: nat)
      requires Valid() && Lookup(seats, k).Some? && Lookup(seats, k).value.focus.Some?
      modifies this`surfaces, this`seats, this`resources, this`out
      ensures St() == LeavePointer(old(St()), k) && Kept()
      ensures Keys(seats) == Keys(old(seats))
    {
      var seat := GetSeat(k);
      var id := GetSurface(seat.value.focus.value);
      var _ := SndFocusToController(id, k, false);
      SetPointerFocus(k, None);
    }

    /** input_ctrl_ptr_set_west_focus. */
    method PtrSetWestFocus(k: nat, target: Option<View>, env: Env)
      requires Valid() && Lookup(seats, k).Some?
      modifies this`surfaces, this`seats, this`resources, this`out
      ensures St() == SetWestFocus(old(St()), k, target, env) && Kept()
      ensures Keys(seats) == Keys(old(seats))
    {
      var view := target;
      if view.None? {
        view := env.pick(k);
      }
      var seat := GetSeat(k);
      if seat.value.focus != view {
        if seat.value.focus.Some? {
          var left := GetSurface(seat.value.focus.value);
          var _ := SndFocusToController(left, k, false);
        }
        if view.Some? {
          var id := GetSurface(view.value);
          if id.Some? {
            var accepted := SndFocusToController(id, k, true);
            SetPointerFocus(k, if accepted then view else None);
          } else {
            SetPointerFocus(k, view);
          }
        } else {
          SetPointerFocus(k, None);
        }
      }
    }

    method WriteForced(k: nat, forced: Option<nat>, on: bool)
      requires Valid()
      modifies this`seats
      ensures St() == SetForced(old(St()), k, forced, on) && Kept()
      ensures Keys(seats) == Keys(old(seats))
    {
      var seat := GetSeat(k);
      if seat.Some? {
        WriteSeat(k, seat.value.(forced := forced, forcedOn := on));
      }
    }

    /** pointer_grab_focus. */
    method PointerGrabFocus(k: nat, env: Env)
      requires Valid() && Lookup(seats, k).Some?
      modifies this`surfaces, this`seats, this`resources, this`out
      ensures St() == GrabFocus(old(St()), k, env) && Kept()
      ensures Keys(seats) == Keys(old(seats))
    {
      var found := GetSeat(k);
      var seat := found.value;
      if seat.buttons > 0 {
        return;
      }
      if seat.forced.Some? {
        if seat.forcedOn {
          var v := env.first(seat.forced.value);
          if v.Some? {
            PtrSetWestFocus(k, v, env);
          }
        } else if seat.focus.Some? {
          var i := Search(surfaces, seat.forced.value);
          if i < |surfaces| && surfaces[i].1.wsurf == seat.focus.value.surface {
            PtrLeaveWestFocus(k);
          }
          WriteForced(k, None, seat.forcedOn);
        }
      } else {
        PtrSetWestFocus(k, None, env);
      }
    }

    /** input_ctrl_ptr_clear_focus and pointer_grab_cancel. */
    method PtrClearFocus(k: nat)
      requires Valid() && Lookup(seats, k).Some?
      modifies this`surfaces, this`seats, this`resources, this`out
      ensures St() == ClearPointer(old(St()), k) && Kept()
      ensures Keys(seats) == Keys(old(seats))
    {
      var seat := GetSeat(k);
      if seat.value.focus.Some? {
        PtrLeaveWestFocus(k);
        WriteForced(k, None, seat.value.forcedOn);
      }
    }

    /** input_ctrl_ptr_set_focus_surf. */
    method PtrSetFocusSurf(id: nat, k: nat, enabled: bool, env: Env)
      requires Valid() && Lookup(seats, k).Some?
      modifies this`surfaces, this`seats, this`resources, this`out
      ensures St() == ForcePointer(old(St()), id, k, enabled, env) && Kept()
      ensures Keys(seats) == Keys(old(seats))
    {
      var found := GetSeat(k);
      var seat := found.value;
      if seat.pointer {
        if enabled {
          if seat.forced != Some(id) {
            WriteForced(k, Some(id), true);
            StillThere(old(St()), k, Some(id), true);
            PointerGrabFocus(k, env);
          }
        } else if seat.forced == Some(id) {
          WriteForced(k, seat.forced, false);
          StillThere(old(St()), k, seat.forced, false);
          PointerGrabFocus(k, env);
        }
      }
    }

    lemma StillThere(s: State, k: nat, forced: Option<nat>, on: bool)
      requires Lookup(s.seats, k).Some?
      ensures Lookup(SetForced(s, k, forced, on).seats, k).Some?
    {
      LookupPut(s.seats, k, Lookup(s.seats, k).value.(forced := forced, forcedOn := on), k);
    }

    // ---------- keyboard ----------

    /** input_ctrl_kbd_leave_surf and input_ctrl_kbd_enter_surf. */
    method KbdMove(id: nat, k: nat, enter: bool)
      requires Valid()
      modifies this`surfaces, this`kbd, this`resources, this`out
      ensures St() == (if enter then KbdEnter(old(St()), id, k) else KbdLeave(old(St()), id, k)) && Kept()
    {
      var r := GetAcceptedSeat(id, k);
      if r.Some? && r.value.focus.kbd != enter {
        kbd := kbd + [if enter then Enter(r.value.session) else Leave(r.value.session)];
        WriteRecord(id, k, r.value.(focus := r.value.focus.(kbd := enter)));
        Broadcast(InputFocus(id, KEYBOARD, enter));
      }
    }

    /** keyboard_grab_key: the key goes to every surface with the keyboard bit. */
    method KeyboardGrabKey(k: nat)
      requires Valid()
      modifies this`kbd
      ensures St() == KeyPress(old(St()), k) && Kept()
    {
      var i := 0;
      while i < |surfaces|
        invariant i <= |surfaces|
        invariant kbd + KeyEvents(surfaces[i..], k) == old(kbd) + KeyEvents(surfaces, k)
      {
        assert surfaces[i..][1..] == surfaces[i + 1..];
        var j := Search(surfaces[i].1.accepted, k);
        if j < |surfaces[i].1.accepted| && surfaces[i].1.accepted[j].1.focus.kbd {
          kbd := kbd + [Key(surfaces[i].1.accepted[j].1.session)];
        }
        i := i + 1;
      }
    }

    /** keyboard_grab_cancel. */
    method KeyboardGrabCancel(k: nat)
      requires Valid()
      modifies this`surfaces, this`kbd, this`resources, this`out
      ensures St() == CancelKeyboard(old(St()), k) && Kept()
    {
      var ids := Keys(surfaces);
      var i := 0;
      while i < |ids|
        invariant i <= |ids| && Kept()
        invariant seats == old(seats)
        invariant defaultSeat == old(defaultSeat) && sessions == old(sessions)
        invariant LeaveAll(St(), ids[i..], k) == LeaveAll(old(St()), ids, k)
      {
        assert ids[i..][1..] == ids[i + 1..];
        KbdMove(ids[i], k, false);
        i := i + 1;
      }
    }

    // ---------- requests ----------

    /** setup_input_focus. */
    method SetupInputFocus(id: nat, device: Devices, enabled: bool, env: Env)
      requires Valid()
      requires forall i, j :: 0 <= i < |surfaces| && 0 <= j < |surfaces[i].1.accepted| ==>
                 Lookup(seats, surfaces[i].1.accepted[j].0).Some?
      modifies this`surfaces, this`seats, this`kbd, this`resources, this`out
      ensures St() == SetInputFocus(old(St()), id, device, enabled, env) && Kept()
    {
      var n := Search(surfaces, id);
      if n == |surfaces| {
        return;
      }
      var ks := Keys(surfaces[n].1.accepted);
      var i := 0;
      while i < |ks|
        invariant i <= |ks| && Kept()
        invariant defaultSeat == old(defaultSeat) && sessions == old(sessions)
        invariant Keys(seats) == Keys(old(seats))
        invariant FocusSeats(St(), id, ks[i..], device, enabled, env) == FocusSeats(old(St()), id, ks, device, enabled, env)
      {
        assert ks[i..][1..] == ks[i + 1..];
        LookupKeys(old(seats), ks[i]);
        LookupKeys(seats, ks[i]);
        FocusOne(id, ks[i], device, enabled, env);
        i := i + 1;
      }
    }

    /** The loop body of setup_input_focus. */
    method FocusOne(id: nat, k: nat, device: Devices, enabled: bool, env: Env)
      requires Valid() && Lookup(seats, k).Some?
      modifies this`surfaces, this`seats, this`kbd, this`resources, this`out
      ensures St() == FocusSeat(old(St()), id, k, device, enabled, env) && Kept()
      ensures Keys(seats) == Keys(old(seats))
    {
      if device.ptr {
        PtrSetFocusSurf(id, k, enabled, env);
      }
      LookupKeys(old(seats), k);
      LookupKeys(seats, k);
      if device.kbd {
        var seat := GetSeat(k);
        if seat.value.keyboard {
          KbdMove(id, k, enabled);
        }
      }
      if device.touch {
        Broadcast(InputFocus(id, device, enabled));
      }
    }

    /** add_accepted_seat. */
    method AddAcceptedSeat(id: nat, k: nat)
      requires Valid()
      modifies this`surfaces, this`sessions
      ensures St() == AddAccepted(old(St()), id, k) && Kept()
    {
      var i := Search(surfaces, id);
      if i < |surfaces| {
        var sf := surfaces[i].1;
        var j := Search(sf.accepted, k);
        if j == |sf.accepted| {
          var fr := Record(Devices(false, false, false), sessions);
          AtIndex(surfaces, id, i, sf.(accepted := [(k, fr)] + sf.accepted));
          surfaces := surfaces[i := (id, sf.(accepted := [(k, fr)] + sf.accepted))];
          sessions := sessions + 1;
        }
      }
    }

    /** remove_if_seat_accepted. */
    method RemoveIfSeatAccepted(id: nat, k: nat)
      requires Valid()
      modifies this`surfaces
      ensures St() == RemoveAccepted(old(St()), id, k) && Kept()
    {
      var i := Search(surfaces, id);
      if i < |surfaces| {
        var sf := surfaces[i].1;
        var j := Search(sf.accepted, k);
        if j < |sf.accepted| {
          AtIndex(sf.accepted, k, j, sf.accepted[j].1);
          AtIndex(surfaces, id, i, sf.(accepted := sf.accepted[..j] + sf.accepted[j + 1..]));
          surfaces := surfaces[i := (id, sf.(accepted := sf.accepted[..j] + sf.accepted[j + 1..]))];
        } else {
          NoMatch(sf.accepted, k, Record(Devices(false, false, false), 0));
          AtIndex(surfaces, id, i, sf);
          assert surfaces[i := (id, sf)] == surfaces;
        }
      }
    }

    /** setup_input_acceptance. */
    method SetupInputAcceptance(id: nat, name: string, accepted: bool, env: Env)
      requires Valid()
      requires FindSeat(seats, name).Some? ==> Lookup(seats, FindSeat(seats, name).value).Some?
      modifies this`surfaces, this`seats, this`sessions, this`kbd, this`resources, this`out
      ensures St() == SetInputAcceptance(old(St()), id, name, accepted, env) && Kept()
    {
      var found := GetSeatByName(name);
      if found.None? {
        return;
      }
      var k := found.value;
      var n := Search(surfaces, id);
      var done := false;
      if n < |surfaces| {
        var seat := GetSeat(k);
        if accepted {
          AddAcceptedSeat(id, k);
          done := true;
          if seat.value.pointer && seat.value.focus.None? {
            PointerGrabFocus(k, env);
          }
        } else {
          var r := GetAcceptedSeat(id, k);
          if r.Some? {
            if seat.value.pointer && r.value.focus.ptr {
              PtrClearFocus(k);
            }
            if seat.value.keyboard && r.value.focus.kbd {
              KbdMove(id, k, false);
            }
            RemoveIfSeatAccepted(id, k);
            done := true;
          }
        }
      }
      if done {
        Broadcast(InputAcceptance(id, name, accepted));
      }
    }

    // ---------- seats and surfaces ----------

    /** handle_seat_create. */
    method HandleSeatCreate(k: nat, name: string, keyboard: bool, pointer: bool)
      requires Valid()
      modifies this`surfaces, this`seats, this`sessions, this`resources, this`out
      ensures St() == CreateSeat(old(St()), k, name, keyboard, pointer) && Kept()
    {
      seats := [(k, Seat(name, keyboard, pointer, None, None, false, 0))] + seats;
      Broadcast(SeatCreated(name));
      if name == defaultSeat {
        var ids := Keys(surfaces);
        ghost var start := St();
        var i := 0;
        while i < |ids|
          invariant i <= |ids| && Kept()
          invariant AcceptEverywhere(St(), ids[i..], k, name) == AcceptEverywhere(start, ids, k, name)
        {
          assert ids[i..][1..] == ids[i + 1..];
          AddAcceptedSeat(ids[i], k);
          Broadcast(InputAcceptance(ids[i], name, true));
          i := i + 1;
        }
      }
    }

    /** destroy_seat. */
    method DestroySeatCtx(k: nat)
      requires Valid() && Lookup(seats, k).Some?
      modifies this`surfaces, this`seats, this`resources, this`out
      ensures St() == DestroySeat(old(St()), k) && Kept()
    {
      var seat := GetSeat(k);
      var ids := Keys(surfaces);
      var i := 0;
      while i < |ids|
        invariant i <= |ids| && Kept() && seats == old(seats)
        invariant ForgetSeat(St(), ids[i..], k) == ForgetSeat(old(St()), ids, k)
      {
        assert ids[i..][1..] == ids[i + 1..];
        RemoveIfSeatAccepted(ids[i], k);
        i := i + 1;
      }
      Broadcast(SeatDestroyed(seat.value.name));
      var j := Search(seats, k);
      AtIndex(seats, k, j, seat.value);
      seats := seats[..j] + seats[j + 1..];
    }

    /** The shell's list insertion and handle_surface_create. */
    method HandleSurfaceCreate(id: nat, wsurf: nat)
      requires Valid()
      modifies this`surfaces, this`sessions, this`resources, this`out
      ensures St() == CreateSurface(old(St()), id, wsurf) && Kept()
    {
      surfaces := [(id, Surface(wsurf, []))] + surfaces;
      var k := GetSeatByName(defaultSeat);
      if k.Some? {
        AddAcceptedSeat(id, k.value);
        Broadcast(InputAcceptance(id, defaultSeat, true));
      }
    }

    /** input_ctrl_free_surf_ctx and the shell's list removal. */
    method HandleSurfaceDestroy(id: nat)
      requires Valid()
      modifies this`surfaces, this`seats
      ensures St() == DestroySurface(old(St()), id) && Kept()
    {
      var n := Search(surfaces, id);
      if n < |surfaces| {
        var ks := Keys(surfaces[n].1.accepted);
        var i := 0;
        while i < |ks|
          invariant i <= |ks| && Kept() && surfaces == old(surfaces)
          invariant Unforce(St(), id, ks[i..]) == Unforce(old(St()), id, ks)
        {
          assert ks[i..][1..] == ks[i + 1..];
          var seat := GetSeat(ks[i]);
          if seat.Some? && seat.value.forced == Some(id) {
            WriteForced(ks[i], None, seat.value.forcedOn);
          }
          i := i + 1;
        }
        AtIndex(surfaces, id, n, surfaces[n].1);
        surfaces := surfaces[..n] + surfaces[n + 1..];
      }
    }

    // ---------- binding ----------

    /** bind_ivi_input: seats in the compositor's order (oldest first), then
        every surface with its accepted seats. */
    method BindIviInput(client: nat)
      requires Valid()
      modifies this`resources, this`bound
      ensures St() == old(St()) && Valid()
      ensures resources == [(client, ReplaySeats(seats) + ReplayAcceptance(St(), surfaces))] + old(resources)
    {
      var sent := [];
      var i := |seats|;
      while i > 0
        invariant 0 <= i <= |seats| && resources == old(resources) && bound == old(bound)
        invariant sent == ReplaySeats(seats[i..])
      {
        i := i - 1;
        assert seats[i..][1..] == seats[i + 1..];
        sent := sent + [SeatCreated(seats[i].1.name)];
      }
      assert seats[0..] == seats;
      ghost var head := sent;
      var n := 0;
      while n < |surfaces|
        invariant n <= |surfaces| && resources == old(resources) && bound == old(bound)
        invariant sent + ReplayAcceptance(St(), surfaces[n..]) == head + ReplayAcceptance(St(), surfaces)
      {
        assert surfaces[n..][1..] == surfaces[n + 1..];
        var tail := ReplayOne(surfaces[n].0, surfaces[n].1.accepted);
        sent := sent + tail;
        n := n + 1;
      }
      assert surfaces[n..] == [];
      assert sent == head + ReplayAcceptance(St(), surfaces);
      resources := [(client, sent)] + resources;
      bound := [(|out|, sent)] + bound;
      assert out[|out|..] == [];
    }

    /** The inner loop of bind_ivi_input. */
    method ReplayOne(id: nat, l: seq<(nat, Record)>) returns (sent: seq<Event>)
      ensures sent == ReplayRecords(St(), id, l)
    {
      sent := [];
      var i := 0;
      while i < |l|
        invariant i <= |l|
        invariant sent + ReplayRecords(St(), id, l[i..]) == ReplayRecords(St(), id, l)
      {
        assert l[i..][1..] == l[i + 1..];
        sent := sent + [InputFocus(id, l[i].1.focus, true)];
        var seat := GetSeat(l[i].0);
        if seat.Some? {
          sent := sent + [InputAcceptance(id, seat.value.name, true)];
        }
        i := i + 1;
      }
    }
  }
}
