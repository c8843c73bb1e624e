/** What each request and device event leaves behind: where the pointer is, who
    has the keyboard, and which events were sent. */
module InputEffects {
  import opened WlList
  import opened Protocol
  import opened Input
  import opened InputProofs
  import opened InputRuns

  // ---------- where the pointer belongs ----------

  /** Seat `k` may point to view `v`: it belongs to no ivi surface, or to one that
      accepts the seat. */
  ghost predicate MayPoint(s: State, k: nat, v: View) {
    forall id :: v.main.Some? && Owns(s, id, v.main.value) ==> RecordOf(s, id, k).Some?
  }

  ghost function Granted(s: State, k: nat, v: Option<View>): Option<View> {
    if v.Some? && MayPoint(s, k, v.value) then v else None
  }

  /** The seat once its pointer is where it belongs: it stays during a drag; it
      goes to the view under it, or to the first view of the forced surface; a
      forcing that was switched off ends, and takes the pointer off the forced
      surface. */
  ghost function Settled(s: State, k: nat, seat: Seat, env: Env): Seat {
    if seat.buttons > 0 then seat
    else match seat.forced
      case None => seat.(focus := Granted(s, k, env.pick(k)))
      case Some(f) =>
        if seat.forcedOn then (if env.first(f).None? then seat else seat.(focus := Granted(s, k, env.first(f))))
        else if seat.focus.None? then seat
        else seat.(forced := None, focus := if Owns(s, f, seat.focus.value.surface) then None else seat.focus)
  }

  function OwnerEvent(s: State, v: Option<View>, on: bool): seq<Event> {
    if v.Some? && SurfaceOf(s, v.value).Some? then [InputFocus(SurfaceOf(s, v.value).value, POINTING, on)] else []
  }

  /** What the controllers hear of a pointer that moves. */
  function MoveEvents(s: State, before: Option<View>, after: Option<View>): seq<Event> {
    if before == after then [] else OwnerEvent(s, before, false) + OwnerEvent(s, after, true)
  }

  /** `s'` differs from `s` in the state of seat `k`, in the pointer bits that go
      with it, and in the events about them. */
  ghost predicate Moved(s: State, s': State, k: nat, seat: Seat) {
    && Lookup(s.seats, k).Some? && Good(s, s')
    && (forall j :: Lookup(s'.seats, j) == if j == k then Some(seat) else Lookup(s.seats, j))
    && s'.out == s.out + MoveEvents(s, Lookup(s.seats, k).value.focus, seat.focus)
  }

  lemma SameOwners(s: State, s': State)
    requires Wf(s) && Wf(s') && Shape(s, s')
    ensures forall v :: SurfaceOf(s', v) == SurfaceOf(s, v)
    ensures forall id, w :: Owns(s', id, w) == Owns(s, id, w)
  {
    forall id, w ensures Owns(s', id, w) == Owns(s, id, w) {
      assert SameSurface(Lookup(s.surfaces, id), Lookup(s'.surfaces, id));
    }
    forall v ensures SurfaceOf(s', v) == SurfaceOf(s, v) {
      if SurfaceOf(s, v).Some? {
        SurfaceOfSpec(s, v, SurfaceOf(s, v).value);
        SurfaceOfSpec(s', v, SurfaceOf(s, v).value);
      }
      if SurfaceOf(s', v).Some? {
        SurfaceOfSpec(s, v, SurfaceOf(s', v).value);
        SurfaceOfSpec(s', v, SurfaceOf(s', v).value);
      }
    }
  }

  /** Focus steps change nobody's place. */
  lemma SamePlaces(s: State, s': State, k: nat, seat: Seat, env: Env)
    requires Wf(s) && Wf(s') && Shape(s, s')
    ensures Settled(s', k, seat, env) == Settled(s, k, seat, env)
    ensures forall v :: Granted(s', k, v) == Granted(s, k, v)
  {
    SameOwners(s, s');
    forall v ensures MayPoint(s', k, v) == MayPoint(s, k, v) {
      forall id ensures RecordOf(s', id, k).Some? == RecordOf(s, id, k).Some? {
        assert SameRecord(RecordOf(s, id, k), RecordOf(s', id, k));
      }
    }
  }

  /** Two steps of one seat, one of which leaves the focus alone. */
  lemma MovedTrans(s: State, s1: State, s2: State, k: nat, seat1: Seat, seat2: Seat)
    requires Ok(s) && Moved(s, s1, k, seat1) && Moved(s1, s2, k, seat2)
    requires seat1.focus == Lookup(s.seats, k).value.focus || seat2.focus == seat1.focus
    ensures Moved(s, s2, k, seat2)
  {
    GoodTrans(s, s1, s2);
    SameOwners(s, s1);
  }

  // ---------- the operations on the pointer ----------

  lemma SendPointerSays(s: State, id: nat, k: nat, on: bool)
    requires RecordOf(s, id, k).Some?
    ensures SendPointer(s, id, k, on).out == s.out + [InputFocus(id, POINTING, on)]
  {
  }

  lemma UnmarkSays(s: State, k: nat)
    requires Ok(s) && Lookup(s.seats, k).Some?
    ensures Unmark(s, k).out == s.out + OwnerEvent(s, Lookup(s.seats, k).value.focus, false)
  {
    var v := Lookup(s.seats, k).value.focus;
    if v.Some? && SurfaceOf(s, v.value).Some? {
      var id := SurfaceOf(s, v.value).value;
      SurfaceOfSpec(s, v.value, id);
      assert PtrBit(s, id, k) <==> Focuses(s, k, id);
      SendPointerSays(s, id, k, false);
    }
  }

  lemma PutFocus(s: State, k: nat, v: Option<View>)
    requires Lookup(s.seats, k).Some?
    ensures forall j :: Lookup(SetFocus(s, k, v).seats, j)
                        == if j == k then Some(Lookup(s.seats, k).value.(focus := v)) else Lookup(s.seats, j)
    ensures SetFocus(s, k, v).out == s.out
  {
    var seat := Lookup(s.seats, k).value.(focus := v);
    forall j ensures Lookup(SetFocus(s, k, v).seats, j) == if j == k then Some(seat) else Lookup(s.seats, j) {
      LookupPut(s.seats, k, seat, j);
    }
  }

  lemma LeavePointerMoves(s: State, k: nat)
    requires Ok(s) && Lookup(s.seats, k).Some?
    ensures Moved(s, LeavePointer(s, k), k, Lookup(s.seats, k).value.(focus := None))
  {
    LeavePointerEffect(s, k);
    UnmarkEffect(s, k);
    UnmarkSays(s, k);
    PutFocus(Unmark(s, k), k, None);
  }

  lemma SetForcedMoves(s: State, k: nat, forced: Option<nat>, on: bool)
    requires Ok(s) && Lookup(s.seats, k).Some?
    ensures Moved(s, SetForced(s, k, forced, on), k, Lookup(s.seats, k).value.(forced := forced, forcedOn := on))
  {
    var seat := Lookup(s.seats, k).value.(forced := forced, forcedOn := on);
    SetForcedEffect(s, k, forced, on);
    PutSeatEffect(s, k, seat);
  }

  /** A view the seat already points to is one it may point to. */
  lemma FocusGranted(s: State, k: nat)
    requires Ok(s) && Lookup(s.seats, k).Some?
    ensures Granted(s, k, Lookup(s.seats, k).value.focus) == Lookup(s.seats, k).value.focus
  {
    var v := Lookup(s.seats, k).value.focus;
    if v.Some? {
      forall id | v.value.main.Some? && Owns(s, id, v.value.main.value) ensures RecordOf(s, id, k).Some? {
        assert PtrBit(s, id, k) <==> Focuses(s, k, id);
      }
    }
  }

  lemma MayPointIff(s: State, k: nat, v: View)
    requires Wf(s)
    ensures MayPoint(s, k, v) <==> SurfaceOf(s, v).None? || RecordOf(s, SurfaceOf(s, v).value, k).Some?
  {
    if SurfaceOf(s, v).Some? {
      SurfaceOfSpec(s, v, SurfaceOf(s, v).value);
    }
    forall id: nat | v.main.Some? && Owns(s, id, v.main.value) ensures SurfaceOf(s, v) == Some(id) {
      SurfaceOfSpec(s, v, id);
    }
  }

  /** The focus is put on a view of surface `id`, or refused. */
  lemma EnterMoves(s: State, k: nat, view: View, id: nat)
    requires HasPointer(s, k) && SurfaceOf(s, view) == Some(id)
    ensures var s' := if RecordOf(s, id, k).Some? then SetFocus(SendPointer(s, id, k, true), k, Some(view)) else SetFocus(s, k, None);
            var v := if RecordOf(s, id, k).Some? then Some(view) else None;
            && (forall j :: Lookup(s'.seats, j) == if j == k then Some(Lookup(s.seats, k).value.(focus := v)) else Lookup(s.seats, j))
            && s'.out == s.out + OwnerEvent(s, v, true)
  {
    if RecordOf(s, id, k).Some? {
      SendPointerSays(s, id, k, true);
      SendPointerEffect(s, id, k, true);
      PutFocus(SendPointer(s, id, k, true), k, Some(view));
    } else {
      PutFocus(s, k, None);
    }
  }

  lemma SetWestFocusSays(s: State, k: nat, view: Option<View>)
    requires Ok(s) && HasPointer(s, k) && Lookup(s.seats, k).value.focus != view
    ensures var s1, seat := Unmark(s, k), Lookup(s.seats, k).value;
            var v := Granted(s, k, view);
            var s' := if view.None? then SetFocus(s1, k, None)
                      else match SurfaceOf(s1, view.value)
                        case None => SetFocus(s1, k, view)
                        case Some(id) =>
                          if RecordOf(s1, id, k).Some? then SetFocus(SendPointer(s1, id, k, true), k, view)
                          else SetFocus(s1, k, None);
            && (forall j :: Lookup(s'.seats, j) == if j == k then Some(seat.(focus := v)) else Lookup(s.seats, j))
            && s'.out == s.out + (OwnerEvent(s, seat.focus, false) + OwnerEvent(s, v, true))
  {
    var s1, seat := Unmark(s, k), Lookup(s.seats, k).value;
    UnmarkEffect(s, k);
    UnmarkSays(s, k);
    SameOwners(s, s1);
    Regroup(s.out, OwnerEvent(s, seat.focus, false), OwnerEvent(s, Granted(s, k, view), true));
    if view.Some? {
      MayPointIff(s, k, view.value);
      var o := SurfaceOf(s1, view.value);
      if o.Some? {
        assert SameRecord(RecordOf(s, o.value, k), RecordOf(s1, o.value, k));
        EnterMoves(s1, k, view.value, o.value);
      } else {
        PutFocus(s1, k, view);
      }
    } else {
      PutFocus(s1, k, None);
    }
  }

  lemma SetWestFocusMoves(s: State, k: nat, target: Option<View>, env: Env)
    requires Ok(s) && HasPointer(s, k)
    ensures var view := if target.None? then env.pick(k) else target;
            Moved(s, SetWestFocus(s, k, target, env), k, Lookup(s.seats, k).value.(focus := Granted(s, k, view)))
  {
    var view := if target.None? then env.pick(k) else target;
    SetWestFocusEffect(s, k, target, env);
    if Lookup(s.seats, k).value.focus == view {
      FocusGranted(s, k);
    } else {
      SetWestFocusSays(s, k, view);
    }
  }

  /** A forcing that was switched off ends. */
  lemma ReleaseMoves(s: State, k: nat, f: nat)
    requires Ok(s) && Lookup(s.seats, k).Some?
    requires Lookup(s.seats, k).value.focus.Some? && Lookup(s.seats, k).value.forced == Some(f)
    ensures var seat := Lookup(s.seats, k).value;
            var s1 := if ShowsForced(s, seat) then LeavePointer(s, k) else s;
            Moved(s, SetForced(s1, k, None, seat.forcedOn), k,
                  seat.(forced := None, focus := if Owns(s, f, seat.focus.value.surface) then None else seat.focus))
  {
    var seat := Lookup(s.seats, k).value;
    if ShowsForced(s, seat) {
      LeavePointerMoves(s, k);
      var s1 := LeavePointer(s, k);
      SetForcedMoves(s1, k, None, seat.forcedOn);
      MovedTrans(s, s1, SetForced(s1, k, None, seat.forcedOn), k, seat.(focus := None), seat.(focus := None, forced := None));
    } else {
      SetForcedMoves(s, k, None, seat.forcedOn);
    }
  }

  lemma GrabMoves(s: State, k: nat, env: Env)
    requires Ok(s) && HasPointer(s, k)
    ensures Moved(s, GrabFocus(s, k, env), k, Settled(s, k, Lookup(s.seats, k).value, env))
  {
    var seat := Lookup(s.seats, k).value;
    StillMoves(s, k);
    if seat.buttons == 0 {
      match seat.forced
      case None => SetWestFocusMoves(s, k, None, env);
      case Some(f) =>
        if seat.forcedOn {
          if env.first(f).Some? {
            SetWestFocusMoves(s, k, env.first(f), env);
          }
        } else if seat.focus.Some? {
          ReleaseMoves(s, k, f);
        }
    }
  }

  /** Where the pointer is after weston asked for it. A drag keeps it. Otherwise,
      with nothing forced, it is on the view under it unless that view belongs
      to a surface that does not accept the seat; while forcing is on, the same
      goes for the first view of the forced surface; once forcing is switched
      off it ends, and the pointer leaves if it was on the forced surface. */
  lemma PointerFocusSpec(s: State, k: nat, env: Env)
    requires Ok(s) && HasPointer(s, k)
    ensures var s' := Step(s, PointerFocus(k, env));
            var seat := Lookup(s.seats, k).value;
            && (seat.buttons > 0 ==> s' == s)
            && Lookup(s'.seats, k).Some?
            && var seat' := Lookup(s'.seats, k).value;
               && (seat.buttons == 0 && seat.forced.None? ==>
                     seat' == seat.(focus := Granted(s, k, env.pick(k))))
               && (seat.buttons == 0 && seat.forced.Some? && seat.forcedOn ==>
                     var v := env.first(seat.forced.value);
                     if v.None? then s' == s else seat' == seat.(focus := Granted(s, k, v)))
               && (seat.buttons == 0 && seat.forced.Some? && !seat.forcedOn && seat.focus.None? ==> s' == s)
               && (seat.buttons == 0 && seat.forced.Some? && !seat.forcedOn && seat.focus.Some? ==>
                     && seat'.forced.None?
                     && seat'.focus == if Owns(s, seat.forced.value, seat.focus.value.surface) then None else seat.focus)
               && Moved(s, s', k, seat')
  {
    GrabMoves(s, k, env);
  }

  /** Bits and events of a pointer that moved. */
  lemma MovedMeans(s: State, s': State, k: nat, seat: Seat)
    requires Ok(s) && Moved(s, s', k, seat)
    ensures forall a, b :: PtrBit(s', a, b) <==>
              if b != k then PtrBit(s, a, b)
              else seat.focus.Some? && seat.focus.value.main.Some? && Owns(s, a, seat.focus.value.main.value)
    ensures forall a, b :: KbdBit(s', a, b) == KbdBit(s, a, b)
    ensures s'.kbd == s.kbd
  {
    SameOwners(s, s');
    forall a, b ensures PtrBit(s', a, b) <==>
      if b != k then PtrBit(s, a, b)
      else seat.focus.Some? && seat.focus.value.main.Some? && Owns(s, a, seat.focus.value.main.value)
    {
      assert PtrBit(s', a, b) <==> Focuses(s', b, a);
      assert PtrBit(s, a, b) <==> Focuses(s, b, a);
    }
  }

  /** Updating a seat without touching its focus. */
  lemma SeatMoves(s: State, k: nat, seat: Seat)
    requires Ok(s) && SameSeat(Lookup(s.seats, k), Some(seat)) && seat.focus == Lookup(s.seats, k).value.focus
    ensures Moved(s, PutSeat(s, k, seat), k, seat)
  {
    PutSeatEffect(s, k, seat);
    SameBitsEffect(s, k, seat);
  }

  lemma ThenGrab(s: State, s1: State, k: nat, seat: Seat, env: Env)
    requires Ok(s) && Moved(s, s1, k, seat) && seat.focus == Lookup(s.seats, k).value.focus && seat.pointer
    ensures Moved(s, GrabFocus(s1, k, env), k, Settled(s, k, seat, env))
  {
    GrabMoves(s1, k, env);
    SamePlaces(s, s1, k, seat, env);
    MovedTrans(s, s1, GrabFocus(s1, k, env), k, seat, Settled(s, k, seat, env));
  }

  /** A button ends a drag when it is the last one released. */
  lemma ButtonSpec(s: State, k: nat, count: nat, released: bool, env: Env)
    requires Inv(s) && HasPointer(s, k)
    ensures var seat := Lookup(s.seats, k).value.(buttons := count);
            Moved(s, Step(s, PointerButton(k, count, released, env)), k,
                  if count == 0 && released then Settled(s, k, seat, env) else seat)
  {
    var seat := Lookup(s.seats, k).value.(buttons := count);
    var s1 := PutSeat(s, k, seat);
    SeatMoves(s, k, seat);
    assert Step(s, PointerButton(k, count, released, env)) == if count == 0 && released then GrabFocus(s1, k, env) else s1;
    if count == 0 && released {
      ThenGrab(s, s1, k, seat, env);
    }
  }

  /** Motion ends a forcing. */
  lemma MotionSpec(s: State, k: nat)
    requires Inv(s) && Lookup(s.seats, k).Some?
    ensures Moved(s, Step(s, PointerMotion(k)), k, Lookup(s.seats, k).value.(forced := None))
  {
    SetForcedMoves(s, k, None, Lookup(s.seats, k).value.forcedOn);
  }

  lemma CancelSpec(s: State, k: nat)
    requires Ok(s) && Lookup(s.seats, k).Some?
    ensures var seat := Lookup(s.seats, k).value;
            Moved(s, Step(s, PointerCancel(k)), k, if seat.focus.None? then seat else seat.(focus := None, forced := None))
  {
    var seat := Lookup(s.seats, k).value;
    if seat.focus.Some? {
      LeavePointerMoves(s, k);
      SetForcedMoves(LeavePointer(s, k), k, None, seat.forcedOn);
      MovedTrans(s, LeavePointer(s, k), ClearPointer(s, k), k, seat.(focus := None), seat.(focus := None, forced := None));
    }
  }

  // ---------- focus requests ----------

  /** The pointer of a seat once it was forced to surface `id` or released. */
  ghost function Forced(s: State, k: nat, seat: Seat, id: nat, enabled: bool, env: Env): Seat {
    if !seat.pointer || (enabled <==> seat.forced == Some(id)) then seat
    else if enabled then Settled(s, k, seat.(forced := Some(id), forcedOn := true), env)
    else Settled(s, k, seat.(forcedOn := false), env)
  }

  lemma ForceMoves(s: State, id: nat, k: nat, enabled: bool, env: Env)
    requires Ok(s) && Lookup(s.seats, k).Some?
    ensures Moved(s, ForcePointer(s, id, k, enabled, env), k, Forced(s, k, Lookup(s.seats, k).value, id, enabled, env))
  {
    var seat := Lookup(s.seats, k).value;
    if seat.pointer && enabled && seat.forced != Some(id) {
      SetForcedMoves(s, k, Some(id), true);
      ThenGrab(s, SetForced(s, k, Some(id), true), k, seat.(forced := Some(id), forcedOn := true), env);
    } else if seat.pointer && !enabled && seat.forced == Some(id) {
      SetForcedMoves(s, k, seat.forced, false);
      ThenGrab(s, SetForced(s, k, seat.forced, false), k, seat.(forcedOn := false), env);
    }
  }

  /** The keyboard of seat `k` changes hands on surface `id`. */
  ghost predicate Flips(s: State, id: nat, k: nat, on: bool) {
    && Lookup(s.seats, k).Some? && Lookup(s.seats, k).value.keyboard
    && RecordOf(s, id, k).Some? && KbdBit(s, id, k) != on
  }

  ghost function KbdNews(s: State, id: nat, k: nat, device: Devices, enabled: bool): seq<KbdEvent> {
    if device.kbd && Flips(s, id, k, enabled)
    then [if enabled then Enter(RecordOf(s, id, k).value.session) else Leave(RecordOf(s, id, k).value.session)]
    else []
  }

  /** What the controllers hear of a focus request, for one seat. */
  ghost function News(s: State, id: nat, k: nat, device: Devices, enabled: bool, env: Env): seq<Event> {
    (if device.ptr && Lookup(s.seats, k).Some?
     then var seat := Lookup(s.seats, k).value;
          MoveEvents(s, seat.focus, Forced(s, k, seat, id, enabled, env).focus)
     else [])
    + (if device.kbd && Flips(s, id, k, enabled) then [InputFocus(id, KEYBOARD, enabled)] else [])
    + (if device.touch then [InputFocus(id, device, enabled)] else [])
  }

  ghost function SeatAfter(s: State, id: nat, k: nat, device: Devices, enabled: bool, env: Env): Option<Seat> {
    match Lookup(s.seats, k)
    case None => None
    case Some(seat) => Some(if device.ptr then Forced(s, k, seat, id, enabled, env) else seat)
  }

  /** What a focus request for the seats `ks` leaves. */
  ghost predicate Handled(s: State, s': State, id: nat, ks: seq<nat>, device: Devices, enabled: bool, env: Env) {
    && SeatsHandled(s, s', id, ks, device, enabled, env) && BitsHandled(s, s', id, ks, device, enabled)
    && s'.kbd == s.kbd + AllKbdNews(s, id, ks, device, enabled)
    && s'.out == s.out + AllNews(s, id, ks, device, enabled, env)
  }

  ghost predicate SeatsHandled(s: State, s': State, id: nat, ks: seq<nat>, device: Devices, enabled: bool, env: Env) {
    forall j :: Lookup(s'.seats, j) == if j in ks then SeatAfter(s, id, j, device, enabled, env) else Lookup(s.seats, j)
  }

  ghost predicate BitsHandled(s: State, s': State, id: nat, ks: seq<nat>, device: Devices, enabled: bool) {
    forall a, b :: KbdBit(s', a, b) <==>
      if a == id && b in ks && device.kbd && Flips(s, a, b, enabled) then enabled else KbdBit(s, a, b)
  }

  ghost function AllKbdNews(s: State, id: nat, ks: seq<nat>, device: Devices, enabled: bool): seq<KbdEvent> {
    if ks == [] then [] else KbdNews(s, id, ks[0], device, enabled) + AllKbdNews(s, id, ks[1..], device, enabled)
  }

  ghost function AllNews(s: State, id: nat, ks: seq<nat>, device: Devices, enabled: bool, env: Env): seq<Event> {
    if ks == [] then [] else News(s, id, ks[0], device, enabled, env) + AllNews(s, id, ks[1..], device, enabled, env)
  }

  lemma KbdSetFocusSays(s: State, id: nat, k: nat, enabled: bool)
    requires Inv(s)
    ensures var s' := KbdSetFocus(s, id, k, enabled);
            && Inv(s') && Shape(s, s') && s'.seats == s.seats
            && (forall a, b :: KbdBit(s', a, b) <==>
                 if a == id && b == k && Flips(s, a, b, enabled) then enabled else KbdBit(s, a, b))
            && s'.kbd == s.kbd + KbdNews(s, id, k, KEYBOARD, enabled)
            && s'.out == s.out + if Flips(s, id, k, enabled) then [InputFocus(id, KEYBOARD, enabled)] else []
  {
    KbdSetFocusEffect(s, id, k, enabled);
    if Flips(s, id, k, enabled) {
      FlipRecords(s, id, k, enabled);
    }
  }

  /** A keyboard flip after a pointer move is the one there would have been. */
  lemma FlipsSame(s: State, s1: State, id: nat, k: nat, on: bool)
    requires Shape(s, s1) && KbdBit(s1, id, k) == KbdBit(s, id, k)
    ensures Flips(s1, id, k, on) == Flips(s, id, k, on)
    ensures forall device :: KbdNews(s1, id, k, device, on) == KbdNews(s, id, k, device, on)
  {
    assert SameRecord(RecordOf(s, id, k), RecordOf(s1, id, k));
    assert SameSeat(Lookup(s.seats, k), Lookup(s1.seats, k));
  }

  /** The pointer's part. */
  lemma PointerPart(s: State, id: nat, k: nat, device: Devices, enabled: bool, env: Env)
    requires Inv(s) && Lookup(s.seats, k).Some?
    ensures var s1 := if device.ptr then ForcePointer(s, id, k, enabled, env) else s;
            var seat := Lookup(s.seats, k).value;
            && Inv(s1) && Shape(s, s1) && SameKbd(s, s1)
            && (forall j :: Lookup(s1.seats, j) == if j == k then SeatAfter(s, id, k, device, enabled, env) else Lookup(s.seats, j))
            && s1.out == s.out + if device.ptr
                                 then MoveEvents(s, seat.focus, Forced(s, k, seat, id, enabled, env).focus) else []
  {
    if device.ptr {
      ForceMoves(s, id, k, enabled, env);
      PointerStepKbd(s, ForcePointer(s, id, k, enabled, env));
    }
  }

  /** The keyboard's part, after it. */
  lemma KeyboardPart(s: State, s1: State, id: nat, k: nat, device: Devices, enabled: bool)
    requires Inv(s) && Inv(s1) && Shape(s, s1) && SameKbd(s, s1)
    ensures var s2 := if device.kbd then KbdSetFocus(s1, id, k, enabled) else s1;
            && s2.seats == s1.seats
            && (forall a, b :: KbdBit(s2, a, b) <==>
                 if a == id && b == k && device.kbd && Flips(s, a, b, enabled) then enabled else KbdBit(s, a, b))
            && s2.kbd == s.kbd + KbdNews(s, id, k, device, enabled)
            && s2.out == s1.out + if device.kbd && Flips(s, id, k, enabled) then [InputFocus(id, KEYBOARD, enabled)] else []
  {
    FlipsSame(s, s1, id, k, enabled);
    if device.kbd {
      KbdSetFocusSays(s1, id, k, enabled);
    }
  }

  lemma FourParts<T>(a: seq<T>, b: seq<T>, c: seq<T>, d: seq<T>)
    ensures ((a + b) + c) + d == a + (b + c + d)
  {
  }

  lemma OneSeat(s: State, id: nat, k: nat, device: Devices, enabled: bool, env: Env)
    requires Inv(s) && Lookup(s.seats, k).Some?
    ensures var s' := FocusSeat(s, id, k, device, enabled, env);
            && (forall j :: Lookup(s'.seats, j) == if j == k then SeatAfter(s, id, k, device, enabled, env) else Lookup(s.seats, j))
            && (forall a, b :: KbdBit(s', a, b) <==>
                 if a == id && b == k && device.kbd && Flips(s, a, b, enabled) then enabled else KbdBit(s, a, b))
            && s'.kbd == s.kbd + KbdNews(s, id, k, device, enabled)
            && s'.out == s.out + News(s, id, k, device, enabled, env)
  {
    var s1 := if device.ptr then ForcePointer(s, id, k, enabled, env) else s;
    PointerPart(s, id, k, device, enabled, env);
    var s2 := if device.kbd then KbdSetFocus(s1, id, k, enabled) else s1;
    KeyboardPart(s, s1, id, k, device, enabled);
    TouchPart(s2, id, k, device, enabled);
    OneSeatNews(s, s1, s2, id, k, device, enabled, env);
  }

  lemma TouchPart(s2: State, id: nat, k: nat, device: Devices, enabled: bool)
    ensures var s3 := if device.touch then Send(s2, InputFocus(id, device, enabled)) else s2;
            s3.seats == s2.seats && s3.kbd == s2.kbd && forall a, b :: KbdBit(s3, a, b) == KbdBit(s2, a, b)
  {
  }

  lemma OneSeatNews(s: State, s1: State, s2: State, id: nat, k: nat, device: Devices, enabled: bool, env: Env)
    requires Lookup(s.seats, k).Some?
    requires var seat := Lookup(s.seats, k).value;
             s1.out == s.out + if device.ptr
                               then MoveEvents(s, seat.focus, Forced(s, k, seat, id, enabled, env).focus) else []
    requires s2.out == s1.out + if device.kbd && Flips(s, id, k, enabled) then [InputFocus(id, KEYBOARD, enabled)] else []
    ensures s2.out + (if device.touch then [InputFocus(id, device, enabled)] else [])
            == s.out + News(s, id, k, device, enabled, env)
  {
    var seat := Lookup(s.seats, k).value;
    FourParts(s.out, if device.ptr then MoveEvents(s, seat.focus, Forced(s, k, seat, id, enabled, env).focus) else [],
              if device.kbd && Flips(s, id, k, enabled) then [InputFocus(id, KEYBOARD, enabled)] else [],
              if device.touch then [InputFocus(id, device, enabled)] else []);
  }

  /** One seat's handling does not depend on the others'. */
  lemma SeatApart(s: State, s1: State, id: nat, k: nat, device: Devices, enabled: bool, env: Env)
    requires Inv(s) && Inv(s1) && Shape(s, s1)
    requires Lookup(s1.seats, k) == Lookup(s.seats, k) && KbdBit(s1, id, k) == KbdBit(s, id, k)
    ensures SeatAfter(s1, id, k, device, enabled, env) == SeatAfter(s, id, k, device, enabled, env)
    ensures KbdNews(s1, id, k, device, enabled) == KbdNews(s, id, k, device, enabled)
    ensures News(s1, id, k, device, enabled, env) == News(s, id, k, device, enabled, env)
  {
    FlipsSame(s, s1, id, k, enabled);
    SameOwners(s, s1);
    if Lookup(s.seats, k).Some? {
      var seat := Lookup(s.seats, k).value;
      SamePlaces(s, s1, k, seat.(forced := Some(id), forcedOn := true), env);
      SamePlaces(s, s1, k, seat.(forcedOn := false), env);
    }
  }

  lemma {:induction false} SeatsApart(s: State, s1: State, id: nat, ks: seq<nat>, device: Devices, enabled: bool, env: Env)
    requires Inv(s) && Inv(s1) && Shape(s, s1)
    requires forall k :: k in ks ==> Lookup(s1.seats, k) == Lookup(s.seats, k) && KbdBit(s1, id, k) == KbdBit(s, id, k)
    ensures AllKbdNews(s1, id, ks, device, enabled) == AllKbdNews(s, id, ks, device, enabled)
    ensures AllNews(s1, id, ks, device, enabled, env) == AllNews(s, id, ks, device, enabled, env)
  {
    if ks != [] {
      SeatApart(s, s1, id, ks[0], device, enabled, env);
      SeatsApart(s, s1, id, ks[1..], device, enabled, env);
    }
  }

  lemma OneOfMany(s: State, s': State, id: nat, k: nat, rest: seq<nat>, device: Devices, enabled: bool, env: Env)
    requires Inv(s) && Lookup(s.seats, k).Some? && k !in rest && s' == FocusSeat(s, id, k, device, enabled, env)
    ensures Inv(s') && Shape(s, s')
    ensures forall j :: j in rest ==> Lookup(s'.seats, j) == Lookup(s.seats, j) && KbdBit(s', id, j) == KbdBit(s, id, j)
  {
    OneSeat(s, id, k, device, enabled, env);
    FocusSeatEffect(s, id, k, device, enabled, env);
  }

  lemma {:induction false} HandleSeats(s: State, id: nat, ks: seq<nat>, device: Devices, enabled: bool, env: Env)
    requires Inv(s) && NoDup(ks) && forall k :: k in ks ==> Lookup(s.seats, k).Some?
    ensures Handled(s, FocusSeats(s, id, ks, device, enabled, env), id, ks, device, enabled, env)
    decreases |ks|
  {
    if ks != [] {
      var k, rest := ks[0], ks[1..];
      var s1 := FocusSeat(s, id, k, device, enabled, env);
      assert ks == [k] + rest && k !in rest;
      OneOfMany(s, s1, id, k, rest, device, enabled, env);
      HandleSeats(s1, id, rest, device, enabled, env);
      var s2 := FocusSeats(s1, id, rest, device, enabled, env);
      SeatsThenRest(s, s1, s2, id, ks, device, enabled, env);
      BitsThenRest(s, s1, s2, id, ks, device, enabled, env);
      SeatsApart(s, s1, id, rest, device, enabled, env);
      OneSeat(s, id, k, device, enabled, env);
      NewsThenRest(s, s1, s2, id, ks, device, enabled, env);
    }
  }

  lemma NewsThenRest(s: State, s1: State, s2: State, id: nat, ks: seq<nat>, device: Devices, enabled: bool, env: Env)
    requires ks != []
    requires s1.kbd == s.kbd + KbdNews(s, id, ks[0], device, enabled)
    requires s1.out == s.out + News(s, id, ks[0], device, enabled, env)
    requires s2.kbd == s1.kbd + AllKbdNews(s, id, ks[1..], device, enabled)
    requires s2.out == s1.out + AllNews(s, id, ks[1..], device, enabled, env)
    ensures s2.kbd == s.kbd + AllKbdNews(s, id, ks, device, enabled)
    ensures s2.out == s.out + AllNews(s, id, ks, device, enabled, env)
  {
    Regroup(s.kbd, KbdNews(s, id, ks[0], device, enabled), AllKbdNews(s, id, ks[1..], device, enabled));
    Regroup(s.out, News(s, id, ks[0], device, enabled, env), AllNews(s, id, ks[1..], device, enabled, env));
  }

  lemma Regroup<T>(a: seq<T>, b: seq<T>, c: seq<T>)
    ensures (a + b) + c == a + (b + c)
  {
  }

  lemma SeatsThenRest(s: State, s1: State, s2: State, id: nat, ks: seq<nat>, device: Devices, enabled: bool, env: Env)
    requires Inv(s) && NoDup(ks) && ks != [] && Lookup(s.seats, ks[0]).Some?
    requires s1 == FocusSeat(s, id, ks[0], device, enabled, env) && SeatsHandled(s1, s2, id, ks[1..], device, enabled, env)
    ensures SeatsHandled(s, s2, id, ks, device, enabled, env)
  {
    var k, rest := ks[0], ks[1..];
    assert ks == [k] + rest && k !in rest;
    OneOfMany(s, s1, id, k, rest, device, enabled, env);
    OneSeat(s, id, k, device, enabled, env);
    forall j ensures Lookup(s2.seats, j) == if j in ks then SeatAfter(s, id, j, device, enabled, env) else Lookup(s.seats, j) {
      if j in rest {
        SeatApart(s, s1, id, j, device, enabled, env);
      }
    }
  }

  lemma BitsThenRest(s: State, s1: State, s2: State, id: nat, ks: seq<nat>, device: Devices, enabled: bool, env: Env)
    requires Inv(s) && NoDup(ks) && ks != [] && Lookup(s.seats, ks[0]).Some?
    requires s1 == FocusSeat(s, id, ks[0], device, enabled, env) && BitsHandled(s1, s2, id, ks[1..], device, enabled)
    ensures BitsHandled(s, s2, id, ks, device, enabled)
  {
    var k, rest := ks[0], ks[1..];
    assert ks == [k] + rest && k !in rest;
    OneOfMany(s, s1, id, k, rest, device, enabled, env);
    OneSeat(s, id, k, device, enabled, env);
    forall a, b ensures KbdBit(s2, a, b) <==>
      if a == id && b in ks && device.kbd && Flips(s, a, b, enabled) then enabled else KbdBit(s, a, b)
    {
      if a == id && b in rest {
        FlipsSame(s, s1, a, b, enabled);
      }
    }
  }

  /** What a focus request leaves: every accepted seat, and no other, has its
      pointer forced or released and its keyboard entered or left as asked. */
  lemma FocusRequestSpec(s: State, id: nat, device: Devices, enabled: bool, env: Env)
    requires Inv(s) && Lookup(s.surfaces, id).Some?
    ensures Handled(s, Step(s, FocusRequest(id, device, enabled, env)), id,
                    Keys(Lookup(s.surfaces, id).value.accepted), device, enabled, env)
  {
    var ks := Keys(Lookup(s.surfaces, id).value.accepted);
    forall k | k in ks ensures Lookup(s.seats, k).Some? {
      LookupKeys(Lookup(s.surfaces, id).value.accepted, k);
      assert RecordOf(s, id, k).Some?;
    }
    HandleSeats(s, id, ks, device, enabled, env);
  }

  // ---------- acceptance requests ----------

  lemma SettledSame(s: State, s': State, k: nat, seat: Seat, env: Env)
    requires s'.surfaces == s.surfaces
    ensures Settled(s', k, seat, env) == Settled(s, k, seat, env)
  {
    assert forall id, w :: Owns(s', id, w) == Owns(s, id, w);
    forall v ensures MayPoint(s', k, v) == MayPoint(s, k, v) {
      assert forall id :: RecordOf(s', id, k) == RecordOf(s, id, k);
    }
  }

  /** The record is there before the pointer is asked for. */
  lemma AcceptMoves(s: State, id: nat, k: nat, env: Env)
    requires Inv(s) && Lookup(s.surfaces, id).Some? && Lookup(s.seats, k).Some?
    ensures var s1, s2, seat := AddAccepted(s, id, k), Accept(s, id, k, env), Lookup(s.seats, k).value;
            && Inv(s1) && Moved(s1, s2, k, if seat.pointer && seat.focus.None? then Settled(s2, k, seat, env) else seat)
  {
    var s1, s2, seat := AddAccepted(s, id, k), Accept(s, id, k, env), Lookup(s.seats, k).value;
    AddAcceptedEffect(s, id, k);
    if seat.pointer && seat.focus.None? {
      GrabMoves(s1, k, env);
      SamePlaces(s1, s2, k, seat, env);
    }
  }

  lemma AddedRecords(s: State, id: nat, k: nat)
    requires Inv(s) && Lookup(s.surfaces, id).Some? && Lookup(s.seats, k).Some?
    ensures var s1 := AddAccepted(s, id, k);
            && s1.kbd == s.kbd && s1.out == s.out
            && (forall a, b :: RecordOf(s1, a, b).Some? <==> (a == id && b == k) || RecordOf(s, a, b).Some?)
            && (forall a, b :: KbdBit(s1, a, b) == KbdBit(s, a, b))
            && (forall v :: SurfaceOf(s1, v) == SurfaceOf(s, v))
  {
    var s1 := AddAccepted(s, id, k);
    AddAcceptedEffect(s, id, k);
    if RecordOf(s, id, k).None? {
      AddAcceptedRecords(s, id, k);
    }
    assert forall a, w :: Owns(s1, a, w) == Owns(s, a, w);
    forall v ensures SurfaceOf(s1, v) == SurfaceOf(s, v) {
      if SurfaceOf(s, v).Some? {
        SurfaceOfSpec(s, v, SurfaceOf(s, v).value);
        SurfaceOfSpec(s1, v, SurfaceOf(s, v).value);
      }
      if SurfaceOf(s1, v).Some? {
        SurfaceOfSpec(s, v, SurfaceOf(s1, v).value);
        SurfaceOfSpec(s1, v, SurfaceOf(s1, v).value);
      }
    }
  }

  ghost predicate Named(s: State, k: nat, name: string) {
    Lookup(s.seats, k).Some? && Lookup(s.seats, k).value.name == name
  }

  lemma NamedFound(s: State, k: nat, name: string)
    requires Wf(s)
    ensures FindSeat(s.seats, name) == Some(k) <==> Named(s, k, name)
  {
    FindSeatSound(s.seats, name);
  }

  /** What an accepted seat gets: a record, and, if its pointer is nowhere, a
      pointer where it belongs. Nobody else is touched. */
  lemma AcceptSpec(s: State, id: nat, k: nat, name: string, env: Env)
    requires Inv(s) && Lookup(s.surfaces, id).Some? && Named(s, k, name)
    ensures var s', seat := Step(s, AcceptanceRequest(id, name, true, env)), Lookup(s.seats, k).value;
            var seat' := if seat.pointer && seat.focus.None? then Settled(s', k, seat, env) else seat;
            && (forall j :: Lookup(s'.seats, j) == if j == k then Some(seat') else Lookup(s.seats, j))
            && (forall a, b :: RecordOf(s', a, b).Some? <==> (a == id && b == k) || RecordOf(s, a, b).Some?)
            && (forall a, b :: KbdBit(s', a, b) == KbdBit(s, a, b)) && s'.kbd == s.kbd
            && s'.out == s.out + MoveEvents(s, seat.focus, seat'.focus) + [InputAcceptance(id, name, true)]
  {
    NamedFound(s, k, name);
    var s1, s2 := AddAccepted(s, id, k), Accept(s, id, k, env);
    var s', seat := Step(s, AcceptanceRequest(id, name, true, env)), Lookup(s.seats, k).value;
    AcceptMoves(s, id, k, env);
    AddedRecords(s, id, k);
    SettledSame(s2, s', k, seat, env);
    forall a, b ensures RecordOf(s', a, b).Some? == RecordOf(s1, a, b).Some? {
      assert SameRecord(RecordOf(s1, a, b), RecordOf(s2, a, b));
    }
    assert forall a, b :: KbdBit(s', a, b) == KbdBit(s2, a, b);
  }

  lemma BitMeansFocus(s: State, id: nat, k: nat)
    requires Ok(s) && PtrBit(s, id, k)
    ensures HasPointer(s, k) && Lookup(s.seats, k).value.focus.Some?
  {
    assert PtrBit(s, id, k) <==> Focuses(s, k, id);
  }

  /** The pointer goes if it was on the surface, and with it any forcing. */
  lemma UnfocusMoves(s: State, id: nat, k: nat)
    requires Inv(s) && Lookup(s.seats, k).Some? && RecordOf(s, id, k).Some?
    ensures var seat := Lookup(s.seats, k).value;
            var s1 := if seat.pointer && RecordOf(s, id, k).value.focus.ptr then ClearPointer(s, k) else s;
            Moved(s, s1, k, if PtrBit(s, id, k) then seat.(focus := None, forced := None) else seat)
            && Inv(s1)
  {
    if PtrBit(s, id, k) {
      BitMeansFocus(s, id, k);
      CancelSpec(s, k);
      PointerStepKbd(s, ClearPointer(s, k));
    } else {
      StillMoves(s, k);
    }
  }

  lemma StillMoves(s: State, k: nat)
    requires Ok(s) && Lookup(s.seats, k).Some?
    ensures Moved(s, s, k, Lookup(s.seats, k).value)
  {
  }

  lemma LeaveSays(s: State, s1: State, id: nat, k: nat)
    requires Inv(s) && Inv(s1) && Shape(s, s1) && SameKbd(s, s1)
    requires Lookup(s.seats, k).Some? && RecordOf(s, id, k).Some?
    ensures var s2 := if Lookup(s.seats, k).value.keyboard && RecordOf(s, id, k).value.focus.kbd then KbdLeave(s1, id, k) else s1;
            && s2.seats == s1.seats && Wf(s2)
            && (forall a, b :: RecordOf(s2, a, b).Some? == RecordOf(s, a, b).Some?)
            && (forall a, b :: !(a == id && b == k) ==> KbdBit(s2, a, b) == KbdBit(s, a, b))
            && s2.kbd == s.kbd + KbdNews(s, id, k, KEYBOARD, false)
            && s2.out == s1.out + if Flips(s, id, k, false) then [InputFocus(id, KEYBOARD, false)] else []
  {
    FlipsSame(s, s1, id, k, false);
    forall a, b ensures RecordOf(s1, a, b).Some? == RecordOf(s, a, b).Some? && KbdBit(s1, a, b) == KbdBit(s, a, b) {
      assert SameRecord(RecordOf(s, a, b), RecordOf(s1, a, b));
    }
    if Flips(s, id, k, false) {
      FlipEffect(s1, id, k, false);
      FlipRecords(s1, id, k, false);
    }
  }

  /** What a surface loses before its record goes. */
  lemma UnfocusSpec(s: State, id: nat, k: nat)
    requires Inv(s) && RecordOf(s, id, k).Some? && Lookup(s.seats, k).Some?
    ensures var s2, seat := Unfocus(s, id, k), Lookup(s.seats, k).value;
            var seat' := if PtrBit(s, id, k) then seat.(focus := None, forced := None) else seat;
            && Wf(s2) && (forall j :: Lookup(s2.seats, j) == if j == k then Some(seat') else Lookup(s.seats, j))
            && (forall a, b :: RecordOf(s2, a, b).Some? == RecordOf(s, a, b).Some?)
            && (forall a, b :: !(a == id && b == k) ==> KbdBit(s2, a, b) == KbdBit(s, a, b))
            && s2.kbd == s.kbd + KbdNews(s, id, k, KEYBOARD, false)
            && s2.out == s.out + MoveEvents(s, seat.focus, seat'.focus)
                         + (if Flips(s, id, k, false) then [InputFocus(id, KEYBOARD, false)] else [])
  {
    var s1 := if Lookup(s.seats, k).value.pointer && RecordOf(s, id, k).value.focus.ptr then ClearPointer(s, k) else s;
    UnfocusMoves(s, id, k);
    LeaveSays(s, s1, id, k);
  }

  /** What a seat that is dropped loses: the record, the pointer if the surface
      had it, and the keyboard. */
  lemma DropSpec(s: State, id: nat, k: nat, name: string, env: Env)
    requires Inv(s) && RecordOf(s, id, k).Some? && Named(s, k, name)
    ensures var s', seat := Step(s, AcceptanceRequest(id, name, false, env)), Lookup(s.seats, k).value;
            var seat' := if PtrBit(s, id, k) then seat.(focus := None, forced := None) else seat;
            && (forall j :: Lookup(s'.seats, j) == if j == k then Some(seat') else Lookup(s.seats, j))
            && (forall a, b :: RecordOf(s', a, b).Some? <==> !(a == id && b == k) && RecordOf(s, a, b).Some?)
            && (forall a, b :: KbdBit(s', a, b) <==> !(a == id && b == k) && KbdBit(s, a, b))
            && s'.kbd == s.kbd + KbdNews(s, id, k, KEYBOARD, false)
            && s'.out == s.out + MoveEvents(s, seat.focus, seat'.focus)
                         + (if Flips(s, id, k, false) then [InputFocus(id, KEYBOARD, false)] else [])
                         + [InputAcceptance(id, name, false)]
  {
    NamedFound(s, k, name);
    UnfocusSpec(s, id, k);
    RemoveAcceptedRecords(Unfocus(s, id, k), id, k);
    RejectedIs(s, id, k, name, env);
  }

  lemma RejectedIs(s: State, id: nat, k: nat, name: string, env: Env)
    requires RecordOf(s, id, k).Some? && Lookup(s.seats, k).Some? && FindSeat(s.seats, name) == Some(k)
    ensures var s', s3 := Step(s, AcceptanceRequest(id, name, false, env)), RemoveAccepted(Unfocus(s, id, k), id, k);
            s' == Send(s3, InputAcceptance(id, name, false)) && forall a, b :: RecordOf(s', a, b) == RecordOf(s3, a, b)
  {
  }

  /** Requests about unknown seats or surfaces, and dropping what is not accepted,
      do nothing. */
  lemma IgnoredSpec(s: State, id: nat, name: string, accepted: bool, env: Env)
    requires Wf(s)
    requires Lookup(s.surfaces, id).None? || forall k :: Named(s, k, name) ==> !accepted && RecordOf(s, id, k).None?
    ensures Step(s, AcceptanceRequest(id, name, accepted, env)) == s
  {
    var f := FindSeat(s.seats, name);
    if f.Some? {
      NamedFound(s, f.value, name);
    }
  }

  // ---------- keyboard events ----------

  /** Sessions of the seat's records with the KEYBOARD bit, in list order. */
  ghost function OpenSessions(s: State, ids: seq<nat>, k: nat): seq<nat> {
    if ids == [] then []
    else (if KbdBit(s, ids[0], k) then [RecordOf(s, ids[0], k).value.session] else []) + OpenSessions(s, ids[1..], k)
  }

  function Keyed(ns: seq<nat>): (q: seq<KbdEvent>)
    ensures |q| == |ns| && forall i :: 0 <= i < |ns| ==> q[i] == Key(ns[i])
  {
    seq(|ns|, i requires 0 <= i < |ns| => Key(ns[i]))
  }

  function Left(ns: seq<nat>): (q: seq<KbdEvent>)
    ensures |q| == |ns| && forall i :: 0 <= i < |ns| ==> q[i] == Leave(ns[i])
  {
    seq(|ns|, i requires 0 <= i < |ns| => Leave(ns[i]))
  }

  /** Each of them once. */
  lemma {:induction false} OpenSessionsSpec(s: State, ids: seq<nat>, k: nat)
    requires KbdOk(s) && NoDup(ids)
    ensures NoDup(OpenSessions(s, ids, k))
    ensures forall n :: n in OpenSessions(s, ids, k) <==>
              exists id :: id in ids && KbdBit(s, id, k) && RecordOf(s, id, k).value.session == n
  {
    if ids != [] {
      OpenSessionsSpec(s, ids[1..], k);
      assert ids == [ids[0]] + ids[1..] && ids[0] !in ids[1..];
      if KbdBit(s, ids[0], k) {
        NoDupCons(RecordOf(s, ids[0], k).value.session, OpenSessions(s, ids[1..], k));
      }
    }
  }

  lemma {:induction false} KeyEventsAre(s: State, l: seq<(nat, Surface)>, k: nat)
    requires forall i :: 0 <= i < |l| ==> RecordOf(s, l[i].0, k) == Lookup(l[i].1.accepted, k)
    ensures KeyEvents(l, k) == Keyed(OpenSessions(s, Keys(l), k))
  {
    if l != [] {
      KeysTail(l);
      assert RecordOf(s, l[0].0, k) == Lookup(l[0].1.accepted, k);
      KeyEventsAre(s, l[1..], k);
    }
  }

  lemma {:induction false} LookupAt<V>(l: seq<(nat, V)>, i: nat)
    requires NoDup(Keys(l)) && i < |l|
    ensures Lookup(l, l[i].0) == Some(l[i].1)
  {
    KeysTail(l);
    if i > 0 {
      assert Keys(l)[0] != Keys(l)[i];
      LookupAt(l[1..], i - 1);
    }
  }

  /** A key goes exactly once to every surface with the KEYBOARD bit of the seat,
      in list order, and to no other. */
  lemma KeySpec(s: State, k: nat)
    requires Inv(s)
    ensures Step(s, KeyboardKey(k)) == s.(kbd := s.kbd + Keyed(OpenSessions(s, Keys(s.surfaces), k)))
  {
    forall i | 0 <= i < |s.surfaces| ensures RecordOf(s, s.surfaces[i].0, k) == Lookup(s.surfaces[i].1.accepted, k) {
      LookupAt(s.surfaces, i);
    }
    KeyEventsAre(s, s.surfaces, k);
  }

  lemma {:induction false} OpenSessionsSame(s: State, s1: State, ids: seq<nat>, k: nat)
    requires forall a :: a in ids ==> RecordOf(s1, a, k) == RecordOf(s, a, k)
    ensures OpenSessions(s1, ids, k) == OpenSessions(s, ids, k)
  {
    if ids != [] {
      OpenSessionsSame(s, s1, ids[1..], k);
    }
  }

  lemma LeaveOne(s: State, id: nat, k: nat)
    requires Inv(s)
    ensures var s1 := KbdLeave(s, id, k);
            && Inv(s1) && s1.seats == s.seats
            && s1.kbd == s.kbd + Left(if KbdBit(s, id, k) then [RecordOf(s, id, k).value.session] else [])
            && (forall a, b :: !(a == id && b == k) ==> RecordOf(s1, a, b) == RecordOf(s, a, b))
            && (forall a, b :: KbdBit(s1, a, b) <==> KbdBit(s, a, b) && !(a == id && b == k))
  {
    KbdLeaveEffect(s, id, k);
    if KbdBit(s, id, k) {
      FlipRecords(s, id, k, false);
    }
  }

  lemma LeftAppend(a: seq<nat>, b: seq<nat>)
    ensures Left(a + b) == Left(a) + Left(b)
  {
  }

  lemma {:induction false} LeaveAllSpec(s: State, ids: seq<nat>, k: nat)
    requires Inv(s) && NoDup(ids)
    ensures var s' := LeaveAll(s, ids, k);
            && s'.seats == s.seats && s'.kbd == s.kbd + Left(OpenSessions(s, ids, k))
            && forall a, b :: KbdBit(s', a, b) <==> KbdBit(s, a, b) && !(b == k && a in ids)
    decreases |ids|
  {
    if ids != [] {
      var id, rest := ids[0], ids[1..];
      assert ids == [id] + rest && id !in rest;
      var head := if KbdBit(s, id, k) then [RecordOf(s, id, k).value.session] else [];
      var s1 := KbdLeave(s, id, k);
      LeaveOne(s, id, k);
      LeaveAllSpec(s1, rest, k);
      OpenSessionsSame(s, s1, rest, k);
      LeftAppend(head, OpenSessions(s, rest, k));
      Regroup(s.kbd, Left(head), Left(OpenSessions(s, rest, k)));
    }
  }

  /** Cancelling the grab leaves every open session of the seat, once each, and no
      other. */
  lemma CancelKeyboardSpec(s: State, k: nat)
    requires Inv(s)
    ensures var s' := Step(s, KeyboardCancel(k));
            && s'.seats == s.seats && s'.kbd == s.kbd + Left(OpenSessions(s, Keys(s.surfaces), k))
            && forall a, b :: KbdBit(s', a, b) <==> b != k && KbdBit(s, a, b)
  {
    LeaveAllSpec(s, Keys(s.surfaces), k);
    forall a: nat, b: nat | KbdBit(s, a, b) ensures a in Keys(s.surfaces) {
      LookupKeys(s.surfaces, a);
    }
  }

  // ---------- what comes and goes ----------

  /** A new seat has no focus anywhere; every surface accepts it if it is the
      default seat, otherwise none does. */
  lemma SeatCreateSpec(s: State, k: nat, name: string, keyboard: bool, pointer: bool)
    requires Inv(s) && Legal(s, SeatCreate(k, name, keyboard, pointer))
    ensures var s' := Step(s, SeatCreate(k, name, keyboard, pointer));
            && (forall j :: Lookup(s'.seats, j) == if j == k then Some(Seat(name, keyboard, pointer, None, None, false, 0))
                                                   else Lookup(s.seats, j))
            && (forall a, b :: RecordOf(s', a, b).Some? <==>
                 if b == k then name == s.defaultSeat && Lookup(s.surfaces, a).Some? else RecordOf(s, a, b).Some?)
  {
    var s1 := AnnounceSeat(s, k, name, keyboard, pointer);
    AnnounceSeatEffect(s, k, name, keyboard, pointer);
    assert s1.seats[1..] == s.seats;
    assert forall a, b :: RecordOf(s1, a, b) == RecordOf(s, a, b);
    if name == s.defaultSeat {
      EverywhereSpec(s1, Keys(s.surfaces), k, name);
      forall a: nat ensures a in Keys(s.surfaces) <==> Lookup(s.surfaces, a).Some? {
        LookupKeys(s.surfaces, a);
      }
    }
  }

  lemma {:induction false} EverywhereSpec(s: State, ids: seq<nat>, k: nat, name: string)
    requires Inv(s) && Lookup(s.seats, k).Some? && forall id :: id in ids ==> id in Keys(s.surfaces)
    ensures var s' := AcceptEverywhere(s, ids, k, name);
            && s'.seats == s.seats
            && forall a, b :: RecordOf(s', a, b).Some? <==> RecordOf(s, a, b).Some? || (b == k && a in ids)
    decreases |ids|
  {
    if ids != [] {
      var e := InputAcceptance(ids[0], name, true);
      var s1 := AddAccepted(s, ids[0], k);
      assert ids == [ids[0]] + ids[1..];
      LookupKeys(s.surfaces, ids[0]);
      AddAcceptedEffect(s, ids[0], k);
      AddedRecords(s, ids[0], k);
      SendKeeps(s1, e);
      assert forall a, b :: RecordOf(Send(s1, e), a, b) == RecordOf(s1, a, b);
      EverywhereSpec(Send(s1, e), ids[1..], k, name);
    }
  }

  /** A new surface accepts the default seat, if there is one, and no other. */
  lemma SurfaceCreateSpec(s: State, id: nat, wsurf: nat)
    requires Inv(s) && Legal(s, SurfaceCreate(id, wsurf))
    ensures var s' := Step(s, SurfaceCreate(id, wsurf));
            && s'.seats == s.seats && (forall a, w :: Owns(s', a, w) <==> (a == id && w == wsurf) || Owns(s, a, w))
            && forall a, b :: RecordOf(s', a, b).Some? <==>
                 if a == id then Named(s, b, s.defaultSeat) else RecordOf(s, a, b).Some?
  {
    var s1 := ListSurface(s, id, wsurf);
    ListSurfaceEffect(s, id, wsurf);
    assert s1.surfaces[1..] == s.surfaces;
    forall b: nat ensures FindSeat(s.seats, s.defaultSeat) == Some(b) <==> Named(s, b, s.defaultSeat) {
      NamedFound(s, b, s.defaultSeat);
    }
    var f := FindSeat(s.seats, s.defaultSeat);
    if f.Some? {
      AddAcceptedRecords(s1, id, f.value);
      var s2 := AddAccepted(s1, id, f.value);
      assert forall a, b :: RecordOf(Step(s, SurfaceCreate(id, wsurf)), a, b) == RecordOf(s2, a, b);
      assert forall a, w :: Owns(Step(s, SurfaceCreate(id, wsurf)), a, w) == Owns(s2, a, w);
    }
  }

  /** Accepting puts the seat first on the surface's list, if it is not there. */
  lemma AcceptedFirst(s: State, id: nat, k: nat, name: string, env: Env)
    requires Inv(s) && Lookup(s.surfaces, id).Some? && Named(s, k, name)
    ensures var s' := Step(s, AcceptanceRequest(id, name, true, env));
            var ks := Keys(Lookup(s.surfaces, id).value.accepted);
            Lookup(s'.surfaces, id).Some? && Keys(Lookup(s'.surfaces, id).value.accepted) == if k in ks then ks else [k] + ks
  {
    NamedFound(s, k, name);
    var s1, sf := AddAccepted(s, id, k), Lookup(s.surfaces, id).value;
    LookupKeys(sf.accepted, k);
    if Lookup(sf.accepted, k).None? {
      AddAcceptedRecords(s, id, k);
      var l := Lookup(s1.surfaces, id).value.accepted;
      KeysTail(l);
      assert l[1..] == sf.accepted;
    }
    AcceptEffect(s, id, k, env);
    assert SameSurface(Lookup(s1.surfaces, id), Lookup(Accept(s, id, k, env).surfaces, id));
  }

  /** A seat that goes takes its records along and touches no other seat. */
  lemma SeatDestroySpec(s: State, k: nat)
    requires Inv(s)
    ensures var s' := Step(s, SeatDestroy(k));
            && (forall j :: Lookup(s'.seats, j) == if j == k then None else Lookup(s.seats, j))
            && (forall a, b :: RecordOf(s', a, b) == if b == k then None else RecordOf(s, a, b))
            && s'.kbd == s.kbd
            && s'.out == s.out + if Lookup(s.seats, k).Some? then [SeatDestroyed(Lookup(s.seats, k).value.name)] else []
  {
    DestroySeatEffect(s, k);
    if Lookup(s.seats, k).Some? {
      ForgetSeatRecords(s, Keys(s.surfaces), k);
      forall j ensures Lookup(Step(s, SeatDestroy(k)).seats, j) == if j == k then None else Lookup(s.seats, j) {
        LookupRemove(s.seats, k, j);
      }
    } else {
      forall a: nat ensures RecordOf(s, a, k).None? {
      }
    }
  }

  lemma {:induction false} UnforceSpec(s: State, id: nat, ks: seq<nat>)
    ensures var s' := Unforce(s, id, ks);
            && s'.surfaces == s.surfaces && s'.kbd == s.kbd && s'.out == s.out
            && forall j :: Lookup(s'.seats, j) ==
                 match Lookup(s.seats, j)
                 case None => None
                 case Some(seat) => Some(if j in ks && seat.forced == Some(id) then seat.(forced := None) else seat)
    decreases |ks|
  {
    if ks != [] {
      var seat := Lookup(s.seats, ks[0]);
      var forget := seat.Some? && seat.value.forced == Some(id);
      var s1 := if forget then SetForced(s, ks[0], None, seat.value.forcedOn) else s;
      forall j ensures Lookup(s1.seats, j) == if forget && j == ks[0] then Some(seat.value.(forced := None)) else Lookup(s.seats, j) {
        if forget {
          LookupPut(s.seats, ks[0], seat.value.(forced := None), j);
        }
      }
      UnforceSpec(s1, id, ks[1..]);
      assert ks == [ks[0]] + ks[1..];
    }
  }

  /** A surface that goes takes its records along and frees the seats it accepts
      from being forced to it, and touches nothing else. */
  lemma SurfaceDestroySpec(s: State, id: nat)
    requires Inv(s) && Lookup(s.surfaces, id).Some?
    ensures var s' := Step(s, SurfaceDestroy(id));
            && (forall j :: Lookup(s'.seats, j) ==
                 match Lookup(s.seats, j)
                 case None => None
                 case Some(seat) =>
                   Some(if RecordOf(s, id, j).Some? && seat.forced == Some(id) then seat.(forced := None) else seat))
            && (forall a :: Lookup(s'.surfaces, a) == if a == id then None else Lookup(s.surfaces, a))
            && s'.kbd == s.kbd && s'.out == s.out
  {
    var ks := Keys(Lookup(s.surfaces, id).value.accepted);
    UnforceSpec(s, id, ks);
    forall j: nat ensures j in ks <==> RecordOf(s, id, j).Some? {
      LookupKeys(Lookup(s.surfaces, id).value.accepted, j);
    }
    forall a ensures Lookup(Step(s, SurfaceDestroy(id)).surfaces, a) == if a == id then None else Lookup(s.surfaces, a) {
      LookupRemove(s.surfaces, id, a);
    }
  }
}
