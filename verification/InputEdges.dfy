/** Two corners of the input controller: a pointer forced to a surface that goes
    away, and a keyboard that goes away. */
module InputEdges {
  import opened WlList
  import opened Protocol
  import opened Input
  import opened InputProofs
  import opened InputRuns

  // ---------- forced pointers ----------

  predicate ForcedTo(s: State, k: nat, id: nat) {
    Lookup(s.seats, k).Some? && Lookup(s.seats, k).value.forced == Some(id)
  }

  lemma {:induction false} UnforceSeats(s: State, id: nat, ks: seq<nat>, k: nat)
    ensures ForcedTo(Unforce(s, id, ks), k, id) <==> ForcedTo(s, k, id) && k !in ks
    decreases |ks|
  {
    if ks != [] {
      var seat := Lookup(s.seats, ks[0]);
      var s1 := if seat.Some? && seat.value.forced == Some(id)
                then SetForced(s, ks[0], None, seat.value.forcedOn) else s;
      if seat.Some? {
        LookupPut(s.seats, ks[0], seat.value.(forced := None), k);
      }
      UnforceSeats(s1, id, ks[1..], k);
      assert ks == [ks[0]] + ks[1..];
    }
  }

  /** Destroying a surface frees exactly the seats it still accepts. */
  lemma ForcedOutlives(s: State, id: nat, k: nat)
    requires Inv(s) && Lookup(s.surfaces, id).Some?
    ensures ForcedTo(DestroySurface(s, id), k, id) <==> ForcedTo(s, k, id) && RecordOf(s, id, k).None?
  {
    var ks := Keys(Lookup(s.surfaces, id).value.accepted);
    UnforceSeats(s, id, ks, k);
    LookupKeys(Lookup(s.surfaces, id).value.accepted, k);
  }

  /** No seat stays forced to a destroyed surface if and only if the surface
      accepted every seat that was forced to it. */
  lemma NoneForcedIff(s: State, id: nat)
    requires Inv(s) && Lookup(s.surfaces, id).Some?
    ensures (forall k :: !ForcedTo(DestroySurface(s, id), k, id))
            <==> (forall k :: ForcedTo(s, k, id) ==> RecordOf(s, id, k).Some?)
  {
    forall k ensures ForcedTo(DestroySurface(s, id), k, id) <==> ForcedTo(s, k, id) && RecordOf(s, id, k).None? {
      ForcedOutlives(s, id, k);
    }
  }

  /** Where such seats come from: a surface that stops accepting a seat keeps the
      seat's pointer forced if and only if it did not have the pointer. */
  lemma RejectKeepsForced(s: State, id: nat, k: nat)
    requires Inv(s) && ForcedTo(s, k, id) && RecordOf(s, id, k).Some?
    ensures ForcedTo(Reject(s, id, k), k, id) <==> !PtrBit(s, id, k)
  {
    var seat, r := Lookup(s.seats, k).value, RecordOf(s, id, k).value;
    assert PtrBit(s, id, k) <==> Focuses(s, k, id);
    if seat.pointer && r.focus.ptr {
      var s1 := LeavePointer(s, k);
      LeavePointerEffect(s, k);
      assert SameSeat(Lookup(s.seats, k), Lookup(s1.seats, k));
      LookupPut(s1.seats, k, Lookup(s1.seats, k).value.(forced := None, forcedOn := seat.forcedOn), k);
    }
  }

  // ---------- a run with a forced pointer ----------

  const NOWHERE := Env(_ => None, _ => None)
  const UNTOUCHED := Record(Devices(false, false, false), 0)

  function Mouse(buttons: nat, forced: Option<nat>): Seat {
    Seat("d", true, true, None, forced, forced.Some?, buttons)
  }

  /** One seat called "d", the default one, and these surfaces. */
  ghost predicate Looks(s: State, surfaces: seq<(nat, Surface)>, seat: Seat) {
    s.defaultSeat == "d" && s.sessions <= 1 && s.surfaces == surfaces && s.seats == [(1, seat)]
  }

  lemma FirstSeat()
    ensures Legal(Boot("d"), SeatCreate(1, "d", true, true))
    ensures Looks(Step(Boot("d"), SeatCreate(1, "d", true, true)), [], Mouse(0, None))
    ensures Step(Boot("d"), SeatCreate(1, "d", true, true)).sessions == 0
  {
  }

  lemma FirstSurface(s: State)
    requires Looks(s, [], Mouse(0, None)) && s.sessions == 0
    ensures Legal(s, SurfaceCreate(7, 3))
    ensures Looks(Step(s, SurfaceCreate(7, 3)), [(7, Surface(3, [(1, UNTOUCHED)]))], Mouse(0, None))
  {
    var s1 := ListSurface(s, 7, 3);
    assert s.seats[0].1.name == "d" && FindSeat(s.seats, "d") == Some(1);
    assert s1.surfaces == [(7, Surface(3, []))] && Lookup(s1.surfaces, 7) == Some(Surface(3, []));
    var accepted := [(1, UNTOUCHED)];
    assert [(1, Record(Devices(false, false, false), s.sessions))] + [] == accepted;
    assert AddAccepted(s1, 7, 1).surfaces == Put(s1.surfaces, 7, Surface(3, accepted)) == [(7, Surface(3, accepted))];
  }

  lemma Press(s: State, surfaces: seq<(nat, Surface)>)
    requires Looks(s, surfaces, Mouse(0, None))
    ensures Looks(Step(s, PointerButton(1, 1, false, NOWHERE)), surfaces, Mouse(1, None))
  {
    assert Lookup(s.seats, 1) == Some(Mouse(0, None));
  }

  lemma Force(s: State)
    requires Looks(s, [(7, Surface(3, [(1, UNTOUCHED)]))], Mouse(1, None))
    ensures Looks(Step(s, FocusRequest(7, POINTING, true, NOWHERE)), [(7, Surface(3, [(1, UNTOUCHED)]))], Mouse(1, Some(7)))
  {
    var accepted := [(1, UNTOUCHED)];
    assert Lookup(s.surfaces, 7) == Some(Surface(3, accepted)) && Keys(accepted) == [1];
    var s1 := FocusSeat(s, 7, 1, POINTING, true, NOWHERE);
    assert Looks(s1, s.surfaces, Mouse(1, Some(7)));
    assert FocusSeats(s, 7, [1], POINTING, true, NOWHERE) == FocusSeats(s1, 7, [1][1..], POINTING, true, NOWHERE) == s1;
  }

  lemma DropUnmarked(s: State)
    requires Looks(s, [(7, Surface(3, [(1, UNTOUCHED)]))], Mouse(1, Some(7)))
    ensures Looks(Step(s, AcceptanceRequest(7, "d", false, NOWHERE)), [(7, Surface(3, []))], Mouse(1, Some(7)))
  {
    assert FindSeat(s.seats, "d") == Some(1) && Lookup(s.seats, 1) == Some(Mouse(1, Some(7)));
    assert RecordOf(s, 7, 1) == Some(UNTOUCHED);
    assert Unfocus(s, 7, 1) == s;
    assert Remove([(1, UNTOUCHED)], 1) == [];
  }

  lemma DestroyIt(s: State)
    requires Looks(s, [(7, Surface(3, []))], Mouse(1, Some(7)))
    ensures Looks(Step(s, SurfaceDestroy(7)), [], Mouse(1, Some(7)))
  {
    assert Lookup(s.surfaces, 7) == Some(Surface(3, [])) && Unforce(s, 7, []) == s;
  }

  const FORCED_OPS: seq<Op> :=
    [SeatCreate(1, "d", true, true), SurfaceCreate(7, 3), PointerButton(1, 1, false, NOWHERE),
     FocusRequest(7, POINTING, true, NOWHERE), AcceptanceRequest(7, "d", false, NOWHERE), SurfaceDestroy(7)]

  /** States one step apart make a legal run. */
  lemma {:induction false} Chain(states: seq<State>, ops: seq<Op>)
    requires |states| == |ops| + 1
    requires forall i :: 0 <= i < |ops| ==> Legal(states[i], ops[i]) && states[i + 1] == Step(states[i], ops[i])
    ensures AllLegal(states[0], ops) && Run(states[0], ops) == states[|ops|]
    decreases |ops|
  {
    if ops != [] {
      Chain(states[1..], ops[1..]);
    }
  }

  /** A legal run after which a seat is forced to a surface that is gone: a seat
      with a pressed button is forced to surface 7, which then stops accepting
      the seat and is destroyed. */
  lemma ForcedToNothing()
    ensures AllLegal(Boot("d"), FORCED_OPS)
    ensures Run(Boot("d"), FORCED_OPS).surfaces == [] && ForcedTo(Run(Boot("d"), FORCED_OPS), 1, 7)
  {
    var ops := FORCED_OPS;
    var s0 := Boot("d");
    var s1 := Step(s0, ops[0]);
    FirstSeat();
    var s2 := Step(s1, ops[1]);
    FirstSurface(s1);
    var s3 := Step(s2, ops[2]);
    Press(s2, s2.surfaces);
    var s4 := Step(s3, ops[3]);
    Force(s3);
    var s5 := Step(s4, ops[4]);
    DropUnmarked(s4);
    var s6 := Step(s5, ops[5]);
    DestroyIt(s5);
    Chain([s0, s1, s2, s3, s4, s5, s6], ops);
  }

  // ---------- a keyboard that goes away ----------

  lemma LeaveBits(s: State, id: nat, k: nat, a: nat)
    requires Inv(s)
    ensures KbdBit(KbdLeave(s, id, k), a, k) ==> KbdBit(s, a, k) && a != id
  {
    if RecordOf(s, id, k).Some? && KbdBit(s, id, k) {
      FlipRecords(s, id, k, false);
    }
  }

  lemma {:induction false} LeaveAllBits(s: State, ids: seq<nat>, k: nat, a: nat)
    requires Inv(s)
    ensures KbdBit(LeaveAll(s, ids, k), a, k) ==> KbdBit(s, a, k) && a !in ids
    decreases |ids|
  {
    if ids != [] {
      KbdLeaveEffect(s, ids[0], k);
      LeaveBits(s, ids[0], k, a);
      LeaveAllBits(KbdLeave(s, ids[0], k), ids[1..], k, a);
    }
  }

  lemma CancelEffect(s: State, k: nat, id: nat)
    requires Inv(s) && Lookup(s.seats, k).Some? && RecordOf(s, id, k).Some?
    ensures var s1 := CancelKeyboard(s, k);
            && Inv(s1) && s1.seats == s.seats && !KbdBit(s1, id, k) && RecordOf(s1, id, k).Some?
            && RecordOf(s1, id, k).value.session == RecordOf(s, id, k).value.session
  {
    LeaveAllEffect(s, Keys(s.surfaces), k);
    LeaveAllBits(s, Keys(s.surfaces), k, id);
    LeaveAllFocus(s, Keys(s.surfaces), k);
    LookupKeys(s.surfaces, id);
    assert SameRecord(RecordOf(s, id, k), RecordOf(CancelKeyboard(s, k), id, k));
  }

  lemma UnplugEffect(s: State, k: nat, id: nat, pointer: bool)
    requires Inv(s) && Lookup(s.seats, k).Some? && (Lookup(s.seats, k).value.focus.Some? ==> pointer)
    requires RecordOf(s, id, k).Some? && !KbdBit(s, id, k)
    ensures SessionRun(Reject(ChangeCaps(s, k, false, pointer), id, k).kbd, RecordOf(s, id, k).value.session) == Idle
  {
    var seat := Lookup(s.seats, k).value.(keyboard := false, pointer := pointer);
    SeatUpdateEffect(s, k, seat);
    LookupPut(s.seats, k, seat, k);
    RejectClosesSession(PutSeat(s, k, seat), id, k);
  }

  /** Cancelling the grab leaves every surface, so if weston does that before it
      takes a keyboard away, every record dropped later ends with a LEAVE. */
  lemma CancelledThenClosed(s: State, k: nat, id: nat, pointer: bool)
    requires Inv(s) && Lookup(s.seats, k).Some? && (Lookup(s.seats, k).value.focus.Some? ==> pointer)
    requires RecordOf(s, id, k).Some?
    ensures var gone := ChangeCaps(CancelKeyboard(s, k), k, false, pointer);
            SessionRun(Reject(gone, id, k).kbd, RecordOf(s, id, k).value.session) == Idle
  {
    CancelEffect(s, k, id);
    UnplugEffect(CancelKeyboard(s, k), k, id, pointer);
  }

  lemma {:induction false} LeaveAllFocus(s: State, ids: seq<nat>, k: nat)
    ensures LeaveAll(s, ids, k).seats == s.seats
    decreases |ids|
  {
    if ids != [] {
      LeaveAllFocus(KbdLeave(s, ids[0], k), ids[1..], k);
    }
  }

  const TYPING := Record(Devices(true, false, false), 0)

  lemma FocusKeyboard(s: State)
    requires Looks(s, [(7, Surface(3, [(1, UNTOUCHED)]))], Mouse(0, None))
    ensures Looks(Step(s, FocusRequest(7, KEYBOARD, true, NOWHERE)), [(7, Surface(3, [(1, TYPING)]))], Mouse(0, None))
    ensures Step(s, FocusRequest(7, KEYBOARD, true, NOWHERE)).kbd == s.kbd + [Enter(0)]
  {
    var accepted := [(1, UNTOUCHED)];
    assert Lookup(s.surfaces, 7) == Some(Surface(3, accepted)) && Keys(accepted) == [1];
    assert RecordOf(s, 7, 1) == Some(UNTOUCHED) && Lookup(s.seats, 1) == Some(Mouse(0, None));
    var s1 := FocusSeat(s, 7, 1, KEYBOARD, true, NOWHERE);
    assert s1 == KbdEnter(s, 7, 1);
    assert Put(accepted, 1, TYPING) == [(1, TYPING)];
    assert FocusSeats(s, 7, [1], KEYBOARD, true, NOWHERE) == FocusSeats(s1, 7, [1][1..], KEYBOARD, true, NOWHERE) == s1;
  }

  lemma Unplug(s: State, surfaces: seq<(nat, Surface)>)
    requires Looks(s, surfaces, Mouse(0, None))
    ensures Looks(Step(s, Caps(1, false, true)), surfaces, Mouse(0, None).(keyboard := false))
    ensures Step(s, Caps(1, false, true)).kbd == s.kbd && Legal(s, Caps(1, false, true))
  {
    assert Lookup(s.seats, 1) == Some(Mouse(0, None));
  }

  lemma DropUnplugged(s: State)
    requires Looks(s, [(7, Surface(3, [(1, TYPING)]))], Mouse(0, None).(keyboard := false))
    ensures Looks(Step(s, AcceptanceRequest(7, "d", false, NOWHERE)), [(7, Surface(3, []))], Mouse(0, None).(keyboard := false))
    ensures Step(s, AcceptanceRequest(7, "d", false, NOWHERE)).kbd == s.kbd
  {
    assert FindSeat(s.seats, "d") == Some(1) && Lookup(s.seats, 1) == Some(Mouse(0, None).(keyboard := false));
    assert RecordOf(s, 7, 1) == Some(TYPING);
    assert Unfocus(s, 7, 1) == s;
    assert Remove([(1, TYPING)], 1) == [];
  }

  const UNPLUG_OPS: seq<Op> :=
    [SeatCreate(1, "d", true, true), SurfaceCreate(7, 3), FocusRequest(7, KEYBOARD, true, NOWHERE),
     Caps(1, false, true), AcceptanceRequest(7, "d", false, NOWHERE)]

  lemma OneEnter(kbd: seq<KbdEvent>)
    requires kbd == [] + [Enter(0)]
    ensures SessionRun(kbd, 0) == Entered
  {
    SessionSnoc([], Enter(0), 0);
  }

  /** A run in which a keyboard goes away without its grab being cancelled: the
      record is dropped and its session stays entered. */
  lemma UnpluggedStaysEntered()
    ensures AllLegal(Boot("d"), UNPLUG_OPS)
    ensures var s := Run(Boot("d"), UNPLUG_OPS);
            s.surfaces == [(7, Surface(3, []))] && SessionRun(s.kbd, 0) == Entered
  {
    var ops := UNPLUG_OPS;
    var s0 := Boot("d");
    var s1 := Step(s0, ops[0]);
    FirstSeat();
    var s2 := Step(s1, ops[1]);
    FirstSurface(s1);
    var s3 := Step(s2, ops[2]);
    FocusKeyboard(s2);
    var s4 := Step(s3, ops[3]);
    Unplug(s3, s3.surfaces);
    var s5 := Step(s4, ops[4]);
    DropUnplugged(s4);
    Chain([s0, s1, s2, s3, s4, s5], ops);
    OneEnter(s5.kbd);
  }
}
