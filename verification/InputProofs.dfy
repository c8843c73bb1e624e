/** What every run of the input controller keeps: well-formed lists, pointer
    agreement, and keyboard sessions. */
module InputProofs {
  import opened WlList
  import opened Protocol
  import opened Input

  // ---------- vocabulary ----------

  ghost predicate Owns(s: State, id: nat, w: nat) {
    Lookup(s.surfaces, id).Some? && Lookup(s.surfaces, id).value.wsurf == w
  }

  /** The pointer of seat `k` is on the ivi surface `id`. */
  ghost predicate Focuses(s: State, k: nat, id: nat) {
    var seat := Lookup(s.seats, k);
    seat.Some? && seat.value.focus.Some? && seat.value.focus.value.main.Some?
    && Owns(s, id, seat.value.focus.value.main.value)
  }

  ghost predicate PtrBit(s: State, id: nat, k: nat) {
    RecordOf(s, id, k).Some? && RecordOf(s, id, k).value.focus.ptr
  }

  ghost predicate KbdBit(s: State, id: nat, k: nat) {
    RecordOf(s, id, k).Some? && RecordOf(s, id, k).value.focus.kbd
  }

  ghost predicate Wf(s: State) {
    && NoDup(Keys(s.surfaces)) && NoDup(Keys(s.seats))
    && (forall id :: Lookup(s.surfaces, id).Some? ==> NoDup(Keys(Lookup(s.surfaces, id).value.accepted)))
    && (forall a, b, w :: Owns(s, a, w) && Owns(s, b, w) ==> a == b)
    && (forall id, k :: RecordOf(s, id, k).Some? ==> Lookup(s.seats, k).Some?)
    && (forall a, b :: (Lookup(s.seats, a).Some? && Lookup(s.seats, b).Some?
                        && Lookup(s.seats, a).value.name == Lookup(s.seats, b).value.name) ==> a == b)
    && (forall k :: Lookup(s.seats, k).Some? && !Lookup(s.seats, k).value.pointer
                    ==> Lookup(s.seats, k).value.focus.None?)
  }

  /** Pointer agreement: the pointer bit of seat `k` is on surface `id`
      exactly when the seat's pointer focus is a view of `id`. */
  ghost predicate Agree(s: State) {
    forall id, k :: PtrBit(s, id, k) <==> Focuses(s, k, id)
  }

  // ---------- searching ----------

  lemma {:induction false} FindSurfaceSound(l: seq<(nat, Surface)>, w: nat)
    requires NoDup(Keys(l))
    ensures FindSurface(l, w).Some? ==>
              Lookup(l, FindSurface(l, w).value).Some? && Lookup(l, FindSurface(l, w).value).value.wsurf == w
    ensures forall id :: Lookup(l, id).Some? && Lookup(l, id).value.wsurf == w ==> FindSurface(l, w).Some?
  {
    if l != [] && l[0].1.wsurf != w {
      KeysTail(l);
      FindSurfaceSound(l[1..], w);
      if FindSurface(l[1..], w).Some? {
        LookupKeys(l[1..], FindSurface(l[1..], w).value);
      }
    }
  }

  lemma SurfaceOfSpec(s: State, v: View, id: nat)
    requires Wf(s)
    ensures SurfaceOf(s, v) == Some(id) <==> v.main.Some? && Owns(s, id, v.main.value)
  {
    if v.main.Some? {
      FindSurfaceSound(s.surfaces, v.main.value);
      if SurfaceOf(s, v).Some? {
        assert Owns(s, SurfaceOf(s, v).value, v.main.value);
      }
    }
  }

  lemma {:induction false} FindSeatSound(l: seq<(nat, Seat)>, name: string)
    requires NoDup(Keys(l))
    ensures FindSeat(l, name).Some? ==>
              Lookup(l, FindSeat(l, name).value).Some? && Lookup(l, FindSeat(l, name).value).value.name == name
    ensures forall k :: Lookup(l, k).Some? && Lookup(l, k).value.name == name ==> FindSeat(l, name).Some?
  {
    if l != [] && l[0].1.name != name {
      KeysTail(l);
      FindSeatSound(l[1..], name);
      if FindSeat(l[1..], name).Some? {
        LookupKeys(l[1..], FindSeat(l[1..], name).value);
      }
    }
  }

  // ---------- steps that only move focus ----------

  ghost predicate SameSurface(a: Option<Surface>, b: Option<Surface>) {
    (a.None? && b.None?)
    || (a.Some? && b.Some? && a.value.wsurf == b.value.wsurf && Keys(a.value.accepted) == Keys(b.value.accepted))
  }

  ghost predicate SameRecord(a: Option<Record>, b: Option<Record>) {
    (a.None? && b.None?) || (a.Some? && b.Some? && a.value.session == b.value.session)
  }

  ghost predicate SameSeat(a: Option<Seat>, b: Option<Seat>) {
    (a.None? && b.None?)
    || (a.Some? && b.Some? && a.value.name == b.value.name
        && a.value.keyboard == b.value.keyboard && a.value.pointer == b.value.pointer)
  }

  ghost predicate OnlyFocusEvents(q: seq<Event>) {
    forall i :: 0 <= i < |q| ==> q[i].InputFocus?
  }

  /** `s'` differs from `s` in focus bits and pointer state of seats only, and
      only focus events were sent. */
  ghost predicate Shape(s: State, s': State) {
    && s'.defaultSeat == s.defaultSeat && s'.sessions == s.sessions
    && Keys(s'.surfaces) == Keys(s.surfaces) && Keys(s'.seats) == Keys(s.seats)
    && (forall id :: SameSurface(Lookup(s.surfaces, id), Lookup(s'.surfaces, id)))
    && (forall id, k :: SameRecord(RecordOf(s, id, k), RecordOf(s', id, k)))
    && (forall k :: SameSeat(Lookup(s.seats, k), Lookup(s'.seats, k)))
    && s.out <= s'.out && OnlyFocusEvents(s'.out[|s.out|..])
  }

  ghost predicate SameKbd(s: State, s': State) {
    s'.kbd == s.kbd && forall id, k :: KbdBit(s', id, k) == KbdBit(s, id, k)
  }

  ghost predicate PointerStep(s: State, s': State) {
    Shape(s, s') && SameKbd(s, s')
  }

  lemma PointerStepTrans(a: State, b: State, c: State)
    requires Shape(a, b) && Shape(b, c)
    ensures Shape(a, c)
    ensures SameKbd(a, b) && SameKbd(b, c) ==> SameKbd(a, c)
  {
    forall id ensures SameSurface(Lookup(a.surfaces, id), Lookup(c.surfaces, id)) {
      assert SameSurface(Lookup(a.surfaces, id), Lookup(b.surfaces, id));
      assert SameSurface(Lookup(b.surfaces, id), Lookup(c.surfaces, id));
    }
    forall id, k ensures SameRecord(RecordOf(a, id, k), RecordOf(c, id, k)) {
      assert SameRecord(RecordOf(a, id, k), RecordOf(b, id, k));
      assert SameRecord(RecordOf(b, id, k), RecordOf(c, id, k));
    }
    forall k ensures SameSeat(Lookup(a.seats, k), Lookup(c.seats, k)) {
      assert SameSeat(Lookup(a.seats, k), Lookup(b.seats, k));
      assert SameSeat(Lookup(b.seats, k), Lookup(c.seats, k));
    }
    var q := c.out[|a.out|..];
    forall i | 0 <= i < |q| ensures q[i].InputFocus? {
      if i < |b.out| - |a.out| {
        assert q[i] == b.out[|a.out|..][i];
      } else {
        assert q[i] == c.out[|b.out|..][i - (|b.out| - |a.out|)];
      }
    }
  }

  /** The owner of a weston surface is the same across a focus step. */
  lemma ShapeKeepsWf(s: State, s': State)
    requires Wf(s) && Shape(s, s')
    requires forall k :: Lookup(s'.seats, k).Some? && !Lookup(s'.seats, k).value.pointer
                         ==> Lookup(s'.seats, k).value.focus.None?
    ensures Wf(s')
    ensures forall id, w :: Owns(s', id, w) == Owns(s, id, w)
  {
    forall id, w ensures Owns(s', id, w) == Owns(s, id, w) {
      assert SameSurface(Lookup(s.surfaces, id), Lookup(s'.surfaces, id));
    }
    forall id | Lookup(s'.surfaces, id).Some?
      ensures NoDup(Keys(Lookup(s'.surfaces, id).value.accepted))
    {
      assert SameSurface(Lookup(s.surfaces, id), Lookup(s'.surfaces, id));
    }
    forall id, k | RecordOf(s', id, k).Some? ensures Lookup(s'.seats, k).Some? {
      assert SameRecord(RecordOf(s, id, k), RecordOf(s', id, k));
      assert SameSeat(Lookup(s.seats, k), Lookup(s'.seats, k));
    }
    forall a, b | Lookup(s'.seats, a).Some? && Lookup(s'.seats, b).Some?
                  && Lookup(s'.seats, a).value.name == Lookup(s'.seats, b).value.name
      ensures a == b
    {
      assert SameSeat(Lookup(s.seats, a), Lookup(s'.seats, a));
      assert SameSeat(Lookup(s.seats, b), Lookup(s'.seats, b));
    }
  }

  lemma PutRecordEffect(s: State, id: nat, k: nat, r: Record)
    requires RecordOf(s, id, k).Some? && RecordOf(s, id, k).value.session == r.session
    ensures Shape(s, PutRecord(s, id, k, r))
    ensures PutRecord(s, id, k, r).seats == s.seats
    ensures forall a, b :: RecordOf(PutRecord(s, id, k, r), a, b)
                           == if a == id && b == k then Some(r) else RecordOf(s, a, b)
  {
    var s' := PutRecord(s, id, k, r);
    var sf := Lookup(s.surfaces, id).value;
    var sf' := sf.(accepted := Put(sf.accepted, k, r));
    forall a ensures Lookup(s'.surfaces, a) == if a == id then Some(sf') else Lookup(s.surfaces, a) {
      LookupPut(s.surfaces, id, sf', a);
    }
    forall b ensures Lookup(sf'.accepted, b) == if b == k then Some(r) else Lookup(sf.accepted, b) {
      LookupPut(sf.accepted, k, r, b);
    }
  }

  lemma SendShape(s: State, e: Event)
    requires e.InputFocus?
    ensures Shape(s, Send(s, e))
    ensures forall id, k :: RecordOf(Send(s, e), id, k) == RecordOf(s, id, k)
  {
  }

  lemma SendPointerEffect(s: State, id: nat, k: nat, on: bool)
    ensures PointerStep(s, SendPointer(s, id, k, on))
    ensures SendPointer(s, id, k, on).seats == s.seats
    ensures forall a, b :: PtrBit(SendPointer(s, id, k, on), a, b)
                           <==> if a == id && b == k then on && RecordOf(s, id, k).Some? else PtrBit(s, a, b)
  {
    if RecordOf(s, id, k).Some? {
      var r := RecordOf(s, id, k).value;
      var s1 := PutRecord(s, id, k, r.(focus := r.focus.(ptr := on)));
      PutRecordEffect(s, id, k, r.(focus := r.focus.(ptr := on)));
      SendShape(s1, InputFocus(id, POINTING, on));
      PointerStepTrans(s, s1, Send(s1, InputFocus(id, POINTING, on)));
    }
  }

  /** Changing a seat's pointer state moves no bit. */
  lemma PutSeatEffect(s: State, k: nat, seat: Seat)
    requires SameSeat(Lookup(s.seats, k), Some(seat))
    ensures PointerStep(s, PutSeat(s, k, seat))
    ensures PutSeat(s, k, seat).surfaces == s.surfaces
    ensures forall j :: Lookup(PutSeat(s, k, seat).seats, j) == if j == k then Some(seat) else Lookup(s.seats, j)
    ensures forall a, b :: PtrBit(PutSeat(s, k, seat), a, b) == PtrBit(s, a, b)
  {
    var s' := PutSeat(s, k, seat);
    forall j ensures Lookup(s'.seats, j) == if j == k then Some(seat) else Lookup(s.seats, j) {
      LookupPut(s.seats, k, seat, j);
    }
  }

  // ---------- pointer agreement, operation by operation ----------

  ghost predicate Ok(s: State) {
    Wf(s) && Agree(s)
  }

  /** Every focus operation keeps the lists and the agreement. */
  ghost predicate Good(s: State, s': State) {
    Ok(s') && PointerStep(s, s')
  }

  lemma GoodTrans(a: State, b: State, c: State)
    requires Good(a, b) && Good(b, c)
    ensures Good(a, c)
  {
    PointerStepTrans(a, b, c);
  }

  lemma UnmarkEffect(s: State, k: nat)
    requires Ok(s) && Lookup(s.seats, k).Some?
    ensures PointerStep(s, Unmark(s, k)) && Unmark(s, k).seats == s.seats && Wf(Unmark(s, k))
    ensures forall a, b :: PtrBit(Unmark(s, k), a, b) <==> b != k && PtrBit(s, a, b)
    ensures forall a, w :: Owns(Unmark(s, k), a, w) == Owns(s, a, w)
  {
    var seat := Lookup(s.seats, k).value;
    if seat.focus.Some? {
      var v := seat.focus.value;
      forall a: nat ensures PtrBit(s, a, k) <==> SurfaceOf(s, v) == Some(a) {
        SurfaceOfSpec(s, v, a);
        assert PtrBit(s, a, k) <==> Focuses(s, k, a);
      }
      if SurfaceOf(s, v).Some? {
        SendPointerEffect(s, SurfaceOf(s, v).value, k, false);
      }
    } else {
      forall a: nat ensures !PtrBit(s, a, k) {
        assert PtrBit(s, a, k) <==> Focuses(s, k, a);
      }
    }
    ShapeKeepsWf(s, Unmark(s, k));
  }

  /** Assigning `pointer->focus` restores agreement when the bits of seat `k`
      already match the new view. */
  lemma SetFocusEffect(s: State, k: nat, v: Option<View>)
    requires Wf(s) && Lookup(s.seats, k).Some?
    requires v.Some? ==> Lookup(s.seats, k).value.pointer
    requires forall a, b :: b != k ==> (PtrBit(s, a, b) <==> Focuses(s, b, a))
    requires forall a: nat :: PtrBit(s, a, k) <==> v.Some? && SurfaceOf(s, v.value) == Some(a)
    ensures Good(s, SetFocus(s, k, v))
    ensures Lookup(SetFocus(s, k, v).seats, k) == Some(Lookup(s.seats, k).value.(focus := v))
  {
    var seat := Lookup(s.seats, k).value.(focus := v);
    var s' := SetFocus(s, k, v);
    PutSeatEffect(s, k, seat);
    ShapeKeepsWf(s, s');
    forall a, b ensures PtrBit(s', a, b) <==> Focuses(s', b, a) {
      assert PtrBit(s', a, b) == PtrBit(s, a, b);
      if b == k && v.Some? {
        SurfaceOfSpec(s, v.value, a);
      } else if b != k {
        assert Focuses(s', b, a) == Focuses(s, b, a);
      }
    }
  }

  lemma LeavePointerEffect(s: State, k: nat)
    requires Ok(s) && Lookup(s.seats, k).Some?
    ensures Good(s, LeavePointer(s, k))
    ensures Lookup(LeavePointer(s, k).seats, k) == Some(Lookup(s.seats, k).value.(focus := None))
  {
    var s1 := Unmark(s, k);
    UnmarkEffect(s, k);
    forall a, b | b != k ensures PtrBit(s1, a, b) <==> Focuses(s1, b, a) {
      assert PtrBit(s, a, b) <==> Focuses(s, b, a);
      assert Focuses(s1, b, a) == Focuses(s, b, a);
    }
    SetFocusEffect(s1, k, None);
    PointerStepTrans(s, s1, LeavePointer(s, k));
  }

  lemma SetWestFocusEffect(s: State, k: nat, target: Option<View>, env: Env)
    requires Ok(s) && HasPointer(s, k)
    ensures Good(s, SetWestFocus(s, k, target, env))
  {
    var seat := Lookup(s.seats, k).value;
    var view := if target.None? then env.pick(k) else target;
    if seat.focus != view {
      var s1 := Unmark(s, k);
      UnmarkEffect(s, k);
      forall a, b | b != k ensures PtrBit(s1, a, b) <==> Focuses(s1, b, a) {
        assert PtrBit(s, a, b) <==> Focuses(s, b, a);
        assert Focuses(s1, b, a) == Focuses(s, b, a);
      }
      if view.None? {
        SetFocusEffect(s1, k, None);
        PointerStepTrans(s, s1, SetFocus(s1, k, None));
      } else if SurfaceOf(s1, view.value).None? {
        SetFocusEffect(s1, k, view);
        PointerStepTrans(s, s1, SetFocus(s1, k, view));
      } else {
        var id := SurfaceOf(s1, view.value).value;
        if RecordOf(s1, id, k).Some? {
          EnterPointerEffect(s1, k, view, id);
          PointerStepTrans(s, s1, SetFocus(SendPointer(s1, id, k, true), k, view));
        } else {
          SetFocusEffect(s1, k, None);
          PointerStepTrans(s, s1, SetFocus(s1, k, None));
        }
      }
    }
  }

  lemma EnterPointerEffect(s: State, k: nat, view: Option<View>, id: nat)
    requires Wf(s) && HasPointer(s, k) && view.Some? && SurfaceOf(s, view.value) == Some(id)
    requires RecordOf(s, id, k).Some?
    requires forall a, b :: b != k ==> (PtrBit(s, a, b) <==> Focuses(s, b, a))
    requires forall a: nat :: !PtrBit(s, a, k)
    ensures Good(s, SetFocus(SendPointer(s, id, k, true), k, view))
  {
    var s2 := SendPointer(s, id, k, true);
    SendPointerEffect(s, id, k, true);
    ShapeKeepsWf(s, s2);
    forall a, b | b != k ensures PtrBit(s2, a, b) <==> Focuses(s2, b, a) {
      assert PtrBit(s, a, b) <==> Focuses(s, b, a);
      assert Focuses(s2, b, a) == Focuses(s, b, a);
    }
    forall a: nat ensures PtrBit(s2, a, k) <==> SurfaceOf(s2, view.value) == Some(a) {
      SurfaceOfSpec(s, view.value, a);
      SurfaceOfSpec(s2, view.value, a);
    }
    SetFocusEffect(s2, k, view);
    PointerStepTrans(s, s2, SetFocus(s2, k, view));
  }

  lemma SetForcedEffect(s: State, k: nat, forced: Option<nat>, on: bool)
    requires Ok(s)
    ensures Good(s, SetForced(s, k, forced, on))
    ensures HasPointer(SetForced(s, k, forced, on), k) == HasPointer(s, k)
  {
    if Lookup(s.seats, k).Some? {
      SameBitsEffect(s, k, Lookup(s.seats, k).value.(forced := forced, forcedOn := on));
    }
  }

  /** Updating a seat without touching its focus keeps the agreement. */
  lemma SameBitsEffect(s: State, k: nat, seat: Seat)
    requires Ok(s) && SameSeat(Lookup(s.seats, k), Some(seat)) && seat.focus == Lookup(s.seats, k).value.focus
    ensures Good(s, PutSeat(s, k, seat))
    ensures HasPointer(PutSeat(s, k, seat), k) == HasPointer(s, k)
  {
    var s' := PutSeat(s, k, seat);
    PutSeatEffect(s, k, seat);
    ShapeKeepsWf(s, s');
    forall a, b ensures PtrBit(s', a, b) <==> Focuses(s', b, a) {
      assert PtrBit(s', a, b) == PtrBit(s, a, b);
      assert Focuses(s', b, a) == Focuses(s, b, a);
    }
  }

  lemma GrabFocusEffect(s: State, k: nat, env: Env)
    requires Ok(s) && HasPointer(s, k)
    ensures Good(s, GrabFocus(s, k, env))
  {
    var seat := Lookup(s.seats, k).value;
    if seat.buttons > 0 {
    } else if seat.forced.None? {
      SetWestFocusEffect(s, k, None, env);
    } else if seat.forcedOn {
      if env.first(seat.forced.value).Some? {
        SetWestFocusEffect(s, k, env.first(seat.forced.value), env);
      }
    } else if seat.focus.Some? {
      var s1 := if ShowsForced(s, seat) then LeavePointer(s, k) else s;
      if ShowsForced(s, seat) {
        LeavePointerEffect(s, k);
      }
      SetForcedEffect(s1, k, None, seat.forcedOn);
      GoodTrans(s, s1, SetForced(s1, k, None, seat.forcedOn));
    }
  }

  lemma ClearPointerEffect(s: State, k: nat)
    requires Ok(s)
    ensures Good(s, ClearPointer(s, k))
    ensures Lookup(s.seats, k).Some? ==>
              Lookup(ClearPointer(s, k).seats, k).Some? && Lookup(ClearPointer(s, k).seats, k).value.focus.None?
  {
    if Lookup(s.seats, k).Some? && Lookup(s.seats, k).value.focus.Some? {
      var s1 := LeavePointer(s, k);
      LeavePointerEffect(s, k);
      var seat := Lookup(s.seats, k).value;
      SetForcedEffect(s1, k, None, seat.forcedOn);
      LookupPut(s1.seats, k, Lookup(s1.seats, k).value.(forced := None, forcedOn := seat.forcedOn), k);
      GoodTrans(s, s1, ClearPointer(s, k));
    }
  }

  lemma ForcePointerEffect(s: State, id: nat, k: nat, enabled: bool, env: Env)
    requires Ok(s)
    ensures Good(s, ForcePointer(s, id, k, enabled, env))
  {
    var seat := Lookup(s.seats, k);
    if seat.Some? && seat.value.pointer {
      var s1 := if enabled then SetForced(s, k, Some(id), true) else SetForced(s, k, seat.value.forced, false);
      SetForcedEffect(s, k, Some(id), true);
      SetForcedEffect(s, k, seat.value.forced, false);
      GrabFocusEffect(s1, k, env);
      GoodTrans(s, s1, GrabFocus(s1, k, env));
    }
  }
}
