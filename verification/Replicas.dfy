/** Mirrors over whole runs: whatever a client missed, joined late or has not
    yet dispatched, draining its queue gives the server's lists. */
module Replicas {
  import opened WlList
  import opened Protocol
  import opened Input
  import opened InputProofs
  import opened InputRuns
  import opened System

  // ---------- one input-controller step ----------

  lemma PutSeatNames(s: State, k: nat, seat: Seat)
    requires Wf(s) && Wf(PutSeat(s, k, seat))
    requires Lookup(s.seats, k).Some? && Lookup(s.seats, k).value.name == seat.name
    ensures forall n :: FindSeat(PutSeat(s, k, seat).seats, n) == FindSeat(s.seats, n)
  {
    var s' := PutSeat(s, k, seat);
    forall n ensures FindSeat(s'.seats, n) == FindSeat(s.seats, n) {
      if FindSeat(s.seats, n).Some? {
        var j := FindSeat(s.seats, n).value;
        FindSeatSpec(s, n, j);
        LookupPut(s.seats, k, seat, j);
        FindSeatSpec(s', n, j);
      }
      if FindSeat(s'.seats, n).Some? {
        var j := FindSeat(s'.seats, n).value;
        FindSeatSpec(s', n, j);
        LookupPut(s.seats, k, seat, j);
        FindSeatSpec(s, n, j);
      }
    }
  }

  lemma SeatUpdateAgrees(s: State, k: nat, seat: Seat, m: Mirror, stale: set<(nat, string)>)
    requires Inv(s) && Agrees(s, m, stale) && Lookup(s.seats, k).Some?
    requires seat.name == Lookup(s.seats, k).value.name && seat.focus == Lookup(s.seats, k).value.focus
    requires seat.focus.Some? ==> seat.pointer
    ensures Inv(PutSeat(s, k, seat)) && Agrees(PutSeat(s, k, seat), m, stale)
  {
    var s' := PutSeat(s, k, seat);
    SeatUpdateEffect(s, k, seat);
    PutSeatNames(s, k, seat);
    forall id, n ensures AcceptsName(s', id, n) == AcceptsName(s, id, n) {
      assert forall j :: RecordOf(s', id, j) == RecordOf(s, id, j);
    }
    SameMirrorNames(s, s', m, m, stale);
  }

  /** Steps that only move focus leave every mirror as it is. */
  lemma FocusOnlyAgrees(s: State, s': State, m: Mirror, stale: set<(nat, string)>)
    requires Inv(s) && Inv(s') && Shape(s, s') && Agrees(s, m, stale)
    ensures s.out <= s'.out && Agrees(s', Drain(m, NewEvents(s, s')), stale)
  {
    ShapeAgrees(s, s', m, stale);
  }

  lemma ButtonAgrees(s: State, k: nat, count: nat, released: bool, env: Env, m: Mirror, stale: set<(nat, string)>)
    requires Inv(s) && Agrees(s, m, stale) && HasPointer(s, k)
    ensures var s' := Button(s, k, count, released, env);
            s.out <= s'.out && Agrees(s', Drain(m, NewEvents(s, s')), stale)
  {
    var seat := Lookup(s.seats, k).value.(buttons := count);
    var s1 := PutSeat(s, k, seat);
    SeatUpdateAgrees(s, k, seat, m, stale);
    LookupPut(s.seats, k, seat, k);
    if count == 0 && released {
      GrabFocusEffect(s1, k, env);
      PointerStepKbd(s1, GrabFocus(s1, k, env));
      FocusOnlyAgrees(s1, GrabFocus(s1, k, env), m, stale);
    }
  }

  predicate FocusOp(op: Op) {
    op.FocusRequest? || op.PointerFocus? || op.PointerCancel? || op.KeyboardCancel?
  }

  lemma FocusStepShape(s: State, op: Op)
    requires Inv(s) && FocusOp(op)
    ensures Shape(s, Step(s, op))
  {
    match op
    case FocusRequest(id, device, enabled, env) =>
      if Lookup(s.surfaces, id).Some? {
        FocusSeatsEffect(s, id, Keys(Lookup(s.surfaces, id).value.accepted), device, enabled, env);
      }
    case PointerFocus(k, env) => if HasPointer(s, k) { GrabFocusEffect(s, k, env); }
    case PointerCancel(k) => ClearPointerEffect(s, k);
    case KeyboardCancel(k) => LeaveAllEffect(s, Keys(s.surfaces), k);
  }

  lemma FocusStepAgrees(s: State, op: Op, m: Mirror, stale: set<(nat, string)>)
    requires Inv(s) && Legal(s, op) && Agrees(s, m, stale)
    requires FocusOp(op)
    ensures s.out <= Step(s, op).out && Agrees(Step(s, op), Drain(m, NewEvents(s, Step(s, op))), stale)
  {
    StepKeepsInv(s, op);
    FocusStepShape(s, op);
    FocusOnlyAgrees(s, Step(s, op), m, stale);
  }

  /** Whatever the step, hearing its events keeps a mirror in agreement. */
  lemma StepAgrees(s: State, op: Op, m: Mirror, stale: set<(nat, string)>)
    requires Inv(s) && Legal(s, op) && Agrees(s, m, stale)
    ensures Agrees(Step(s, op), Drain(Drain(m, WmEvents(s, op)), NewEvents(s, Step(s, op))), StaleAfter(s, stale, op))
  {
    assert Drain(m, []) == m && NewEvents(s, s) == [];
    match op
    case SeatCreate(k, name, kb, pt) => SeatCreateAgrees(s, k, name, kb, pt, m, stale);
    case SeatDestroy(k) => SeatDestroyAgrees(s, k, m, stale);
    case SurfaceCreate(id, w) =>
      assert Drain(m, [SurfaceCreated(id)]) == Drain(Apply(m, SurfaceCreated(id)), []);
      SurfaceCreateAgrees(s, id, w, m, stale);
    case SurfaceDestroy(id) => SurfaceDestroyAgrees(s, id, m, stale);
    case AcceptanceRequest(id, name, accepted, env) => AcceptanceAgrees(s, id, name, accepted, env, m, stale);
    case Caps(k, kb, pt) =>
      SeatUpdateAgrees(s, k, Lookup(s.seats, k).value.(keyboard := kb, pointer := pt), m, stale);
    case PointerMotion(k) =>
      if Lookup(s.seats, k).Some? {
        SeatUpdateAgrees(s, k, Lookup(s.seats, k).value.(forced := None), m, stale);
      }
    case PointerButton(k, count, released, env) =>
      if HasPointer(s, k) { ButtonAgrees(s, k, count, released, env, m, stale); }
    case KeyboardKey(k) => SameNames(s, Step(s, op), m, stale);
    case _ => FocusStepAgrees(s, op, m, stale);
  }

  /** The same for a client that hears `ivi_wm` only. */
  lemma StepPlain(s: State, op: Op, m: Mirror)
    requires Inv(s) && Legal(s, op) && Plain(s, m)
    ensures Plain(Step(s, op), Drain(m, WmEvents(s, op)))
  {
    StepIds(s, op);
    assert Drain(m, []) == m;
    if op.SurfaceCreate? {
      var id := op.id;
      LookupKeys(s.surfaces, id);
      LookupKeys(m.surfaces, id);
      var m' := Apply(m, SurfaceCreated(id));
      assert Drain(m, [SurfaceCreated(id)]) == Drain(m', []);
      assert m'.surfaces[1..] == m.surfaces;
      KeysTail(m'.surfaces);
      assert forall a :: Accepted(m', a) == Accepted(m, a);
    } else if op.SurfaceDestroy? && Lookup(s.surfaces, op.id).Some? {
      var id := op.id;
      var m' := Apply(m, SurfaceDestroyed(id));
      assert Drain(m, [SurfaceDestroyed(id)]) == Drain(m', []);
      KeysRemove(m.surfaces, id);
      forall a ensures Accepted(m', a) == [] {
        assert Accepted(m, a) == [];
        LookupRemove(m.surfaces, id, a);
      }
    }
  }

  lemma {:induction false} EverywhereIds(s: State, ids: seq<nat>, k: nat, name: string)
    ensures Keys(AcceptEverywhere(s, ids, k, name).surfaces) == Keys(s.surfaces)
    decreases |ids|
  {
    if ids != [] {
      EverywhereIds(Send(AddAccepted(s, ids[0], k), InputAcceptance(ids[0], name, true)), ids[1..], k, name);
    }
  }

  lemma AcceptanceIds(s: State, id: nat, name: string, accepted: bool, env: Env)
    requires Inv(s)
    ensures Keys(SetInputAcceptance(s, id, name, accepted, env).surfaces) == Keys(s.surfaces)
  {
    var f := FindSeat(s.seats, name);
    if f.Some? && Lookup(s.surfaces, id).Some? {
      FindSeatSpec(s, name, f.value);
      if accepted {
        AddNames(s, id, f.value);
        AcceptEffect(s, id, f.value, env);
      } else if RecordOf(s, id, f.value).Some? {
        RejectEffect(s, id, f.value);
        var s1 := Unfocus(s, id, f.value);
        RemoveAcceptedRecords(s1, id, f.value);
      }
    }
  }

  /** The surface list changes only by creation at the head and removal. */
  lemma StepIds(s: State, op: Op)
    requires Inv(s) && Legal(s, op)
    ensures Keys(Step(s, op).surfaces) ==
            match op
            case SurfaceCreate(id, _) => [id] + Keys(s.surfaces)
            case SurfaceDestroy(id) => Drop(Keys(s.surfaces), id)
            case _ => Keys(s.surfaces)
  {
    match op
    case SeatCreate(k, name, kb, pt) => EverywhereIds(AnnounceSeat(s, k, name, kb, pt), Keys(s.surfaces), k, name);
    case SeatDestroy(k) => ForgetSeatRecords(s, Keys(s.surfaces), k);
    case SurfaceCreate(id, w) =>
      KeysTail(ListSurface(s, id, w).surfaces);
      assert ListSurface(s, id, w).surfaces[1..] == s.surfaces;
    case SurfaceDestroy(id) =>
      LookupKeys(s.surfaces, id);
      if Lookup(s.surfaces, id).Some? {
        var ks := Keys(Lookup(s.surfaces, id).value.accepted);
        UnforceEffect(s, id, ks);
        KeysRemove(Unforce(s, id, ks).surfaces, id);
      } else {
        DropAbsent(Keys(s.surfaces), id);
      }
    case AcceptanceRequest(id, name, accepted, env) => AcceptanceIds(s, id, name, accepted, env);
    case PointerButton(k, count, released, env) =>
      if HasPointer(s, k) {
        var seat := Lookup(s.seats, k).value.(buttons := count);
        SeatUpdateEffect(s, k, seat);
        LookupPut(s.seats, k, seat, k);
        GrabFocusEffect(PutSeat(s, k, seat), k, env);
      }
    case _ => if FocusOp(op) { FocusStepShape(s, op); }
  }

  // ---------- replay at bind time ----------

  lemma {:induction false} ReplaySurfacesSpec(ids: seq<nat>)
    requires NoDup(ids)
    ensures var m := Drain(EMPTY_MIRROR, ReplaySurfaces(ids));
            Keys(m.surfaces) == ids && (forall a :: Accepted(m, a) == []) && m.layers == [] && m.seats == []
  {
    if ids == [] {
      assert forall a :: Accepted(EMPTY_MIRROR, a) == [];
    } else {
      ReplaySurfacesSpec(ids[1..]);
      var m := Drain(EMPTY_MIRROR, ReplaySurfaces(ids[1..]));
      DrainAppend(EMPTY_MIRROR, ReplaySurfaces(ids[1..]), [SurfaceCreated(ids[0])]);
      var m' := Apply(m, SurfaceCreated(ids[0]));
      assert Drain(m, [SurfaceCreated(ids[0])]) == Drain(m', []);
      LookupKeys(m.surfaces, ids[0]);
      assert ids[0] !in ids[1..];
      assert m'.surfaces[1..] == m.surfaces;
      KeysTail(m'.surfaces);
      assert forall a :: Accepted(m', a) == Accepted(m, a);
    }
  }

  lemma {:induction false} ReplayLayersSpec(m: Mirror, ids: seq<nat>)
    requires NoDup(ids) && m.layers == []
    ensures Drain(m, ReplayLayers(ids)) == m.(layers := ids)
  {
    if ids != [] {
      ReplayLayersSpec(m, ids[1..]);
      DrainAppend(m, ReplayLayers(ids[1..]), [LayerCreated(ids[0])]);
      var m1 := m.(layers := ids[1..]);
      assert Drain(m1, [LayerCreated(ids[0])]) == Drain(Apply(m1, LayerCreated(ids[0])), []);
      assert ids[0] !in ids[1..];
      assert [ids[0]] + ids[1..] == ids;
    }
  }

  lemma {:induction false} ReplaySeatsSpec(m: Mirror, seats: seq<(nat, Seat)>)
    requires m.seats == []
    ensures var m' := Drain(m, ReplaySeats(seats));
            m' == m.(seats := m'.seats) && NoDup(m'.seats)
            && forall n :: n in m'.seats <==> FindSeat(seats, n).Some?
  {
    if seats != [] {
      var name := seats[0].1.name;
      ReplaySeatsSpec(m, seats[1..]);
      var m1 := Drain(m, ReplaySeats(seats[1..]));
      DrainAppend(m, ReplaySeats(seats[1..]), [SeatCreated(name)]);
      var m2 := Apply(m1, SeatCreated(name));
      assert Drain(m1, [SeatCreated(name)]) == Drain(m2, []);
      if name !in m1.seats {
        NoDupCons(name, m1.seats);
      }
      forall n ensures n in m2.seats <==> FindSeat(seats, n).Some? {
        assert n in m2.seats <==> n == name || n in m1.seats;
      }
    }
  }

  /** A batch of focus events and acceptances of known surfaces. */
  ghost predicate Snapshot(m: Mirror, q: seq<Event>) {
    forall e :: e in q ==>
      e.InputFocus? || (e.InputAcceptance? && e.accepted && Lookup(m.surfaces, e.surface).Some?)
  }

  lemma {:induction false} SnapshotSpec(m: Mirror, q: seq<Event>)
    requires Snapshot(m, q) && forall a :: NoDup(Accepted(m, a))
    ensures var m' := Drain(m, q);
            && Keys(m'.surfaces) == Keys(m.surfaces) && m'.layers == m.layers && m'.seats == m.seats
            && (forall a :: NoDup(Accepted(m', a)))
            && (forall a, n :: n in Accepted(m', a) <==> n in Accepted(m, a) || InputAcceptance(a, n, true) in q)
    decreases |q|
  {
    if q != [] {
      var e, m1 := q[0], Apply(m, q[0]);
      assert e in q && q == [e] + q[1..];
      if e.InputAcceptance? {
        HearAcceptance(m, e.surface, e.seat, true);
      }
      forall x | x in q[1..]
        ensures x.InputFocus? || (x.InputAcceptance? && x.accepted && Lookup(m1.surfaces, x.surface).Some?)
      {
        assert x in q;
        if x.InputAcceptance? {
          LookupKeys(m.surfaces, x.surface);
          LookupKeys(m1.surfaces, x.surface);
        }
      }
      SnapshotSpec(m1, q[1..]);
    }
  }

  lemma {:induction false} ReplayRecordsSpec(s: State, id: nat, l: seq<(nat, Record)>)
    requires Wf(s)
    ensures forall e :: e in ReplayRecords(s, id, l) ==>
              e.InputFocus? || (e.InputAcceptance? && e.accepted && e.surface == id)
    ensures forall n :: InputAcceptance(id, n, true) in ReplayRecords(s, id, l)
                        <==> FindSeat(s.seats, n).Some? && Lookup(l, FindSeat(s.seats, n).value).Some?
  {
    if l != [] {
      ReplayRecordsSpec(s, id, l[1..]);
      var k := l[0].0;
      forall n ensures InputAcceptance(id, n, true) in ReplayRecords(s, id, l)
                       <==> FindSeat(s.seats, n).Some? && Lookup(l, FindSeat(s.seats, n).value).Some?
      {
        FindSeatSpec(s, n, k);
      }
    }
  }

  lemma {:induction false} ReplayAcceptanceSpec(s: State, l: seq<(nat, Surface)>)
    requires Wf(s) && NoDup(Keys(l))
    ensures forall e :: e in ReplayAcceptance(s, l) ==>
              e.InputFocus? || (e.InputAcceptance? && e.accepted && e.surface in Keys(l))
    ensures forall a, n :: InputAcceptance(a, n, true) in ReplayAcceptance(s, l)
                           <==> Lookup(l, a).Some? && FindSeat(s.seats, n).Some?
                                && Lookup(Lookup(l, a).value.accepted, FindSeat(s.seats, n).value).Some?
  {
    if l != [] {
      KeysTail(l);
      ReplayRecordsSpec(s, l[0].0, l[0].1.accepted);
      ReplayAcceptanceSpec(s, l[1..]);
      LookupKeys(l[1..], l[0].0);
    }
  }

  ghost predicate HasFocus(l: seq<(nat, Record)>, d: Devices) {
    exists i :: 0 <= i < |l| && l[i].1.focus == d
  }

  /** Surface `a` of the list has a record with the devices `d`. */
  ghost predicate Carries(l: seq<(nat, Surface)>, a: nat, d: Devices) {
    exists i :: 0 <= i < |l| && l[i].0 == a && HasFocus(l[i].1.accepted, d)
  }

  lemma HasFocusTail(l: seq<(nat, Record)>, d: Devices)
    requires l != []
    ensures HasFocus(l, d) <==> l[0].1.focus == d || HasFocus(l[1..], d)
  {
    if i :| 0 < i < |l| && l[i].1.focus == d {
      assert l[1..][i - 1] == l[i];
    }
    if i :| 0 <= i < |l[1..]| && l[1..][i].1.focus == d {
      assert l[i + 1] == l[1..][i];
    }
  }

  lemma CarriesTail(l: seq<(nat, Surface)>, a: nat, d: Devices)
    requires l != []
    ensures Carries(l, a, d) <==> (l[0].0 == a && HasFocus(l[0].1.accepted, d)) || Carries(l[1..], a, d)
  {
    if i :| 0 < i < |l| && l[i].0 == a && HasFocus(l[i].1.accepted, d) {
      assert l[1..][i - 1] == l[i];
    }
    if i :| 0 <= i < |l[1..]| && l[1..][i].0 == a && HasFocus(l[1..][i].1.accepted, d) {
      assert l[i + 1] == l[1..][i];
    }
  }

  lemma {:induction false} ReplayRecordsFocus(s: State, id: nat, l: seq<(nat, Record)>)
    ensures forall a, d, on :: InputFocus(a, d, on) in ReplayRecords(s, id, l) <==> a == id && on && HasFocus(l, d)
  {
    if l != [] {
      ReplayRecordsFocus(s, id, l[1..]);
      forall d ensures HasFocus(l, d) <==> l[0].1.focus == d || HasFocus(l[1..], d) {
        HasFocusTail(l, d);
      }
    }
  }

  /** The focus events of the replay: the devices of every record, as enabled. */
  lemma {:induction false} ReplayFocus(s: State, l: seq<(nat, Surface)>)
    ensures forall a, d, on :: InputFocus(a, d, on) in ReplayAcceptance(s, l) <==> on && Carries(l, a, d)
  {
    if l != [] {
      ReplayRecordsFocus(s, l[0].0, l[0].1.accepted);
      ReplayFocus(s, l[1..]);
      forall a: nat, d ensures Carries(l, a, d) <==> (l[0].0 == a && HasFocus(l[0].1.accepted, d)) || Carries(l[1..], a, d) {
        CarriesTail(l, a, d);
      }
    }
  }

  lemma BindInputAgrees(s: State, m: Mirror)
    requires Wf(s) && Plain(s, m)
    ensures Agrees(s, Drain(m, ReplaySeats(s.seats) + ReplayAcceptance(s, s.surfaces)), {})
  {
    var q := ReplayAcceptance(s, s.surfaces);
    DrainAppend(m, ReplaySeats(s.seats), q);
    ReplaySeatsSpec(m, s.seats);
    var m1 := Drain(m, ReplaySeats(s.seats));
    ReplayAcceptanceSpec(s, s.surfaces);
    forall e | e in q ensures e.InputFocus? || (e.InputAcceptance? && e.accepted && Lookup(m1.surfaces, e.surface).Some?) {
      if e.InputAcceptance? {
        LookupKeys(m1.surfaces, e.surface);
      }
    }
    forall a ensures Accepted(m1, a) == [] {
      assert Accepted(m, a) == [];
    }
    SnapshotSpec(m1, q);
    var m2 := Drain(m1, q);
    forall id, n ensures NameAgrees(s, m2, {}, id, n) {
      assert Accepted(m1, id) == [];
      assert n in Accepted(m2, id) <==> InputAcceptance(id, n, true) in q;
    }
  }

  // ---------- all clients, all runs ----------

  ghost predicate ClientOk(y: Sys, cl: Client) {
    var m := Drain(cl.mirror, cl.queue);
    m.layers == y.layers && if cl.input then Agrees(y.s, m, cl.stale) else Plain(y.s, m) && cl.stale == {}
  }

  ghost predicate SysInv(y: Sys) {
    && Inv(y.s) && NoDup(y.layers) && NoDup(Keys(y.clients))
    && forall c :: Lookup(y.clients, c).Some? ==> ClientOk(y, Lookup(y.clients, c).value)
  }

  lemma {:induction false} LookupNotifyAll(s: State, op: Op, l: seq<(nat, Client)>, c: nat)
    ensures Lookup(NotifyAll(s, op, l), c)
            == match Lookup(l, c) case None => None case Some(cl) => Some(Notify(s, op, cl))
  {
    if l != [] {
      assert NotifyAll(s, op, l)[1..] == NotifyAll(s, op, l[1..]);
      LookupNotifyAll(s, op, l[1..], c);
    }
  }

  lemma {:induction false} LookupSendAll(l: seq<(nat, Client)>, e: Event, c: nat)
    ensures Lookup(SendAll(l, e), c)
            == match Lookup(l, c) case None => None case Some(cl) => Some(cl.(queue := cl.queue + [e]))
  {
    if l != [] {
      assert SendAll(l, e)[1..] == SendAll(l[1..], e);
      LookupSendAll(l[1..], e, c);
    }
  }

  lemma {:induction false} DrainLayers(m: Mirror, q: seq<Event>)
    requires forall e :: e in q ==> !e.LayerCreated? && !e.LayerDestroyed?
    ensures Drain(m, q).layers == m.layers
    decreases |q|
  {
    if q != [] {
      assert q[0] in q;
      DrainLayers(Apply(m, q[0]), q[1..]);
    }
  }

  /** The input controller only appends to its broadcast, and never an
      `ivi_wm` event. */
  ghost predicate Grows(s: State, s': State) {
    s.out <= s'.out && forall i :: |s.out| <= i < |s'.out| ==> !IsWm(s'.out[i])
  }

  lemma ShapeGrows(s: State, s': State)
    requires Shape(s, s')
    ensures Grows(s, s')
  {
    forall i | |s.out| <= i < |s'.out| ensures !IsWm(s'.out[i]) {
      assert s'.out[i] == s'.out[|s.out|..][i - |s.out|];
    }
  }

  lemma {:induction false} EverywhereGrows(s: State, ids: seq<nat>, k: nat, name: string)
    ensures Grows(s, AcceptEverywhere(s, ids, k, name))
    decreases |ids|
  {
    if ids != [] {
      EverywhereGrows(Send(AddAccepted(s, ids[0], k), InputAcceptance(ids[0], name, true)), ids[1..], k, name);
    }
  }

  lemma AcceptGrows(s: State, id: nat, k: nat, env: Env)
    requires Inv(s) && Lookup(s.seats, k).Some? && Lookup(s.surfaces, id).Some?
    ensures Grows(s, Accept(s, id, k, env))
  {
    AcceptEffect(s, id, k, env);
    ShapeGrows(AddAccepted(s, id, k), Accept(s, id, k, env));
  }

  lemma RejectGrows(s: State, id: nat, k: nat)
    requires Inv(s) && Lookup(s.seats, k).Some? && RecordOf(s, id, k).Some?
    ensures Grows(s, Reject(s, id, k))
  {
    RejectEffect(s, id, k);
    ShapeGrows(s, Unfocus(s, id, k));
  }

  lemma SendGrows(s: State, s': State, e: Event)
    requires Grows(s, s') && !IsWm(e)
    ensures Grows(s, Send(s', e))
  {
  }

  lemma AcceptanceGrows(s: State, id: nat, name: string, accepted: bool, env: Env)
    requires Inv(s)
    ensures Grows(s, SetInputAcceptance(s, id, name, accepted, env))
  {
    var f := FindSeat(s.seats, name);
    if f.Some? && Lookup(s.surfaces, id).Some? {
      FindSeatSpec(s, name, f.value);
      if accepted {
        AcceptGrows(s, id, f.value, env);
        SendGrows(s, Accept(s, id, f.value, env), InputAcceptance(id, name, true));
      } else if RecordOf(s, id, f.value).Some? {
        RejectGrows(s, id, f.value);
        SendGrows(s, Reject(s, id, f.value), InputAcceptance(id, name, false));
      }
    }
  }

  lemma SeatCreateGrows(s: State, k: nat, name: string, kb: bool, pt: bool)
    ensures Grows(s, CreateSeat(s, k, name, kb, pt))
  {
    EverywhereGrows(AnnounceSeat(s, k, name, kb, pt), Keys(s.surfaces), k, name);
  }

  lemma DestroyGrows(s: State, id: nat)
    requires Inv(s)
    ensures Grows(s, DestroySurface(s, id))
  {
    if Lookup(s.surfaces, id).Some? {
      var ks := Keys(Lookup(s.surfaces, id).value.accepted);
      UnforceEffect(s, id, ks);
      ShapeGrows(s, Unforce(s, id, ks));
    }
  }

  lemma ButtonGrows(s: State, k: nat, count: nat, released: bool, env: Env)
    requires Inv(s) && HasPointer(s, k)
    ensures Grows(s, Button(s, k, count, released, env))
  {
    var seat := Lookup(s.seats, k).value.(buttons := count);
    SeatUpdateEffect(s, k, seat);
    LookupPut(s.seats, k, seat, k);
    GrabFocusEffect(PutSeat(s, k, seat), k, env);
    ShapeGrows(PutSeat(s, k, seat), GrabFocus(PutSeat(s, k, seat), k, env));
  }

  lemma StepGrows(s: State, op: Op)
    requires Inv(s) && Legal(s, op)
    ensures Grows(s, Step(s, op))
  {
    match op
    case SeatCreate(k, name, kb, pt) => SeatCreateGrows(s, k, name, kb, pt);
    case SeatDestroy(k) => ForgetSeatRecords(s, Keys(s.surfaces), k);
    case SurfaceDestroy(id) => DestroyGrows(s, id);
    case AcceptanceRequest(id, name, accepted, env) => AcceptanceGrows(s, id, name, accepted, env);
    case PointerButton(k, count, released, env) => if HasPointer(s, k) { ButtonGrows(s, k, count, released, env); }
    case _ =>
      if FocusOp(op) {
        FocusStepShape(s, op);
        ShapeGrows(s, Step(s, op));
      }
  }

  lemma NotifyOk(y: Sys, op: Op, cl: Client)
    requires Inv(y.s) && Legal(y.s, op) && ClientOk(y, cl)
    ensures ClientOk(y.(s := Step(y.s, op)), Notify(y.s, op, cl))
  {
    var s, s' := y.s, Step(y.s, op);
    var wm, new_ := WmEvents(s, op), NewEvents(s, s');
    var m := Drain(cl.mirror, cl.queue);
    DrainAppend(cl.mirror, cl.queue, wm);
    DrainAppend(cl.mirror, cl.queue + wm, new_);
    assert cl.queue + wm + [] == cl.queue + wm;
    DrainLayers(m, wm);
    if cl.input {
      StepAgrees(s, op, m, cl.stale);
      StepGrows(s, op);
      DrainLayers(Drain(m, wm), new_);
    } else {
      StepPlain(s, op, m);
    }
  }

  lemma SendAllOk(y: Sys, e: Event, layers: seq<nat>, cl: Client)
    requires ClientOk(y, cl) && (e.LayerCreated? || e.LayerDestroyed?)
    requires Apply(EMPTY_MIRROR.(layers := y.layers), e).layers == layers
    ensures ClientOk(y.(layers := layers), cl.(queue := cl.queue + [e]))
  {
    var m := Drain(cl.mirror, cl.queue);
    DrainAppend(cl.mirror, cl.queue, [e]);
    var m' := Apply(m, e);
    assert Drain(m, [e]) == Drain(m', []);
    assert forall a :: Accepted(m', a) == Accepted(m, a);
    if cl.input {
      forall id, n ensures NameAgrees(y.s, m', cl.stale, id, n) {
        assert NameAgrees(y.s, m, cl.stale, id, n);
      }
      forall id ensures NoDup(Accepted(m', id)) {
        assert NoDup(Accepted(m, id));
      }
    } else {
      forall id ensures Accepted(m', id) == [] {
        assert Accepted(m, id) == [];
      }
    }
  }

  /** A client's state changes; everybody else's stays. */
  lemma PutClientOk(y: Sys, c: nat, cl: Client)
    requires SysInv(y) && Lookup(y.clients, c).Some? && ClientOk(y, cl)
    ensures SysInv(y.(clients := Put(y.clients, c, cl)))
  {
    var y' := y.(clients := Put(y.clients, c, cl));
    forall d | Lookup(y'.clients, d).Some? ensures ClientOk(y', Lookup(y'.clients, d).value) {
      LookupPut(y.clients, c, cl, d);
      assert ClientOk(y, Lookup(y'.clients, d).value);
    }
  }

  lemma BindInv(y: Sys, c: nat)
    requires SysInv(y) && SysLegal(y, Bind(c))
    ensures SysInv(SysStep(y, Bind(c)))
  {
    var ids := Keys(y.s.surfaces);
    var y' := SysStep(y, Bind(c));
    var q := ReplaySurfaces(ids) + ReplayLayers(y.layers);
    var cl := Client(EMPTY_MIRROR, q, false, {});
    ReplaySurfacesSpec(ids);
    var m := Drain(EMPTY_MIRROR, ReplaySurfaces(ids));
    DrainAppend(EMPTY_MIRROR, ReplaySurfaces(ids), ReplayLayers(y.layers));
    ReplayLayersSpec(m, y.layers);
    forall a ensures Accepted(m.(layers := y.layers), a) == [] {
      assert Accepted(m, a) == [];
    }
    assert ClientOk(y, cl);
    LookupKeys(y.clients, c);
    KeysTail(y'.clients);
    assert y'.clients[1..] == y.clients;
    NoDupCons(c, Keys(y.clients));
    forall d | Lookup(y'.clients, d).Some? ensures ClientOk(y', Lookup(y'.clients, d).value) {
      assert d != c ==> ClientOk(y, Lookup(y.clients, d).value);
    }
  }

  lemma BindInputInv(y: Sys, c: nat)
    requires SysInv(y)
    ensures SysInv(SysStep(y, BindInput(c)))
  {
    if Lookup(y.clients, c).Some? && !Lookup(y.clients, c).value.input {
      var cl := Lookup(y.clients, c).value;
      var m := Drain(cl.mirror, cl.queue);
      var seats, acc := ReplaySeats(y.s.seats), ReplayAcceptance(y.s, y.s.surfaces);
      assert ClientOk(y, cl);
      BindInputAgrees(y.s, m);
      assert cl.queue + seats + acc == cl.queue + (seats + acc);
      DrainAppend(cl.mirror, cl.queue, seats + acc);
      ReplaySeatsSpec(m, y.s.seats);
      DrainAppend(m, seats, acc);
      ReplayAcceptanceSpec(y.s, y.s.surfaces);
      DrainLayers(Drain(m, seats), acc);
      PutClientOk(y, c, cl.(queue := cl.queue + seats + acc, input := true));
    }
  }

  lemma InputInv(y: Sys, op: Op)
    requires SysInv(y) && Legal(y.s, op)
    ensures SysInv(y.(s := Step(y.s, op), clients := NotifyAll(y.s, op, y.clients)))
  {
    var y' := y.(s := Step(y.s, op), clients := NotifyAll(y.s, op, y.clients));
    StepKeepsInv(y.s, op);
    forall c | Lookup(y'.clients, c).Some? ensures ClientOk(y', Lookup(y'.clients, c).value) {
      LookupNotifyAll(y.s, op, y.clients, c);
      NotifyOk(y, op, Lookup(y.clients, c).value);
      assert ClientOk(y.(s := Step(y.s, op)), Lookup(y'.clients, c).value);
    }
  }

  lemma LayerInv(y: Sys, e: Event, layers: seq<nat>)
    requires SysInv(y) && (e.LayerCreated? || e.LayerDestroyed?) && NoDup(layers)
    requires Apply(EMPTY_MIRROR.(layers := y.layers), e).layers == layers
    ensures SysInv(y.(layers := layers, clients := SendAll(y.clients, e)))
  {
    var y' := y.(layers := layers, clients := SendAll(y.clients, e));
    forall c | Lookup(y'.clients, c).Some? ensures ClientOk(y', Lookup(y'.clients, c).value) {
      LookupSendAll(y.clients, e, c);
      SendAllOk(y, e, layers, Lookup(y.clients, c).value);
      assert ClientOk(y.(layers := layers), Lookup(y'.clients, c).value);
    }
  }

  lemma SysStepInv(y: Sys, op: SysOp)
    requires SysInv(y) && SysLegal(y, op)
    ensures SysInv(SysStep(y, op))
  {
    match op
    case InputOp(o) =>
      if !(o.SurfaceCreate? && IsBackground(y.bkgnd, o.id)) {
        InputInv(y, o);
      }
    case LayerCreate(id) =>
      NoDupCons(id, y.layers);
      LayerInv(y, LayerCreated(id), [id] + y.layers);
    case LayerDestroy(id) =>
      DropSpec(y.layers, id);
      if id in y.layers {
        LayerInv(y, LayerDestroyed(id), Drop(y.layers, id));
      }
    case Bind(c) => BindInv(y, c);
    case BindInput(c) => BindInputInv(y, c);
    case Unbind(c) =>
      KeysRemove(y.clients, c);
      DropSpec(Keys(y.clients), c);
      var y' := SysStep(y, op);
      forall d | Lookup(y'.clients, d).Some? ensures ClientOk(y', Lookup(y'.clients, d).value) {
        LookupRemove(y.clients, c, d);
        assert ClientOk(y, Lookup(y.clients, d).value);
      }
    case Deliver(c) =>
      if Lookup(y.clients, c).Some? && Lookup(y.clients, c).value.queue != [] {
        var cl := Lookup(y.clients, c).value;
        assert ClientOk(y, cl);
        PutClientOk(y, c, cl.(mirror := Apply(cl.mirror, cl.queue[0]), queue := cl.queue[1..]));
      }
  }
}
