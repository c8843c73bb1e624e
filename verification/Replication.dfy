/** The replication results: what a client sees after dispatching its queue,
    and what ilm_setInputAcceptanceOn achieves. */
module Replication {
  import opened WlList
  import opened Protocol
  import opened Input
  import opened InputProofs
  import opened InputRuns
  import opened System
  import opened Replicas
  import E = InputEdges

  function Start(bkgnd: int, name: string): Sys {
    Sys(bkgnd, Boot(name), [], [])
  }

  ghost function SysRun(y: Sys, ops: seq<SysOp>): Sys {
    if ops == [] then y else SysStep(SysRun(y, ops[..|ops| - 1]), ops[|ops| - 1])
  }

  ghost predicate SysAllLegal(y: Sys, ops: seq<SysOp>) {
    ops == [] || (SysAllLegal(y, ops[..|ops| - 1]) && SysLegal(SysRun(y, ops[..|ops| - 1]), ops[|ops| - 1]))
  }

  lemma {:induction false} SysRunInv(bkgnd: int, name: string, ops: seq<SysOp>)
    requires SysAllLegal(Start(bkgnd, name), ops)
    ensures SysInv(SysRun(Start(bkgnd, name), ops)) && SysRun(Start(bkgnd, name), ops).bkgnd == bkgnd
  {
    if ops == [] {
      BootInv(name);
    } else {
      SysRunInv(bkgnd, name, ops[..|ops| - 1]);
      SysStepInv(SysRun(Start(bkgnd, name), ops[..|ops| - 1]), ops[|ops| - 1]);
    }
  }

  // ---------- surfaces and layers ----------

  function NextLive(bkgnd: int, before: seq<nat>, op: SysOp): seq<nat> {
    match op
    case InputOp(SurfaceCreate(id, _)) => if IsBackground(bkgnd, id) then before else before + [id]
    case InputOp(SurfaceDestroy(id)) => Drop(before, id)
    case _ => before
  }

  /** Ids of the surfaces a run created and did not destroy, oldest first,
      the background surface left out. */
  function LiveSurfaces(bkgnd: int, ops: seq<SysOp>): seq<nat> {
    if ops == [] then [] else NextLive(bkgnd, LiveSurfaces(bkgnd, ops[..|ops| - 1]), ops[|ops| - 1])
  }

  function LiveLayers(ops: seq<SysOp>): seq<nat> {
    if ops == [] then []
    else
      var before := LiveLayers(ops[..|ops| - 1]);
      match ops[|ops| - 1]
      case LayerCreate(id) => before + [id]
      case LayerDestroy(id) => Drop(before, id)
      case _ => before
  }

  lemma {:induction false} DropAppend<T>(s: seq<T>, x: T, y: T)
    ensures Drop(s + [x], y) == if y in s then Drop(s, y) + [x] else if x == y then s else s + [x]
  {
    if s == [] {
      assert [x][1..] == [];
      assert s + [x] == [x];
    } else {
      assert (s + [x])[1..] == s[1..] + [x];
      DropAppend(s[1..], x, y);
      assert s == [s[0]] + s[1..];
      DropAbsentTail(s, y);
    }
  }

  lemma DropAbsentTail<T>(s: seq<T>, y: T)
    requires s != []
    ensures y in s <==> y == s[0] || y in s[1..]
  {
    assert s == [s[0]] + s[1..];
  }

  lemma ReverseCons<T>(x: T, s: seq<T>)
    ensures Reverse([x] + s) == Reverse(s) + [x]
  {
    assert ([x] + s)[1..] == s;
  }

  /** Removing from a list and from its reversal is the same thing. */
  lemma {:induction false} ReverseDrop<T>(s: seq<T>, x: T)
    requires NoDup(s)
    ensures Reverse(Drop(s, x)) == Drop(Reverse(s), x)
  {
    if s != [] {
      var y, rest := s[0], s[1..];
      assert s == [y] + rest;
      ReverseCons(y, rest);
      ReverseMembers(rest, x);
      DropAppend(Reverse(rest), y, x);
      if y != x {
        ReverseDrop(rest, x);
        ReverseCons(y, Drop(rest, x));
        if x !in rest {
          DropAbsent(rest, x);
        }
      }
    }
  }

  lemma ReverseMembers<T>(s: seq<T>, x: T)
    ensures x in Reverse(s) <==> x in s
  {
    if x in s {
      var i :| 0 <= i < |s| && s[i] == x;
      assert Reverse(s)[|s| - 1 - i] == x;
    }
  }

  lemma SurfaceList(s: State, o: Op)
    requires Inv(s) && Legal(s, o)
    ensures var ids := Reverse(Keys(s.surfaces));
            Reverse(Keys(Step(s, o).surfaces)) == match o
                                                  case SurfaceCreate(id, _) => ids + [id]
                                                  case SurfaceDestroy(id) => Drop(ids, id)
                                                  case _ => ids
  {
    StepIds(s, o);
    if o.SurfaceCreate? {
      ReverseCons(o.id, Keys(s.surfaces));
    } else if o.SurfaceDestroy? {
      ReverseDrop(Keys(s.surfaces), o.id);
    }
  }

  /** One step of a run changes the list as the specification does. */
  lemma SysSurfaceList(y: Sys, op: SysOp, before: seq<nat>)
    requires SysInv(y) && SysLegal(y, op) && Reverse(Keys(y.s.surfaces)) == before
    ensures Reverse(Keys(SysStep(y, op).s.surfaces)) == NextLive(y.bkgnd, before, op)
  {
    if op.InputOp? {
      SurfaceList(y.s, op.op);
    }
  }

  lemma {:induction false} ServerSurfaces(bkgnd: int, name: string, ops: seq<SysOp>)
    requires SysAllLegal(Start(bkgnd, name), ops)
    ensures Reverse(Keys(SysRun(Start(bkgnd, name), ops).s.surfaces)) == LiveSurfaces(bkgnd, ops)
  {
    if ops != [] {
      var front, op := ops[..|ops| - 1], ops[|ops| - 1];
      ServerSurfaces(bkgnd, name, front);
      SysRunInv(bkgnd, name, front);
      SysSurfaceList(SysRun(Start(bkgnd, name), front), op, LiveSurfaces(bkgnd, front));
    }
  }

  lemma LayerList(layers: seq<nat>, id: nat)
    requires NoDup(layers)
    ensures Reverse([id] + layers) == Reverse(layers) + [id]
    ensures Reverse(Drop(layers, id)) == Drop(Reverse(layers), id)
    ensures id !in layers ==> Drop(Reverse(layers), id) == Reverse(layers)
  {
    ReverseCons(id, layers);
    ReverseDrop(layers, id);
    ReverseMembers(layers, id);
    if id !in layers {
      DropAbsent(Reverse(layers), id);
    }
  }

  lemma StepLayers(y: Sys, op: SysOp)
    ensures SysStep(y, op).layers == match op
                                     case LayerCreate(id) => [id] + y.layers
                                     case LayerDestroy(id) => if id in y.layers then Drop(y.layers, id) else y.layers
                                     case _ => y.layers
  {
  }

  lemma LayersDistinct(bkgnd: int, name: string, ops: seq<SysOp>)
    requires SysAllLegal(Start(bkgnd, name), ops)
    ensures NoDup(SysRun(Start(bkgnd, name), ops).layers)
  {
    SysRunInv(bkgnd, name, ops);
  }

  lemma {:induction false} ServerLayers(bkgnd: int, name: string, ops: seq<SysOp>)
    requires SysAllLegal(Start(bkgnd, name), ops)
    ensures Reverse(SysRun(Start(bkgnd, name), ops).layers) == LiveLayers(ops)
  {
    if ops != [] {
      var front, op := ops[..|ops| - 1], ops[|ops| - 1];
      var y := SysRun(Start(bkgnd, name), front);
      ServerLayers(bkgnd, name, front);
      LayersDistinct(bkgnd, name, front);
      StepLayers(y, op);
      if op.LayerCreate? || op.LayerDestroy? {
        LayerList(y.layers, op.id);
      }
    }
  }

  lemma ServerLists(bkgnd: int, name: string, ops: seq<SysOp>)
    requires SysAllLegal(Start(bkgnd, name), ops)
    ensures var y := SysRun(Start(bkgnd, name), ops);
            Reverse(Keys(y.s.surfaces)) == LiveSurfaces(bkgnd, ops) && Reverse(y.layers) == LiveLayers(ops)
  {
    ServerSurfaces(bkgnd, name, ops);
    ServerLayers(bkgnd, name, ops);
  }

  /** Replication. At any point of any run, whatever a client has dispatched so
      far and whenever it bound, dispatching the rest of its queue leaves its
      lists equal to the live objects in creation order (read back to front,
      as ilm_getSurfaceIDs and ilm_getLayerIDs do). */
  lemma Replicated(bkgnd: int, name: string, ops: seq<SysOp>, c: nat)
    requires SysAllLegal(Start(bkgnd, name), ops)
    ensures var found := Lookup(SysRun(Start(bkgnd, name), ops).clients, c);
            found.Some? ==>
              var m := Drain(found.value.mirror, found.value.queue);
              Reverse(Keys(m.surfaces)) == LiveSurfaces(bkgnd, ops) && Reverse(m.layers) == LiveLayers(ops)
  {
    SysRunInv(bkgnd, name, ops);
    ServerLists(bkgnd, name, ops);
    var y := SysRun(Start(bkgnd, name), ops);
    var found := Lookup(y.clients, c);
    if found.Some? {
      assert ClientOk(y, found.value);
    }
  }

  lemma {:induction false} LiveIsShown(bkgnd: int, ops: seq<SysOp>, id: nat)
    requires id in LiveSurfaces(bkgnd, ops)
    ensures !IsBackground(bkgnd, id)
  {
    var front, op := ops[..|ops| - 1], ops[|ops| - 1];
    if id in LiveSurfaces(bkgnd, front) {
      LiveIsShown(bkgnd, front, id);
    } else if op.InputOp? && op.op.SurfaceDestroy? {
      DropMembers(LiveSurfaces(bkgnd, front), op.op.id, id);
    }
  }

  /** The background surface is in nobody's list: neither in the server's nor, once
      its queue is drained, in any client's. */
  lemma BackgroundHidden(bkgnd: int, name: string, ops: seq<SysOp>, id: nat, c: nat)
    requires SysAllLegal(Start(bkgnd, name), ops) && IsBackground(bkgnd, id)
    ensures var y := SysRun(Start(bkgnd, name), ops);
            && id !in Keys(y.s.surfaces)
            && var found := Lookup(y.clients, c);
               found.Some? ==> id !in Keys(Drain(found.value.mirror, found.value.queue).surfaces)
  {
    var y := SysRun(Start(bkgnd, name), ops);
    ServerLists(bkgnd, name, ops);
    Replicated(bkgnd, name, ops, c);
    if id in LiveSurfaces(bkgnd, ops) {
      LiveIsShown(bkgnd, ops, id);
    }
    ReverseMembers(Keys(y.s.surfaces), id);
    var found := Lookup(y.clients, c);
    if found.Some? {
      ReverseMembers(Keys(Drain(found.value.mirror, found.value.queue).surfaces), id);
    }
  }

  lemma {:induction false} DropMembers<T>(s: seq<T>, x: T, y: T)
    requires y in Drop(s, x)
    ensures y in s
  {
    if s[0] != x && y != s[0] {
      DropMembers(s[1..], x, y);
    }
  }

  /** Replication needs live ids to be distinct: a client that knows `id`
      stays in step with a creation of `id` exactly when `id` was not live. */
  lemma CreationHeardIffNew(m: Mirror, id: nat)
    ensures Keys(Apply(m, SurfaceCreated(id)).surfaces) == [id] + Keys(m.surfaces) <==> id !in Keys(m.surfaces)
  {
    LookupKeys(m.surfaces, id);
    var m' := Apply(m, SurfaceCreated(id));
    if Lookup(m.surfaces, id).None? {
      KeysTail(m'.surfaces);
      assert m'.surfaces[1..] == m.surfaces;
    } else {
      assert |[id] + Keys(m.surfaces)| == |Keys(m.surfaces)| + 1;
    }
  }

  function Creations(ids: seq<nat>): seq<Event> {
    if ids == [] then [] else [SurfaceCreated(ids[0])] + Creations(ids[1..])
  }

  lemma HearOne(m: Mirror, id: nat)
    requires Lookup(m.surfaces, id).None?
    ensures var m1 := Apply(m, SurfaceCreated(id));
            Keys(m1.surfaces) == [id] + Keys(m.surfaces)
            && forall a :: Lookup(m1.surfaces, a) == if a == id then Some([]) else Lookup(m.surfaces, a)
  {
    var m1 := Apply(m, SurfaceCreated(id));
    KeysTail(m1.surfaces);
    assert m1.surfaces[1..] == m.surfaces;
  }

  lemma DrainOne(m: Mirror, e: Event, q: seq<Event>)
    ensures Drain(m, [e] + q) == Drain(Apply(m, e), q)
  {
    assert ([e] + q)[1..] == q;
  }

  lemma Regroup(a: seq<nat>, x: nat, b: seq<nat>)
    ensures a + ([x] + b) == (a + [x]) + b
  {
  }

  lemma {:induction false} HearCreations(m: Mirror, ids: seq<nat>)
    requires NoDup(ids) && forall i :: 0 <= i < |ids| ==> Lookup(m.surfaces, ids[i]).None?
    ensures Keys(Drain(m, Creations(ids)).surfaces) == Reverse(ids) + Keys(m.surfaces)
    decreases |ids|
  {
    if ids != [] {
      HearOne(m, ids[0]);
      HearCreations(Apply(m, SurfaceCreated(ids[0])), ids[1..]);
      DrainOne(m, SurfaceCreated(ids[0]), Creations(ids[1..]));
      assert ids == [ids[0]] + ids[1..];
      ReverseCons(ids[0], ids[1..]);
      Regroup(Reverse(ids[1..]), ids[0], Keys(m.surfaces));
    }
  }

  /** ilm_surfaceAddNotification on an unknown id puts a context for it at the head
      of the client's list. */
  function MakeUp(m: Mirror, id: nat): Mirror {
    m.(surfaces := [(id, [])] + m.surfaces)
  }

  /** What such an id does to the order: once it comes to exist, after the surfaces
      `ids`, the client's list is the server's if and only if `ids` is empty. */
  lemma MadeUpIds(m: Mirror, id: nat, ids: seq<nat>)
    requires NoDup(ids + [id]) && forall i :: 0 <= i < |ids + [id]| ==> Lookup(m.surfaces, (ids + [id])[i]).None?
    ensures Keys(Drain(MakeUp(m, id), Creations(ids + [id])).surfaces) == Keys(Drain(m, Creations(ids + [id])).surfaces)
            <==> ids == []
  {
    var m1, all := MakeUp(m, id), ids + [id];
    KeysTail(m1.surfaces);
    assert m1.surfaces[1..] == m.surfaces;
    assert all[|ids|] == id && all[..|ids|] == ids;
    forall i, j | 0 <= i < j < |ids| ensures ids[i] != ids[j] {
      assert all[i] != all[j];
    }
    forall i | 0 <= i < |ids| ensures Lookup(m1.surfaces, ids[i]).None? {
      assert all[i] == ids[i] && all[i] != all[|ids|];
    }
    HearCreations(m1, ids);
    CreationsAppend(ids, id);
    DrainAppend(m1, Creations(ids), [SurfaceCreated(id)]);
    var m2 := Drain(m1, Creations(ids));
    assert Keys(m2.surfaces)[|ids|] == id;
    LookupKeys(m2.surfaces, id);
    assert Drain(m2, [SurfaceCreated(id)]) == Drain(Apply(m2, SurfaceCreated(id)), []) == m2;
    HearCreations(m, all);
    TwoOrders(ids, id, Keys(m.surfaces));
  }

  lemma TwoOrders(ids: seq<nat>, id: nat, rest: seq<nat>)
    requires NoDup(ids + [id])
    ensures Reverse(ids) + ([id] + rest) == Reverse(ids + [id]) + rest <==> ids == []
  {
    var left, right, all := Reverse(ids) + ([id] + rest), Reverse(ids + [id]) + rest, ids + [id];
    if ids != [] {
      assert left[0] == all[|ids| - 1] && right[0] == all[|ids|];
    } else {
      assert all == [id] && Reverse([id]) == [id] && Reverse(ids) == [];
    }
  }

  lemma {:induction false} CreationsAppend(ids: seq<nat>, id: nat)
    ensures Creations(ids + [id]) == Creations(ids) + [SurfaceCreated(id)]
  {
    if ids == [] {
      assert [id][1..] == [] && ids + [id] == [id];
      assert Creations([id]) == [SurfaceCreated(id)] + Creations([]);
    } else {
      assert (ids + [id])[1..] == ids[1..] + [id];
      CreationsAppend(ids[1..], id);
    }
  }

  // ---------- acceptance mirrors ----------

  /** Acceptance mirrors. After dispatching its queue a client bound to
      `ivi_input` lists for a surface exactly the names of the seats the
      server accepts there and the stale names, without duplicates, and
      exactly the live seats; server lists hold each seat once. */
  lemma AcceptanceMirrored(bkgnd: int, name: string, ops: seq<SysOp>, c: nat, id: nat)
    requires SysAllLegal(Start(bkgnd, name), ops)
    ensures var y := SysRun(Start(bkgnd, name), ops);
            var found := Lookup(y.clients, c);
            found.Some? && found.value.input ==>
              var m, stale := Drain(found.value.mirror, found.value.queue), found.value.stale;
              && NoDup(Accepted(m, id))
              && (forall n :: n in Accepted(m, id) <==> AcceptsName(y.s, id, n) || (id, n) in stale)
              && ((forall n :: n in Accepted(m, id) <==> AcceptsName(y.s, id, n)) <==> forall n :: (id, n) !in stale)
              && NoDup(m.seats) && (forall n :: n in m.seats <==> FindSeat(y.s.seats, n).Some?)
    ensures var sf := Lookup(SysRun(Start(bkgnd, name), ops).s.surfaces, id);
            sf.Some? ==> NoDup(Keys(sf.value.accepted))
  {
    SysRunInv(bkgnd, name, ops);
    var y := SysRun(Start(bkgnd, name), ops);
    var found := Lookup(y.clients, c);
    if found.Some? && found.value.input {
      assert ClientOk(y, found.value);
      var m, stale := Drain(found.value.mirror, found.value.queue), found.value.stale;
      forall n ensures (n in Accepted(m, id) <==> AcceptsName(y.s, id, n) || (id, n) in stale)
                       && ((id, n) in stale ==> !AcceptsName(y.s, id, n))
      {
        assert NameAgrees(y.s, m, stale, id, n);
      }
    }
  }

  ghost predicate DestroysSeat(op: SysOp) {
    op.InputOp? && op.op.SeatDestroy?
  }

  /** On runs that destroy no seat nothing is ever stale, so mirror and server
      agree outright. */
  lemma {:induction false} NothingStale(bkgnd: int, name: string, ops: seq<SysOp>, c: nat)
    requires SysAllLegal(Start(bkgnd, name), ops)
    requires forall i :: 0 <= i < |ops| ==> !DestroysSeat(ops[i])
    ensures var found := Lookup(SysRun(Start(bkgnd, name), ops).clients, c);
            found.Some? ==> found.value.stale == {}
  {
    if ops != [] {
      var front, op := ops[..|ops| - 1], ops[|ops| - 1];
      var y := SysRun(Start(bkgnd, name), front);
      assert !DestroysSeat(op) && forall i :: 0 <= i < |front| ==> front[i] == ops[i];
      NothingStale(bkgnd, name, front, c);
      SysRunInv(bkgnd, name, front);
      match op
      case InputOp(o) => LookupNotifyAll(y.s, o, y.clients, c);
      case LayerCreate(id) => LookupSendAll(y.clients, LayerCreated(id), c);
      case LayerDestroy(id) => LookupSendAll(y.clients, LayerDestroyed(id), c);
      case Bind(d) => assert SysStep(y, op).clients[1..] == y.clients;
      case Unbind(d) => LookupRemove(y.clients, d, c);
      case BindInput(d) =>
        if Lookup(y.clients, d).Some? {
          PutLookup(y, SysStep(y, op), d, c);
        }
      case Deliver(d) =>
        if Lookup(y.clients, d).Some? {
          PutLookup(y, SysStep(y, op), d, c);
        }
    }
  }

  /** Binding and delivering leave everyone's stale set alone. */
  lemma PutLookup(y: Sys, y': Sys, d: nat, c: nat)
    requires Lookup(y.clients, d).Some? && (y' == SysStep(y, BindInput(d)) || y' == SysStep(y, Deliver(d)))
    ensures Lookup(y'.clients, c).Some? == Lookup(y.clients, c).Some?
    ensures Lookup(y.clients, c).Some? ==>
              Lookup(y'.clients, c).value.stale == Lookup(y.clients, c).value.stale
  {
    var cl := Lookup(y.clients, d).value;
    var q := cl.queue + ReplaySeats(y.s.seats) + ReplayAcceptance(y.s, y.s.surfaces);
    LookupPut(y.clients, d, cl.(queue := q, input := true), c);
    if cl.queue != [] {
      LookupPut(y.clients, d, cl.(mirror := Apply(cl.mirror, cl.queue[0]), queue := cl.queue[1..]), c);
    }
  }

  /** Seats that are destroyed are what mirrors get wrong: an up-to-date mirror
      stays up to date through the end of a seat exactly when no surface
      accepted that seat. */
  lemma SeatEndHeardIffNotAccepted(s: State, k: nat, m: Mirror)
    requires Inv(s) && Agrees(s, m, {}) && Lookup(s.seats, k).Some?
    ensures var s' := DestroySeat(s, k);
            Agrees(s', Drain(m, NewEvents(s, s')), {}) <==> forall id :: RecordOf(s, id, k).None?
  {
    var s', name := DestroySeat(s, k), Lookup(s.seats, k).value.name;
    var m', stale' := Drain(m, NewEvents(s, s')), StaleAfter(s, {}, SeatDestroy(k));
    SeatDestroyAgrees(s, k, m, {});
    DestroySeatNames(s, k);
    forall id: nat | RecordOf(s, id, k).Some? ensures !NameAgrees(s', m', {}, id, name) {
      LookupKeys(s.surfaces, id);
      assert (id, name) in stale' && NameAgrees(s', m', stale', id, name);
    }
    if forall id :: RecordOf(s, id, k).None? {
      assert stale' == {};
    }
  }

  lemma SysSnoc(y: Sys, ops: seq<SysOp>, op: SysOp)
    requires SysAllLegal(y, ops) && SysLegal(SysRun(y, ops), op)
    ensures SysAllLegal(y, ops + [op]) && SysRun(y, ops + [op]) == SysStep(SysRun(y, ops), op)
  {
    assert (ops + [op])[..|ops|] == ops;
  }

  /** One surface that accepts the one seat there is. */
  lemma OneOfEach(bkgnd: int) returns (ops: seq<SysOp>)
    requires !IsBackground(bkgnd, 7)
    ensures SysAllLegal(Start(bkgnd, "d"), ops)
    ensures var y := SysRun(Start(bkgnd, "d"), ops);
            E.Looks(y.s, [(7, Surface(3, [(1, E.UNTOUCHED)]))], E.Mouse(0, None)) && y.clients == []
  {
    var y0 := Start(bkgnd, "d");
    var seat, surface := InputOp(SeatCreate(1, "d", true, true)), InputOp(SurfaceCreate(7, 3));
    E.FirstSeat();
    SysSnoc(y0, [], seat);
    var y1 := SysRun(y0, [] + [seat]);
    assert y1.s == Step(Boot("d"), seat.op) && y1.clients == [] && y1.bkgnd == bkgnd;
    E.FirstSurface(y1.s);
    SysSnoc(y0, [] + [seat], surface);
    ops := [] + [seat] + [surface];
  }

  /** A client that binds then hears of the seat's end but keeps its name. */
  lemma StaleAtLast(y: Sys)
    requires y.clients == []
    requires E.Looks(y.s, [(7, Surface(3, [(1, E.UNTOUCHED)]))], E.Mouse(0, None))
    ensures var y1 := SysStep(y, Bind(0));
            var y2 := SysStep(y1, BindInput(0));
            var y3 := SysStep(y2, InputOp(SeatDestroy(1)));
            var found := Lookup(y3.clients, 0);
            found.Some? && found.value.input && (7, "d") in found.value.stale
  {
    var y1 := SysStep(y, Bind(0));
    assert Lookup(y1.clients, 0).Some?;
    var y2 := SysStep(y1, BindInput(0));
    LookupPut(y1.clients, 0, Lookup(y1.clients, 0).value.(input := true,
      queue := Lookup(y1.clients, 0).value.queue + ReplaySeats(y.s.seats) + ReplayAcceptance(y.s, y.s.surfaces)), 0);
    assert Lookup(y2.clients, 0).value.input;
    LookupNotifyAll(y2.s, SeatDestroy(1), y2.clients, 0);
    assert Lookup(y.s.seats, 1) == Some(E.Mouse(0, None));
    assert Lookup(y.s.surfaces, 7) == Some(Surface(3, [(1, E.UNTOUCHED)]));
    LookupKeys(y.s.surfaces, 7);
    assert RecordOf(y.s, 7, 1) == Some(E.UNTOUCHED);
  }

  /** A run that leaves a stale name: the one seat there is goes while the one
      surface accepts it, and the client, all events dispatched, still lists its
      name for the surface. */
  lemma StaleNameExample(bkgnd: int) returns (ops: seq<SysOp>)
    requires !IsBackground(bkgnd, 7)
    ensures SysAllLegal(Start(bkgnd, "d"), ops)
    ensures var y := SysRun(Start(bkgnd, "d"), ops);
            var found := Lookup(y.clients, 0);
            && found.Some? && found.value.input && !AcceptsName(y.s, 7, "d")
            && var m := Drain(found.value.mirror, found.value.queue);
               "d" in Accepted(m, 7) && "d" !in m.seats
  {
    var y0 := Start(bkgnd, "d");
    var ops2 := OneOfEach(bkgnd);
    var y := SysRun(y0, ops2);
    StaleAtLast(y);
    SysSnoc(y0, ops2, Bind(0));
    SysSnoc(y0, ops2 + [Bind(0)], BindInput(0));
    SysSnoc(y0, ops2 + [Bind(0)] + [BindInput(0)], InputOp(SeatDestroy(1)));
    ops := ops2 + [Bind(0)] + [BindInput(0)] + [InputOp(SeatDestroy(1))];
    AcceptanceMirrored(bkgnd, "d", ops, 0, 7);
    SysRunInv(bkgnd, "d", ops2);
    var y3 := SysRun(y0, ops);
    assert ClientOk(y3, Lookup(y3.clients, 0).value) by {
      SysRunInv(bkgnd, "d", ops);
    }
    var cl := Lookup(y3.clients, 0).value;
    assert NameAgrees(y3.s, Drain(cl.mirror, cl.queue), cl.stale, 7, "d");
    assert y3.s == DestroySeat(y.s, 1);
    DestroySeatNames(y.s, 1);
  }

  // ---------- ilm_setInputAcceptanceOn ----------

  function AddRequests(have: seq<string>, seats: seq<string>): seq<(string, bool)> {
    if seats == [] then []
    else (if seats[0] in have then [] else [(seats[0], true)]) + AddRequests(have, seats[1..])
  }

  function DropRequests(have: seq<string>, seats: seq<string>): seq<(string, bool)> {
    if have == [] then []
    else (if have[0] in seats then [] else [(have[0], false)]) + DropRequests(have[1..], seats)
  }

  /** The requests ilm_setInputAcceptanceOn sends for surface `id`; None when
      it fails and sends nothing. */
  function AcceptanceRequests(m: Mirror, id: nat, seats: seq<string>): Option<seq<(string, bool)>> {
    match Lookup(m.surfaces, id)
    case None => None
    case Some(have) =>
      if exists i :: 0 <= i < |seats| && seats[i] !in m.seats then None
      else Some(AddRequests(have, seats) + DropRequests(have, seats))
  }

  /** The server handling those requests one after another; `envs(n)` is what the
      compositor answers while `n` are left. */
  function Serve(s: State, id: nat, reqs: seq<(string, bool)>, envs: nat -> Env): State
    decreases |reqs|
  {
    if reqs == [] then s
    else Serve(SetInputAcceptance(s, id, reqs[0].0, reqs[0].1, envs(|reqs|)), id, reqs[1..], envs)
  }

  /** One acceptance request changes one acceptance, if its seat exists. */
  lemma AcceptanceNames(s: State, id: nat, name: string, accepted: bool, env: Env)
    requires Inv(s) && Lookup(s.surfaces, id).Some?
    ensures var s' := SetInputAcceptance(s, id, name, accepted, env);
            && Inv(s') && Keys(s'.surfaces) == Keys(s.surfaces)
            && (forall n :: FindSeat(s'.seats, n) == FindSeat(s.seats, n))
            && (forall a, n :: AcceptsName(s', a, n) <==>
                  if a == id && n == name then accepted && FindSeat(s.seats, name).Some? else AcceptsName(s, a, n))
  {
    AcceptanceEffect(s, id, name, accepted, env);
    AcceptanceIds(s, id, name, accepted, env);
    var f := FindSeat(s.seats, name);
    if f.Some? {
      var k := f.value;
      FindSeatSpec(s, name, k);
      if accepted {
        var s1, s2 := AddAccepted(s, id, k), Accept(s, id, k, env);
        AddNames(s, id, k);
        AddAcceptedEffect(s, id, k);
        AcceptEffect(s, id, k, env);
        NamesByShape(s1, s2);
        SameView(s2, Send(s2, InputAcceptance(id, name, true)));
      } else if RecordOf(s, id, k).Some? {
        RejectEffect(s, id, k);
        var s1 := Unfocus(s, id, k);
        NamesByShape(s, s1);
        assert SameSeat(Lookup(s.seats, k), Lookup(s1.seats, k));
        RemoveNames(s1, id, k);
        SameView(Reject(s, id, k), Send(Reject(s, id, k), InputAcceptance(id, name, false)));
      }
    }
  }

  lemma SameView(s: State, s': State)
    requires s'.surfaces == s.surfaces && s'.seats == s.seats
    ensures forall a, n :: AcceptsName(s', a, n) == AcceptsName(s, a, n)
  {
  }

  /** What a list of requests with at most one polarity per name adds up to. */
  lemma {:induction false} ServeNames(s: State, id: nat, reqs: seq<(string, bool)>, envs: nat -> Env)
    requires Inv(s) && Lookup(s.surfaces, id).Some?
    requires forall n :: !((n, true) in reqs && (n, false) in reqs)
    ensures var s' := Serve(s, id, reqs, envs);
            && Inv(s') && Keys(s'.surfaces) == Keys(s.surfaces)
            && (forall n :: FindSeat(s'.seats, n) == FindSeat(s.seats, n))
            && (forall a, n :: AcceptsName(s', a, n) <==>
                  if a != id then AcceptsName(s, a, n)
                  else if (n, true) in reqs then FindSeat(s.seats, n).Some?
                  else AcceptsName(s, a, n) && (n, false) !in reqs)
    decreases |reqs|
  {
    if reqs != [] {
      var s1 := SetInputAcceptance(s, id, reqs[0].0, reqs[0].1, envs(|reqs|));
      assert reqs == [reqs[0]] + reqs[1..];
      AcceptanceNames(s, id, reqs[0].0, reqs[0].1, envs(|reqs|));
      LookupKeys(s.surfaces, id);
      LookupKeys(s1.surfaces, id);
      ServeNames(s1, id, reqs[1..], envs);
    }
  }

  lemma {:induction false} AddRequestsSpec(have: seq<string>, seats: seq<string>)
    ensures forall r :: r in AddRequests(have, seats) <==> r.1 && r.0 in seats && r.0 !in have
  {
    if seats != [] {
      AddRequestsSpec(have, seats[1..]);
    }
  }

  lemma {:induction false} DropRequestsSpec(have: seq<string>, seats: seq<string>)
    ensures forall r :: r in DropRequests(have, seats) <==> !r.1 && r.0 in have && r.0 !in seats
  {
    if have != [] {
      DropRequestsSpec(have[1..], seats);
    }
  }

  /** A mirror follows the server through a list of acceptance requests. */
  lemma {:induction false} ServeAgrees(s: State, id: nat, reqs: seq<(string, bool)>, envs: nat -> Env, m: Mirror, stale: set<(nat, string)>)
    returns (stale': set<(nat, string)>)
    requires Inv(s) && Lookup(s.surfaces, id).Some? && Agrees(s, m, stale)
    ensures s.out <= Serve(s, id, reqs, envs).out
    ensures Agrees(Serve(s, id, reqs, envs), Drain(m, NewEvents(s, Serve(s, id, reqs, envs))), stale')
    ensures forall a, n :: (a, n) in stale' <==> (a, n) in stale && !(a == id && (n, true) in reqs && FindSeat(s.seats, n).Some?)
    decreases |reqs|
  {
    if reqs == [] {
      stale' := stale;
      assert NewEvents(s, s) == [];
    } else {
      var r := reqs[0];
      var s1 := SetInputAcceptance(s, id, r.0, r.1, envs(|reqs|));
      var stale1 := OneRequestAgrees(s, id, r, envs(|reqs|), m, stale);
      stale' := ServeAgrees(s1, id, reqs[1..], envs, Drain(m, NewEvents(s, s1)), stale1);
      NewEventsTrans(s, s1, Serve(s1, id, reqs[1..], envs), m);
      assert reqs == [r] + reqs[1..];
    }
  }

  lemma NewEventsTrans(s: State, s1: State, s2: State, m: Mirror)
    requires s.out <= s1.out && s1.out <= s2.out
    ensures s.out <= s2.out && Drain(m, NewEvents(s, s2)) == Drain(Drain(m, NewEvents(s, s1)), NewEvents(s1, s2))
  {
    assert NewEvents(s, s2) == NewEvents(s, s1) + NewEvents(s1, s2);
    DrainAppend(m, NewEvents(s, s1), NewEvents(s1, s2));
  }

  lemma OneRequestAgrees(s: State, id: nat, r: (string, bool), env: Env, m: Mirror, stale: set<(nat, string)>)
    returns (stale': set<(nat, string)>)
    requires Inv(s) && Lookup(s.surfaces, id).Some? && Agrees(s, m, stale)
    ensures var s1 := SetInputAcceptance(s, id, r.0, r.1, env);
            && Inv(s1) && Lookup(s1.surfaces, id).Some? && s.out <= s1.out
            && Agrees(s1, Drain(m, NewEvents(s, s1)), stale')
            && (forall n :: FindSeat(s1.seats, n) == FindSeat(s.seats, n))
    ensures stale' == if r.1 && FindSeat(s.seats, r.0).Some? then stale - {(id, r.0)} else stale
  {
    var op := AcceptanceRequest(id, r.0, r.1, env);
    var s1 := SetInputAcceptance(s, id, r.0, r.1, env);
    assert s1 == Step(s, op);
    AcceptanceAgrees(s, id, r.0, r.1, env, m, stale);
    AcceptanceNames(s, id, r.0, r.1, env);
    LookupKeys(s.surfaces, id);
    LookupKeys(s1.surfaces, id);
    stale' := StaleAfter(s, stale, op);
  }

  /** Convergence of ilm_setInputAcceptanceOn, duplicates in `seats` included.
      Starting from a drained mirror, and once the server has handled the
      requests and the client its answers, the server accepts on the surface
      the requested seats that are not stale there, the client lists the
      requested and the stale ones, and no other surface changes. */
  lemma AcceptanceConverges(s: State, id: nat, seats: seq<string>, envs: nat -> Env, m: Mirror, stale: set<(nat, string)>)
    requires Inv(s) && Agrees(s, m, stale)
    requires AcceptanceRequests(m, id, seats).Some?
    ensures var s' := Serve(s, id, AcceptanceRequests(m, id, seats).value, envs);
            var m' := Drain(m, NewEvents(s, s'));
            && (forall n :: AcceptsName(s', id, n) <==> n in seats && (id, n) !in stale)
            && (forall n :: n in Accepted(m', id) <==> n in seats || (id, n) in stale)
            && NoDup(Accepted(m', id))
            && (forall a, n :: a != id ==> AcceptsName(s', a, n) == AcceptsName(s, a, n))
  {
    var have := Lookup(m.surfaces, id).value;
    var reqs := AcceptanceRequests(m, id, seats).value;
    assert Accepted(m, id) == have;
    LookupKeys(m.surfaces, id);
    LookupKeys(s.surfaces, id);
    AddRequestsSpec(have, seats);
    DropRequestsSpec(have, seats);
    assert forall r :: r in reqs <==> if r.1 then r.0 in seats && r.0 !in have else r.0 in have && r.0 !in seats;
    ServeNames(s, id, reqs, envs);
    var stale' := ServeAgrees(s, id, reqs, envs, m, stale);
    var s' := Serve(s, id, reqs, envs);
    var m' := Drain(m, NewEvents(s, s'));
    forall n ensures AcceptsName(s', id, n) <==> n in seats && (id, n) !in stale
             ensures n in Accepted(m', id) <==> n in seats || (id, n) in stale
    {
      assert NameAgrees(s, m, stale, id, n) && NameAgrees(s', m', stale', id, n);
      assert (n, true) in reqs <==> n in seats && n !in have;
      assert (n, false) in reqs <==> n in have && n !in seats;
    }
  }

  /** So it reaches exactly the requested set, on both sides, if and only if
      no name is stale on that surface. */
  lemma ConvergesExactly(s: State, id: nat, seats: seq<string>, envs: nat -> Env, m: Mirror, stale: set<(nat, string)>)
    requires Inv(s) && Agrees(s, m, stale)
    requires AcceptanceRequests(m, id, seats).Some?
    ensures var s' := Serve(s, id, AcceptanceRequests(m, id, seats).value, envs);
            var m' := Drain(m, NewEvents(s, s'));
            (forall n :: (AcceptsName(s', id, n) <==> n in seats) && (n in Accepted(m', id) <==> n in seats))
            <==> (forall n :: (id, n) !in stale)
  {
    AcceptanceConverges(s, id, seats, envs, m, stale);
  }

  /** It fails if and only if the surface or one of the seats is unknown. */
  lemma FailsIffUnknown(m: Mirror, id: nat, seats: seq<string>)
    ensures AcceptanceRequests(m, id, seats).None?
            <==> id !in Keys(m.surfaces) || exists n :: n in seats && n !in m.seats
  {
    LookupKeys(m.surfaces, id);
  }

  /** Nothing is sent if and only if it fails or the wanted names are, as a set,
      the listed ones. */
  lemma NothingSentIff(m: Mirror, id: nat, seats: seq<string>)
    ensures AcceptanceRequests(m, id, seats) in {None, Some([])}
            <==> id !in Keys(m.surfaces) || (exists n :: n in seats && n !in m.seats)
                 || forall n :: n in seats <==> n in Accepted(m, id)
  {
    FailsIffUnknown(m, id, seats);
    var have := Accepted(m, id);
    AddRequestsSpec(have, seats);
    DropRequestsSpec(have, seats);
    if AddRequests(have, seats) + DropRequests(have, seats) == [] {
      assert AddRequests(have, seats) == [] && DropRequests(have, seats) == [];
      forall n ensures n in seats <==> n in have {
        assert (n, true) !in AddRequests(have, seats) && (n, false) !in DropRequests(have, seats);
      }
    } else {
      var r := (AddRequests(have, seats) + DropRequests(have, seats))[0];
      assert r in AddRequests(have, seats) || r in DropRequests(have, seats);
    }
  }

  /** Calling it again, with the answers dispatched, sends nothing if and only if
      every stale name on the surface is a wanted one. */
  lemma SecondCall(s: State, id: nat, seats: seq<string>, envs: nat -> Env, m: Mirror, stale: set<(nat, string)>)
    requires Inv(s) && Agrees(s, m, stale)
    requires AcceptanceRequests(m, id, seats).Some?
    ensures var s' := Serve(s, id, AcceptanceRequests(m, id, seats).value, envs);
            var m' := Drain(m, NewEvents(s, s'));
            AcceptanceRequests(m', id, seats) == Some([]) <==> forall n :: (id, n) in stale ==> n in seats
  {
    var reqs := AcceptanceRequests(m, id, seats).value;
    var s' := Serve(s, id, reqs, envs);
    var m' := Drain(m, NewEvents(s, s'));
    AcceptanceConverges(s, id, seats, envs, m, stale);
    AddRequestsSpec(Lookup(m.surfaces, id).value, seats);
    DropRequestsSpec(Lookup(m.surfaces, id).value, seats);
    LookupKeys(m.surfaces, id);
    LookupKeys(s.surfaces, id);
    ServeNames(s, id, reqs, envs);
    var stale' := ServeAgrees(s, id, reqs, envs, m, stale);
    assert Keys(m'.surfaces) == Keys(m.surfaces);
    assert forall n :: n in m'.seats <==> n in m.seats;
    NothingSentIff(m', id, seats);
    FailsIffUnknown(m, id, seats);
    FailsIffUnknown(m', id, seats);
  }
}
