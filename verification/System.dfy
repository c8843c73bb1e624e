/** The compositor with all its controller clients: the shell's surface and
    layer lists (ivi-controller.c), the input controller, one FIFO event queue
    per client, and the mirror each client keeps
    (ilm_control_wayland_platform.c). */
module System {
  import opened WlList
  import opened Protocol
  import opened Input
  import opened InputProofs
  import opened InputRuns

  /** A client bound to `ivi_wm`, and to `ivi_input` when `input` holds.
      `stale` is a bookkeeping set: pairs (surface, seat name) whose seat was
      destroyed while accepted, which no event ever took back. */
  datatype Client = Client(mirror: Mirror, queue: seq<Event>, input: bool, stale: set<(nat, string)>)

  datatype Sys = Sys(bkgnd: int, s: State, layers: seq<nat>, clients: seq<(nat, Client)>)

  datatype SysOp =
    | InputOp(op: Op)
    | LayerCreate(id: nat)
    | LayerDestroy(id: nat)
    | Bind(c: nat)
    | BindInput(c: nat)
    | Unbind(c: nat)
    | Deliver(c: nat)

  /** `bkgnd_surface_id == (int32_t)id_surface`. */
  predicate IsBackground(bkgnd: int, id: nat) {
    (if id < 0x8000_0000 then id else id - 0x1_0000_0000) == bkgnd
  }

  /** On 32 bits: the id has the same bits. */
  lemma BackgroundIff(bkgnd: int, id: nat)
    requires -0x8000_0000 <= bkgnd < 0x8000_0000 && id < 0x1_0000_0000
    ensures IsBackground(bkgnd, id) <==> bkgnd % 0x1_0000_0000 == id
  {
  }

  // ---------- the events of a step ----------

  function NewEvents(s: State, s': State): seq<Event> {
    if |s.out| <= |s'.out| then s'.out[|s.out|..] else []
  }

  /** What create_surface and remove_ivi_surface send on `ivi_wm`. */
  function WmEvents(s: State, op: Op): seq<Event> {
    match op
    case SurfaceCreate(id, _) => [SurfaceCreated(id)]
    case SurfaceDestroy(id) => if Lookup(s.surfaces, id).Some? then [SurfaceDestroyed(id)] else []
    case _ => []
  }

  /** Pairs that go stale or are cleared by a step. */
  ghost function StaleAfter(s: State, stale: set<(nat, string)>, op: Op): set<(nat, string)> {
    match op
    case SeatDestroy(k) =>
      if Lookup(s.seats, k).None? then stale
      else stale + (set id | id in Keys(s.surfaces) && RecordOf(s, id, k).Some? :: (id, Lookup(s.seats, k).value.name))
    case SeatCreate(_, name, _, _) => if name == s.defaultSeat then set p | p in stale && p.1 != name else stale
    case AcceptanceRequest(id, name, accepted, _) =>
      if accepted && FindSeat(s.seats, name).Some? && Lookup(s.surfaces, id).Some? then stale - {(id, name)} else stale
    case SurfaceDestroy(id) => set p | p in stale && p.0 != id
    case _ => stale
  }

  /** Replay when `ivi_wm` is bound: oldest object first. */
  function ReplaySurfaces(ids: seq<nat>): seq<Event> {
    if ids == [] then [] else ReplaySurfaces(ids[1..]) + [SurfaceCreated(ids[0])]
  }

  function ReplayLayers(ids: seq<nat>): seq<Event> {
    if ids == [] then [] else ReplayLayers(ids[1..]) + [LayerCreated(ids[0])]
  }

  /** Replay when `ivi_input` is bound: seats, then per surface and accepted
      seat a focus and an acceptance event. */
  function ReplaySeats(seats: seq<(nat, Seat)>): seq<Event> {
    if seats == [] then [] else ReplaySeats(seats[1..]) + [SeatCreated(seats[0].1.name)]
  }

  function ReplayRecords(s: State, id: nat, l: seq<(nat, Record)>): seq<Event> {
    if l == [] then []
    else
      [InputFocus(id, l[0].1.focus, true)]
      + (if Lookup(s.seats, l[0].0).Some? then [InputAcceptance(id, Lookup(s.seats, l[0].0).value.name, true)] else [])
      + ReplayRecords(s, id, l[1..])
  }

  function ReplayAcceptance(s: State, l: seq<(nat, Surface)>): seq<Event> {
    if l == [] then [] else ReplayRecords(s, l[0].0, l[0].1.accepted) + ReplayAcceptance(s, l[1..])
  }

  // ---------- steps ----------

  ghost function Notify(s: State, op: Op, c: Client): Client {
    c.(queue := c.queue + WmEvents(s, op) + (if c.input then NewEvents(s, Step(s, op)) else []),
       stale := if c.input then StaleAfter(s, c.stale, op) else c.stale)
  }

  ghost function NotifyAll(s: State, op: Op, l: seq<(nat, Client)>): (r: seq<(nat, Client)>)
    ensures Keys(r) == Keys(l)
  {
    seq(|l|, i requires 0 <= i < |l| => (l[i].0, Notify(s, op, l[i].1)))
  }

  function SendAll(l: seq<(nat, Client)>, e: Event): (r: seq<(nat, Client)>)
    ensures Keys(r) == Keys(l)
  {
    seq(|l|, i requires 0 <= i < |l| => (l[i].0, l[i].1.(queue := l[i].1.queue + [e])))
  }

  ghost function SysStep(y: Sys, op: SysOp): Sys {
    match op
    case InputOp(o) =>
      if o.SurfaceCreate? && IsBackground(y.bkgnd, o.id) then y
      else y.(s := Step(y.s, o), clients := NotifyAll(y.s, o, y.clients))
    case LayerCreate(id) => y.(layers := [id] + y.layers, clients := SendAll(y.clients, LayerCreated(id)))
    case LayerDestroy(id) =>
      if id !in y.layers then y
      else y.(layers := Drop(y.layers, id), clients := SendAll(y.clients, LayerDestroyed(id)))
    case Bind(c) =>
      y.(clients := [(c, Client(EMPTY_MIRROR, ReplaySurfaces(Keys(y.s.surfaces)) + ReplayLayers(y.layers), false, {}))]
                    + y.clients)
    case BindInput(c) =>
      (match Lookup(y.clients, c)
       case None => y
       case Some(cl) =>
         if cl.input then y
         else
           var q := cl.queue + ReplaySeats(y.s.seats) + ReplayAcceptance(y.s, y.s.surfaces);
           y.(clients := Put(y.clients, c, cl.(queue := q, input := true))))
    case Unbind(c) => y.(clients := Remove(y.clients, c))
    case Deliver(c) =>
      match Lookup(y.clients, c)
      case None => y
      case Some(cl) =>
        if cl.queue == [] then y
        else y.(clients := Put(y.clients, c, cl.(mirror := Apply(cl.mirror, cl.queue[0]), queue := cl.queue[1..])))
  }

  predicate SysLegal(y: Sys, op: SysOp) {
    match op
    case InputOp(o) => Legal(y.s, o)
    case LayerCreate(id) => id !in y.layers
    case Bind(c) => Lookup(y.clients, c).None?
    case _ => true
  }

  // ---------- what a mirror must agree with ----------

  predicate AcceptsName(s: State, id: nat, n: string) {
    FindSeat(s.seats, n).Some? && RecordOf(s, id, FindSeat(s.seats, n).value).Some?
  }

  /** The mirror lists name `n` for surface `id` if the server accepts a seat
      of that name there or the pair is stale, and never for both reasons. */
  ghost predicate NameAgrees(s: State, m: Mirror, stale: set<(nat, string)>, id: nat, n: string) {
    && (n in Accepted(m, id) <==> (AcceptsName(s, id, n) || (id, n) in stale))
    && ((id, n) in stale ==> !AcceptsName(s, id, n) && Lookup(s.surfaces, id).Some?)
  }

  /** A fully drained mirror of a client bound to both interfaces. */
  ghost predicate Agrees(s: State, m: Mirror, stale: set<(nat, string)>) {
    && Keys(m.surfaces) == Keys(s.surfaces)
    && (forall id :: NoDup(Accepted(m, id)))
    && (forall id, n :: NameAgrees(s, m, stale, id, n))
    && NoDup(m.seats) && (forall n :: n in m.seats <==> FindSeat(s.seats, n).Some?)
  }

  /** A fully drained mirror of a client not yet bound to `ivi_input`. */
  ghost predicate Plain(s: State, m: Mirror) {
    Keys(m.surfaces) == Keys(s.surfaces) && (forall id :: Accepted(m, id) == []) && m.seats == []
  }

  lemma FindSeatSpec(s: State, n: string, k: nat)
    requires Wf(s)
    ensures FindSeat(s.seats, n) == Some(k) <==> Lookup(s.seats, k).Some? && Lookup(s.seats, k).value.name == n
  {
    FindSeatSound(s.seats, n);
  }

  /** Acceptance by name depends only on seat names and record keys. */
  lemma NamesByShape(s: State, s': State)
    requires Wf(s) && Wf(s') && Shape(s, s')
    ensures forall n :: FindSeat(s'.seats, n) == FindSeat(s.seats, n)
    ensures forall id, n :: AcceptsName(s', id, n) == AcceptsName(s, id, n)
    ensures forall id :: Lookup(s'.surfaces, id).Some? == Lookup(s.surfaces, id).Some?
  {
    forall n ensures FindSeat(s'.seats, n) == FindSeat(s.seats, n) {
      if FindSeat(s.seats, n).Some? {
        var k := FindSeat(s.seats, n).value;
        FindSeatSpec(s, n, k);
        assert SameSeat(Lookup(s.seats, k), Lookup(s'.seats, k));
        FindSeatSpec(s', n, k);
      }
      if FindSeat(s'.seats, n).Some? {
        var k := FindSeat(s'.seats, n).value;
        FindSeatSpec(s', n, k);
        assert SameSeat(Lookup(s.seats, k), Lookup(s'.seats, k));
        FindSeatSpec(s, n, k);
      }
    }
    forall id, n ensures AcceptsName(s', id, n) == AcceptsName(s, id, n) {
      if FindSeat(s.seats, n).Some? {
        assert SameRecord(RecordOf(s, id, FindSeat(s.seats, n).value), RecordOf(s', id, FindSeat(s.seats, n).value));
      }
    }
    forall id ensures Lookup(s'.surfaces, id).Some? == Lookup(s.surfaces, id).Some? {
      assert SameSurface(Lookup(s.surfaces, id), Lookup(s'.surfaces, id));
    }
  }

  lemma {:induction false} DrainFocus(m: Mirror, q: seq<Event>)
    requires OnlyFocusEvents(q)
    ensures Drain(m, q) == m
    decreases |q|
  {
    if q != [] {
      DrainFocus(m, q[1..]);
    }
  }

  lemma ShapeAgrees(s: State, s': State, m: Mirror, stale: set<(nat, string)>)
    requires Wf(s) && Wf(s') && Shape(s, s') && Agrees(s, m, stale)
    ensures Agrees(s', m, stale) && Drain(m, NewEvents(s, s')) == m
  {
    NamesByShape(s, s');
    DrainFocus(m, NewEvents(s, s'));
    forall id, n ensures NameAgrees(s', m, stale, id, n) {
      assert NameAgrees(s, m, stale, id, n);
    }
  }

  // ---------- one record more or less ----------

  lemma AcceptedPut(m: Mirror, id: nat, names: seq<string>)
    requires Lookup(m.surfaces, id).Some?
    ensures forall a :: Accepted(m.(surfaces := Put(m.surfaces, id, names)), a)
                        == if a == id then names else Accepted(m, a)
  {
    forall a: nat ensures Accepted(m.(surfaces := Put(m.surfaces, id, names)), a)
                     == if a == id then names else Accepted(m, a)
    {
      LookupPut(m.surfaces, id, names, a);
    }
  }

  lemma AddNames(s: State, id: nat, k: nat)
    requires Inv(s) && Lookup(s.seats, k).Some? && Lookup(s.surfaces, id).Some?
    ensures var s' := AddAccepted(s, id, k);
            s'.seats == s.seats && s'.out == s.out && Keys(s'.surfaces) == Keys(s.surfaces)
            && (forall a, n :: AcceptsName(s', a, n)
                               <==> AcceptsName(s, a, n) || (a == id && n == Lookup(s.seats, k).value.name))
            && (forall a :: Lookup(s'.surfaces, a).Some? == Lookup(s.surfaces, a).Some?)
  {
    var s' := AddAccepted(s, id, k);
    AddAcceptedEffect(s, id, k);
    if RecordOf(s, id, k).None? {
      AddAcceptedRecords(s, id, k);
    }
    forall a: nat, n: string ensures AcceptsName(s', a, n)
                        <==> AcceptsName(s, a, n) || (a == id && n == Lookup(s.seats, k).value.name)
    {
      FindSeatSpec(s, n, k);
    }
  }

  /** What the client does with an acceptance event for a surface it knows. */
  lemma HearAcceptance(m: Mirror, id: nat, n: string, accepted: bool)
    requires Lookup(m.surfaces, id).Some? && forall a :: NoDup(Accepted(m, a))
    ensures var m' := Apply(m, InputAcceptance(id, n, accepted));
            && Keys(m'.surfaces) == Keys(m.surfaces) && m'.seats == m.seats && m'.layers == m.layers
            && (forall a :: NoDup(Accepted(m', a)))
            && (forall a, x :: x in Accepted(m', a)
                               <==> if a == id && x == n then accepted else x in Accepted(m, a))
  {
    var names := Lookup(m.surfaces, id).value;
    assert Accepted(m, id) == names;
    DropSpec(names, n);
    AcceptedPut(m, id, Drop(names, n));
    AcceptedPut(m, id, [n] + names);
    if n !in names {
      NoDupCons(n, names);
    }
  }

  /** The client hears about a new acceptance. */
  lemma AddAgrees(s: State, id: nat, k: nat, m: Mirror, stale: set<(nat, string)>)
    requires Inv(s) && Lookup(s.seats, k).Some? && Lookup(s.surfaces, id).Some? && Agrees(s, m, stale)
    ensures var n := Lookup(s.seats, k).value.name;
            Agrees(AddAccepted(s, id, k), Apply(m, InputAcceptance(id, n, true)), stale - {(id, n)})
  {
    var n := Lookup(s.seats, k).value.name;
    AddNames(s, id, k);
    LookupKeys(s.surfaces, id);
    LookupKeys(m.surfaces, id);
    HearAcceptance(m, id, n, true);
    forall a, x ensures NameAgrees(AddAccepted(s, id, k), Apply(m, InputAcceptance(id, n, true)), stale - {(id, n)}, a, x) {
      assert NameAgrees(s, m, stale, a, x);
    }
  }

  lemma RemoveNames(s: State, id: nat, k: nat)
    requires Wf(s) && Lookup(s.seats, k).Some?
    ensures var s' := RemoveAccepted(s, id, k);
            Wf(s') && s'.seats == s.seats && s'.out == s.out && Keys(s'.surfaces) == Keys(s.surfaces)
            && (forall a, n :: AcceptsName(s', a, n)
                               <==> AcceptsName(s, a, n) && !(a == id && n == Lookup(s.seats, k).value.name))
            && (forall a :: Lookup(s'.surfaces, a).Some? == Lookup(s.surfaces, a).Some?)
  {
    var s' := RemoveAccepted(s, id, k);
    RemoveAcceptedRecords(s, id, k);
    forall a: nat, n: string ensures AcceptsName(s', a, n)
                        <==> AcceptsName(s, a, n) && !(a == id && n == Lookup(s.seats, k).value.name)
    {
      FindSeatSpec(s, n, k);
    }
    forall a: nat ensures Lookup(s'.surfaces, a).Some? == Lookup(s.surfaces, a).Some? {
      LookupKeys(s.surfaces, a);
      LookupKeys(s'.surfaces, a);
    }
  }

  lemma RemoveAgrees(s: State, id: nat, k: nat, m: Mirror, stale: set<(nat, string)>)
    requires Wf(s) && Lookup(s.seats, k).Some? && RecordOf(s, id, k).Some? && Agrees(s, m, stale)
    ensures Agrees(RemoveAccepted(s, id, k),
                   Apply(m, InputAcceptance(id, Lookup(s.seats, k).value.name, false)), stale)
  {
    var n := Lookup(s.seats, k).value.name;
    RemoveNames(s, id, k);
    FindSeatSpec(s, n, k);
    assert AcceptsName(s, id, n) && NameAgrees(s, m, stale, id, n);
    LookupKeys(s.surfaces, id);
    LookupKeys(m.surfaces, id);
    HearAcceptance(m, id, n, false);
    forall a, x ensures NameAgrees(RemoveAccepted(s, id, k), Apply(m, InputAcceptance(id, n, false)), stale, a, x) {
      assert NameAgrees(s, m, stale, a, x);
    }
  }

  // ---------- requests ----------

  lemma AcceptAgrees(s: State, id: nat, k: nat, env: Env, m: Mirror, stale: set<(nat, string)>)
    requires Inv(s) && Lookup(s.seats, k).Some? && Lookup(s.surfaces, id).Some? && Agrees(s, m, stale)
    ensures var n := Lookup(s.seats, k).value.name;
            var s' := Send(Accept(s, id, k, env), InputAcceptance(id, n, true));
            s.out <= s'.out && Agrees(s', Drain(m, NewEvents(s, s')), stale - {(id, n)})
  {
    var n := Lookup(s.seats, k).value.name;
    var s1, s2, e := AddAccepted(s, id, k), Accept(s, id, k, env), InputAcceptance(id, n, true);
    AddNames(s, id, k);
    AddAcceptedEffect(s, id, k);
    AcceptEffect(s, id, k, env);
    AddAgrees(s, id, k, m, stale);
    ShapeAgrees(s1, s2, Apply(m, e), stale - {(id, n)});
    ThenSend(s, s1, s2, e, m);
    SameNames(s2, Send(s2, e), Apply(m, e), stale - {(id, n)});
  }

  lemma RejectAgrees(s: State, id: nat, k: nat, m: Mirror, stale: set<(nat, string)>)
    requires Inv(s) && Lookup(s.seats, k).Some? && RecordOf(s, id, k).Some? && Agrees(s, m, stale)
    ensures var s' := Send(Reject(s, id, k), InputAcceptance(id, Lookup(s.seats, k).value.name, false));
            s.out <= s'.out && Agrees(s', Drain(m, NewEvents(s, s')), stale)
  {
    var e := InputAcceptance(id, Lookup(s.seats, k).value.name, false);
    RejectEffect(s, id, k);
    var s1 := Unfocus(s, id, k);
    ShapeAgrees(s, s1, m, stale);
    assert SameSeat(Lookup(s.seats, k), Lookup(s1.seats, k));
    assert SameRecord(RecordOf(s, id, k), RecordOf(s1, id, k));
    RemoveAgrees(s1, id, k, m, stale);
    RemoveNames(s1, id, k);
    var s2 := Reject(s, id, k);
    ThenSend(s, s, s2, e, m);
    SameNames(s2, Send(s2, e), Apply(m, e), stale);
  }

  lemma AcceptanceAgrees(s: State, id: nat, name: string, accepted: bool, env: Env, m: Mirror, stale: set<(nat, string)>)
    requires Inv(s) && Agrees(s, m, stale)
    ensures var op := AcceptanceRequest(id, name, accepted, env);
            s.out <= Step(s, op).out
            && Agrees(Step(s, op), Drain(m, NewEvents(s, Step(s, op))), StaleAfter(s, stale, op))
  {
    var f := FindSeat(s.seats, name);
    var s' := SetInputAcceptance(s, id, name, accepted, env);
    assert NewEvents(s, s) == [];
    if f.None? || Lookup(s.surfaces, id).None? || (!accepted && RecordOf(s, id, f.value).None?) {
      assert s' == s;
    } else {
      assert Lookup(s.seats, f.value).Some? && Lookup(s.seats, f.value).value.name == name by {
        FindSeatSpec(s, name, f.value);
      }
      if accepted {
        assert s' == Send(Accept(s, id, f.value, env), InputAcceptance(id, name, true));
        AcceptAgrees(s, id, f.value, env, m, stale);
      } else {
        assert s' == Send(Reject(s, id, f.value), InputAcceptance(id, name, false));
        RejectAgrees(s, id, f.value, m, stale);
      }
    }
  }

  /** Focus events followed by one acceptance event. */
  lemma ThenSend(s: State, s1: State, s2: State, e: Event, m: Mirror)
    requires s1.out == s.out && s1.out <= s2.out && OnlyFocusEvents(s2.out[|s1.out|..])
    ensures s.out <= Send(s2, e).out && Drain(m, NewEvents(s, Send(s2, e))) == Apply(m, e)
  {
    var q := s2.out[|s.out|..];
    assert NewEvents(s, Send(s2, e)) == q + [e];
    DrainAppend(m, q, [e]);
    DrainFocus(m, q);
    assert Drain(Apply(m, e), [e][1..]) == Apply(m, e);
  }

  lemma SameNames(s: State, s': State, m: Mirror, stale: set<(nat, string)>)
    requires s'.surfaces == s.surfaces && s'.seats == s.seats && Agrees(s, m, stale)
    ensures Agrees(s', m, stale)
  {
    forall id, n ensures NameAgrees(s', m, stale, id, n) {
      assert RecordOf(s', id, 0) == RecordOf(s, id, 0);
      assert NameAgrees(s, m, stale, id, n) && AcceptsName(s', id, n) == AcceptsName(s, id, n);
    }
  }

  /** Surfaces or seats were added without touching acceptance. */
  lemma SameMirrorNames(s: State, s': State, m: Mirror, m': Mirror, stale: set<(nat, string)>)
    requires Agrees(s, m, stale)
    requires Keys(m'.surfaces) == Keys(s'.surfaces) && (forall id :: Accepted(m', id) == Accepted(m, id))
    requires forall id, n :: AcceptsName(s', id, n) == AcceptsName(s, id, n)
    requires forall id :: Lookup(s.surfaces, id).Some? ==> Lookup(s'.surfaces, id).Some?
    requires NoDup(m'.seats) && (forall n :: n in m'.seats <==> FindSeat(s'.seats, n).Some?)
    ensures Agrees(s', m', stale)
  {
    forall id, n ensures NameAgrees(s', m', stale, id, n) {
      assert NameAgrees(s, m, stale, id, n);
    }
    forall id ensures NoDup(Accepted(m', id)) {
      assert NoDup(Accepted(m, id));
    }
  }

  // ---------- seats ----------

  /** One round: the record is added and announced. */
  lemma AcceptOneAgrees(s: State, id: nat, k: nat, m: Mirror, stale: set<(nat, string)>)
    requires Inv(s) && Lookup(s.seats, k).Some? && Agrees(s, m, stale) && id in Keys(s.surfaces)
    ensures var n := Lookup(s.seats, k).value.name;
            var e := InputAcceptance(id, n, true);
            var s1 := Send(AddAccepted(s, id, k), e);
            && Inv(s1) && s1.seats == s.seats && Keys(s1.surfaces) == Keys(s.surfaces) && s1.out == s.out + [e]
            && Agrees(s1, Apply(m, e), stale - {(id, n)})
  {
    var n := Lookup(s.seats, k).value.name;
    var e := InputAcceptance(id, n, true);
    var s1 := AddAccepted(s, id, k);
    LookupKeys(s.surfaces, id);
    AddNames(s, id, k);
    AddAcceptedEffect(s, id, k);
    AddAgrees(s, id, k, m, stale);
    SameNames(s1, Send(s1, e), Apply(m, e), stale - {(id, n)});
    SendKeeps(s1, e);
  }

  lemma {:induction false} EverywhereAgrees(s: State, ids: seq<nat>, k: nat, m: Mirror, stale: set<(nat, string)>)
    requires Inv(s) && Lookup(s.seats, k).Some? && Agrees(s, m, stale)
    requires forall id :: id in ids ==> id in Keys(s.surfaces)
    ensures var n := Lookup(s.seats, k).value.name;
            var s' := AcceptEverywhere(s, ids, k, n);
            s.out <= s'.out
            && Agrees(s', Drain(m, NewEvents(s, s')), set p | p in stale && !(p.1 == n && p.0 in ids))
    decreases |ids|
  {
    var n := Lookup(s.seats, k).value.name;
    var s' := AcceptEverywhere(s, ids, k, n);
    if ids == [] {
      assert (set p | p in stale && !(p.1 == n && p.0 in ids)) == stale;
    } else {
      var id := ids[0];
      var e := InputAcceptance(id, n, true);
      var s1 := Send(AddAccepted(s, id, k), e);
      AcceptOneAgrees(s, id, k, m, stale);
      EverywhereAgrees(s1, ids[1..], k, Apply(m, e), stale - {(id, n)});
      assert NewEvents(s, s') == [e] + NewEvents(s1, s');
      assert (set p | p in stale - {(id, n)} && !(p.1 == n && p.0 in ids[1..]))
             == set p | p in stale && !(p.1 == n && p.0 in ids);
    }
  }

  /** The announcement alone. */
  lemma AnnounceAgrees(s: State, k: nat, name: string, kb: bool, pt: bool, m: Mirror, stale: set<(nat, string)>)
    requires Inv(s) && Legal(s, SeatCreate(k, name, kb, pt)) && Agrees(s, m, stale)
    ensures var s1 := AnnounceSeat(s, k, name, kb, pt);
            && Inv(s1) && Keys(s1.surfaces) == Keys(s.surfaces) && s1.out == s.out + [SeatCreated(name)]
            && FindSeat(s1.seats, name) == Some(k) && Agrees(s1, Apply(m, SeatCreated(name)), stale)
  {
    var s1 := AnnounceSeat(s, k, name, kb, pt);
    AnnounceSeatEffect(s, k, name, kb, pt);
    assert s1.seats[1..] == s.seats;
    FindSeatSound(s.seats, name);
    forall n ensures FindSeat(s1.seats, n) == if n == name then Some(k) else FindSeat(s.seats, n) {
    }
    forall a: nat, n: string ensures AcceptsName(s1, a, n) == AcceptsName(s, a, n) {
      if n == name {
        assert RecordOf(s, a, k).None?;
      }
      assert RecordOf(s1, a, k) == RecordOf(s, a, k);
    }
    NoDupCons(name, m.seats);
    SameMirrorNames(s, s1, m, Apply(m, SeatCreated(name)), stale);
  }

  /** The default seat is accepted everywhere, so none of its names stay stale. */
  lemma DefaultStale(s: State, name: string, m: Mirror, stale: set<(nat, string)>)
    requires Agrees(s, m, stale)
    ensures (set p | p in stale && !(p.1 == name && p.0 in Keys(s.surfaces))) == set p | p in stale && p.1 != name
  {
    forall p | p in stale ensures p.0 in Keys(s.surfaces) {
      assert NameAgrees(s, m, stale, p.0, p.1);
      LookupKeys(s.surfaces, p.0);
    }
  }

  lemma SeatCreateAgrees(s: State, k: nat, name: string, kb: bool, pt: bool, m: Mirror, stale: set<(nat, string)>)
    requires Inv(s) && Legal(s, SeatCreate(k, name, kb, pt)) && Agrees(s, m, stale)
    ensures var op := SeatCreate(k, name, kb, pt);
            s.out <= Step(s, op).out
            && Agrees(Step(s, op), Drain(m, NewEvents(s, Step(s, op))), StaleAfter(s, stale, op))
  {
    var op := SeatCreate(k, name, kb, pt);
    var e := SeatCreated(name);
    var s1 := AnnounceSeat(s, k, name, kb, pt);
    AnnounceAgrees(s, k, name, kb, pt, m, stale);
    if name == s.defaultSeat {
      EverywhereAgrees(s1, Keys(s.surfaces), k, Apply(m, e), stale);
      assert NewEvents(s, Step(s, op)) == [e] + NewEvents(s1, Step(s, op));
      DefaultStale(s, name, m, stale);
    } else {
      assert NewEvents(s, s1) == [e];
    }
  }

  lemma DestroySeatNames(s: State, k: nat)
    requires Inv(s) && Lookup(s.seats, k).Some?
    ensures var s', name := DestroySeat(s, k), Lookup(s.seats, k).value.name;
            && Keys(s'.surfaces) == Keys(s.surfaces) && s'.out == s.out + [SeatDestroyed(name)]
            && (forall n :: FindSeat(s'.seats, n) == if n == name then None else FindSeat(s.seats, n))
            && (forall a, n :: AcceptsName(s', a, n) <==> n != name && AcceptsName(s, a, n))
  {
    var s', name := DestroySeat(s, k), Lookup(s.seats, k).value.name;
    ForgetSeatRecords(s, Keys(s.surfaces), k);
    DestroySeatEffect(s, k);
    FindSeatSpec(s, name, k);
    forall j ensures Lookup(s'.seats, j) == if j == k then None else Lookup(s.seats, j) {
      LookupRemove(s.seats, k, j);
    }
    forall n ensures FindSeat(s'.seats, n) == if n == name then None else FindSeat(s.seats, n) {
      if FindSeat(s'.seats, n).Some? {
        FindSeatSpec(s', n, FindSeat(s'.seats, n).value);
        FindSeatSpec(s, n, FindSeat(s'.seats, n).value);
      }
      if FindSeat(s.seats, n).Some? {
        FindSeatSpec(s, n, FindSeat(s.seats, n).value);
        FindSeatSpec(s', n, FindSeat(s.seats, n).value);
      }
    }
    forall a, b ensures RecordOf(s', a, b) == if b == k then None else RecordOf(s, a, b) {
      LookupKeys(s.surfaces, a);
      assert RecordOf(s', a, b) == RecordOf(ForgetSeat(s, Keys(s.surfaces), k), a, b);
    }
    forall a, n ensures AcceptsName(s', a, n) <==> n != name && AcceptsName(s, a, n) {
      FindSeatSpec(s, n, k);
    }
  }

  lemma SeatDestroyAgrees(s: State, k: nat, m: Mirror, stale: set<(nat, string)>)
    requires Inv(s) && Agrees(s, m, stale)
    ensures var op := SeatDestroy(k);
            s.out <= Step(s, op).out
            && Agrees(Step(s, op), Drain(m, NewEvents(s, Step(s, op))), StaleAfter(s, stale, op))
  {
    if Lookup(s.seats, k).Some? {
      var op := SeatDestroy(k);
      var name, s' := Lookup(s.seats, k).value.name, Step(s, op);
      var m', stale' := Apply(m, SeatDestroyed(name)), StaleAfter(s, stale, op);
      DestroySeatNames(s, k);
      FindSeatSpec(s, name, k);
      DropSpec(m.seats, name);
      assert NewEvents(s, s') == [SeatDestroyed(name)];
      assert Drain(m', NewEvents(s, s')[1..]) == m';
      forall a: nat, n: string ensures NameAgrees(s', m', stale', a, n) {
        assert Accepted(m', a) == Accepted(m, a);
        LookupKeys(s.surfaces, a);
        LookupKeys(s'.surfaces, a);
        assert NameAgrees(s, m, stale, a, n);
        assert (a, n) in stale' <==> (a, n) in stale || (n == name && AcceptsName(s, a, n));
      }
      forall a ensures NoDup(Accepted(m', a)) {
        assert Accepted(m', a) == Accepted(m, a);
      }
    }
  }

  // ---------- surfaces ----------

  lemma SurfaceCreateAgrees(s: State, id: nat, wsurf: nat, m: Mirror, stale: set<(nat, string)>)
    requires Inv(s) && Legal(s, SurfaceCreate(id, wsurf)) && Agrees(s, m, stale)
    ensures var op := SurfaceCreate(id, wsurf);
            s.out <= Step(s, op).out
            && Agrees(Step(s, op), Drain(Apply(m, SurfaceCreated(id)), NewEvents(s, Step(s, op))), stale)
  {
    var op := SurfaceCreate(id, wsurf);
    var s1 := ListSurface(s, id, wsurf);
    ListSurfaceEffect(s, id, wsurf);
    var m1 := Apply(m, SurfaceCreated(id));
    LookupKeys(s.surfaces, id);
    LookupKeys(m.surfaces, id);
    assert m1.surfaces[1..] == m.surfaces && s1.surfaces[1..] == s.surfaces;
    KeysTail(m1.surfaces);
    KeysTail(s1.surfaces);
    assert forall a :: Accepted(m1, a) == Accepted(m, a);
    forall a: nat, n: string ensures AcceptsName(s1, a, n) == AcceptsName(s, a, n) {
    }
    SameMirrorNames(s, s1, m, m1, stale);
    FindSeatSound(s.seats, s.defaultSeat);
    var f := FindSeat(s.seats, s.defaultSeat);
    if f.Some? {
      AddNames(s1, id, f.value);
      AddAgrees(s1, id, f.value, m1, stale);
      var e := InputAcceptance(id, s.defaultSeat, true);
      var s2 := AddAccepted(s1, id, f.value);
      assert NewEvents(s, Step(s, op)) == [e];
      assert NameAgrees(s, m, stale, id, s.defaultSeat);
      assert stale - {(id, s.defaultSeat)} == stale;
      SameNames(s2, Send(s2, e), Apply(m1, e), stale);
    }
  }

  lemma SurfaceDestroyAgrees(s: State, id: nat, m: Mirror, stale: set<(nat, string)>)
    requires Inv(s) && Agrees(s, m, stale)
    ensures var op := SurfaceDestroy(id);
            s.out <= Step(s, op).out
            && Agrees(Step(s, op), Drain(Drain(m, WmEvents(s, op)), NewEvents(s, Step(s, op))), StaleAfter(s, stale, op))
  {
    var op := SurfaceDestroy(id);
    LookupKeys(s.surfaces, id);
    LookupKeys(m.surfaces, id);
    if Lookup(s.surfaces, id).None? {
      assert StaleAfter(s, stale, op) == stale by {
        forall p | p in stale ensures p.0 != id {
          assert NameAgrees(s, m, stale, p.0, p.1);
        }
      }
    } else {
      var s1 := Unforce(s, id, Keys(Lookup(s.surfaces, id).value.accepted));
      UnforceEffect(s, id, Keys(Lookup(s.surfaces, id).value.accepted));
      ShapeAgrees(s, s1, m, stale);
      var s' := Step(s, op);
      var m' := Apply(m, SurfaceDestroyed(id));
      KeysRemove(s1.surfaces, id);
      KeysRemove(m.surfaces, id);
      forall a: nat ensures Lookup(s'.surfaces, a) == if a == id then None else Lookup(s1.surfaces, a) {
        LookupRemove(s1.surfaces, id, a);
      }
      forall a: nat ensures Accepted(m', a) == if a == id then [] else Accepted(m, a) {
        LookupRemove(m.surfaces, id, a);
      }
      forall a: nat, n: string ensures AcceptsName(s', a, n) <==> a != id && AcceptsName(s1, a, n) {
      }
      forall a: nat, n: string ensures (a, n) in StaleAfter(s, stale, op) <==> a != id && (a, n) in stale {
      }
      assert Drain(m, [SurfaceDestroyed(id)]) == Drain(m', []);
      forall a: nat, n: string ensures NameAgrees(s', m', StaleAfter(s, stale, op), a, n) {
        assert NameAgrees(s1, m, stale, a, n);
      }
      assert s'.out == s1.out;
      DrainFocus(m', NewEvents(s, s'));
    }
  }
}
