/** Property notifications end to end, for one client, one surface or layer and
    one property group: the server queues a change once per subscription
    (ivi-controller.c), the client filters repetitions and calls back
    (ilm_control_wayland_platform.c). */
module Callbacks {
  import opened WlList

  /** What the client knows of the object: its copy of the group and whether a
      callback is set. */
  datatype Context<T> = Unlisted | Listed(cached: T, registered: bool)

  /** `calls` are the values the callback was called with. */
  datatype Client<T> = Client(context: Context<T>, calls: seq<T>)

  datatype Event<T> = Created | Destroyed | Value(v: T)

  /** `value` is the group on the server while the object exists, `subs` counts the
      client's notifications on it, `queue` is on its way to the client. A new
      context starts with the value `zero`. */
  datatype State<T> = State(zero: T, layer: bool, value: Option<T>, subs: nat, queue: seq<Event<T>>, client: Client<T>)

  datatype Op<T> =
    | Create(v: T)
    | Destroy
    | Change(v: T)            // one event per subscription
    | Deliver                 // the client dispatches one event
    | Get                     // ilm_getPropertiesOf...
    | Add(callback: bool)     // ilm_...AddNotification, with a callback or with NULL
    | Remove                  // ilm_...RemoveNotification

  // ---------- the client ----------

  /** The listeners for creation, destruction and the group. */
  function Hear<T(==)>(zero: T, c: Client<T>, e: Event<T>): Client<T> {
    match (c.context, e)
    case (Unlisted, Created) => c.(context := Listed(zero, false))
    case (Listed(_, _), Created) => c
    case (_, Destroyed) => c.(context := Unlisted)
    case (Unlisted, Value(_)) => c
    case (Listed(cached, registered), Value(v)) =>
      if cached == v then c
      else Client(Listed(v, registered), if registered then c.calls + [v] else c.calls)
  }

  function HearAll<T(==)>(zero: T, c: Client<T>, q: seq<Event<T>>): Client<T>
    decreases |q|
  {
    if q == [] then c else HearAll(zero, Hear(zero, c, q[0]), q[1..])
  }

  /** The roundtrip at the start of every call of the library. */
  function Settle<T(==)>(s: State<T>): State<T> {
    s.(queue := [], client := HearAll(s.zero, s.client, s.queue))
  }

  // ---------- the calls of the library, on a settled state ----------

  /** ilm_getPropertiesOf...: the server answers with the value. */
  function GetOn<T(==)>(s: State<T>): State<T> {
    if s.client.context.Listed? && s.value.Some?
    then s.(client := Hear(s.zero, s.client, Value(s.value.value))) else s
  }

  /** Without an object SYNC_ADD is answered by an error. */
  function Subscribe<T>(s: State<T>): State<T> {
    if s.value.Some? then s.(subs := s.subs + 1) else s
  }

  function SetCallback<T>(s: State<T>, on: bool): State<T>
    requires s.client.context.Listed?
  {
    s.(client := s.client.(context := Listed(s.client.context.cached, on)))
  }

  /** ilm_surfaceAddNotification and ilm_layerAddNotification. For an unlisted
      surface a context is made up and nothing is sent; NULL subscribes to
      layers but not to surfaces. */
  function AddOn<T>(s: State<T>, callback: bool): State<T> {
    match s.client.context
    case Unlisted =>
      if !s.layer && callback then s.(client := s.client.(context := Listed(s.zero, true))) else s
    case Listed(_, _) => SetCallback(if s.layer || callback then Subscribe(s) else s, callback)
  }

  /** ilm_surfaceRemoveNotification and ilm_layerRemoveNotification. */
  function RemoveOn<T>(s: State<T>): State<T> {
    if s.client.context.Listed? && s.client.context.registered
    then SetCallback(if s.subs > 0 then s.(subs := s.subs - 1) else s, false) else s
  }

  // ---------- the system ----------

  function Copies<T>(e: Event<T>, n: nat): (q: seq<Event<T>>)
    ensures |q| == n && forall i :: 0 <= i < n ==> q[i] == e
  {
    seq(n, i => e)
  }

  function Step<T(==)>(s: State<T>, op: Op<T>): State<T> {
    match op
    case Create(v) =>
      if s.value.Some? then s else s.(value := Some(v), subs := 0, queue := s.queue + [Created])
    case Destroy =>
      if s.value.None? then s else s.(value := None, subs := 0, queue := s.queue + [Destroyed])
    case Change(v) =>
      if s.value.None? then s else s.(value := Some(v), queue := s.queue + Copies(Value(v), s.subs))
    case Deliver =>
      if s.queue == [] then s
      else s.(queue := s.queue[1..], client := Hear(s.zero, s.client, s.queue[0]))
    case Get => GetOn(Settle(s))
    case Add(callback) => AddOn(Settle(s), callback)
    case Remove => RemoveOn(Settle(s))
  }

  function Run<T(==)>(s: State<T>, ops: seq<Op<T>>): State<T> {
    if ops == [] then s else Step(Run(s, ops[..|ops| - 1]), ops[|ops| - 1])
  }

  // ---------- without queue and without repetitions ----------

  /** The same system as its users see it: every announcement is heard at once and
      only once, however many subscriptions there are. */
  function Direct<T(==)>(s: State<T>, op: Op<T>): State<T> {
    match op
    case Create(v) =>
      if s.value.Some? then s else s.(value := Some(v), subs := 0, client := Hear(s.zero, s.client, Created))
    case Destroy =>
      if s.value.None? then s else s.(value := None, subs := 0, client := Hear(s.zero, s.client, Destroyed))
    case Change(v) =>
      if s.value.None? then s
      else s.(value := Some(v), client := if s.subs > 0 then Hear(s.zero, s.client, Value(v)) else s.client)
    case Deliver => s
    case Get => GetOn(s)
    case Add(callback) => AddOn(s, callback)
    case Remove => RemoveOn(s)
  }

  function DirectRun<T(==)>(s: State<T>, ops: seq<Op<T>>): State<T> {
    if ops == [] then s else Direct(DirectRun(s, ops[..|ops| - 1]), ops[|ops| - 1])
  }

  lemma {:induction false} HearAppend<T>(zero: T, c: Client<T>, q: seq<Event<T>>, r: seq<Event<T>>)
    ensures HearAll(zero, c, q + r) == HearAll(zero, HearAll(zero, c, q), r)
    decreases |q|
  {
    if q == [] {
      assert q + r == r;
    } else {
      assert (q + r)[1..] == q[1..] + r;
      HearAppend(zero, Hear(zero, c, q[0]), q[1..], r);
    }
  }

  /** However often a value is repeated, it is heard once. */
  lemma {:induction false} RepetitionHeardOnce<T>(zero: T, c: Client<T>, v: T, n: nat)
    ensures HearAll(zero, c, Copies(Value(v), n)) == if n == 0 then c else Hear(zero, c, Value(v))
    decreases n
  {
    if n > 0 {
      var c1 := Hear(zero, c, Value(v));
      assert Copies(Value(v), n)[1..] == Copies(Value(v), n - 1);
      RepetitionHeardOnce(zero, c1, v, n - 1);
      assert Hear(zero, c1, Value(v)) == c1;
    }
  }

  lemma OneHeard<T>(zero: T, c: Client<T>, q: seq<Event<T>>, e: Event<T>)
    ensures HearAll(zero, c, q + [e]) == Hear(zero, HearAll(zero, c, q), e)
  {
    HearAppend(zero, c, q, [e]);
    var c1 := HearAll(zero, c, q);
    assert HearAll(zero, c1, [e]) == HearAll(zero, Hear(zero, c1, e), [e][1..]) == Hear(zero, c1, e);
  }

  lemma StepIsDirect<T>(s: State<T>, op: Op<T>)
    ensures Settle(Step(s, op)) == Direct(Settle(s), op)
  {
    match op
    case Create(v) => OneHeard(s.zero, s.client, s.queue, Created);
    case Destroy => OneHeard(s.zero, s.client, s.queue, Destroyed);
    case Change(v) =>
      HearAppend(s.zero, s.client, s.queue, Copies(Value(v), s.subs));
      RepetitionHeardOnce(s.zero, HearAll(s.zero, s.client, s.queue), v, s.subs);
    case Deliver =>
    case Get =>
    case Add(callback) =>
    case Remove =>
  }

  /** Queue and multiplicity do not matter: in every run, whatever was dispatched
      when, a client that drains its queue is where the direct system is. */
  lemma {:induction false} RunIsDirect<T>(s: State<T>, ops: seq<Op<T>>)
    ensures Settle(Run(s, ops)) == DirectRun(Settle(s), ops)
  {
    if ops != [] {
      RunIsDirect(s, ops[..|ops| - 1]);
      StepIsDirect(Run(s, ops[..|ops| - 1]), ops[|ops| - 1]);
    }
  }

  // ---------- what is called back ----------

  /** The client starts a context, or hears a value with or without callback. */
  datatype Hearing<T> = Fresh | Heard(v: T, on: bool)

  function HearingOf<T>(s: State<T>, op: Op<T>): seq<Hearing<T>> {
    var listed := s.client.context.Listed?;
    match op
    case Create(_) => if s.value.None? && !listed then [Fresh] else []
    case Change(v) => if s.value.Some? && s.subs > 0 && listed then [Heard(v, s.client.context.registered)] else []
    case Get => if s.value.Some? && listed then [Heard(s.value.value, s.client.context.registered)] else []
    case Add(callback) => if !listed && !s.layer && callback then [Fresh] else []
    case _ => []
  }

  /** What the client hears in a run: contexts that start, values taken by the
      property while the client is subscribed, and answers. */
  function History<T(==)>(s: State<T>, ops: seq<Op<T>>): seq<Hearing<T>> {
    if ops == [] then []
    else History(s, ops[..|ops| - 1]) + HearingOf(DirectRun(s, ops[..|ops| - 1]), ops[|ops| - 1])
  }

  /** The value known just before position `i`. */
  function Before<T>(zero: T, known: T, hs: seq<Hearing<T>>, i: nat): T
    requires i <= |hs|
  {
    if i == 0 then known else match hs[i - 1] case Fresh => zero case Heard(v, _) => v
  }

  /** The value heard at position `i` differs from the one before, and a callback
      is set. */
  predicate Calls<T(==)>(zero: T, known: T, hs: seq<Hearing<T>>, i: nat)
    requires i < |hs|
  {
    hs[i].Heard? && hs[i].on && hs[i].v != Before(zero, known, hs, i)
  }

  function Positions<T(==)>(zero: T, known: T, hs: seq<Hearing<T>>): seq<nat> {
    if hs == [] then []
    else Positions(zero, known, hs[..|hs| - 1]) + if Calls(zero, known, hs, |hs| - 1) then [|hs| - 1] else []
  }

  /** Exactly the calling positions, in order and once each. */
  lemma {:induction false} PositionsSpec<T>(zero: T, known: T, hs: seq<Hearing<T>>)
    ensures forall i, j :: 0 <= i < j < |Positions(zero, known, hs)| ==>
              Positions(zero, known, hs)[i] < Positions(zero, known, hs)[j]
    ensures forall p :: p in Positions(zero, known, hs) <==> 0 <= p < |hs| && Calls(zero, known, hs, p)
  {
    if hs != [] {
      var front := hs[..|hs| - 1];
      PositionsSpec(zero, known, front);
      forall p | 0 <= p < |front| ensures Calls(zero, known, hs, p) == Calls(zero, known, front, p) {
      }
      forall i | 0 <= i < |Positions(zero, known, front)| ensures Positions(zero, known, front)[i] < |front| {
        assert Positions(zero, known, front)[i] in Positions(zero, known, front);
      }
    }
  }

  function At<T>(hs: seq<Hearing<T>>, ps: seq<nat>): (vs: seq<T>)
    requires forall i :: 0 <= i < |ps| ==> ps[i] < |hs| && hs[ps[i]].Heard?
    ensures |vs| == |ps| && forall i :: 0 <= i < |ps| ==> vs[i] == hs[ps[i]].v
  {
    seq(|ps|, i requires 0 <= i < |ps| => hs[ps[i]].v)
  }

  lemma PositionsInside<T>(zero: T, known: T, hs: seq<Hearing<T>>)
    ensures forall i :: 0 <= i < |Positions(zero, known, hs)| ==>
              Positions(zero, known, hs)[i] < |hs| && hs[Positions(zero, known, hs)[i]].Heard?
  {
    PositionsSpec(zero, known, hs);
    forall i | 0 <= i < |Positions(zero, known, hs)|
      ensures Positions(zero, known, hs)[i] < |hs| && hs[Positions(zero, known, hs)[i]].Heard? {
      assert Positions(zero, known, hs)[i] in Positions(zero, known, hs);
    }
  }

  /** The values at the calling positions. */
  function CalledWith<T(==)>(zero: T, known: T, hs: seq<Hearing<T>>): seq<T> {
    PositionsInside(zero, known, hs);
    At(hs, Positions(zero, known, hs))
  }

  lemma CalledWithLast<T>(zero: T, known: T, hs: seq<Hearing<T>>, h: Hearing<T>)
    ensures CalledWith(zero, known, hs + [h])
            == CalledWith(zero, known, hs)
               + if h.Heard? && h.on && h.v != Before(zero, known, hs, |hs|) then [h.v] else []
  {
    var more := hs + [h];
    assert more[..|hs|] == hs;
    PositionsInside(zero, known, hs);
  }

  function KnownAt<T>(s: State<T>): T {
    if s.client.context.Listed? then s.client.context.cached else s.zero
  }

  /** The effect of what is heard in one step. */
  lemma StepHearing<T>(s: State<T>, op: Op<T>)
    ensures var e, one, known := Direct(s, op), HearingOf(s, op), KnownAt(s);
            && |one| <= 1 && e.zero == s.zero && e.layer == s.layer
            && e.client.calls == s.client.calls
               + (if |one| == 1 && one[0].Heard? && one[0].on && one[0].v != known then [one[0].v] else [])
            && (e.client.context.Listed? ==>
                  e.client.context.cached
                  == if one == [] then known else match one[0] case Fresh => s.zero case Heard(v, _) => v)
  {
  }

  /** Callbacks over all runs of the direct system: the callback is called with
      exactly the values that are heard while it is set and that differ from
      the one heard before, in order; the cached copy is the last value heard. */
  lemma {:induction false} CallsAreChanges<T>(s: State<T>, ops: seq<Op<T>>)
    ensures var e := DirectRun(s, ops);
            var hs := History(s, ops);
            && e.zero == s.zero && e.layer == s.layer
            && e.client.calls == s.client.calls + CalledWith(s.zero, KnownAt(s), hs)
            && (e.client.context.Listed? ==> e.client.context.cached == Before(s.zero, KnownAt(s), hs, |hs|))
  {
    if ops != [] {
      var front, op := ops[..|ops| - 1], ops[|ops| - 1];
      var s1, hs := DirectRun(s, front), History(s, front);
      CallsAreChanges(s, front);
      StepHearing(s1, op);
      var one := HearingOf(s1, op);
      assert History(s, ops) == hs + one;
      if one == [] {
        assert hs + one == hs;
      } else {
        assert one == [one[0]];
        CalledWithLast(s.zero, KnownAt(s), hs, one[0]);
      }
    }
  }

  // ---------- registration ----------

  /** Nothing is known of the object on either side. */
  function Init<T>(zero: T, layer: bool): State<T> {
    State(zero, layer, None, 0, [], Client(Unlisted, []))
  }

  // What the operations alone say, from the start.

  /** The group on the server. */
  function ValueAfter<T>(ops: seq<Op<T>>): Option<T> {
    if ops == [] then None else
    var before := ValueAfter(ops[..|ops| - 1]);
    match ops[|ops| - 1]
    case Create(v) => if before.Some? then before else Some(v)
    case Destroy => None
    case Change(v) => if before.Some? then Some(v) else None
    case _ => before
  }

  /** A context was made up for a surface since the last destruction. */
  predicate MadeUp<T>(layer: bool, ops: seq<Op<T>>) {
    ops != [] &&
    var front := ops[..|ops| - 1];
    match ops[|ops| - 1]
    case Add(callback) => (callback && !layer) || MadeUp(layer, front)
    case Destroy => ValueAfter(front).None? && MadeUp(layer, front)
    case _ => MadeUp(layer, front)
  }

  /** The client has a context: the object exists, or one was made up. */
  predicate Known<T>(layer: bool, ops: seq<Op<T>>) {
    ValueAfter(ops).Some? || MadeUp(layer, ops)
  }

  /** The last addition, removal or destruction is an addition of a callback, for a
      layer one that existed. */
  predicate CallbackSet<T>(layer: bool, ops: seq<Op<T>>) {
    ops != [] &&
    var front := ops[..|ops| - 1];
    match ops[|ops| - 1]
    case Add(callback) => callback && (layer ==> ValueAfter(front).Some?)
    case Remove => false
    case Destroy => ValueAfter(front).None? && CallbackSet(layer, front)
    case _ => CallbackSet(layer, front)
  }

  /** The registration in force was made while the object existed. */
  predicate Granted<T>(ops: seq<Op<T>>) {
    ops != [] &&
    var front := ops[..|ops| - 1];
    match ops[|ops| - 1]
    case Create(_) => ValueAfter(front).Some? && Granted(front)
    case Destroy => false
    case Add(callback) => callback && ValueAfter(front).Some?
    case Remove => false
    case _ => Granted(front)
  }

  /** Subscriptions of the present object that no removal can reach any more: one
      for every registration replaced or dropped by NULL, and one for every NULL
      on a layer. */
  function Stranded<T>(layer: bool, ops: seq<Op<T>>): nat {
    if ops == [] then 0 else
    var front := ops[..|ops| - 1];
    match ops[|ops| - 1]
    case Create(_) => if ValueAfter(front).Some? then Stranded(layer, front) else 0
    case Destroy => 0
    case Add(callback) =>
      Stranded(layer, front) + (if Granted(front) then 1 else 0)
      + if !callback && layer && ValueAfter(front).Some? then 1 else 0
    case _ => Stranded(layer, front)
  }

  predicate Subscribed<T>(layer: bool, ops: seq<Op<T>>) {
    Stranded(layer, ops) > 0 || Granted(ops)
  }

  predicate Registered<T>(s: State<T>) {
    s.client.context.Listed? && s.client.context.registered
  }

  /** The state is the one the operations say. */
  predicate Booked<T(==)>(s: State<T>, layer: bool, ops: seq<Op<T>>) {
    && s.layer == layer && s.value == ValueAfter(ops)
    && (s.client.context.Listed? <==> Known(layer, ops))
    && (Registered(s) <==> CallbackSet(layer, ops))
  }

  predicate Counted<T>(s: State<T>, layer: bool, ops: seq<Op<T>>) {
    s.subs == Stranded(layer, ops) + if Granted(ops) then 1 else 0
  }

  /** A granted registration is one in force, and a registration that is not
      granted is alone. */
  predicate Consistent<T>(layer: bool, ops: seq<Op<T>>) {
    && (ValueAfter(ops).None? ==> !Granted(ops) && Stranded(layer, ops) == 0)
    && (Granted(ops) ==> CallbackSet(layer, ops))
    && (CallbackSet(layer, ops) ==> Known(layer, ops))
    && (CallbackSet(layer, ops) && !Granted(ops) ==> Stranded(layer, ops) == 0)
    && (layer ==> !MadeUp(layer, ops))
  }

  lemma {:induction false} AlwaysConsistent<T>(layer: bool, ops: seq<Op<T>>)
    ensures Consistent(layer, ops)
  {
    if ops != [] {
      AlwaysConsistent(layer, ops[..|ops| - 1]);
    }
  }

  lemma {:induction false} Booking<T>(zero: T, layer: bool, ops: seq<Op<T>>)
    ensures Booked(DirectRun(Init(zero, layer), ops), layer, ops)
  {
    if ops != [] {
      Booking(zero, layer, ops[..|ops| - 1]);
      AlwaysConsistent(layer, ops[..|ops| - 1]);
    }
  }

  lemma {:induction false} Counting<T>(zero: T, layer: bool, ops: seq<Op<T>>)
    ensures Counted(DirectRun(Init(zero, layer), ops), layer, ops)
  {
    if ops != [] {
      Counting(zero, layer, ops[..|ops| - 1]);
      Booking(zero, layer, ops[..|ops| - 1]);
      AlwaysConsistent(layer, ops[..|ops| - 1]);
    }
  }

  /** In every run, whenever the client has drained its queue: it has a context if
      and only if the object exists or one was made up since it was last
      destroyed, and a callback if and only if the last addition, removal or
      destruction is an accepted addition. */
  lemma ContextIff<T>(zero: T, layer: bool, ops: seq<Op<T>>)
    ensures var e := Settle(Run(Init(zero, layer), ops));
            && e.value == ValueAfter(ops)
            && (e.client.context.Listed? <==> ValueAfter(ops).Some? || MadeUp(layer, ops))
            && (Registered(e) <==> CallbackSet(layer, ops))
  {
    RunIsDirect(Init(zero, layer), ops);
    Booking(zero, layer, ops);
  }

  /** In every run, whenever the client has drained its queue: a client with a
      callback is subscribed if and only if it registered while the object
      existed; its subscriptions are the stranded ones and that one. */
  lemma SubscribedIff<T>(zero: T, layer: bool, ops: seq<Op<T>>)
    ensures var e := Settle(Run(Init(zero, layer), ops));
            && (Registered(e) ==> (e.subs > 0 <==> Granted(ops)))
            && e.subs == Stranded(layer, ops) + if Granted(ops) then 1 else 0
  {
    RunIsDirect(Init(zero, layer), ops);
    Booking(zero, layer, ops);
    Counting(zero, layer, ops);
    AlwaysConsistent(layer, ops);
  }

  predicate Quiet<T>(ops: seq<Op<T>>) {
    forall i :: 0 <= i < |ops| ==> ops[i].Create? || ops[i].Change? || ops[i].Deliver?
  }

  lemma {:induction false} WithoutSubscription<T>(s: State<T>, ops: seq<Op<T>>)
    requires s.client.context.Listed? && s.subs == 0 && Quiet(ops)
    ensures DirectRun(s, ops).client == s.client && DirectRun(s, ops).subs == 0
  {
    if ops != [] {
      assert Quiet(ops[..|ops| - 1]);
      WithoutSubscription(s, ops[..|ops| - 1]);
    }
  }

  /** A registered client without subscription: a callback set for a surface that
      does not exist yet is accepted, and never called when the surface comes and
      changes. */
  lemma UnknownStaysSilent<T>(zero: T, ops: seq<Op<T>>)
    requires Quiet(ops)
    ensures var e := Settle(Run(Init(zero, false), [Add(true)] + ops));
            Registered(e) && e.subs == 0 && e.client.calls == []
  {
    var s0, all := Init(zero, false), [Add(true)] + ops;
    RunIsDirect(s0, all);
    RunAppend(s0, [Add(true)], ops);
    var s1 := Direct(s0, Add(true));
    assert DirectRun(s0, [Add(true)]) == s1 by {
      assert [Op<T>.Add(true)][..0] == [];
    }
    WithoutSubscription(s1, ops);
  }

  lemma {:induction false} RunAppend<T>(s: State<T>, a: seq<Op<T>>, b: seq<Op<T>>)
    ensures DirectRun(s, a + b) == DirectRun(DirectRun(s, a), b)
    decreases |b|
  {
    if b == [] {
      assert a + b == a;
    } else {
      assert (a + b)[..|a + b| - 1] == a + b[..|b| - 1];
      RunAppend(s, a, b[..|b| - 1]);
    }
  }

  lemma {:induction false} AddsRun<T>(s: State<T>, n: nat)
    requires s.value.Some? && s.client.context.Listed?
    ensures var e := DirectRun(s, Adds(n));
            e.subs == s.subs + n && (n > 0 ==> Registered(e)) && e.value == s.value && e.client.context.Listed?
  {
    if n > 0 {
      assert Adds<T>(n)[..n - 1] == Adds(n - 1);
      AddsRun(s, n - 1);
    }
  }

  /** `n` registrations on an existing object and one removal. */
  lemma LeftoverSubscriptions<T>(s: State<T>, n: nat)
    requires s.value.Some? && s.client.context.Listed? && n > 0
    ensures var e := DirectRun(s, Adds(n) + [Remove]);
            e.subs == s.subs + n - 1 && !Registered(e)
  {
    AddsRun(s, n);
    assert (Adds<T>(n) + [Remove])[..n] == Adds(n);
  }

  function Adds<T>(n: nat): (ops: seq<Op<T>>)
    ensures |ops| == n && forall i :: 0 <= i < n ==> ops[i] == Add(true)
  {
    seq(n, i => Add(true))
  }

  // ---------- while registered ----------

  predicate Watching<T>(ops: seq<Op<T>>) {
    forall i :: 0 <= i < |ops| ==>
      ops[i].Change? || ops[i].Deliver? || ops[i].Get? || (ops[i].Add? && ops[i].callback)
  }

  /** The values the property takes, and takes again when asked for. */
  function Told<T>(value: T, ops: seq<Op<T>>): seq<Hearing<T>> {
    if ops == [] then [] else
    var front := ops[..|ops| - 1];
    Told(value, front) + match ops[|ops| - 1]
      case Change(v) => [Heard(v, true)]
      case Get => [Heard(Current(value, front), true)]
      case _ => []
  }

  /** The last value given to the property. */
  function Current<T>(value: T, ops: seq<Op<T>>): T {
    if ops == [] then value
    else match ops[|ops| - 1] case Change(v) => v case _ => Current(value, ops[..|ops| - 1])
  }

  lemma {:induction false} WatchingHears<T>(s: State<T>, ops: seq<Op<T>>)
    requires s.value.Some? && s.subs > 0 && Registered(s) && Watching(ops)
    ensures var e := DirectRun(s, ops);
            && e.value == Some(Current(s.value.value, ops)) && e.subs > 0 && Registered(e)
            && History(s, ops) == Told(s.value.value, ops)
  {
    if ops != [] {
      assert Watching(ops[..|ops| - 1]);
      WatchingHears(s, ops[..|ops| - 1]);
    }
  }

  /** Over every run of the queued system from a registered and subscribed client,
      with any number of subscriptions on top: once the queue is drained, the
      callback was called with every value of the property that differs from the
      one before, in order, and with no other. */
  lemma ExactlyOnce<T>(s: State<T>, ops: seq<Op<T>>)
    requires s.queue == [] && s.value.Some? && s.subs > 0 && Registered(s) && Watching(ops)
    ensures Settle(Run(s, ops)).client.calls
            == s.client.calls + CalledWith(s.zero, s.client.context.cached, Told(s.value.value, ops))
  {
    RunIsDirect(s, ops);
    assert Settle(s) == s;
    WatchingHears(s, ops);
    CallsAreChanges(s, ops);
  }

  /** What the client hears in one step, as the operations before it say. */
  function NextHearing<T>(layer: bool, ops: seq<Op<T>>, op: Op<T>): seq<Hearing<T>> {
    var value, known, on := ValueAfter(ops), Known(layer, ops), CallbackSet(layer, ops);
    match op
    case Create(_) => if known then [] else [Fresh]
    case Change(v) => if value.Some? && Subscribed(layer, ops) then [Heard(v, on)] else []
    case Get => if value.Some? then [Heard(value.value, on)] else []
    case Add(callback) => if callback && !layer && !known then [Fresh] else []
    case _ => []
  }

  /** Over a whole run: contexts that start, values taken while subscribed, and
      answers, each with whether a callback is set. */
  function HistoryOf<T>(layer: bool, ops: seq<Op<T>>): seq<Hearing<T>> {
    if ops == [] then [] else HistoryOf(layer, ops[..|ops| - 1]) + NextHearing(layer, ops[..|ops| - 1], ops[|ops| - 1])
  }

  lemma {:induction false} HistoryIs<T>(zero: T, layer: bool, ops: seq<Op<T>>)
    ensures History(Init(zero, layer), ops) == HistoryOf(layer, ops)
  {
    if ops != [] {
      var front := ops[..|ops| - 1];
      HistoryIs(zero, layer, front);
      Booking(zero, layer, front);
      Counting(zero, layer, front);
      assert HearingOf(DirectRun(Init(zero, layer), front), ops[|ops| - 1]) == NextHearing(layer, front, ops[|ops| - 1]);
    }
  }

  /** And with registering and unregistering, creations and destructions in
      between: the callback is called with what is heard while it is set, and the
      cached copy is the last value heard since the context started. */
  lemma CallsInEveryRun<T>(zero: T, layer: bool, ops: seq<Op<T>>)
    ensures var e, hs := Settle(Run(Init(zero, layer), ops)), HistoryOf(layer, ops);
            && e.client.calls == CalledWith(zero, zero, hs)
            && (e.client.context.Listed? ==> e.client.context.cached == Before(zero, zero, hs, |hs|))
  {
    RunIsDirect(Init(zero, layer), ops);
    CallsAreChanges(Init(zero, layer), ops);
    HistoryIs(zero, layer, ops);
  }
}
