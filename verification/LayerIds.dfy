/** Layer ids made up by the client library (gen_layer_id and
    ilm_layerCreateWithDimension in ilm_control_wayland_platform.c). The search
    looks at the newest layer only. */
module LayerIds {
  import opened WlList

  const WIDTH := 0x1_0000_0000

  type uint32 = n: nat | n < WIDTH

  /** INVALID_ID, the request for a made-up id. */
  const INVALID: uint32 := 0xFFFF_FFFF

  /** `list_layer`, newest first, and `internal_id_layer`. */
  datatype State = State(layers: seq<uint32>, counter: uint32)

  function Next(n: uint32): uint32 {
    (n + 1) % WIDTH
  }

  /** The id gen_layer_id returns; it is also the new counter. */
  function Generated(s: State): uint32 {
    if s.layers == [] || s.layers[0] == s.counter then Next(s.counter) else s.counter
  }

  datatype Op = Generate | Explicit(id: uint32) | Remove(id: uint32)

  /** The id a creation uses; none when an explicit id is taken already. */
  function Chosen(s: State, op: Op): Option<uint32> {
    match op
    case Generate => Some(Generated(s))
    case Explicit(id) => if id == INVALID then Some(Generated(s)) else if id in s.layers then None else Some(id)
    case Remove(_) => None
  }

  function Counter(s: State, op: Op): uint32 {
    match op
    case Generate => Generated(s)
    case Explicit(id) => if id == INVALID then Generated(s) else s.counter
    case Remove(_) => s.counter
  }

  function Announce(layers: seq<uint32>, id: uint32): seq<uint32> {
    if id in layers then layers else [id] + layers
  }

  /** A creation announces its layer, which is added unless it is known. */
  function Step(s: State, op: Op): State {
    match op
    case Remove(id) => s.(layers := Drop(s.layers, id))
    case _ =>
      State(match Chosen(s, op) case Some(id) => Announce(s.layers, id) case None => s.layers, Counter(s, op))
  }

  function Run(s: State, ops: seq<Op>): State {
    if ops == [] then s else Step(Run(s, ops[..|ops| - 1]), ops[|ops| - 1])
  }

  /** memset in ilmControl_init. */
  const BOOT := State([], 0)

  /** Only the newest layer can be the counter, and no layer is beyond it. */
  ghost predicate Inv(s: State) {
    && (forall i :: 0 <= i < |s.layers| ==> s.layers[i] <= s.counter)
    && (forall i :: 0 < i < |s.layers| ==> s.layers[i] != s.counter)
  }

  /** No id beyond the counter is in use, so the generated one is fresh. */
  lemma FreshUnderInv(s: State)
    requires Inv(s) && s.counter + 1 < WIDTH
    ensures Generated(s) !in s.layers
  {
  }

  lemma {:induction false} DropKeeps(l: seq<uint32>, id: uint32, counter: uint32)
    requires Inv(State(l, counter))
    ensures Inv(State(Drop(l, id), counter))
    ensures l != [] && l[0] != counter ==> Drop(l, id) == [] || Drop(l, id)[0] != counter
  {
    if l != [] && l[0] != id {
      assert Inv(State(l[1..], counter));
      DropKeeps(l[1..], id, counter);
    }
  }

  /** Only made-up ids. */
  predicate MadeUp(op: Op) {
    op.Generate? || op.Remove? || op.id == INVALID
  }

  lemma GenerateInv(s: State)
    requires Inv(s) && s.counter + 1 < WIDTH
    ensures Inv(State([Generated(s)] + s.layers, Generated(s)))
  {
    FreshUnderInv(s);
    var l := [Generated(s)] + s.layers;
    forall i | 0 < i < |l| ensures l[i] < Generated(s) {
      assert l[i] == s.layers[i - 1] && l[i] in s.layers;
    }
  }

  lemma StepInv(s: State, op: Op)
    requires Inv(s) && MadeUp(op) && (!op.Remove? ==> s.counter + 1 < WIDTH)
    ensures Inv(Step(s, op)) && Step(s, op).counter <= s.counter + if op.Remove? then 0 else 1
  {
    if op.Remove? {
      DropKeeps(s.layers, op.id, s.counter);
    } else {
      FreshUnderInv(s);
      GenerateInv(s);
    }
  }

  /** Layers created during a run. */
  function Creations(ops: seq<Op>): nat {
    if ops == [] then 0 else Creations(ops[..|ops| - 1]) + if ops[|ops| - 1].Remove? then 0 else 1
  }

  lemma {:induction false} RunInv(ops: seq<Op>)
    requires Creations(ops) < WIDTH && forall i :: 0 <= i < |ops| ==> MadeUp(ops[i])
    ensures Inv(Run(BOOT, ops)) && Run(BOOT, ops).counter <= Creations(ops)
  {
    if ops != [] {
      RunInv(ops[..|ops| - 1]);
      StepInv(Run(BOOT, ops[..|ops| - 1]), ops[|ops| - 1]);
    }
  }

  /** On every run in which the library made up all ids, with any removals in
      between, each id it makes up is unused, as long as fewer layers than a
      32-bit counter can count were created. */
  lemma FreshOverRuns(ops: seq<Op>, op: Op)
    requires Creations(ops) + 1 < WIDTH && MadeUp(op) && forall i :: 0 <= i < |ops| ==> MadeUp(ops[i])
    ensures var s := Run(BOOT, ops);
            !op.Remove? ==> Chosen(s, op).Some? && Chosen(s, op).value !in s.layers
                            && Step(s, op).layers == [Chosen(s, op).value] + s.layers
  {
    RunInv(ops);
    FreshUnderInv(Run(BOOT, ops));
  }

  /** A creation fails if and only if it asks for an id in use, and then changes
      nothing; otherwise its layer comes first, and only a made-up id moves the
      counter. */
  lemma CreationSpec(s: State, op: Op)
    requires !op.Remove?
    ensures Chosen(s, op).None? <==> op.Explicit? && op.id != INVALID && op.id in s.layers
    ensures Chosen(s, op).None? ==> Step(s, op) == s
    ensures op.Explicit? && op.id != INVALID && op.id !in s.layers ==>
              Chosen(s, op) == Some(op.id) && Step(s, op) == s.(layers := [op.id] + s.layers)
    ensures op.Generate? || op.id == INVALID ==> Chosen(s, op) == Some(Step(s, op).counter)
  {
  }

  /** No run lists an id twice. */
  lemma {:induction false} AlwaysDistinct(ops: seq<Op>)
    ensures NoDup(Run(BOOT, ops).layers)
  {
    if ops != [] {
      var s := Run(BOOT, ops[..|ops| - 1]);
      AlwaysDistinct(ops[..|ops| - 1]);
      match ops[|ops| - 1]
      case Remove(id) => DropSpec(s.layers, id);
      case _ =>
    }
  }

  // ---------- exactly when the search can be trusted ----------

  /** Every id generated along `ops` is unused at that point. */
  ghost predicate Fresh(s: State, ops: seq<Op>)
    decreases |ops|
  {
    ops == [] || ((ops[0].Remove? || Generated(s) !in s.layers) && Fresh(Step(s, ops[0]), ops[1..]))
  }

  /** Only made-up ids, and the counter never runs through. */
  ghost predicate Ordinary(s: State, ops: seq<Op>)
    decreases |ops|
  {
    ops == [] || (MadeUp(ops[0]) && (ops[0].Remove? || s.counter + 1 < WIDTH) && Ordinary(Step(s, ops[0]), ops[1..]))
  }

  lemma {:induction false} InvStaysFresh(s: State, ops: seq<Op>)
    requires Inv(s) && Ordinary(s, ops)
    ensures Fresh(s, ops)
    decreases |ops|
  {
    if ops != [] {
      StepInv(s, ops[0]);
      if !ops[0].Remove? {
        FreshUnderInv(s);
      }
      InvStaysFresh(Step(s, ops[0]), ops[1..]);
    }
  }

  /** Generating on and on runs into an id beyond the counter. */
  lemma {:induction false} RunsInto(s: State, x: uint32) returns (ops: seq<Op>)
    requires NoDup(s.layers) && x in s.layers && s.counter < x
    ensures Ordinary(s, ops) && !Fresh(s, ops)
    decreases x - s.counter, s.layers[0] != s.counter
  {
    var g := Generated(s);
    if g in s.layers {
      ops := [Generate];
      assert ops[1..] == [];
    } else {
      var s' := Step(s, Generate);
      assert s' == State([g] + s.layers, g) && g < x;
      NoDupCons(g, s.layers);
      assert x in s'.layers && s'.layers[0] == g;
      var rest := RunsInto(s', x);
      ops := [Generate] + rest;
      assert ops[1..] == rest;
    }
  }

  /** Without the invariant some generated id will be in use. */
  lemma SomeRunBreaks(s: State) returns (ops: seq<Op>)
    requires NoDup(s.layers) && s.counter + 1 < WIDTH && !Inv(s)
    ensures Ordinary(s, ops) && !Fresh(s, ops)
  {
    if i :| 0 <= i < |s.layers| && s.layers[i] > s.counter {
      ops := RunsInto(s, s.layers[i]);
    } else {
      var i :| 0 < i < |s.layers| && s.layers[i] == s.counter;
      ops := [Generate];
      assert ops[1..] == [] && Generated(s) == s.counter;
    }
  }

  /** From any state with distinct layers and a counter that can still count, all
      ids generated in all futures without explicit ids are unused if and only
      if no layer is beyond the counter and only the newest one is at it. */
  lemma FreshForeverIff(s: State)
    requires NoDup(s.layers) && s.counter + 1 < WIDTH
    ensures (forall ops :: Ordinary(s, ops) ==> Fresh(s, ops)) <==> Inv(s)
  {
    if Inv(s) {
      forall ops | Ordinary(s, ops) ensures Fresh(s, ops) {
        InvStaysFresh(s, ops);
      }
    } else {
      var ops := SomeRunBreaks(s);
    }
  }

  /** With an id chosen by the caller the search can return a used id. */
  lemma ExplicitIdBreaksIt()
    ensures var s := Run(BOOT, [Generate, Explicit(7)]);
            s.layers == [7, 1] && Generated(s) == 1
  {
    assert Run(BOOT, []) == BOOT;
    assert [Generate][..0] == [] && [Generate, Explicit(7)][..1] == [Generate];
    assert Run(BOOT, [Generate]) == State([1], 1);
  }

  function Repeat(n: nat): seq<Op> {
    if n == 0 then [] else Repeat(n - 1) + [Generate]
  }

  lemma UsedStaysUsed(s: State)
    requires NoDup(s.layers) && Generated(s) in s.layers
    ensures s.layers[0] != Generated(s)
    ensures Step(s, Generate) == State(s.layers, Generated(s))
  {
    assert s.layers[0] == s.counter ==> Generated(s) != s.counter;
  }

  /** Once a used id was returned, it is returned every time until a layer is
      removed or created with an explicit id. */
  lemma {:induction false} UsedIsRepeated(s: State, n: nat)
    requires NoDup(s.layers) && Generated(s) in s.layers
    ensures Run(s, Repeat(n)) == State(s.layers, if n == 0 then s.counter else Generated(s))
    ensures Generated(Run(s, Repeat(n))) == Generated(s)
  {
    UsedStaysUsed(s);
    if n > 0 {
      UsedIsRepeated(s, n - 1);
      assert Repeat(n)[..|Repeat(n)| - 1] == Repeat(n - 1);
      UsedStaysUsed(Run(s, Repeat(n - 1)));
    }
  }

  class LayerContexts {
    /** Newest first. */
    var listLayer: seq<uint32>
    var internalIdLayer: uint32

    function St(): State
      reads this
    {
      State(listLayer, internalIdLayer)
    }

    constructor ()
      ensures St() == BOOT
    {
      listLayer, internalIdLayer := [], 0;
    }

    /** gen_layer_id; the second pass always returns. */
    method GenLayerId() returns (id: uint32)
      modifies this
      ensures id == Generated(old(St())) && St() == State(old(listLayer), id)
    {
      ghost var passes := 0;
      while true
        invariant listLayer == old(listLayer) && passes <= 1
        invariant passes == 0 ==> internalIdLayer == old(internalIdLayer)
        invariant passes == 1 ==> listLayer != [] && listLayer[0] == old(internalIdLayer)
                                  && internalIdLayer == Next(old(internalIdLayer))
        decreases 2 - passes
      {
        if |listLayer| == 0 {
          internalIdLayer := Next(internalIdLayer);
          return internalIdLayer;
        }
        var found, unused := false, false;
        var i := 0;
        while i < |listLayer| && !found && !unused
          invariant i <= |listLayer| && (!found && !unused ==> i == 0)
          invariant found ==> listLayer[0] == internalIdLayer
          invariant unused ==> listLayer[0] != internalIdLayer
        {
          if listLayer[i] == internalIdLayer {
            found := true;
          } else {
            unused := true;
          }
          i := i + 1;
        }
        if unused {
          return internalIdLayer;
        }
        internalIdLayer := Next(internalIdLayer);
        passes := passes + 1;
      }
    }

    /** ilm_layerCreateWithDimension, with the announcement of the layer. */
    method CreateWithDimension(wanted: uint32) returns (id: Option<uint32>)
      modifies this
      ensures id == Chosen(old(St()), Explicit(wanted)) && St() == Step(old(St()), Explicit(wanted))
    {
      var layerId := wanted;
      if wanted != INVALID {
        if wanted in listLayer {
          return None;
        }
      } else {
        layerId := GenLayerId();
      }
      id := Some(layerId);
      if layerId !in listLayer {
        listLayer := [layerId] + listLayer;
      }
    }
  }
}
