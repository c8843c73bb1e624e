/** The two ends of the scene registry as the code runs them: the shell that
    sends (ivi-controller.c) and the client context that listens and answers
    queries (ilm_control_wayland_platform.c, ilm_input.c). */
module IlmControl {
  import opened WlList
  import opened Protocol
  import opened System
  import opened Replication
  import IC = InputContext

  /** One event more for every bound controller. */
  function ToAll(cs: seq<(nat, seq<Event>)>, e: Event): seq<(nat, seq<Event>)> {
    seq(|cs|, i requires 0 <= i < |cs| => (cs[i].0, cs[i].1 + [e]))
  }

  class IviShell {
    const bkgnd: int
    var surfaces: seq<nat>
    var layers: seq<nat>
    /** list_controller: bound clients and what each was sent. */
    var controllers: seq<(nat, seq<Event>)>

    constructor (bkgnd: int)
      ensures this.bkgnd == bkgnd && surfaces == [] && layers == [] && controllers == []
    {
      this.bkgnd := bkgnd;
      surfaces, layers, controllers := [], [], [];
    }

    /** The send loop every registry event goes through. */
    method SendToControllers(e: Event)
      modifies this`controllers
      ensures controllers == ToAll(old(controllers), e)
    {
      var i := 0;
      while i < |controllers|
        invariant i <= |controllers| == |old(controllers)|
        invariant forall j :: 0 <= j < i ==> controllers[j] == (old(controllers)[j].0, old(controllers)[j].1 + [e])
        invariant forall j :: i <= j < |controllers| ==> controllers[j] == old(controllers)[j]
      {
        controllers := controllers[i := (controllers[i].0, controllers[i].1 + [e])];
        i := i + 1;
      }
    }

    /** create_surface; the background surface stays off the list. */
    method CreateSurface(id: nat)
      modifies this`surfaces, this`controllers
      ensures surfaces == if IsBackground(bkgnd, id) then old(surfaces) else [id] + old(surfaces)
      ensures controllers == if IsBackground(bkgnd, id) then old(controllers)
                             else ToAll(old(controllers), SurfaceCreated(id))
    {
      if !IsBackground(bkgnd, id) {
        surfaces := [id] + surfaces;
        SendToControllers(SurfaceCreated(id));
      }
    }

    /** Position of the first `id` in a list. */
    static method IndexOf(l: seq<nat>, id: nat) returns (i: nat)
      ensures i <= |l| && (i < |l| <==> id in l)
      ensures i < |l| ==> l[i] == id && l[..i] + l[i + 1..] == Drop(l, id)
    {
      i := 0;
      while i < |l| && l[i] != id
        invariant i <= |l| && id !in l[..i]
        invariant Drop(l, id) == l[..i] + Drop(l[i..], id)
      {
        assert l[i..][1..] == l[i + 1..] && l[..i + 1] == l[..i] + [l[i]];
        assert l[..i] + Drop(l[i..], id) == l[..i + 1] + Drop(l[i + 1..], id);
        i := i + 1;
      }
      if i < |l| {
        assert l[i..][1..] == l[i + 1..];
      }
    }

    /** surface_event_remove. */
    method RemoveSurface(id: nat)
      modifies this`surfaces, this`controllers
      ensures surfaces == if id in old(surfaces) then Drop(old(surfaces), id) else old(surfaces)
      ensures controllers == if id in old(surfaces) then ToAll(old(controllers), SurfaceDestroyed(id))
                             else old(controllers)
    {
      var i := IndexOf(surfaces, id);
      if i < |surfaces| {
        SendToControllers(SurfaceDestroyed(id));
        surfaces := surfaces[..i] + surfaces[i + 1..];
      }
    }

    /** create_layer. */
    method CreateLayer(id: nat)
      modifies this`layers, this`controllers
      ensures layers == [id] + old(layers) && controllers == ToAll(old(controllers), LayerCreated(id))
    {
      layers := [id] + layers;
      SendToControllers(LayerCreated(id));
    }

    /** layer_event_remove. */
    method RemoveLayer(id: nat)
      modifies this`layers, this`controllers
      ensures layers == if id in old(layers) then Drop(old(layers), id) else old(layers)
      ensures controllers == if id in old(layers) then ToAll(old(controllers), LayerDestroyed(id)) else old(controllers)
    {
      var i := IndexOf(layers, id);
      if i < |layers| {
        layers := layers[..i] + layers[i + 1..];
        SendToControllers(LayerDestroyed(id));
      }
    }

    /** bind_ivi_controller walks both lists from the tail. */
    method BindController(client: nat)
      modifies this`controllers
      ensures controllers == [(client, ReplaySurfaces(surfaces) + ReplayLayers(layers))] + old(controllers)
    {
      var sent := [];
      var i := |surfaces|;
      while i > 0
        invariant 0 <= i <= |surfaces| && controllers == old(controllers)
        invariant sent == ReplaySurfaces(surfaces[i..])
      {
        i := i - 1;
        assert surfaces[i..][1..] == surfaces[i + 1..];
        sent := sent + [SurfaceCreated(surfaces[i])];
      }
      assert surfaces[0..] == surfaces;
      i := |layers|;
      assert sent == ReplaySurfaces(surfaces) + ReplayLayers(layers[i..]);
      while i > 0
        invariant 0 <= i <= |layers| && controllers == old(controllers)
        invariant sent == ReplaySurfaces(surfaces) + ReplayLayers(layers[i..])
      {
        i := i - 1;
        assert layers[i..][1..] == layers[i + 1..];
        sent := sent + [LayerCreated(layers[i])];
      }
      assert layers[0..] == layers;
      controllers := [(client, sent)] + controllers;
    }
  }

  class IlmContext {
    /** list_surface with each list_accepted_seats, list_layer, list_seat. */
    var surfaces: seq<(nat, seq<string>)>
    var layers: seq<nat>
    var seats: seq<string>

    function Abs(): Mirror
      reads this
    {
      Mirror(surfaces, layers, seats)
    }

    constructor ()
      ensures Abs() == EMPTY_MIRROR
    {
      surfaces, layers, seats := [], [], [];
    }

    static method Find(l: seq<string>, name: string) returns (i: nat)
      ensures i <= |l| && (i < |l| <==> name in l)
      ensures i < |l| ==> l[..i] + l[i + 1..] == Drop(l, name)
      ensures i == |l| ==> Drop(l, name) == l
    {
      i := 0;
      while i < |l| && l[i] != name
        invariant i <= |l| && name !in l[..i]
        invariant Drop(l, name) == l[..i] + Drop(l[i..], name)
      {
        assert l[i..][1..] == l[i + 1..] && l[..i + 1] == l[..i] + [l[i]];
        assert l[..i] + Drop(l[i..], name) == l[..i + 1] + Drop(l[i + 1..], name);
        i := i + 1;
      }
      if i < |l| {
        assert l[i..][1..] == l[i + 1..];
      }
    }

    static method IsListed(l: seq<string>, name: string) returns (found: bool)
      ensures found <==> name in l
    {
      var i := 0;
      while i < |l|
        invariant i <= |l| && name !in l[..i]
      {
        if l[i] == name {
          return true;
        }
        i := i + 1;
      }
      found := false;
    }

    /** wm_listener_surface_created, _destroyed, wm_listener_layer_created,
        _destroyed, input_listener_seat_created, _destroyed,
        input_listener_input_acceptance. */
    method Dispatch(e: Event)
      modifies this
      ensures Abs() == Apply(old(Abs()), e)
    {
      match e
      case SurfaceCreated(id) =>
        var i := IC.Search(surfaces, id);
        if i == |surfaces| {
          surfaces := [(id, [])] + surfaces;
        }
      case SurfaceDestroyed(id) =>
        var i := IC.Search(surfaces, id);
        if i < |surfaces| {
          RemoveAtIndex(surfaces, id, i);
          surfaces := surfaces[..i] + surfaces[i + 1..];
        } else {
          NothingToRemove(surfaces, id);
        }
      case LayerCreated(id) =>
        var i := IviShell.IndexOf(layers, id);
        if i == |layers| {
          layers := [id] + layers;
        }
      case LayerDestroyed(id) =>
        var i := IviShell.IndexOf(layers, id);
        if i < |layers| {
          layers := layers[..i] + layers[i + 1..];
        } else {
          DropAbsent(layers, id);
        }
      case SeatCreated(name) =>
        var i := Find(seats, name);
        if i == |seats| {
          seats := [name] + seats;
        }
      case SeatDestroyed(name) =>
        var i := Find(seats, name);
        if i < |seats| {
          seats := seats[..i] + seats[i + 1..];
        }
      case InputFocus(_, _, _) =>
      case InputAcceptance(id, name, accepted) => InputAcceptanceListener(id, name, accepted);
    }

    /** The accepted seats of one surface after an acceptance event. */
    method UpdatedSeats(names: seq<string>, name: string, accepted: bool) returns (r: seq<string>)
      ensures r == if !accepted then Drop(names, name) else if name in names then names else [name] + names
    {
      var i := Find(names, name);
      if i < |names| && !accepted {
        r := names[..i] + names[i + 1..];
      } else if i == |names| && accepted {
        r := [name] + names;
      } else {
        r := names;
      }
    }

    /** input_listener_input_acceptance. */
    method InputAcceptanceListener(id: nat, name: string, accepted: bool)
      modifies this`surfaces
      ensures Abs() == Apply(old(Abs()), InputAcceptance(id, name, accepted))
    {
      var n := IC.Search(surfaces, id);
      if n == |surfaces| {
        return;
      }
      var names := UpdatedSeats(surfaces[n].1, name, accepted);
      PutAtIndex(surfaces, id, n, names);
      ApplyAcceptance(Abs(), id, name, accepted);
      surfaces := surfaces[n := (id, names)];
    }

    /** An acceptance event overwrites the names of one known surface. */
    lemma ApplyAcceptance(m: Mirror, id: nat, name: string, accepted: bool)
      requires Lookup(m.surfaces, id).Some?
      ensures var names := Lookup(m.surfaces, id).value;
              var updated := if !accepted then Drop(names, name) else if name in names then names else [name] + names;
              Apply(m, InputAcceptance(id, name, accepted)) == m.(surfaces := Put(m.surfaces, id, updated))
    {
      PutSame(m.surfaces, id);
    }

    lemma {:induction false} PutSame<V>(l: seq<(nat, V)>, id: nat)
      ensures Lookup(l, id).Some? ==> Put(l, id, Lookup(l, id).value) == l
    {
      if l != [] && l[0].0 != id {
        PutSame(l[1..], id);
      }
    }

    lemma {:induction false} NothingToRemove<V>(l: seq<(nat, V)>, id: nat)
      requires Lookup(l, id).None?
      ensures Remove(l, id) == l
    {
      if l != [] {
        NothingToRemove(l[1..], id);
      }
    }

    /** wl_display_roundtrip_queue: everything queued is dispatched in order. */
    method Roundtrip(queue: seq<Event>)
      modifies this
      ensures Abs() == Drain(old(Abs()), queue)
    {
      var i := 0;
      while i < |queue|
        invariant i <= |queue|
        invariant Drain(Abs(), queue[i..]) == Drain(old(Abs()), queue)
      {
        assert queue[i..][0] == queue[i] && queue[i..][1..] == queue[i + 1..];
        Dispatch(queue[i]);
        i := i + 1;
      }
    }

    /** ilm_getSurfaceIDs: ids written from the back of the list to the front. */
    method GetSurfaceIDs() returns (ids: seq<nat>)
      ensures ids == Reverse(Keys(Abs().surfaces))
    {
      ids := [];
      var i := |surfaces|;
      while i > 0
        invariant 0 <= i <= |surfaces|
        invariant ids == Reverse(Keys(surfaces)[i..])
      {
        i := i - 1;
        assert Keys(surfaces)[i..] == [surfaces[i].0] + Keys(surfaces)[i + 1..];
        ids := ids + [surfaces[i].0];
      }
      assert Keys(surfaces)[0..] == Keys(surfaces);
    }

    /** ilm_getLayerIDs. */
    method GetLayerIDs() returns (ids: seq<nat>)
      ensures ids == Reverse(Abs().layers)
    {
      ids := [];
      var i := |layers|;
      while i > 0
        invariant 0 <= i <= |layers|
        invariant ids == Reverse(layers[i..])
      {
        i := i - 1;
        assert layers[i..] == [layers[i]] + layers[i + 1..];
        ids := ids + [layers[i]];
      }
      assert layers[0..] == layers;
    }

    /** ilm_getInputAcceptanceOn after its roundtrip: the names in list order, or
        None when it fails. */
    method GetInputAcceptanceOn(id: nat) returns (names: Option<seq<string>>)
      ensures names == Lookup(Abs().surfaces, id)
    {
      var n := IC.Search(surfaces, id);
      if n == |surfaces| {
        return None;
      }
      var accepted := surfaces[n].1;
      var out: seq<string> := [];
      var i := 0;
      while i < |accepted|
        invariant i <= |accepted| && out == accepted[..i]
      {
        out := out + [accepted[i]];
        i := i + 1;
      }
      assert accepted[..i] == accepted;
      names := Some(out);
    }

    /** First pass of ilm_setInputAcceptanceOn: every name is a known seat. */
    method AllKnown(names: seq<string>) returns (known: bool)
      ensures known <==> forall j :: 0 <= j < |names| ==> names[j] in seats
    {
      var i := 0;
      while i < |names|
        invariant i <= |names| && forall j :: 0 <= j < i ==> names[j] in seats
      {
        var found := IsListed(seats, names[i]);
        if !found {
          return false;
        }
        i := i + 1;
      }
      known := true;
    }

    static lemma AddsFrom(have: seq<string>, names: seq<string>, i: nat)
      requires i < |names|
      ensures AddRequests(have, names[i..])
              == (if names[i] in have then [] else [(names[i], true)]) + AddRequests(have, names[i + 1..])
    {
      assert names[i..][1..] == names[i + 1..];
    }

    static lemma DropsFrom(have: seq<string>, names: seq<string>, i: nat)
      requires i < |have|
      ensures DropRequests(have[i..], names)
              == (if have[i] in names then [] else [(have[i], false)]) + DropRequests(have[i + 1..], names)
    {
      assert have[i..][1..] == have[i + 1..];
    }

    /** Second pass: ask for every wanted seat the surface does not list. */
    static method SendAdds(have: seq<string>, names: seq<string>) returns (sent: seq<(string, bool)>)
      ensures sent == AddRequests(have, names)
    {
      sent := [];
      var i := 0;
      while i < |names|
        invariant i <= |names|
        invariant sent + AddRequests(have, names[i..]) == AddRequests(have, names)
      {
        AddsFrom(have, names, i);
        var found := IsListed(have, names[i]);
        if !found {
          sent := sent + [(names[i], true)];
        }
        i := i + 1;
      }
    }

    /** Third pass: give up every listed seat that is not wanted. */
    static method SendDrops(have: seq<string>, names: seq<string>) returns (sent: seq<(string, bool)>)
      ensures sent == DropRequests(have, names)
    {
      sent := [];
      var i := 0;
      while i < |have|
        invariant i <= |have|
        invariant sent + DropRequests(have[i..], names) == DropRequests(have, names)
      {
        DropsFrom(have, names, i);
        var found := IsListed(names, have[i]);
        if !found {
          sent := sent + [(have[i], false)];
        }
        i := i + 1;
      }
    }

    /** ilm_setInputAcceptanceOn after its roundtrip: the requests sent, or None
        when it fails. */
    method SetInputAcceptanceOn(id: nat, names: seq<string>) returns (reqs: Option<seq<(string, bool)>>)
      ensures reqs == AcceptanceRequests(Abs(), id, names)
    {
      var n := IC.Search(surfaces, id);
      if n == |surfaces| {
        return None;
      }
      var known := AllKnown(names);
      if !known {
        return None;
      }
      var adds := SendAdds(surfaces[n].1, names);
      var drops := SendDrops(surfaces[n].1, names);
      reqs := Some(adds + drops);
    }
  }
}
