/** What a scene export contains (captureSceneData in common.cpp and sceneio.cpp):
    nothing shown on a screen, on a layer or nowhere is lost. */
module SceneExport {
  import opened WlList

  /** What the service reports: screens with the layers on them, layers with the
      surfaces on them, and all surfaces. */
  datatype Snapshot = Snapshot(screens: seq<nat>, layersOn: nat -> seq<nat>, layers: seq<nat>,
                               surfacesOn: nat -> seq<nat>, surfaces: seq<nat>)

  /** t_scene_data: the membership maps and their inverses. */
  datatype SceneData = SceneData(screens: seq<nat>, screenLayers: map<nat, seq<nat>>, layerScreen: map<nat, nat>,
                                 layers: seq<nat>, layerSurfaces: map<nat, seq<nat>>, surfaceLayer: map<nat, nat>,
                                 surfaces: seq<nat>)

  /** IlmSurface, IlmLayer, IlmDisplay and IlmScene, by id and containment. */
  datatype Layer = Layer(id: nat, surfaces: seq<nat>)
  datatype Screen = Screen(id: nat, layers: seq<Layer>)
  datatype Scene = Scene(displays: seq<Screen>, layers: seq<Layer>, surfaces: seq<nat>)

  // ---------- counting ----------

  function Count(s: seq<nat>, x: nat): nat {
    if s == [] then 0 else (if s[0] == x then 1 else 0) + Count(s[1..], x)
  }

  function InLayers(layers: seq<Layer>, x: nat): nat {
    if layers == [] then 0 else Count(layers[0].surfaces, x) + InLayers(layers[1..], x)
  }

  function InDisplays(displays: seq<Screen>, x: nat): nat {
    if displays == [] then 0 else InLayers(displays[0].layers, x) + InDisplays(displays[1..], x)
  }

  /** How often a surface occurs in the exported scene. */
  function Occurrences(scene: Scene, x: nat): nat {
    InDisplays(scene.displays, x) + InLayers(scene.layers, x) + Count(scene.surfaces, x)
  }

  /** On how many screens a layer is shown. */
  function Shown(snap: Snapshot, screens: seq<nat>, l: nat): nat {
    if screens == [] then 0 else Count(snap.layersOn(screens[0]), l) + Shown(snap, screens[1..], l)
  }

  /** A layer counts once per screen, or once when it is on none. */
  function Weight(snap: Snapshot, l: nat): nat {
    if Shown(snap, snap.screens, l) == 0 then 1 else Shown(snap, snap.screens, l)
  }

  /** The placements of a surface on the given layers. */
  function Placements(snap: Snapshot, layers: seq<nat>, x: nat): nat {
    if layers == [] then 0
    else Weight(snap, layers[0]) * Count(snap.surfacesOn(layers[0]), x) + Placements(snap, layers[1..], x)
  }

  predicate OnSomeLayer(snap: Snapshot, x: nat) {
    exists l :: l in snap.layers && x in snap.surfacesOn(l)
  }

  // ---------- the code ----------

  function LayerOf(snap: Snapshot, l: nat): Layer {
    Layer(l, if l in snap.layers then snap.surfacesOn(l) else [])
  }

  function LayersOf(snap: Snapshot, ls: seq<nat>): seq<Layer> {
    if ls == [] then [] else LayersOf(snap, ls[..|ls| - 1]) + [LayerOf(snap, ls[|ls| - 1])]
  }

  function DisplaysOf(snap: Snapshot, screens: seq<nat>): seq<Screen> {
    if screens == [] then []
    else
      var d := screens[|screens| - 1];
      DisplaysOf(snap, screens[..|screens| - 1]) + [Screen(d, LayersOf(snap, snap.layersOn(d)))]
  }

  /** The layers on no screen, the surfaces on no layer. */
  function OffScreen(snap: Snapshot, ls: seq<nat>): seq<nat> {
    if ls == [] then []
    else OffScreen(snap, ls[..|ls| - 1])
         + if Shown(snap, snap.screens, ls[|ls| - 1]) == 0 then [ls[|ls| - 1]] else []
  }

  function OffLayer(snap: Snapshot, xs: seq<nat>): seq<nat> {
    if xs == [] then []
    else OffLayer(snap, xs[..|xs| - 1]) + if OnSomeLayer(snap, xs[|xs| - 1]) then [] else [xs[|xs| - 1]]
  }

  /** The exported scene. */
  function SceneOf(snap: Snapshot): Scene {
    Scene(DisplaysOf(snap, snap.screens), LayersOf(snap, OffScreen(snap, snap.layers)), OffLayer(snap, snap.surfaces))
  }

  /** The forward map lists each owner's members; the inverse map leads from
      every member to an owner that has it. */
  ghost predicate Membership(owners: seq<nat>, members: nat -> seq<nat>, forward: map<nat, seq<nat>>, inverse: map<nat, nat>) {
    && (forall o :: o in forward <==> o in owners)
    && (forall o :: o in forward ==> forward[o] == members(o))
    && (forall m :: m in inverse <==> exists o :: o in owners && m in members(o))
    && (forall m :: m in inverse ==> inverse[m] in owners && m in members(inverse[m]))
  }

  /** What the maps of t_scene_data say. */
  ghost predicate Captured(data: SceneData, snap: Snapshot) {
    && data.screens == snap.screens && data.layers == snap.layers && data.surfaces == snap.surfaces
    && Membership(snap.screens, snap.layersOn, data.screenLayers, data.layerScreen)
    && Membership(snap.layers, snap.surfacesOn, data.layerSurfaces, data.surfaceLayer)
  }

  /** The loop `for (j) inverse[members[j]] = owner`. */
  method Invert(inverse: map<nat, nat>, members: seq<nat>, owner: nat) returns (r: map<nat, nat>)
    ensures forall m :: m in r <==> m in inverse || m in members
    ensures forall m :: m in r ==> r[m] == if m in members then owner else inverse[m]
  {
    r := inverse;
    var j := 0;
    while j < |members|
      invariant j <= |members|
      invariant forall m :: m in r <==> m in inverse || m in members[..j]
      invariant forall m :: m in r ==> r[m] == if m in members[..j] then owner else inverse[m]
    {
      r := r[members[j] := owner];
      j := j + 1;
    }
    assert members[..j] == members;
  }

  lemma MembershipStep(owners: seq<nat>, members: nat -> seq<nat>, i: nat, f: map<nat, seq<nat>>, inv: map<nat, nat>,
                       inv': map<nat, nat>)
    requires i < |owners| && Membership(owners[..i], members, f, inv)
    requires forall m :: m in inv' <==> m in inv || m in members(owners[i])
    requires forall m :: m in inv' ==> inv'[m] == if m in members(owners[i]) then owners[i] else inv[m]
    ensures Membership(owners[..i + 1], members, f[owners[i] := members(owners[i])], inv')
  {
    var o := owners[i];
    assert owners[..i + 1] == owners[..i] + [o];
    forall m ensures m in inv' <==> exists p :: p in owners[..i + 1] && m in members(p) {
      if m in members(o) {
        assert o in owners[..i + 1];
      }
    }
  }

  /** One of the two loops that record what is on what. */
  method Record(owners: seq<nat>, members: nat -> seq<nat>) returns (forward: map<nat, seq<nat>>, inverse: map<nat, nat>)
    ensures Membership(owners, members, forward, inverse)
  {
    forward, inverse := map[], map[];
    var i := 0;
    while i < |owners|
      invariant i <= |owners| && Membership(owners[..i], members, forward, inverse)
    {
      var grown := Invert(inverse, members(owners[i]), owners[i]);
      MembershipStep(owners, members, i, forward, inverse, grown);
      forward := forward[owners[i] := members(owners[i])];
      inverse := grown;
      i := i + 1;
    }
    assert owners[..i] == owners;
  }

  /** captureSceneData(t_scene_data*). */
  method CaptureData(snap: Snapshot) returns (data: SceneData)
    ensures Captured(data, snap)
  {
    var screenLayers, layerScreen := Record(snap.screens, snap.layersOn);
    var layerSurfaces, surfaceLayer := Record(snap.layers, snap.surfacesOn);
    data := SceneData(snap.screens, screenLayers, layerScreen, snap.layers, layerSurfaces, surfaceLayer, snap.surfaces);
  }

  lemma {:induction false} CountIn(s: seq<nat>, x: nat)
    ensures Count(s, x) > 0 <==> x in s
  {
    if s != [] {
      CountIn(s[1..], x);
    }
  }

  lemma {:induction false} ShownIn(snap: Snapshot, screens: seq<nat>, l: nat)
    ensures Shown(snap, screens, l) > 0 <==> exists d :: d in screens && l in snap.layersOn(d)
  {
    if screens != [] {
      CountIn(snap.layersOn(screens[0]), l);
      ShownIn(snap, screens[1..], l);
    }
  }

  /** captureSceneDataHelper for layers. */
  method CaptureLayers(data: SceneData, ghost snap: Snapshot, ls: seq<nat>) returns (layers: seq<Layer>)
    requires Captured(data, snap)
    ensures layers == LayersOf(snap, ls)
  {
    layers := [];
    var i := 0;
    while i < |ls|
      invariant i <= |ls| && layers == LayersOf(snap, ls[..i])
    {
      var surfaces: seq<nat> := [];
      if ls[i] in data.layerSurfaces {
        var ids := data.layerSurfaces[ls[i]];
        var k := 0;
        while k < |ids|
          invariant k <= |ids| && surfaces == ids[..k]
        {
          surfaces := surfaces + [ids[k]];
          k := k + 1;
        }
        assert ids[..k] == ids;
      }
      assert ls[..i + 1][..i] == ls[..i];
      layers := layers + [Layer(ls[i], surfaces)];
      i := i + 1;
    }
    assert ls[..i] == ls;
  }

  /** The loop of captureSceneData(IlmScene*) over the screens. */
  method CaptureDisplays(data: SceneData, ghost snap: Snapshot) returns (displays: seq<Screen>)
    requires Captured(data, snap)
    ensures displays == DisplaysOf(snap, snap.screens)
  {
    displays := [];
    var i := 0;
    while i < |data.screens|
      invariant i <= |data.screens| && displays == DisplaysOf(snap, data.screens[..i])
    {
      var layers := [];
      if data.screens[i] in data.screenLayers {
        layers := CaptureLayers(data, snap, data.screenLayers[data.screens[i]]);
      }
      assert data.screens[..i + 1][..i] == data.screens[..i];
      displays := displays + [Screen(data.screens[i], layers)];
      i := i + 1;
    }
    assert data.screens[..i] == data.screens;
  }

  /** The loop over the layers that no screen shows. */
  method LayersOffScreen(data: SceneData, ghost snap: Snapshot) returns (off: seq<nat>)
    requires Captured(data, snap)
    ensures off == OffScreen(snap, snap.layers)
  {
    off := [];
    var j := 0;
    while j < |data.layers|
      invariant j <= |data.layers| && off == OffScreen(snap, data.layers[..j])
    {
      ShownIn(snap, snap.screens, data.layers[j]);
      if data.layers[j] !in data.layerScreen {
        off := off + [data.layers[j]];
      }
      assert data.layers[..j + 1][..j] == data.layers[..j];
      j := j + 1;
    }
    assert data.layers[..j] == data.layers;
  }

  /** The loop over the surfaces that no layer has. */
  method SurfacesOffLayer(data: SceneData, ghost snap: Snapshot) returns (surfaces: seq<nat>)
    requires Captured(data, snap)
    ensures surfaces == OffLayer(snap, snap.surfaces)
  {
    surfaces := [];
    var k := 0;
    while k < |data.surfaces|
      invariant k <= |data.surfaces| && surfaces == OffLayer(snap, data.surfaces[..k])
    {
      if data.surfaces[k] !in data.surfaceLayer {
        surfaces := surfaces + [data.surfaces[k]];
      }
      assert data.surfaces[..k + 1][..k] == data.surfaces[..k];
      k := k + 1;
    }
    assert data.surfaces[..k] == data.surfaces;
  }

  /** captureSceneData(IlmScene*). */
  method CaptureScene(snap: Snapshot) returns (scene: Scene)
    ensures scene == SceneOf(snap)
  {
    var data := CaptureData(snap);
    var displays := CaptureDisplays(data, snap);
    var off := LayersOffScreen(data, snap);
    var layers := CaptureLayers(data, snap, off);
    var surfaces := SurfacesOffLayer(data, snap);
    scene := Scene(displays, layers, surfaces);
  }

  // ---------- ids and order ----------

  function LayerIds(layers: seq<Layer>): (r: seq<nat>)
    ensures |r| == |layers| && forall i :: 0 <= i < |r| ==> r[i] == layers[i].id
  {
    seq(|layers|, i requires 0 <= i < |layers| => layers[i].id)
  }

  /** Every layer carries the surfaces the service reports for it, in order. */
  ghost predicate Faithful(snap: Snapshot, layers: seq<Layer>) {
    forall i :: 0 <= i < |layers| && layers[i].id in snap.layers ==> layers[i].surfaces == snap.surfacesOn(layers[i].id)
  }

  /** Members of `r` come in the order they have in `s`. */
  ghost predicate InOrder(r: seq<nat>, s: seq<nat>) {
    forall i, j :: 0 <= i < j < |r| ==> Before(s, r[i], r[j])
  }

  ghost predicate Before(s: seq<nat>, x: nat, y: nat) {
    exists p, q :: 0 <= p < q < |s| && s[p] == x && s[q] == y
  }

  lemma {:induction false} LayersInOrder(snap: Snapshot, ls: seq<nat>)
    ensures LayerIds(LayersOf(snap, ls)) == ls && Faithful(snap, LayersOf(snap, ls))
  {
    if ls != [] {
      LayersInOrder(snap, ls[..|ls| - 1]);
    }
  }

  lemma {:induction false} DisplaysInOrder(snap: Snapshot, screens: seq<nat>)
    ensures var ds := DisplaysOf(snap, screens);
            |ds| == |screens|
            && forall i :: 0 <= i < |ds| ==>
                 && ds[i].id == screens[i] && LayerIds(ds[i].layers) == snap.layersOn(screens[i])
                 && Faithful(snap, ds[i].layers)
  {
    if screens != [] {
      DisplaysInOrder(snap, screens[..|screens| - 1]);
      LayersInOrder(snap, snap.layersOn(screens[|screens| - 1]));
    }
  }

  /** One more at the end. */
  lemma OrderGrows(r: seq<nat>, front: seq<nat>, y: nat)
    requires InOrder(r, front) && forall x :: x in r ==> x in front
    ensures InOrder(r, front + [y]) && InOrder(r + [y], front + [y])
  {
    var s := front + [y];
    forall x, z | Before(front, x, z) ensures Before(s, x, z) {
      var p, q :| 0 <= p < q < |front| && front[p] == x && front[q] == z;
      assert s[p] == x && s[q] == z;
    }
    forall x | x in front ensures Before(s, x, y) {
      var p :| 0 <= p < |front| && front[p] == x;
      assert s[p] == x && s[|front|] == y;
    }
    forall i, j | 0 <= i < j < |r + [y]| ensures Before(s, (r + [y])[i], (r + [y])[j]) {
      assert r[i] in r;
      if j < |r| {
        assert Before(front, r[i], r[j]);
      }
    }
    forall i, j | 0 <= i < j < |r| ensures Before(s, r[i], r[j]) {
      assert Before(front, r[i], r[j]);
    }
  }

  lemma {:induction false} OffScreenSpec(snap: Snapshot, ls: seq<nat>)
    ensures InOrder(OffScreen(snap, ls), ls)
    ensures forall l :: l in OffScreen(snap, ls) <==> l in ls && !exists d :: d in snap.screens && l in snap.layersOn(d)
  {
    if ls != [] {
      var front, y := ls[..|ls| - 1], ls[|ls| - 1];
      assert ls == front + [y];
      OffScreenSpec(snap, front);
      ShownIn(snap, snap.screens, y);
      OrderGrows(OffScreen(snap, front), front, y);
      assert OffScreen(snap, front) + [] == OffScreen(snap, front);
    }
  }

  lemma {:induction false} OffLayerSpec(snap: Snapshot, xs: seq<nat>)
    ensures InOrder(OffLayer(snap, xs), xs)
    ensures forall x :: x in OffLayer(snap, xs) <==> x in xs && !OnSomeLayer(snap, x)
  {
    if xs != [] {
      var front, y := xs[..|xs| - 1], xs[|xs| - 1];
      assert xs == front + [y];
      OffLayerSpec(snap, front);
      OrderGrows(OffLayer(snap, front), front, y);
      assert OffLayer(snap, front) + [] == OffLayer(snap, front);
    }
  }

  /** The scene shows what the service reports: the screens and the layers on them
      in order, every layer with its surfaces in order; then, in order, exactly
      the layers on no screen and the surfaces on no layer. */
  lemma SceneShows(snap: Snapshot)
    ensures var scene := SceneOf(snap);
            && |scene.displays| == |snap.screens|
            && (forall i :: 0 <= i < |scene.displays| ==>
                  && scene.displays[i].id == snap.screens[i]
                  && LayerIds(scene.displays[i].layers) == snap.layersOn(snap.screens[i])
                  && Faithful(snap, scene.displays[i].layers))
            && Faithful(snap, scene.layers) && InOrder(LayerIds(scene.layers), snap.layers)
            && (forall l :: l in LayerIds(scene.layers) <==>
                  l in snap.layers && !exists d :: d in snap.screens && l in snap.layersOn(d))
            && InOrder(scene.surfaces, snap.surfaces)
            && (forall x :: x in scene.surfaces <==> x in snap.surfaces && !OnSomeLayer(snap, x))
  {
    DisplaysInOrder(snap, snap.screens);
    LayersInOrder(snap, OffScreen(snap, snap.layers));
    OffScreenSpec(snap, snap.layers);
    OffLayerSpec(snap, snap.surfaces);
  }

  // ---------- conservation ----------

  lemma {:induction false} CountAppend(a: seq<nat>, y: nat, x: nat)
    ensures Count(a + [y], x) == Count(a, x) + if x == y then 1 else 0
  {
    if a != [] {
      assert (a + [y])[1..] == a[1..] + [y];
      CountAppend(a[1..], y, x);
    }
  }

  lemma {:induction false} InLayersAppend(a: seq<Layer>, l: Layer, x: nat)
    ensures InLayers(a + [l], x) == InLayers(a, x) + Count(l.surfaces, x)
  {
    if a == [] {
      assert a + [l] == [l];
    } else {
      assert (a + [l])[1..] == a[1..] + [l];
      InLayersAppend(a[1..], l, x);
    }
  }

  lemma {:induction false} InDisplaysAppend(a: seq<Screen>, d: Screen, x: nat)
    ensures InDisplays(a + [d], x) == InDisplays(a, x) + InLayers(d.layers, x)
  {
    if a == [] {
      assert a + [d] == [d];
    } else {
      assert (a + [d])[1..] == a[1..] + [d];
      InDisplaysAppend(a[1..], d, x);
    }
  }

  lemma {:induction false} ShownAppend(snap: Snapshot, screens: seq<nat>, d: nat, l: nat)
    ensures Shown(snap, screens + [d], l) == Shown(snap, screens, l) + Count(snap.layersOn(d), l)
  {
    if screens == [] {
      assert screens + [d] == [d];
    } else {
      assert (screens + [d])[1..] == screens[1..] + [d];
      ShownAppend(snap, screens[1..], d, l);
    }
  }

  lemma Distribute(n: nat, m: nat, c: nat)
    ensures (n + m) * c == n * c + m * c
  {
  }

  /** Surfaces named `x` on the layers of `layers`, each counted as often as the
      layer stands in `ls`. */
  function Listed(snap: Snapshot, layers: seq<nat>, ls: seq<nat>, x: nat): nat {
    if layers == [] then 0
    else Count(ls, layers[0]) * Count(snap.surfacesOn(layers[0]), x) + Listed(snap, layers[1..], ls, x)
  }

  lemma {:induction false} ListedNone(snap: Snapshot, layers: seq<nat>, x: nat)
    ensures Listed(snap, layers, [], x) == 0
  {
    if layers != [] {
      ListedNone(snap, layers[1..], x);
    }
  }

  lemma {:induction false} ListedAppend(snap: Snapshot, layers: seq<nat>, ls: seq<nat>, l: nat, x: nat)
    requires NoDup(layers)
    ensures Listed(snap, layers, ls + [l], x)
            == Listed(snap, layers, ls, x) + if l in layers then Count(snap.surfacesOn(l), x) else 0
  {
    if layers != [] {
      assert layers == [layers[0]] + layers[1..] && layers[0] !in layers[1..];
      CountAppend(ls, l, layers[0]);
      ListedAppend(snap, layers[1..], ls, l, x);
      Distribute(Count(ls, layers[0]), 1, Count(snap.surfacesOn(layers[0]), x));
    }
  }

  lemma {:induction false} LayersConserve(snap: Snapshot, ls: seq<nat>, x: nat)
    requires NoDup(snap.layers)
    ensures InLayers(LayersOf(snap, ls), x) == Listed(snap, snap.layers, ls, x)
  {
    if ls == [] {
      ListedNone(snap, snap.layers, x);
    } else {
      var front, l := ls[..|ls| - 1], ls[|ls| - 1];
      assert ls == front + [l];
      LayersConserve(snap, front, x);
      InLayersAppend(LayersOf(snap, front), LayerOf(snap, l), x);
      ListedAppend(snap, snap.layers, front, l, x);
    }
  }

  /** The same with screens instead of one list. */
  function OnScreens(snap: Snapshot, layers: seq<nat>, screens: seq<nat>, x: nat): nat {
    if layers == [] then 0
    else Shown(snap, screens, layers[0]) * Count(snap.surfacesOn(layers[0]), x) + OnScreens(snap, layers[1..], screens, x)
  }

  lemma {:induction false} OnScreensAppend(snap: Snapshot, layers: seq<nat>, screens: seq<nat>, d: nat, x: nat)
    ensures OnScreens(snap, layers, screens + [d], x)
            == OnScreens(snap, layers, screens, x) + Listed(snap, layers, snap.layersOn(d), x)
  {
    if layers != [] {
      ShownAppend(snap, screens, d, layers[0]);
      OnScreensAppend(snap, layers[1..], screens, d, x);
      Distribute(Shown(snap, screens, layers[0]), Count(snap.layersOn(d), layers[0]), Count(snap.surfacesOn(layers[0]), x));
    }
  }

  lemma {:induction false} OnScreensNone(snap: Snapshot, layers: seq<nat>, x: nat)
    ensures OnScreens(snap, layers, [], x) == 0
  {
    if layers != [] {
      OnScreensNone(snap, layers[1..], x);
    }
  }

  lemma {:induction false} DisplaysConserve(snap: Snapshot, screens: seq<nat>, x: nat)
    requires NoDup(snap.layers)
    ensures InDisplays(DisplaysOf(snap, screens), x) == OnScreens(snap, snap.layers, screens, x)
  {
    if screens == [] {
      OnScreensNone(snap, snap.layers, x);
    } else {
      var front, d := screens[..|screens| - 1], screens[|screens| - 1];
      assert screens == front + [d];
      DisplaysConserve(snap, front, x);
      LayersConserve(snap, snap.layersOn(d), x);
      InDisplaysAppend(DisplaysOf(snap, front), Screen(d, LayersOf(snap, snap.layersOn(d))), x);
      OnScreensAppend(snap, snap.layers, front, d, x);
    }
  }

  lemma {:induction false} OffScreenCount(snap: Snapshot, ls: seq<nat>, l: nat)
    ensures Count(OffScreen(snap, ls), l) == if Shown(snap, snap.screens, l) == 0 then Count(ls, l) else 0
  {
    if ls != [] {
      var front, y := ls[..|ls| - 1], ls[|ls| - 1];
      assert ls == front + [y];
      OffScreenCount(snap, front, l);
      CountAppend(front, y, l);
      CountAppend(OffScreen(snap, front), y, l);
      assert OffScreen(snap, front) + [] == OffScreen(snap, front);
    }
  }

  lemma {:induction false} NoDupCount(s: seq<nat>, x: nat)
    requires NoDup(s) && x in s
    ensures Count(s, x) == 1
  {
    assert s == [s[0]] + s[1..];
    if s[0] == x {
      CountIn(s[1..], x);
    } else {
      NoDupCount(s[1..], x);
    }
  }

  /** On screens plus off screens makes placements. */
  lemma {:induction false} WeightsAdd(snap: Snapshot, layers: seq<nat>, x: nat)
    requires NoDup(snap.layers) && forall i :: 0 <= i < |layers| ==> layers[i] in snap.layers
    ensures OnScreens(snap, layers, snap.screens, x) + Listed(snap, layers, OffScreen(snap, snap.layers), x)
            == Placements(snap, layers, x)
  {
    if layers != [] {
      var l := layers[0];
      OffScreenCount(snap, snap.layers, l);
      NoDupCount(snap.layers, l);
      WeightsAdd(snap, layers[1..], x);
      assert Shown(snap, snap.screens, l) + Count(OffScreen(snap, snap.layers), l) == Weight(snap, l);
      Distribute(Shown(snap, snap.screens, l), Count(OffScreen(snap, snap.layers), l), Count(snap.surfacesOn(l), x));
    }
  }

  lemma {:induction false} OffLayerCount(snap: Snapshot, xs: seq<nat>, x: nat)
    ensures Count(OffLayer(snap, xs), x) == if OnSomeLayer(snap, x) then 0 else Count(xs, x)
  {
    if xs != [] {
      var front, y := xs[..|xs| - 1], xs[|xs| - 1];
      assert xs == front + [y];
      OffLayerCount(snap, front, x);
      CountAppend(front, y, x);
      CountAppend(OffLayer(snap, front), y, x);
      assert OffLayer(snap, front) + [] == OffLayer(snap, front);
    }
  }

  /** Conservation: every surface is exported once per placement of it, where a
      layer counts once per screen that shows it and once when none does, and
      as often as it is listed when it is on no layer. */
  lemma Conservation(snap: Snapshot, x: nat)
    requires NoDup(snap.layers)
    ensures Occurrences(SceneOf(snap), x)
            == Placements(snap, snap.layers, x) + if OnSomeLayer(snap, x) then 0 else Count(snap.surfaces, x)
  {
    DisplaysConserve(snap, snap.screens, x);
    LayersConserve(snap, OffScreen(snap, snap.layers), x);
    WeightsAdd(snap, snap.layers, x);
    OffLayerCount(snap, snap.surfaces, x);
  }

  lemma {:induction false} PlacedSomewhere(snap: Snapshot, layers: seq<nat>, l: nat, x: nat)
    requires l in layers && x in snap.surfacesOn(l)
    ensures Placements(snap, layers, x) > 0
  {
    assert layers == [layers[0]] + layers[1..];
    if layers[0] == l {
      CountIn(snap.surfacesOn(l), x);
      var w, c := Weight(snap, l), Count(snap.surfacesOn(l), x);
      assert w * c > 0;
    } else {
      PlacedSomewhere(snap, layers[1..], l, x);
    }
  }

  /** No surface is dropped, and one that is nowhere is exported exactly once. */
  lemma NoneDropped(snap: Snapshot, x: nat)
    requires NoDup(snap.layers) && NoDup(snap.surfaces) && x in snap.surfaces
    ensures Occurrences(SceneOf(snap), x) > 0
    ensures !OnSomeLayer(snap, x) ==> Occurrences(SceneOf(snap), x) == 1
  {
    Conservation(snap, x);
    NoDupCount(snap.surfaces, x);
    if OnSomeLayer(snap, x) {
      var l :| l in snap.layers && x in snap.surfacesOn(l);
      PlacedSomewhere(snap, snap.layers, l, x);
    } else {
      NowherePlaced(snap, snap.layers, x);
    }
  }

  lemma {:induction false} NowherePlaced(snap: Snapshot, layers: seq<nat>, x: nat)
    requires forall i :: 0 <= i < |layers| ==> x !in snap.surfacesOn(layers[i])
    ensures Placements(snap, layers, x) == 0
  {
    if layers != [] {
      CountIn(snap.surfacesOn(layers[0]), x);
      NowherePlaced(snap, layers[1..], x);
    }
  }
}
