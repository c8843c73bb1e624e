/** Surface ids for desktop applications (ivi-id-agent.c): configured ids by
    application, consecutive default ids for the others. */
module IdAgent {
  import opened WlList

  type uint32 = n: nat | n <= 0xFFFF_FFFF

  /** INVALID_ID. */
  const INVALID: uint32 := 0xFFFF_FFFF

  /** struct db_elem; `surface` is layout_surface. */
  datatype Entry = Entry(id: uint32, appId: Option<string>, title: Option<string>, surface: Option<nat>)

  /** struct ivi_id_agent; `apps` is app_list, first element first. */
  datatype Agent = Agent(behavior: bool, next: nat, max: uint32, apps: seq<Entry>)

  /** The agent among the live layout surfaces and their ids. `given` are the
      default ids handed out so far, `configured` the live surfaces that got
      their id from the configuration. */
  datatype World = World(agent: Agent, live: map<nat, nat>, given: seq<nat>, configured: set<nat>)

  // ---------- configuration ----------

  /** A [desktop-app] section. */
  datatype Section = Section(id: Option<uint32>, appId: Option<string>, title: Option<string>)

  function OrInvalid(v: Option<uint32>): uint32 {
    match v case Some(n) => n case None => INVALID
  }

  /** check_config. */
  predicate Acceptable(agent: Agent, id: nat) {
    !(agent.next <= id <= agent.max) && forall i :: 0 <= i < |agent.apps| ==> agent.apps[i].id != id
  }

  /** The loop of read_config over the sections. */
  function ReadSections(agent: Agent, sections: seq<Section>): Option<Agent>
    decreases |sections|
  {
    if sections == [] then Some(agent)
    else
      var s := sections[0];
      var id := OrInvalid(s.id);
      if id == INVALID || (s.appId.None? && s.title.None?) || !Acceptable(agent, id) then None
      else ReadSections(agent.(apps := [Entry(id, s.appId, s.title, None)] + agent.apps), sections[1..])
  }

  /** read_config; `default` is the [desktop-app-default] section. */
  function ReadConfig(default: Option<(Option<uint32>, Option<uint32>)>, sections: seq<Section>): Option<Agent> {
    var first := match default case Some(d) => OrInvalid(d.0) case None => 0;
    var last := match default case Some(d) => OrInvalid(d.1) case None => 0;
    var behavior := default.Some? && first != INVALID && last != INVALID;
    match ReadSections(Agent(behavior, first, last, []), sections)
    case None => None
    case Some(agent) => if !behavior && agent.apps == [] then None else Some(agent)
  }

  /** What an accepted configuration guarantees. */
  ghost predicate WellConfigured(agent: Agent) {
    && (forall i :: 0 <= i < |agent.apps| ==> agent.apps[i].surface.None? && agent.apps[i].id != INVALID)
    && (forall i :: 0 <= i < |agent.apps| ==> !(agent.next <= agent.apps[i].id <= agent.max))
    && (forall i, j :: 0 <= i < j < |agent.apps| ==> agent.apps[i].id != agent.apps[j].id)
    && (agent.behavior ==> agent.next != INVALID && agent.max != INVALID)
  }

  lemma {:induction false} ReadSectionsKeeps(agent: Agent, sections: seq<Section>)
    requires WellConfigured(agent)
    ensures var r := ReadSections(agent, sections);
            r.Some? ==> WellConfigured(r.value) && r.value.behavior == agent.behavior
                        && r.value.next == agent.next && r.value.max == agent.max
    decreases |sections|
  {
    if sections != [] {
      var s := sections[0];
      var id := OrInvalid(s.id);
      if !(id == INVALID || (s.appId.None? && s.title.None?) || !Acceptable(agent, id)) {
        ReadSectionsKeeps(agent.(apps := [Entry(id, s.appId, s.title, None)] + agent.apps), sections[1..]);
      }
    }
  }

  lemma ConfigIsWell(default: Option<(Option<uint32>, Option<uint32>)>, sections: seq<Section>)
    ensures ReadConfig(default, sections).Some? ==> WellConfigured(ReadConfig(default, sections).value)
  {
    var first := match default case Some(d) => OrInvalid(d.0) case None => 0;
    var last := match default case Some(d) => OrInvalid(d.1) case None => 0;
    var behavior := default.Some? && first != INVALID && last != INVALID;
    ReadSectionsKeeps(Agent(behavior, first, last, []), sections);
  }

  /** The default section sets both bounds. */
  predicate Bounded(default: Option<(Option<uint32>, Option<uint32>)>, first: nat, last: nat) {
    default.Some? && default.value.0 == Some(first) && default.value.1 == Some(last) && first != INVALID && last != INVALID
  }

  /** Id `id` lies in the default interval; without the section that is 0 alone, and
      a missing bound counts as INVALID_ID. */
  predicate Reserved(default: Option<(Option<uint32>, Option<uint32>)>, id: nat) {
    match default
    case None => id == 0
    case Some((first, last)) => first.Some? && first.value <= id && (last.Some? ==> id <= last.value)
  }

  /** The section has an id, an application or a title, and its id is not reserved. */
  predicate Proper(default: Option<(Option<uint32>, Option<uint32>)>, s: Section) {
    s.id.Some? && s.id.value != INVALID && (s.appId.Some? || s.title.Some?) && !Reserved(default, s.id.value)
  }

  ghost predicate Distinct(sections: seq<Section>) {
    forall i, j :: 0 <= i < j < |sections| ==> sections[i].id != sections[j].id
  }

  /** The entries are the sections, the last one first. */
  ghost predicate Lists(apps: seq<Entry>, sections: seq<Section>) {
    |apps| == |sections| && forall i :: 0 <= i < |apps| ==> Records(apps[i], sections[|sections| - 1 - i])
  }

  predicate Records(e: Entry, s: Section) {
    s.id == Some(e.id) && e.appId == s.appId && e.title == s.title
  }

  function FirstOf(default: Option<(Option<uint32>, Option<uint32>)>): uint32 {
    match default case Some(d) => OrInvalid(d.0) case None => 0
  }

  function LastOf(default: Option<(Option<uint32>, Option<uint32>)>): uint32 {
    match default case Some(d) => OrInvalid(d.1) case None => 0
  }

  lemma {:induction false} ReadSectionsIff(default: Option<(Option<uint32>, Option<uint32>)>, agent: Agent,
                                           done: seq<Section>, todo: seq<Section>)
    requires Lists(agent.apps, done) && Distinct(done)
    requires forall id: uint32 :: id != INVALID ==> (agent.next <= id <= agent.max <==> Reserved(default, id))
    ensures var r := ReadSections(agent, todo);
            && (r.Some? <==> (forall i :: 0 <= i < |todo| ==> Proper(default, todo[i])) && Distinct(done + todo))
            && (r.Some? ==> Lists(r.value.apps, done + todo) && r.value == agent.(apps := r.value.apps))
    decreases |todo|
  {
    if todo == [] {
      assert done + todo == done;
    } else {
      var s, rest := todo[0], todo[1..];
      var id := OrInvalid(s.id);
      assert done + todo == (done + [s]) + rest;
      if id == INVALID || (s.appId.None? && s.title.None?) || agent.next <= id <= agent.max {
        assert !Proper(default, todo[0]);
      } else if i :| 0 <= i < |agent.apps| && agent.apps[i].id == id {
        var j := |done| - 1 - i;
        assert Records(agent.apps[i], done[j]);
        assert (done + todo)[j].id == (done + todo)[|done|].id;
      } else {
        var agent1 := agent.(apps := [Entry(id, s.appId, s.title, None)] + agent.apps);
        forall j | 0 <= j < |done| ensures done[j].id != s.id {
          assert Records(agent.apps[|done| - 1 - j], done[j]);
        }
        ReadSectionsIff(default, agent1, done + [s], rest);
        assert forall i :: 0 < i < |todo| ==> todo[i] == rest[i - 1];
      }
    }
  }

  /** When a configuration is accepted: every section is proper, their ids are
      distinct, and there is a section or a complete default. */
  lemma ReadConfigIff(default: Option<(Option<uint32>, Option<uint32>)>, sections: seq<Section>)
    ensures ReadConfig(default, sections).Some? <==>
              && (forall i :: 0 <= i < |sections| ==> Proper(default, sections[i])) && Distinct(sections)
              && (sections != [] || exists first: uint32, last: uint32 :: Bounded(default, first, last))
    ensures ReadConfig(default, sections).Some? ==> Configured(ReadConfig(default, sections).value, default, sections)
  {
    var behavior := default.Some? && FirstOf(default) != INVALID && LastOf(default) != INVALID;
    assert behavior <==> exists first: uint32, last: uint32 :: Bounded(default, first, last) by {
      if behavior {
        assert Bounded(default, FirstOf(default), LastOf(default));
      }
    }
    assert [] + sections == sections;
    ReadSectionsIff(default, Agent(behavior, FirstOf(default), LastOf(default), []), [], sections);
  }

  /** What the agent knows afterwards. */
  ghost predicate Configured(agent: Agent, default: Option<(Option<uint32>, Option<uint32>)>, sections: seq<Section>) {
    && Lists(agent.apps, sections)
    && (agent.behavior <==> exists first: uint32, last: uint32 :: Bounded(default, first, last))
    && (forall first: uint32, last: uint32 :: Bounded(default, first, last) ==> agent.next == first && agent.max == last)
  }

  // ---------- requests ----------

  /** check_config_parameter. */
  predicate Meets(cfg: Option<string>, val: Option<string>) {
    cfg.None? || cfg == val
  }

  predicate Fits(e: Entry, appId: Option<string>, title: Option<string>) {
    Meets(e.appId, appId) && Meets(e.title, title)
  }

  /** surface_set_id of the layout refuses an id that is in use. */
  predicate Used(live: map<nat, nat>, id: nat) {
    exists s :: s in live && live[s] == id
  }

  /** The first entry that fits and whose id is free. */
  function FirstFree(apps: seq<Entry>, live: map<nat, nat>, appId: Option<string>, title: Option<string>): (r: Option<nat>)
    ensures r.Some? ==> r.value < |apps| && Fits(apps[r.value], appId, title) && !Used(live, apps[r.value].id)
    ensures r.Some? ==> forall i :: 0 <= i < r.value ==> !Fits(apps[i], appId, title) || Used(live, apps[i].id)
    ensures r.None? ==> forall i :: 0 <= i < |apps| ==> !Fits(apps[i], appId, title) || Used(live, apps[i].id)
  {
    if apps == [] then None
    else if Fits(apps[0], appId, title) && !Used(live, apps[0].id) then Some(0)
    else match FirstFree(apps[1..], live, appId, title) case None => None case Some(i) => Some(i + 1)
  }

  /** A desktop surface appears and the agent is asked for its id. */
  function Request(w: World, s: nat, appId: Option<string>, title: Option<string>): World {
    var live := w.live[s := INVALID];
    match FirstFree(w.agent.apps, live, appId, title)
    case Some(i) =>
      var e := w.agent.apps[i];
      w.(live := live[s := e.id], configured := w.configured + {s},
         agent := w.agent.(apps := w.agent.apps[i := e.(surface := Some(s))]))
    case None =>
      if w.agent.behavior && w.agent.next < w.agent.max && !Used(live, w.agent.next)
      then w.(live := live[s := w.agent.next], given := w.given + [w.agent.next],
              agent := w.agent.(next := w.agent.next + 1))
      else w.(live := live)
  }

  /** The first entry that points to the surface forgets it. */
  function Forget(apps: seq<Entry>, s: nat): (r: seq<Entry>)
    ensures |r| == |apps|
  {
    if apps == [] then []
    else if apps[0].surface == Some(s) then [apps[0].(surface := None)] + apps[1..]
    else [apps[0]] + Forget(apps[1..], s)
  }

  function RemoveSurface(w: World, s: nat): World {
    w.(live := w.live - {s}, configured := w.configured - {s}, agent := w.agent.(apps := Forget(w.agent.apps, s)))
  }

  // ---------- runs ----------

  datatype Op =
    | Requested(s: nat, appId: Option<string>, title: Option<string>)
    | Created(s: nat, id: nat)   // an ivi application brings its own id
    | Removed(s: nat)

  function Step(w: World, op: Op): World {
    match op
    case Requested(s, appId, title) => Request(w, s, appId, title)
    case Created(s, id) => w.(live := w.live[s := id])
    case Removed(s) => RemoveSurface(w, s)
  }

  /** Surfaces are new when they appear, live when they are removed, and the
      layout refuses an application's id that is in use. */
  predicate Legal(w: World, op: Op) {
    match op
    case Requested(s, _, _) => s !in w.live
    case Created(s, id) => s !in w.live && id != INVALID && !Used(w.live, id)
    case Removed(s) => s in w.live
  }

  ghost predicate DistinctIds(live: map<nat, nat>) {
    forall s, t :: s in live && t in live && s != t && live[s] == live[t] ==> live[s] == INVALID
  }

  /** Entry `e` points to exactly the live surface that got its id from it. */
  ghost predicate EntryExact(w: World, e: Entry) {
    forall s: nat :: e.surface == Some(s) <==> s in w.configured && s in w.live && w.live[s] == e.id
  }

  ghost predicate Inv(w: World, start: nat) {
    && DistinctIds(w.live)
    && w.configured <= w.live.Keys
    && (forall i :: 0 <= i < |w.given| ==> w.given[i] == start + i)
    && w.agent.next == start + |w.given|
    && (|w.given| > 0 ==> w.agent.behavior && w.agent.next <= w.agent.max)
    && (w.agent.behavior ==> w.agent.max != INVALID)
    && (forall i :: 0 <= i < |w.agent.apps| ==>
          w.agent.apps[i].id != INVALID && !(start <= w.agent.apps[i].id <= w.agent.max))
    && (forall i, j :: 0 <= i < j < |w.agent.apps| ==> w.agent.apps[i].id != w.agent.apps[j].id)
    && (forall i {:trigger EntryExact(w, w.agent.apps[i])} :: 0 <= i < |w.agent.apps| ==> EntryExact(w, w.agent.apps[i]))
  }

  /** A surface without id uses none. */
  lemma UsedSame(live: map<nat, nat>, s: nat, id: nat)
    requires s !in live && id != INVALID
    ensures Used(live[s := INVALID], id) == Used(live, id)
  {
    var live' := live[s := INVALID];
    if t :| t in live && live[t] == id {
      assert live'[t] == id;
    }
    if t :| t in live' && live'[t] == id {
      assert live[t] == id;
    }
  }

  lemma RequestKeeps(w: World, start: nat, s: nat, appId: Option<string>, title: Option<string>)
    requires Inv(w, start) && s !in w.live
    ensures Inv(Request(w, s, appId, title), start)
  {
    var w' := Request(w, s, appId, title);
    var found := FirstFree(w.agent.apps, w.live[s := INVALID], appId, title);
    if found.Some? {
      UsedSame(w.live, s, w.agent.apps[found.value].id);
    } else if w'.agent.next != w.agent.next {
      UsedSame(w.live, s, w.agent.next);
    }
    forall i | 0 <= i < |w'.agent.apps| ensures EntryExact(w', w'.agent.apps[i]) {
      assert EntryExact(w, w.agent.apps[i]);
    }
  }

  /** Entry `i` is the first to point to the surface. */
  ghost predicate FirstPointer(apps: seq<Entry>, s: nat, i: nat)
    requires i < |apps|
  {
    apps[i].surface == Some(s) && forall j :: 0 <= j < i ==> apps[j].surface != Some(s)
  }

  lemma {:induction false} ForgetAt(apps: seq<Entry>, s: nat, i: nat)
    requires i < |apps|
    ensures Forget(apps, s)[i] == if FirstPointer(apps, s, i) then apps[i].(surface := None) else apps[i]
  {
    if apps[0].surface != Some(s) && i > 0 {
      var rest := apps[1..];
      ForgetAt(rest, s, i - 1);
      assert forall j :: 0 < j < |apps| ==> rest[j - 1] == apps[j];
      assert FirstPointer(rest, s, i - 1) ==> FirstPointer(apps, s, i);
      assert FirstPointer(apps, s, i) ==> FirstPointer(rest, s, i - 1);
    }
  }

  lemma ForgetSpec(apps: seq<Entry>, s: nat)
    ensures forall i :: 0 <= i < |apps| ==>
              Forget(apps, s)[i] == if FirstPointer(apps, s, i) then apps[i].(surface := None) else apps[i]
  {
    forall i | 0 <= i < |apps|
      ensures Forget(apps, s)[i] == if FirstPointer(apps, s, i) then apps[i].(surface := None) else apps[i]
    {
      ForgetAt(apps, s, i);
    }
  }

  lemma RemoveKeeps(w: World, start: nat, s: nat)
    requires Inv(w, start) && s in w.live
    ensures Inv(RemoveSurface(w, s), start)
  {
    var w' := RemoveSurface(w, s);
    ForgetSpec(w.agent.apps, s);
    forall i | 0 <= i < |w'.agent.apps| ensures EntryExact(w', w'.agent.apps[i]) {
      assert EntryExact(w, w.agent.apps[i]);
      forall j | 0 <= j < i && w.agent.apps[i].surface == Some(s) ensures w.agent.apps[j].surface != Some(s) {
        assert EntryExact(w, w.agent.apps[j]);
      }
    }
  }

  lemma StepKeeps(w: World, start: nat, op: Op)
    requires Inv(w, start) && Legal(w, op)
    ensures Inv(Step(w, op), start)
  {
    match op
    case Requested(s, appId, title) => RequestKeeps(w, start, s, appId, title);
    case Removed(s) => RemoveKeeps(w, start, s);
    case Created(s, id) =>
      var w' := Step(w, op);
      forall i | 0 <= i < |w'.agent.apps| ensures EntryExact(w', w'.agent.apps[i]) {
        assert EntryExact(w, w.agent.apps[i]);
      }
  }

  function Run(w: World, ops: seq<Op>): World
    decreases |ops|
  {
    if ops == [] then w else Run(Step(w, ops[0]), ops[1..])
  }

  ghost predicate AllLegal(w: World, ops: seq<Op>)
    decreases |ops|
  {
    ops == [] || (Legal(w, ops[0]) && AllLegal(Step(w, ops[0]), ops[1..]))
  }

  lemma {:induction false} RunKeeps(w: World, start: nat, ops: seq<Op>)
    requires Inv(w, start) && AllLegal(w, ops)
    ensures Inv(Run(w, ops), start)
    decreases |ops|
  {
    if ops != [] {
      StepKeeps(w, start, ops[0]);
      RunKeeps(Step(w, ops[0]), start, ops[1..]);
    }
  }

  /** The agent right after it read its configuration. */
  function Boot(agent: Agent): World {
    World(agent, map[], [], {})
  }

  /** How each live surface came to be. */
  function Origins(o: map<nat, Op>, ops: seq<Op>): map<nat, Op>
    decreases |ops|
  {
    if ops == [] then o
    else Origins(match ops[0] case Removed(s) => o - {s} case Requested(s, _, _) => o[s := ops[0]] case Created(s, _) => o[s := ops[0]],
                 ops[1..])
  }

  /** Where the configuration asks for an application id or a title, it is this. */
  predicate Meant(c: (Option<string>, Option<string>), appId: Option<string>, title: Option<string>) {
    (c.0.Some? ==> appId == c.0) && (c.1.Some? ==> title == c.1)
  }

  predicate MeantFor(c: Section, appId: Option<string>, title: Option<string>) {
    Meant((c.appId, c.title), appId, title)
  }

  /** The surface has the id it brought along, or that of a section meant for it,
      or a default id, or none. */
  ghost predicate Explained(w: World, s: nat, op: Op, sections: seq<Section>) {
    s in w.live &&
    match op
    case Created(x, id) => x == s && w.live[s] == id && s !in w.configured
    case Requested(x, appId, title) =>
      && x == s
      && if s in w.configured
         then exists c :: c in sections && c.id == Some(w.live[s]) && MeantFor(c, appId, title)
         else w.live[s] == INVALID || w.live[s] in w.given
    case Removed(_) => false
  }

  ghost predicate AllExplained(w: World, o: map<nat, Op>, sections: seq<Section>) {
    && o.Keys == w.live.Keys && w.configured <= w.live.Keys && Lists(w.agent.apps, sections)
    && forall s :: s in o ==> Explained(w, s, o[s], sections)
  }

  lemma RequestExplained(w: World, o: map<nat, Op>, sections: seq<Section>, s: nat, appId: Option<string>, title: Option<string>)
    requires AllExplained(w, o, sections) && s !in w.live
    ensures AllExplained(Request(w, s, appId, title), o[s := Requested(s, appId, title)], sections)
  {
    var w', op := Request(w, s, appId, title), Requested(s, appId, title);
    var found := FirstFree(w.agent.apps, w.live[s := INVALID], appId, title);
    if found.Some? {
      var c := sections[|sections| - 1 - found.value];
      assert Records(w.agent.apps[found.value], c);
      assert c in sections && c.id == Some(w'.live[s]) && MeantFor(c, appId, title);
    }
    forall i | 0 <= i < |w'.agent.apps| ensures Records(w'.agent.apps[i], sections[|sections| - 1 - i]) {
      assert Records(w.agent.apps[i], sections[|sections| - 1 - i]);
    }
    assert Explained(w', s, op, sections);
    forall t | t in o && t != s ensures Explained(w', t, o[t], sections) {
      assert Explained(w, t, o[t], sections);
    }
  }

  lemma RemoveExplained(w: World, o: map<nat, Op>, sections: seq<Section>, s: nat)
    requires AllExplained(w, o, sections)
    ensures AllExplained(RemoveSurface(w, s), o - {s}, sections)
  {
    var w' := RemoveSurface(w, s);
    ForgetSpec(w.agent.apps, s);
    forall i | 0 <= i < |w'.agent.apps| ensures Records(w'.agent.apps[i], sections[|sections| - 1 - i]) {
      assert Records(w.agent.apps[i], sections[|sections| - 1 - i]);
    }
    forall t | t in o - {s} ensures Explained(w', t, o[t], sections) {
      assert Explained(w, t, o[t], sections);
    }
  }

  lemma {:induction false} RunExplained(w: World, o: map<nat, Op>, sections: seq<Section>, ops: seq<Op>)
    requires AllExplained(w, o, sections) && AllLegal(w, ops)
    ensures AllExplained(Run(w, ops), Origins(o, ops), sections)
    decreases |ops|
  {
    if ops != [] {
      var w1 := Step(w, ops[0]);
      match ops[0] {
        case Requested(s, appId, title) =>
          RequestExplained(w, o, sections, s, appId, title);
          RunExplained(w1, o[s := ops[0]], sections, ops[1..]);
        case Created(s, id) =>
          var o1 := o[s := ops[0]];
          forall t | t in o1 ensures Explained(w1, t, o1[t], sections) {
            assert t != s ==> Explained(w, t, o[t], sections);
          }
          RunExplained(w1, o1, sections, ops[1..]);
        case Removed(s) =>
          RemoveExplained(w, o, sections, s);
          RunExplained(w1, o - {s}, sections, ops[1..]);
      }
    }
  }

  /** In every run of a configured agent, in terms of its configuration: live
      surfaces with an id have distinct ids; every live surface has the id it
      brought along, that of a section meant for it, a default id, or none. */
  lemma IdsExplained(default: Option<(Option<uint32>, Option<uint32>)>, sections: seq<Section>, ops: seq<Op>)
    requires ReadConfig(default, sections).Some?
    requires AllLegal(Boot(ReadConfig(default, sections).value), ops)
    ensures var w := Run(Boot(ReadConfig(default, sections).value), ops);
            DistinctIds(w.live) && AllExplained(w, Origins(map[], ops), sections)
  {
    ReadConfigIff(default, sections);
    IdsOverRuns(default, sections, ops);
    RunExplained(Boot(ReadConfig(default, sections).value), map[], sections, ops);
  }

  ghost predicate Consecutive(ids: seq<nat>, first: nat, last: nat) {
    forall i :: 0 <= i < |ids| ==> ids[i] == first + i < last
  }

  /** The default ids of every run: consecutive from the configured first one, below
      the configured last one, and no section's; none without a complete default. */
  lemma DefaultIds(default: Option<(Option<uint32>, Option<uint32>)>, sections: seq<Section>, ops: seq<Op>)
    requires ReadConfig(default, sections).Some?
    requires AllLegal(Boot(ReadConfig(default, sections).value), ops)
    ensures var w := Run(Boot(ReadConfig(default, sections).value), ops);
            && (forall first: uint32, last: uint32 :: Bounded(default, first, last) ==> Consecutive(w.given, first, last))
            && (w.given != [] ==> exists first: uint32, last: uint32 :: Bounded(default, first, last))
            && (forall i, j :: 0 <= i < |w.given| && 0 <= j < |sections| ==> sections[j].id != Some(w.given[i]))
  {
    ReadConfigIff(default, sections);
    IdsOverRuns(default, sections, ops);
    var agent := ReadConfig(default, sections).value;
    var w := Run(Boot(agent), ops);
    forall first: uint32, last: uint32 | Bounded(default, first, last)
      ensures Consecutive(w.given, first, last)
    {
      assert agent.next == first && agent.max == last;
    }
    forall i, j | 0 <= i < |w.given| && 0 <= j < |sections| ensures sections[j].id != Some(w.given[i]) {
      assert Records(agent.apps[|sections| - 1 - j], sections[j]);
    }
  }

  /** In every run of a configured agent: live surfaces with an id have distinct
      ids; the default ids handed out are consecutive from the configured first
      one, stay below the maximum and so never repeat, and are no configured
      ids; and an entry points to exactly the live surface it gave its id to. */
  lemma IdsOverRuns(default: Option<(Option<uint32>, Option<uint32>)>, sections: seq<Section>, ops: seq<Op>)
    requires ReadConfig(default, sections).Some?
    requires AllLegal(Boot(ReadConfig(default, sections).value), ops)
    ensures var agent := ReadConfig(default, sections).value;
            var w := Run(Boot(agent), ops);
            && DistinctIds(w.live)
            && Consecutive(w.given, agent.next, agent.max)
            && (forall i, j :: 0 <= i < |w.given| && 0 <= j < |agent.apps| ==> w.given[i] != agent.apps[j].id)
            && (forall e: Entry :: e in w.agent.apps ==> EntryExact(w, e))
            && (w.given != [] ==> agent.behavior)
  {
    var agent := ReadConfig(default, sections).value;
    ConfigIsWell(default, sections);
    var w0 := Boot(agent);
    forall i | 0 <= i < |agent.apps| ensures EntryExact(w0, agent.apps[i]) {
    }
    assert Inv(w0, agent.next);
    RunKeeps(w0, agent.next, ops);
    RunFixes(w0, ops);
    var w := Run(w0, ops);
    forall e: Entry | e in w.agent.apps ensures EntryExact(w, e) {
      var i :| 0 <= i < |w.agent.apps| && w.agent.apps[i] == e;
      assert EntryExact(w, w.agent.apps[i]);
    }
  }

  /** Running changes neither the maximum nor the configured ids. */
  lemma {:induction false} RunFixes(w: World, ops: seq<Op>)
    ensures var w' := Run(w, ops);
            w'.agent.max == w.agent.max && w'.agent.behavior == w.agent.behavior && |w'.agent.apps| == |w.agent.apps|
            && forall i :: 0 <= i < |w.agent.apps| ==> w'.agent.apps[i].id == w.agent.apps[i].id
    decreases |ops|
  {
    if ops != [] {
      match ops[0] {
        case Removed(s) => ForgetSpec(w.agent.apps, s);
        case _ =>
      }
      RunFixes(Step(w, ops[0]), ops[1..]);
    }
  }

  /** When a surface gets an id: an entry that fits has a free id, or the next
      default id exists and is free. The agent never looks past that one id, so
      an application that sits on it blocks all default ids. */
  lemma ServedIff(w: World, start: nat, s: nat, appId: Option<string>, title: Option<string>)
    requires Inv(w, start) && s !in w.live
    ensures Request(w, s, appId, title).live[s] != INVALID <==>
              (exists e :: e in w.agent.apps && Fits(e, appId, title) && !Used(w.live, e.id))
              || (w.agent.behavior && w.agent.next < w.agent.max && !Used(w.live, w.agent.next))
  {
    var live := w.live[s := INVALID];
    forall id: nat | id != INVALID ensures Used(live, id) == Used(w.live, id) {
      UsedSame(w.live, s, id);
    }
    var found := FirstFree(w.agent.apps, live, appId, title);
    if found.Some? {
      assert w.agent.apps[found.value] in w.agent.apps;
    } else {
      forall e | e in w.agent.apps ensures !Fits(e, appId, title) || Used(w.live, e.id) {
        var i :| 0 <= i < |w.agent.apps| && w.agent.apps[i] == e;
      }
    }
  }

  /** Entries come before default ids, and of those that fit and are free the first
      is used. */
  lemma ByEntry(w: World, start: nat, s: nat, i: nat, appId: Option<string>, title: Option<string>)
    requires Inv(w, start) && s !in w.live && ChosenEntry(w, i, appId, title)
    ensures var w' := Request(w, s, appId, title);
            w'.live == w.live[s := w.agent.apps[i].id] && w'.configured == w.configured + {s} && w'.given == w.given
  {
    FirstSuits(w, start, s, i, appId, title);
  }

  /** Without such an entry the next default id is used if it exists and is free;
      otherwise the surface stays without id. */
  lemma ByDefault(w: World, start: nat, s: nat, appId: Option<string>, title: Option<string>)
    requires Inv(w, start) && s !in w.live && forall i :: !ChosenEntry(w, i, appId, title)
    ensures var w' := Request(w, s, appId, title);
            var free := w.agent.behavior && w.agent.next < w.agent.max && !Used(w.live, w.agent.next);
            && w'.live == w.live[s := if free then w.agent.next else INVALID]
            && w'.configured == w.configured && w'.given == w.given + if free then [w.agent.next] else []
  {
    var found := FirstFree(w.agent.apps, w.live[s := INVALID], appId, title);
    if found.Some? {
      FirstSuits(w, start, s, found.value, appId, title);
    }
    if w.agent.next != INVALID {
      UsedSame(w.live, s, w.agent.next);
    }
  }

  lemma SuitsIff(w: World, s: nat, e: Entry, appId: Option<string>, title: Option<string>)
    requires s !in w.live && e.id != INVALID
    ensures Suits(w, e, appId, title) <==> Fits(e, appId, title) && !Used(w.live[s := INVALID], e.id)
  {
    UsedSame(w.live, s, e.id);
  }

  lemma FirstSuits(w: World, start: nat, s: nat, i: nat, appId: Option<string>, title: Option<string>)
    requires Inv(w, start) && s !in w.live
    ensures FirstFree(w.agent.apps, w.live[s := INVALID], appId, title) == Some(i) <==> ChosenEntry(w, i, appId, title)
  {
    forall j | 0 <= j < |w.agent.apps|
      ensures Suits(w, w.agent.apps[j], appId, title)
              <==> Fits(w.agent.apps[j], appId, title) && !Used(w.live[s := INVALID], w.agent.apps[j].id)
    {
      SuitsIff(w, s, w.agent.apps[j], appId, title);
    }
  }

  /** The first entry that fits and whose id is free. */
  ghost predicate ChosenEntry(w: World, i: int, appId: Option<string>, title: Option<string>) {
    && 0 <= i < |w.agent.apps| && Suits(w, w.agent.apps[i], appId, title)
    && forall j :: 0 <= j < i ==> !Suits(w, w.agent.apps[j], appId, title)
  }

  ghost predicate Suits(w: World, e: Entry, appId: Option<string>, title: Option<string>) {
    Meant((e.appId, e.title), appId, title) && forall s :: s in w.live ==> w.live[s] != e.id
  }

  // ---------- the module ----------

  class IdAgentModule {
    var behaviorSet: bool
    var defaultId: nat
    var defaultIdMax: uint32
    var appList: seq<Entry>
    /** The layout's surfaces and their ids. */
    var live: map<nat, nat>
    ghost var given: seq<nat>
    ghost var configured: set<nat>

    ghost function AgentState(): Agent
      reads this
    {
      Agent(behaviorSet, defaultId, defaultIdMax, appList)
    }

    ghost function State(): World
      reads this
    {
      World(AgentState(), live, given, configured)
    }

    constructor ()
      ensures State() == Boot(Agent(false, 0, 0, []))
    {
      behaviorSet, defaultId, defaultIdMax, appList := false, 0, 0, [];
      live, given, configured := map[], [], {};
    }

    /** check_config. */
    method CheckConfig(id: uint32) returns (ok: bool)
      ensures ok <==> Acceptable(AgentState(), id)
    {
      if defaultId <= id && id <= defaultIdMax {
        return false;
      }
      var i := 0;
      while i < |appList|
        invariant i <= |appList| && forall k :: 0 <= k < i ==> appList[k].id != id
      {
        if appList[i].id == id {
          return false;
        }
        i := i + 1;
      }
      return true;
    }

    /** read_config. */
    method Configure(default: Option<(Option<uint32>, Option<uint32>)>, sections: seq<Section>) returns (ok: bool)
      requires appList == [] && defaultId == defaultIdMax == 0
      modifies this
      ensures ok <==> ReadConfig(default, sections).Some?
      ensures ok ==> State() == World(ReadConfig(default, sections).value, old(live), old(given), old(configured))
    {
      match default {
        case Some(d) =>
          behaviorSet := true;
          defaultId := OrInvalid(d.0);
          defaultIdMax := OrInvalid(d.1);
          if defaultId == INVALID || defaultIdMax == INVALID {
            behaviorSet := false;
          }
        case None =>
          behaviorSet := false;
      }
      ghost var first := AgentState();
      var i := 0;
      while i < |sections|
        invariant i <= |sections|
        invariant ReadSections(AgentState(), sections[i..]) == ReadSections(first, sections)
        invariant live == old(live) && given == old(given) && configured == old(configured)
        invariant behaviorSet == first.behavior
      {
        var s := sections[i];
        var id := OrInvalid(s.id);
        assert sections[i..][1..] == sections[i + 1..];
        var fine := CheckConfig(id);
        if id == INVALID || (s.appId.None? && s.title.None?) || !fine {
          return false;
        }
        appList := [Entry(id, s.appId, s.title, None)] + appList;
        i := i + 1;
      }
      ok := behaviorSet || appList != [];
    }

    /** surface_set_id of the layout. */
    method SetId(s: nat, id: nat) returns (ok: bool)
      modifies this`live
      ensures ok <==> !Used(old(live), id)
      ensures live == if ok then old(live)[s := id] else old(live)
    {
      ok := !(exists t :: t in live.Keys && live[t] == id);
      if ok {
        live := live[s := id];
      }
    }

    /** get_id_from_config. */
    method GetIdFromConfig(s: nat, appId: Option<string>, title: Option<string>) returns (ok: bool)
      modifies this
      ensures match FirstFree(old(appList), old(live), appId, title)
              case None => !ok && State() == old(State())
              case Some(i) => ok && State() == old(State()).(live := old(live)[s := old(appList)[i].id],
                configured := old(configured) + {s},
                agent := old(AgentState()).(apps := old(appList)[i := old(appList)[i].(surface := Some(s))]))
    {
      var i := 0;
      while i < |appList|
        invariant i <= |appList| && State() == old(State())
        invariant forall k :: 0 <= k < i ==> !Fits(appList[k], appId, title) || Used(live, appList[k].id)
      {
        if Meets(appList[i].appId, appId) {
          if Meets(appList[i].title, title) {
            var accepted := SetId(s, appList[i].id);
            if accepted {
              appList := appList[i := appList[i].(surface := Some(s))];
              configured := configured + {s};
              return true;
            }
          }
        }
        i := i + 1;
      }
      return false;
    }

    /** get_id, asked for a new desktop surface. */
    method GetId(s: nat, appId: Option<string>, title: Option<string>) returns (ok: bool)
      requires s !in live && s !in configured
      modifies this
      ensures State() == Request(old(State()), s, appId, title)
      ensures ok <==> given != old(given) || s in configured - old(configured)
    {
      live := live[s := INVALID];
      ok := GetIdFromConfig(s, appId, title);
      if ok {
        return;
      }
      if !behaviorSet {
        return false;
      } else if defaultId < defaultIdMax {
        var other := exists t :: t in live.Keys && live[t] == defaultId;
        if other {
          return false;
        }
        var unused := SetId(s, defaultId);
        given := given + [defaultId];
        defaultId := defaultId + 1;
        return true;
      }
      return false;
    }

    /** surface_event_remove. */
    method SurfaceEventRemove(s: nat)
      modifies this
      ensures State() == RemoveSurface(old(State()), s)
    {
      live := live - {s};
      configured := configured - {s};
      ForgetSpec(appList, s);
      var i := 0;
      while i < |appList|
        invariant i <= |appList| && State() == old(State()).(live := live, configured := configured)
        invariant live == old(live) - {s} && configured == old(configured) - {s}
        invariant forall k :: 0 <= k < i ==> appList[k].surface != Some(s)
      {
        if appList[i].surface == Some(s) {
          appList := appList[i := appList[i].(surface := None)];
          assert appList == Forget(old(appList), s);
          return;
        }
        i := i + 1;
      }
      assert appList == Forget(old(appList), s);
    }
  }
}
