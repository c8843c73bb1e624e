/** Property subscriptions on the heap (ivi-controller.c): every `notification`
    sits on two intrusive circular lists at once, the list of its controller
    and the list of the surface or layer it watches. */
module Notifications {
  import opened WlList

  /** A `struct wl_list`: either a list head or embedded in a notification.
      `layout` tells the lists of surfaces and layers from those of
      controllers. */
  class Link {
    const layout: bool
    const noti: Notification?
    var prev: Link?
    var next: Link?

    /** wl_list_init. */
    constructor Head(layout: bool)
      ensures this.layout == layout && noti == null && prev == this && next == this
    {
      this.layout, this.noti := layout, null;
      prev, next := this, this;
    }

    constructor Node(layout: bool, noti: Notification)
      ensures this.layout == layout && this.noti == noti
    {
      this.layout, this.noti := layout, noti;
      prev, next := null, null;
    }
  }

  class Notification {
    var link: Link?
    var layoutLink: Link?
    const resource: Controller

    constructor (resource: Controller)
      ensures this.resource == resource && fresh(link) && fresh(layoutLink)
      ensures link != null && link.noti == this && !link.layout
      ensures layoutLink != null && layoutLink.noti == this && layoutLink.layout
    {
      this.resource := resource;
      link, layoutLink := null, null;
      new;
      link := new Link.Node(false, this);
      layoutLink := new Link.Node(true, this);
    }
  }

  /** A bound `ivicontroller` with its two notification lists. */
  class Controller {
    const surfaceNotifications: Link
    const layerNotifications: Link

    constructor ()
      ensures fresh(surfaceNotifications) && fresh(layerNotifications)
      ensures surfaceNotifications != layerNotifications
      ensures !surfaceNotifications.layout && surfaceNotifications.noti == null
      ensures surfaceNotifications.prev == surfaceNotifications == surfaceNotifications.next
      ensures !layerNotifications.layout && layerNotifications.noti == null
      ensures layerNotifications.prev == layerNotifications == layerNotifications.next
    {
      var a := new Link.Head(false);
      var b := new Link.Head(false);
      surfaceNotifications, layerNotifications := a, b;
    }
  }

  /** Position `i` of the circle that starts and ends at the head. */
  ghost function Cyc(h: Link, ls: seq<Link>, i: nat): Link
    requires i <= |ls| + 1
  {
    if i == 0 || i == |ls| + 1 then h else ls[i - 1]
  }

  /** `ls` is what walking from head `h` meets, in both directions. */
  ghost predicate Circle(h: Link, ls: seq<Link>)
    reads h, ls
  {
    forall i :: 0 <= i <= |ls| ==>
      Cyc(h, ls, i).next == Cyc(h, ls, i + 1) && Cyc(h, ls, i + 1).prev == Cyc(h, ls, i)
  }

  /** `ls` hangs off head `h` as a proper circle of links embedded in
      notifications. */
  ghost predicate Ring(h: Link, ls: seq<Link>)
    reads h, ls
  {
    && h.noti == null && NoDup(ls) && Circle(h, ls)
    && forall l :: l in ls ==> l.noti != null && l.layout == h.layout
  }

  /** wl_list_insert. */
  method ListInsert(h: Link, e: Link, ghost ls: seq<Link>)
    requires Ring(h, ls) && e !in ls && e.noti != null && e.layout == h.layout
    modifies h, ls, e
    ensures Ring(h, [e] + ls)
  {
    assert Cyc(h, ls, 0).next == Cyc(h, ls, 1);
    e.prev := h;
    e.next := h.next;
    h.next := e;
    e.next.prev := e;
    ghost var ls' := [e] + ls;
    forall i | 0 <= i <= |ls'|
      ensures Cyc(h, ls', i).next == Cyc(h, ls', i + 1) && Cyc(h, ls', i + 1).prev == Cyc(h, ls', i)
    {
      if i >= 2 {
        assert Cyc(h, ls', i) == Cyc(h, ls, i - 1) && Cyc(h, ls', i + 1) == Cyc(h, ls, i);
        assert old(Cyc(h, ls, i - 1).next) == Cyc(h, ls, i);
      }
    }
  }

  /** wl_list_remove. */
  method ListRemove(e: Link, ghost h: Link, ghost ls: seq<Link>, ghost k: nat)
    requires Ring(h, ls) && k < |ls| && ls[k] == e
    modifies h, ls
    ensures Ring(h, ls[..k] + ls[k + 1..])
  {
    assert Cyc(h, ls, k + 1) == e;
    assert Cyc(h, ls, k).next == e && e.prev == Cyc(h, ls, k);
    assert e.next == Cyc(h, ls, k + 2) && Cyc(h, ls, k + 2).prev == e;
    e.prev.next := e.next;
    e.next.prev := e.prev;
    e.next := null;
    e.prev := null;
    ghost var ls' := ls[..k] + ls[k + 1..];
    assert e !in ls';
    forall i | 0 <= i <= |ls'|
      ensures Cyc(h, ls', i).next == Cyc(h, ls', i + 1) && Cyc(h, ls', i + 1).prev == Cyc(h, ls', i)
    {
      if i < k {
        assert Cyc(h, ls', i) == Cyc(h, ls, i) && Cyc(h, ls', i + 1) == Cyc(h, ls, i + 1);
      } else if i == k {
        assert Cyc(h, ls', i) == Cyc(h, ls, k) && Cyc(h, ls', i + 1) == Cyc(h, ls, k + 2);
      } else {
        assert Cyc(h, ls', i) == Cyc(h, ls, i + 1) && Cyc(h, ls', i + 1) == Cyc(h, ls, i + 2);
      }
    }
  }

  // ---------- sequences of links ----------

  /** The controllers behind a list of notifications, in list order. */
  function Watchers(ls: seq<Link>): seq<Controller>
    requires forall l :: l in ls ==> l.noti != null
  {
    seq(|ls|, i requires 0 <= i < |ls| => ls[i].noti.resource)
  }

  ghost function Keep(ls: seq<Link>, gone: set<Link>): (r: seq<Link>)
    ensures forall l :: l in r ==> l in ls && l !in gone
  {
    if ls == [] then [] else (if ls[0] in gone then [] else [ls[0]]) + Keep(ls[1..], gone)
  }

  lemma {:induction false} KeepDrop(ls: seq<Link>, l: Link, gone: set<Link>)
    requires l in gone
    ensures Keep(Drop(ls, l), gone) == Keep(ls, gone)
  {
    if ls != [] && ls[0] != l {
      KeepDrop(ls[1..], l, gone);
      assert ([ls[0]] + Drop(ls[1..], l))[1..] == Drop(ls[1..], l);
    }
  }

  lemma {:induction false} KeepAll(ls: seq<Link>, gone: set<Link>)
    requires forall l :: l in ls ==> l !in gone
    ensures Keep(ls, gone) == ls
  {
    if ls != [] {
      KeepAll(ls[1..], gone);
    }
  }

  lemma KeepCons(x: Link, ls: seq<Link>, gone: set<Link>)
    ensures Keep([x] + ls, gone) == if x in gone then Keep(ls, gone) else [x] + Keep(ls, gone)
  {
    assert ([x] + ls)[1..] == ls;
  }

  lemma {:induction false} KeepTwice(ls: seq<Link>, a: set<Link>, b: set<Link>)
    ensures Keep(Keep(ls, a), b) == Keep(ls, a + b)
  {
    if ls != [] {
      assert ls == [ls[0]] + ls[1..];
      KeepTwice(ls[1..], a, b);
      KeepCons(ls[0], ls[1..], a);
      KeepCons(ls[0], ls[1..], a + b);
      KeepCons(ls[0], Keep(ls[1..], a), b);
    }
  }

  lemma {:induction false} DropAt<T>(s: seq<T>, k: nat)
    requires k < |s| && forall j :: 0 <= j < k ==> s[j] != s[k]
    ensures Drop(s, s[k]) == s[..k] + s[k + 1..]
  {
    if k > 0 {
      DropAt(s[1..], k - 1);
      assert s[..k] + s[k + 1..] == [s[0]] + (s[1..][..k - 1] + s[1..][k..]);
    }
  }

  lemma WatchersTail(ls: seq<Link>)
    requires ls != [] && forall l :: l in ls ==> l.noti != null
    ensures Watchers(ls) == [ls[0].noti.resource] + Watchers(ls[1..])
    ensures Watchers(ls)[1..] == Watchers(ls[1..])
  {
  }

  lemma WatchersCons(x: Link, ls: seq<Link>)
    requires x.noti != null && forall l :: l in ls ==> l.noti != null
    ensures Watchers([x] + ls) == [x.noti.resource] + Watchers(ls)
  {
  }

  /** Removing the first notification of a controller removes its first entry. */
  lemma {:induction false} WatchersDrop(ls: seq<Link>, i: nat)
    requires i < |ls| && forall l :: l in ls ==> l.noti != null
    requires forall j :: 0 <= j < i ==> ls[j].noti.resource != ls[i].noti.resource
    ensures forall l :: l in Drop(ls, ls[i]) ==> l.noti != null
    ensures Watchers(Drop(ls, ls[i])) == Drop(Watchers(ls), ls[i].noti.resource)
  {
    WatchersTail(ls);
    if i > 0 {
      WatchersDrop(ls[1..], i - 1);
      var rest := Drop(ls[1..], ls[i]);
      assert Drop(ls, ls[i]) == [ls[0]] + rest;
      WatchersTail([ls[0]] + rest);
      assert ([ls[0]] + rest)[1..] == rest;
    }
  }

  /** Controllers other than `c`, in order. */
  function Others(cs: seq<Controller>, c: Controller): seq<Controller> {
    if cs == [] then [] else (if cs[0] == c then [] else [cs[0]]) + Others(cs[1..], c)
  }

  lemma {:induction false} WatchersKeep(ls: seq<Link>, gone: set<Link>, c: Controller)
    requires forall l :: l in ls ==> l.noti != null && (l in gone <==> l.noti.resource == c)
    ensures Watchers(Keep(ls, gone)) == Others(Watchers(ls), c)
  {
    if ls != [] {
      var rest := Keep(ls[1..], gone);
      WatchersKeep(ls[1..], gone, c);
      WatchersTail(ls);
      if ls[0] !in gone {
        assert Keep(ls, gone) == [ls[0]] + rest;
        WatchersCons(ls[0], rest);
      }
    }
  }

  /** The lists without `l`. */
  ghost function Without(rings: map<Link, seq<Link>>, home: map<Link, Link>, l: Link): map<Link, seq<Link>> {
    if l in home && home[l] in rings then rings[home[l] := Drop(rings[home[l]], l)] else rings
  }

  lemma {:induction false} DropCount(cs: seq<Controller>, c: Controller)
    ensures multiset(Drop(cs, c)) == multiset(cs) - multiset{c}
  {
    if cs != [] {
      assert cs == [cs[0]] + cs[1..];
      DropCount(cs[1..], c);
    }
  }

  // ---------- who is on which list ----------

  /** The links on list `h` call it their home. */
  ghost predicate Houses(rings: map<Link, seq<Link>>, home: map<Link, Link>, h: Link)
    requires h in rings
  {
    forall l :: l in rings[h] ==> l in home && home[l] == h
  }

  /** `l` is on the list it calls home. */
  ghost predicate Housed(rings: map<Link, seq<Link>>, home: map<Link, Link>, l: Link)
    requires l in home
  {
    home[l] in rings && l in rings[home[l]]
  }

  /** Every linked half is on exactly one list. */
  ghost predicate OneHome(rings: map<Link, seq<Link>>, home: map<Link, Link>) {
    && (forall h {:trigger Houses(rings, home, h)} :: h in rings ==> Houses(rings, home, h))
    && (forall l {:trigger Housed(rings, home, l)} :: l in home ==> Housed(rings, home, l))
  }

  lemma HomeOf(rings: map<Link, seq<Link>>, home: map<Link, Link>, h: Link, l: Link)
    requires OneHome(rings, home) && h in rings
    ensures l in rings[h] <==> l in home && home[l] == h
  {
    assert Houses(rings, home, h);
    if l in home {
      assert Housed(rings, home, l);
    }
  }

  lemma AddHead(rings: map<Link, seq<Link>>, home: map<Link, Link>, h: Link)
    requires OneHome(rings, home) && h !in rings
    ensures OneHome(rings[h := []], home)
  {
    var after := rings[h := []];
    forall g | g in after ensures Houses(after, home, g) {
      assert g in rings ==> Houses(rings, home, g);
    }
    forall l | l in home ensures Housed(after, home, l) {
      assert Housed(rings, home, l);
    }
  }

  lemma AddLink(rings: map<Link, seq<Link>>, home: map<Link, Link>, h: Link, e: Link)
    requires OneHome(rings, home) && h in rings && e !in home
    ensures OneHome(rings[h := [e] + rings[h]], home[e := h])
  {
    var after, home' := rings[h := [e] + rings[h]], home[e := h];
    forall g | g in after ensures Houses(after, home', g) {
      assert Houses(rings, home, g);
    }
    forall l | l in home' ensures Housed(after, home', l) {
      assert l in home ==> Housed(rings, home, l);
    }
  }

  lemma RemoveLink(rings: map<Link, seq<Link>>, home: map<Link, Link>, e: Link)
    requires OneHome(rings, home) && e in home && home[e] in rings && NoDup(rings[home[e]])
    ensures OneHome(rings[home[e] := Drop(rings[home[e]], e)], home - {e})
  {
    var after, home' := rings[home[e] := Drop(rings[home[e]], e)], home - {e};
    DropSpec(rings[home[e]], e);
    forall g | g in after ensures Houses(after, home', g) {
      forall l | l in after[g] ensures l in home' && home'[l] == g {
        if g == home[e] {
          DropMember(rings[g], e, l);
        }
        assert l in rings[g] && (g == home[e] ==> l != e);
        HomeOf(rings, home, g, l);
      }
    }
    forall l | l in home' ensures Housed(after, home', l) {
      assert Housed(rings, home, l);
    }
  }

  lemma RemoveHead(rings: map<Link, seq<Link>>, home: map<Link, Link>, h: Link)
    requires OneHome(rings, home) && h in rings && rings[h] == []
    ensures OneHome(rings - {h}, home)
  {
    var after := rings - {h};
    forall g | g in after ensures Houses(after, home, g) {
      assert Houses(rings, home, g);
    }
    forall l | l in home ensures Housed(after, home, l) {
      assert Housed(rings, home, l);
    }
  }

  // ---------- the shell ----------

  class Shell {
    /** The list that hangs off every live head, and the head of the list
        that every linked notification half is on. */
    ghost var rings: map<Link, seq<Link>>
    ghost var home: map<Link, Link>
    ghost var notis: set<Notification>
    ghost var controllers: set<Controller>
    ghost var owner: map<Link, Controller>

    /** All links there are. */
    ghost function Links(): set<Link>
      reads this
    {
      rings.Keys + home.Keys
    }

    /** Every list is a proper circle over its own links. */
    ghost predicate ListsOk()
      reads this, Links()
    {
      && OneHome(rings, home)
      && (forall h {:trigger Ring(h, rings[h])} :: h in rings ==> Houses(rings, home, h) && Ring(h, rings[h]))
    }

    /** `n` is on one list of its live controller and on one list of a live
        surface or layer. */
    ghost predicate OnBoth(n: Notification)
      reads this, notis
    {
      && n in notis && n.link != null && n.layoutLink != null
      && n.link.noti == n && n.layoutLink.noti == n && !n.link.layout && n.layoutLink.layout
      && n.link in home && n.layoutLink in home
      && n.resource in controllers
      && (home[n.link] == n.resource.surfaceNotifications || home[n.link] == n.resource.layerNotifications)
    }

    /** The linked half `l` belongs to a notification that is on both lists. */
    ghost predicate Paired(l: Link)
      reads this, notis
    {
      l.noti != null && OnBoth(l.noti) && l == if l.layout then l.noti.layoutLink else l.noti.link
    }

    ghost predicate HasLists(c: Controller)
      reads this
    {
      c.surfaceNotifications in rings && c.layerNotifications in rings
      && !c.surfaceNotifications.layout && !c.layerNotifications.layout
      && c.surfaceNotifications != c.layerNotifications
      && c.surfaceNotifications in owner && owner[c.surfaceNotifications] == c
      && c.layerNotifications in owner && owner[c.layerNotifications] == c
    }

    /** Two-list integrity. */
    ghost predicate Valid()
      reads this, Links(), notis
    {
      && ListsOk()
      && (forall l {:trigger Paired(l)} :: l in home ==> Paired(l))
      && (forall c {:trigger HasLists(c)} :: c in controllers ==> HasLists(c))
    }

    constructor ()
      ensures Valid() && rings == map[] && controllers == {}
    {
      rings, home, notis, controllers, owner := map[], map[], {}, {}, map[];
    }

    /** create_surface or create_layer: an object nobody watches. */
    method CreateObject() returns (h: Link)
      requires Valid()
      modifies this`rings
      ensures Valid() && fresh(h) && h.layout && rings == old(rings)[h := []]
    {
      h := new Link.Head(true);
      AddHead(rings, home, h);
      rings := rings[h := []];
      forall g | g in rings ensures Houses(rings, home, g) && Ring(g, rings[g]) {
        assert g != h ==> old(Ring(g, rings[g]));
      }
      forall l | l in home ensures Paired(l) {
        assert old(Paired(l));
      }
      forall c | c in controllers ensures HasLists(c) {
        assert old(HasLists(c));
      }
    }

    /** bind_ivi_controller: a controller with two empty lists. */
    method Bind() returns (c: Controller)
      requires Valid()
      modifies this`rings, this`controllers, this`owner
      ensures Valid() && fresh(c) && controllers == old(controllers) + {c}
      ensures fresh(c.surfaceNotifications) && fresh(c.layerNotifications)
      ensures rings == old(rings)[c.surfaceNotifications := []][c.layerNotifications := []]
    {
      c := new Controller();
      ghost var a, b := c.surfaceNotifications, c.layerNotifications;
      AddHead(rings, home, a);
      AddHead(rings[a := []], home, b);
      rings := rings[a := []][b := []];
      controllers := controllers + {c};
      owner := owner[a := c][b := c];
      forall g | g in rings ensures Houses(rings, home, g) && Ring(g, rings[g]) {
        if g == a || g == b {
          assert rings[g] == [] && Cyc(g, [], 0) == g == Cyc(g, [], 1);
        } else {
          assert old(Ring(g, rings[g]));
        }
      }
      forall l | l in home ensures Paired(l) {
        assert old(Paired(l));
      }
      forall d | d in controllers ensures HasLists(d) {
        assert d in old(controllers) ==> old(HasLists(d));
      }
    }

    /** No link of list `g` is in `touched`. */
    ghost predicate Apart(g: Link, ls: seq<Link>, touched: set<Link>) {
      g !in touched && forall l :: l in ls ==> l !in touched
    }

    /** Lists other than `h` share no link with it. */
    lemma OthersApart(h: Link, g: Link)
      requires ListsOk() && h in rings && g in rings && g != h
      ensures Apart(g, rings[g], {h} + (set l | l in rings[h]))
    {
      assert Ring(h, rings[h]) && Ring(g, rings[g]);
      forall l | l in rings[g] ensures l !in rings[h] {
        HomeOf(rings, home, g, l);
        HomeOf(rings, home, h, l);
      }
    }

    /** Relinking the circle of `h` leaves all other circles alone. */
    method LinkInto(h: Link, e: Link)
      requires ListsOk() && h in rings && e.noti != null && e.layout == h.layout && e !in home
      modifies h, rings[h], e
      ensures Ring(h, [e] + rings[h])
      ensures forall g {:trigger Ring(g, rings[g])} :: g in rings && g != h ==> Ring(g, rings[g])
    {
      ghost var ls := rings[h];
      ghost var touched := {h, e} + (set l | l in ls);
      assert Houses(rings, home, h) && Ring(h, ls);
      forall g | g in rings && g != h ensures Apart(g, rings[g], touched) && Ring(g, rings[g]) {
        OthersApart(h, g);
        assert Houses(rings, home, g) && Ring(g, rings[g]);
      }
      ListInsert(h, e, ls);
      forall g | g in rings && g != h ensures Ring(g, rings[g]) {
        ghost var gs := rings[g];
        assert Apart(g, gs, touched) && old(Ring(g, gs));
        forall i | 0 <= i <= |gs|
          ensures Cyc(g, gs, i).next == Cyc(g, gs, i + 1) && Cyc(g, gs, i + 1).prev == Cyc(g, gs, i)
        {
          ghost var x, y := Cyc(g, gs, i), Cyc(g, gs, i + 1);
          assert x !in touched && y !in touched;
          assert old(x.next) == y && old(y.prev) == x;
        }
      }
    }

    /** Links one half of a notification into list `h`. */
    method Hook(h: Link, e: Link)
      requires ListsOk() && h in rings && e.noti != null && e.layout == h.layout && e !in home
      modifies this`rings, this`home, rings.Keys, home.Keys, e
      ensures ListsOk() && home == old(home)[e := h]
      ensures rings == old(rings)[h := [e] + old(rings)[h]]
    {
      assert Houses(rings, home, h) && Ring(h, rings[h]);
      AddLink(rings, home, h, e);
      LinkInto(h, e);
      rings := rings[h := [e] + rings[h]];
      home := home[e := h];
    }

    method UnlinkFrom(ghost h: Link, e: Link)
      requires ListsOk() && h in rings && e in rings[h]
      modifies h, rings[h]
      ensures Ring(h, Drop(rings[h], e))
      ensures forall g {:trigger Ring(g, rings[g])} :: g in rings && g != h ==> Ring(g, rings[g])
    {
      ghost var ls := rings[h];
      ghost var touched := {h} + (set l | l in ls);
      assert Houses(rings, home, h) && Ring(h, ls);
      ghost var k: nat :| k < |ls| && ls[k] == e;
      DropAt(ls, k);
      forall g | g in rings && g != h ensures Apart(g, rings[g], touched) && Ring(g, rings[g]) {
        OthersApart(h, g);
        assert Houses(rings, home, g) && Ring(g, rings[g]);
      }
      ListRemove(e, h, ls, k);
      forall g | g in rings && g != h ensures Ring(g, rings[g]) {
        ghost var gs := rings[g];
        assert Apart(g, gs, touched) && old(Ring(g, gs));
        forall i | 0 <= i <= |gs|
          ensures Cyc(g, gs, i).next == Cyc(g, gs, i + 1) && Cyc(g, gs, i + 1).prev == Cyc(g, gs, i)
        {
          ghost var x, y := Cyc(g, gs, i), Cyc(g, gs, i + 1);
          assert x !in touched && y !in touched;
          assert old(x.next) == y && old(y.prev) == x;
        }
      }
    }

    /** Unlinks one half of a notification from its list. */
    method Unhook(e: Link)
      requires ListsOk() && e in home
      modifies this`rings, this`home, rings.Keys, home.Keys
      ensures ListsOk() && home == old(home) - {e} && old(home)[e] in old(rings)
      ensures rings == old(rings)[old(home)[e] := Drop(old(rings)[old(home)[e]], e)]
    {
      assert Housed(rings, home, e);
      ghost var h := home[e];
      assert Houses(rings, home, h) && Ring(h, rings[h]);
      RemoveLink(rings, home, e);
      UnlinkFrom(h, e);
      rings := rings[h := Drop(rings[h], e)];
      home := home - {e};
    }

    /** Both halves leave their lists. */
    method UnhookBoth(x: Link, y: Link)
      requires ListsOk() && x in home && y in home && home[x] != home[y]
      modifies this`rings, this`home, rings.Keys, home.Keys
      ensures ListsOk() && home == old(home) - {x, y}
      ensures var a, b := old(home)[x], old(home)[y];
              a in old(rings) && b in old(rings)
              && rings == old(rings)[a := Drop(old(rings)[a], x)][b := Drop(old(rings)[b], y)]
    {
      assert Housed(rings, home, x) && Housed(rings, home, y);
      Unhook(x);
      Unhook(y);
    }

    /** The two halves of one notification are on different lists. */
    lemma TwoHomes(n: Notification)
      requires Valid() && OnBoth(n)
      ensures home[n.link] in rings && home[n.layoutLink] in rings && home[n.link] != home[n.layoutLink]
      ensures !home[n.link].layout && home[n.layoutLink].layout
    {
      assert Housed(rings, home, n.link) && Housed(rings, home, n.layoutLink);
      assert Ring(home[n.link], rings[home[n.link]]) && Ring(home[n.layoutLink], rings[home[n.layoutLink]]);
    }

    /** A notification is taken off both its lists (the two wl_list_remove calls
        that precede free(noti)); everything else stays. */
    method Detach(n: Notification)
      requires Valid() && OnBoth(n)
      modifies this`rings, this`home, rings.Keys, home.Keys
      ensures Valid() && home == old(home) - {n.link, n.layoutLink} && rings.Keys == old(rings.Keys)
      ensures var a, b := old(home)[n.link], old(home)[n.layoutLink];
              a in rings && b in rings && a != b
              && rings == old(rings)[a := Drop<Link>(old(rings)[a], n.link)][b := Drop<Link>(old(rings)[b], n.layoutLink)]
    {
      TwoHomes(n);
      ghost var was := home;
      UnhookBoth(n.link, n.layoutLink);
      forall l | l in home ensures Paired(l) {
        assert l in was && old(Paired(l));
      }
      forall c | c in controllers ensures HasLists(c) {
        assert old(HasLists(c));
      }
    }

    /** Both halves of a new notification go to the heads of their lists. */
    method HookBoth(a: Link, x: Link, h: Link, y: Link)
      requires ListsOk() && a in rings && h in rings && a != h && x != y && x !in home && y !in home
      requires x.noti != null && y.noti != null && x.layout == a.layout && y.layout == h.layout
      modifies this`rings, this`home, rings.Keys, home.Keys, x, y
      ensures ListsOk() && home == old(home)[x := a][y := h]
      ensures rings == old(rings)[a := [x] + old(rings)[a]][h := [y] + old(rings)[h]]
    {
      Hook(a, x);
      Hook(h, y);
    }

    /** A fresh notification is put on both its lists. */
    method Attach(n: Notification, a: Link, h: Link)
      requires Valid() && a in rings && h in rings && !a.layout && h.layout
      requires n.link != null && n.layoutLink != null && n.link !in home && n.layoutLink !in home
      requires n.link.noti == n && n.layoutLink.noti == n && !n.link.layout && n.layoutLink.layout
      requires n.resource in controllers
      requires a == n.resource.surfaceNotifications || a == n.resource.layerNotifications
      modifies this`rings, this`home, this`notis, rings.Keys, home.Keys, n.link, n.layoutLink
      ensures Valid() && notis == old(notis) + {n}
      ensures rings == old(rings)[a := [n.link] + old(rings)[a]][h := [n.layoutLink] + old(rings)[h]]
    {
      notis := notis + {n};
      ghost var was := home;
      HookBoth(a, n.link, h, n.layoutLink);
      forall l | l in home ensures Paired(l) {
        if l in was {
          assert old(Paired(l));
        }
      }
      forall d | d in controllers ensures HasLists(d) {
        assert old(HasLists(d));
      }
    }

    /** IVI_WM_SYNC_ADD: a new notification at the head of both lists, whether
        or not the controller already watches the object. */
    method SyncAdd(c: Controller, a: Link, h: Link) returns (n: Notification)
      requires Valid() && c in controllers && (a == c.surfaceNotifications || a == c.layerNotifications)
      requires h in rings && h.layout
      modifies this`rings, this`home, this`notis, rings.Keys, home.Keys
      ensures Valid() && a in old(rings) && fresh(n) && n.resource == c && n.link != null && n.layoutLink != null
      ensures rings == old(rings)[a := [n.link] + old(rings)[a]][h := [n.layoutLink] + old(rings)[h]]
      ensures Subscribers(h) == [c] + old(Subscribers(h))
      ensures multiset(Subscribers(h)) == multiset(old(Subscribers(h))) + multiset{c}
      ensures controllers == old(controllers)
    {
      assert HasLists(c);
      n := new Notification(c);
      Attach(n, a, h);
    }

    /** The controllers watching object `h`, in list order. */
    ghost function Subscribers(h: Link): seq<Controller>
      requires ListsOk() && h in rings
      reads this, Links()
    {
      assert Houses(rings, home, h);
      assert Ring(h, rings[h]);
      Watchers(rings[h])
    }

    /** send_surface_prop and send_layer_prop: one delivery per notification on
        the object's list, each to a controller that is still bound. */
    method SendProp(h: Link) returns (delivered: seq<Controller>)
      requires Valid() && h in rings
      ensures delivered == Subscribers(h)
      ensures forall c :: c in delivered ==> c in controllers
    {
      ghost var ls := rings[h];
      assert Ring(h, ls);
      delivered := [];
      ghost var i := 0;
      assert Cyc(h, ls, 0).next == Cyc(h, ls, 1);
      var pos := h.next;
      while pos != h
        invariant 0 <= i <= |ls| && pos == Cyc(h, ls, i + 1)
        invariant delivered == Watchers(ls)[..i]
        invariant forall c :: c in delivered ==> c in controllers
        decreases |ls| - i
      {
        assert pos == ls[i] && pos in ls;
        HomeOf(rings, home, h, pos);
        assert Paired(pos);
        delivered := delivered + [pos.noti.resource];
        assert Cyc(h, ls, i + 1).next == Cyc(h, ls, i + 2);
        i := i + 1;
        pos := pos.next;
      }
    }

    /** The search loop of IVI_WM_SYNC_REMOVE: the first notification of `c`
        on the object's list. */
    method FindNotification(c: Controller, h: Link) returns (n: Notification?, ghost i: nat)
      requires Valid() && h in rings
      ensures i <= |rings[h]| && (n == null <==> i == |rings[h]|)
      ensures n != null ==> OnBoth(n) && rings[h][i].noti == n && n.resource == c
      ensures forall j :: 0 <= j < i ==> rings[h][j].noti != null && rings[h][j].noti.resource != c
    {
      ghost var ls := rings[h];
      assert Ring(h, ls);
      i := 0;
      assert Cyc(h, ls, 0).next == Cyc(h, ls, 1);
      var pos := h.next;
      while pos != h
        invariant 0 <= i <= |ls| && pos == Cyc(h, ls, i + 1)
        invariant forall j :: 0 <= j < i ==> ls[j].noti != null && ls[j].noti.resource != c
        decreases |ls| - i
      {
        assert pos == ls[i] && pos in ls;
        HomeOf(rings, home, h, pos);
        assert Paired(pos);
        if pos.noti.resource == c {
          return pos.noti, i;
        }
        assert Cyc(h, ls, i + 1).next == Cyc(h, ls, i + 2);
        i := i + 1;
        pos := pos.next;
      }
      n := null;
    }

    /** The notification found first is taken off both its lists. */
    method RemoveFound(n: Notification, h: Link, ghost i: nat)
      requires Valid() && h in rings && h.layout && i < |rings[h]| && OnBoth(n) && rings[h][i].noti == n
      requires forall j :: 0 <= j < i ==> rings[h][j].noti != null && rings[h][j].noti.resource != n.resource
      modifies this`rings, this`home, rings.Keys, home.Keys
      ensures Valid() && home == old(home) - {n.link, n.layoutLink}
      ensures rings == Without(Without(old(rings), old(home), n.link), old(home), n.layoutLink)
      ensures rings.Keys == old(rings.Keys) && Subscribers(h) == Drop(old(Subscribers(h)), n.resource)
      ensures forall g :: g in rings && g != h && g != n.resource.surfaceNotifications && g != n.resource.layerNotifications ==>
                rings[g] == old(rings)[g]
    {
      ghost var ls := rings[h];
      assert Ring(h, ls) && ls[i] in ls && Houses(rings, home, h);
      assert Paired(ls[i]);
      WatchersDrop(ls, i);
      TwoHomes(n);
      Detach(n);
    }

    /** IVI_WM_SYNC_REMOVE: that notification `n` goes from both its lists, if
        there is one; nothing else moves, and no list of another controller
        or object is touched. */
    method SyncRemove(c: Controller, h: Link) returns (ghost n: Notification?)
      requires Valid() && h in rings && h.layout
      modifies this`rings, this`home, rings.Keys, home.Keys
      ensures Valid() && rings.Keys == old(rings.Keys) && Subscribers(h) == Drop(old(Subscribers(h)), c)
      ensures n == null <==> c !in old(Subscribers(h))
      ensures n == null ==> rings == old(rings) && home == old(home)
      ensures n != null ==>
                n.resource == c && n.link != null && n.layoutLink != null
                && rings == Without(Without(old(rings), old(home), n.link), old(home), n.layoutLink)
      ensures forall g :: g in rings && g != h && g != c.surfaceNotifications && g != c.layerNotifications ==>
                rings[g] == old(rings)[g]
    {
      ghost var cs := Subscribers(h);
      var found, i := FindNotification(c, h);
      n := found;
      if found == null {
        NotThere(cs, c);
      } else {
        assert cs[i] == c;
        RemoveFound(found, h, i);
      }
    }

    /** How often controller `c` watches object `h`. */
    ghost function Times(h: Link, c: Controller): nat
      requires ListsOk() && h in rings
      reads this, Links()
    {
      multiset(Subscribers(h))[c]
    }

    /** SYNC_REMOVE as one subscription less. */
    method Unsubscribe(c: Controller, h: Link)
      requires Valid() && h in rings && h.layout
      modifies this`rings, this`home, rings.Keys, home.Keys
      ensures Valid() && h in rings
      ensures Times(h, c) == if old(Times(h, c)) > 0 then old(Times(h, c)) - 1 else 0
    {
      DropCount(Subscribers(h), c);
      ghost var n := SyncRemove(c, h);
    }

    /** SYNC_ADD as one subscription more. */
    method Subscribe(c: Controller, a: Link, h: Link)
      requires Valid() && c in controllers && (a == c.surfaceNotifications || a == c.layerNotifications)
      requires h in rings && h.layout
      modifies this`rings, this`home, this`notis, rings.Keys, home.Keys
      ensures Valid() && h in rings && Times(h, c) == old(Times(h, c)) + 1
    {
      assert HasLists(c);
      var n := SyncAdd(c, a, h);
    }

    lemma {:induction false} NotThere(cs: seq<Controller>, c: Controller)
      requires forall j :: 0 <= j < |cs| ==> cs[j] != c
      ensures Drop(cs, c) == cs
    {
      if cs != [] {
        NotThere(cs[1..], c);
      }
    }

    // ---------- clearing a list ----------

    /** The other half of the notification that `l` belongs to. */
    ghost function Mate(l: Link): Link?
      requires l.noti != null
      reads l.noti
    {
      if l.layout then l.noti.link else l.noti.layoutLink
    }

    /** Links whose other half is on list `r`. */
    ghost predicate MateOn(l: Link, r: Link)
      reads this, l.noti
    {
      l.noti != null && Mate(l) != null && Mate(l) in home && home[Mate(l)] == r
    }

    ghost function Mates(r: Link): set<Link>
      reads this, set l | l in home :: l.noti
    {
      set l | l in home && MateOn(l, r)
    }

    /** One round of a clearing loop; the successor is read first, as
        wl_list_for_each_safe does. */
    method ClearOne(r: Link, pos: Link) returns (next: Link)
      requires Valid() && r in rings && rings[r] != [] && pos == rings[r][0]
      modifies this`rings, this`home, rings.Keys, home.Keys
      ensures Valid() && rings.Keys == old(rings.Keys)
      ensures rings[r] == old(rings)[r][1..] && next == Cyc(r, rings[r], 1)
      ensures pos in old(home) && old(home)[pos] == r && MateHalf(pos) && Mate(pos) in old(home)
      ensures home == old(home) - {pos, Mate(pos)}
      ensures forall g :: g in rings && g != r ==>
                rings[g] == old(rings)[g]
                || (g.layout != r.layout && rings[g] == Drop<Link>(old(rings)[g], Mate(pos)))
    {
      ghost var ls := rings[r];
      assert Ring(r, ls) && pos in ls;
      HomeOf(rings, home, r, pos);
      assert Paired(pos);
      var n := pos.noti;
      assert Cyc(r, ls, 1).next == Cyc(r, ls, 2);
      next := pos.next;
      TwoHomes(n);
      Detach(n);
      assert Drop(ls, pos) == ls[1..];
    }

    /** `l` is one of the two halves of its notification. */
    ghost predicate MateHalf(l: Link)
      reads l.noti
    {
      l.noti != null && l.noti.link != null && l.noti.layoutLink != null
      && l.noti.link.noti == l.noti && l.noti.layoutLink.noti == l.noti
      && !l.noti.link.layout && l.noti.layoutLink.layout
      && l == if l.layout then l.noti.layoutLink else l.noti.link
    }

    lemma NoMatesLeft(r: Link, g: Link)
      requires Valid() && r in rings && rings[r] == [] && g in rings
      ensures forall l :: l in rings[g] ==> l in home && MateHalf(l) && Mate(l) in home && home[Mate(l)] != r
    {
      forall l | l in rings[g] ensures l in home && MateHalf(l) && Mate(l) in home && home[Mate(l)] != r {
        HomeOf(rings, home, g, l);
        assert Paired(l);
        HomeOf(rings, home, r, Mate(l));
      }
    }

    /** clear_notification_list, and the removal loops for surfaces and layers:
        every notification on list `r` leaves both its lists. */
    method ClearRing(r: Link)
      requires Valid() && r in rings
      modifies this`rings, this`home, rings.Keys, home.Keys
      ensures Valid() && rings.Keys == old(rings.Keys) && rings[r] == []
      ensures forall g :: g in rings && g != r && g.layout == r.layout ==> rings[g] == old(rings)[g]
      ensures forall g :: g in rings && g.layout != r.layout ==> rings[g] == Keep(old(rings)[g], old(Mates(r)))
      ensures forall l :: l in home ==> l in old(home) && home[l] == old(home)[l]
    {
      ghost var gone := Mates(r);
      assert Ring(r, rings[r]);
      assert Cyc(r, rings[r], 0).next == Cyc(r, rings[r], 1);
      var pos := r.next;
      while pos != r
        invariant Valid() && rings.Keys == old(rings.Keys)
        invariant Ring(r, rings[r]) && pos == Cyc(r, rings[r], 1)
        invariant home.Keys <= old(home.Keys)
        invariant forall g :: g in rings && g != r && g.layout == r.layout ==> rings[g] == old(rings)[g]
        invariant forall g :: g in rings && g.layout != r.layout ==> Keep(rings[g], gone) == Keep(old(rings)[g], gone)
        invariant forall l :: l in home ==> l in old(home) && home[l] == old(home)[l]
        decreases |rings[r]|
      {
        ghost var before, x := rings, pos;
        pos := ClearOne(r, pos);
        ghost var y: Link := Mate(x);
        assert y in gone;
        forall g | g in rings && g.layout != r.layout ensures Keep(rings[g], gone) == Keep(before[g], gone) {
          KeepDrop(before[g], y, gone);
        }
        assert Ring(r, rings[r]);
      }
      forall g | g in rings && g.layout != r.layout ensures rings[g] == Keep(old(rings)[g], gone) {
        NoMatesLeft(r, g);
        KeepAll(rings[g], gone);
      }
    }

    /** The list head of an object or controller that goes away. */
    method Retire(h: Link)
      requires Valid() && h in rings && rings[h] == []
      requires forall c :: c in controllers ==> h != c.surfaceNotifications && h != c.layerNotifications
      modifies this`rings
      ensures Valid() && rings == old(rings) - {h}
    {
      RemoveHead(rings, home, h);
      rings := rings - {h};
      forall g | g in rings ensures Houses(rings, home, g) && Ring(g, rings[g]) {
        assert old(Ring(g, rings[g]));
      }
      forall l | l in home ensures Paired(l) {
        assert old(Paired(l));
      }
      forall c | c in controllers ensures HasLists(c) {
        assert old(HasLists(c));
      }
    }

    /** layer_event_remove and remove_common_surface: the object and every
        notification on it are gone, all other objects keep their watchers. */
    method RemoveObject(h: Link)
      requires Valid() && h in rings && h.layout
      modifies this`rings, this`home, rings.Keys, home.Keys
      ensures Valid() && rings.Keys == old(rings.Keys) - {h}
      ensures forall g :: g in rings && g.layout ==> rings[g] == old(rings)[g]
      ensures forall g :: g in rings && !g.layout ==> rings[g] == Keep(old(rings)[g], old(Mates(h)))
    {
      ClearRing(h);
      forall c | c in controllers ensures h != c.surfaceNotifications && h != c.layerNotifications {
        assert HasLists(c);
      }
      Retire(h);
    }

    /** The two clear_notification_list calls of unbind_resource_controller. */
    method ClearController(c: Controller)
      requires Valid() && c in controllers
      modifies this`rings, this`home, rings.Keys, home.Keys
      ensures Valid() && rings.Keys == old(rings.Keys) && c.surfaceNotifications in rings && c.layerNotifications in rings
      ensures rings[c.surfaceNotifications] == [] && rings[c.layerNotifications] == []
      ensures forall g :: g in rings && g.layout ==>
                rings[g] == Keep(old(rings)[g], old(MatesOf(c)))
      ensures forall g :: g in rings && !g.layout && g != c.surfaceNotifications && g != c.layerNotifications ==>
                rings[g] == old(rings)[g]
    {
      assert HasLists(c);
      ghost var rings0 := rings;
      ghost var one, other := Mates(c.layerNotifications), Mates(c.surfaceNotifications);
      ClearRing(c.layerNotifications);
      ghost var rings1 := rings;
      ghost var two := Mates(c.surfaceNotifications);
      forall g | g in rings && g.layout ensures Keep(rings[g], two) == Keep(rings0[g], one + other) {
        forall l | l in rings[g] ensures l in two <==> l in other {
          HomeOf(rings, home, g, l);
          assert Paired(l);
        }
        KeepSame(rings[g], two, other);
        KeepTwice(rings0[g], one, other);
      }
      ClearRing(c.surfaceNotifications);
    }

    ghost function MatesOf(c: Controller): set<Link>
      reads this, set l | l in home :: l.noti
    {
      Mates(c.layerNotifications) + Mates(c.surfaceNotifications)
    }

    /** On an object's list, the links whose mates hang off controller `c` are
        those of its own notifications. */
    lemma OwnMates(c: Controller, g: Link)
      requires Valid() && c in controllers && g in rings && g.layout
      ensures forall l :: l in rings[g] ==> l.noti != null && (l in MatesOf(c) <==> l.noti.resource == c)
    {
      assert HasLists(c);
      forall l | l in rings[g] ensures l.noti != null && (l in MatesOf(c) <==> l.noti.resource == c) {
        assert Ring(g, rings[g]);
        HomeOf(rings, home, g, l);
        assert Paired(l);
        assert HasLists(l.noti.resource);
      }
    }

    /** A controller whose lists are empty can be forgotten. */
    method DropController(c: Controller)
      requires Valid() && c in controllers && c.surfaceNotifications in rings && c.layerNotifications in rings
      requires rings[c.surfaceNotifications] == [] && rings[c.layerNotifications] == []
      modifies this`rings, this`controllers
      ensures Valid() && controllers == old(controllers) - {c}
      ensures rings == old(rings) - {c.surfaceNotifications, c.layerNotifications}
    {
      assert HasLists(c);
      forall l | l in home ensures Paired(l) && l.noti.resource != c {
        assert Paired(l);
        assert Housed(rings, home, l.noti.link);
      }
      controllers := controllers - {c};
      forall l | l in home ensures Paired(l) {
        assert old(Paired(l));
      }
      forall d | d in controllers
        ensures HasLists(d) && {d.surfaceNotifications, d.layerNotifications} !! {c.surfaceNotifications, c.layerNotifications}
      {
        assert old(HasLists(d));
      }
      Retire(c.surfaceNotifications);
      Retire(c.layerNotifications);
      assert rings == old(rings) - {c.surfaceNotifications, c.layerNotifications};
    }

    /** unbind_resource_controller: every notification of the controller leaves
        both its lists, on every object the other watchers stay in order, and
        the controller itself is gone, so no later delivery can reach it. */
    method Unbind(c: Controller)
      requires Valid() && c in controllers
      modifies this`rings, this`home, this`controllers, rings.Keys, home.Keys
      ensures Valid() && controllers == old(controllers) - {c}
      ensures rings.Keys == old(rings.Keys) - {c.surfaceNotifications, c.layerNotifications}
      ensures forall g :: g in rings && g.layout ==> Subscribers(g) == Others(old(Subscribers(g)), c)
      ensures forall g :: g in rings && !g.layout ==> rings[g] == old(rings)[g]
    {
      assert HasLists(c);
      ghost var gone := MatesOf(c);
      forall g | g in rings && g.layout
        ensures (forall l :: l in rings[g] ==> l.noti != null)
        ensures Watchers(Keep(rings[g], gone)) == Others(Subscribers(g), c)
      {
        OwnMates(c, g);
        WatchersKeep(rings[g], gone, c);
      }
      ClearController(c);
      DropController(c);
    }
  }

  lemma {:induction false} KeepSame(ls: seq<Link>, a: set<Link>, b: set<Link>)
    requires forall l :: l in ls ==> (l in a <==> l in b)
    ensures Keep(ls, a) == Keep(ls, b)
  {
    if ls != [] {
      KeepSame(ls[1..], a, b);
    }
  }
}