/** Property notifications in place: the objects behind `Callbacks.Step`, with the
    server's subscriptions kept on its notification lists (ivi-controller.c) and
    the client's context as the listeners update it
    (ilm_control_wayland_platform.c). */
module PropertyChannel {
  import opened WlList
  import opened Callbacks
  import N = Notifications

  /** One property group of a surface_context or layer_context. `listed` says
      whether the context exists. */
  class PropertyContext<T(==)> {
    const zero: T
    var listed: bool
    var cached: T
    var registered: bool
    var calls: seq<T>

    function Abs(): Client<T>
      reads this
    {
      Client(if listed then Listed(cached, registered) else Unlisted, calls)
    }

    constructor (zero: T)
      ensures this.zero == zero && Abs() == Client(Unlisted, [])
    {
      this.zero, listed, cached, registered, calls := zero, false, zero, false, [];
    }

    /** create_surface_context: everything zero. */
    method Start()
      modifies this
      ensures Abs() == old(Abs()).(context := Listed(zero, false))
    {
      listed, cached, registered := true, zero, false;
    }

    /** wm_listener_surface_visibility and its siblings. */
    method Listener(v: T)
      modifies this
      ensures Abs() == Hear(zero, old(Abs()), Value(v))
    {
      if !listed {
        return;
      }
      if cached == v {
        return;
      }
      cached := v;
      if registered {
        calls := calls + [v];
      }
    }

    /** One event of the queue. */
    method Dispatch(e: Event<T>)
      modifies this
      ensures Abs() == Hear(zero, old(Abs()), e)
    {
      match e
      case Created =>
        if !listed {
          Start();
        }
      case Destroyed =>
        listed := false;
      case Value(v) =>
        Listener(v);
    }
  }

  /** One object of the server `shell` as the client bound as `me` sees it. The
      object's list head is `head` while it exists; `queue` is on its way to the
      client. */
  class Channel<T(==)> {
    const layer: bool
    const shell: N.Shell
    const me: N.Controller
    const context: PropertyContext<T>
    var head: N.Link?
    var value: T
    var queue: seq<Event<T>>

    ghost predicate Valid()
      reads this, shell, shell.Links(), shell.notis
    {
      && shell.Valid() && me in shell.controllers
      && (head != null ==> head in shell.rings && head.layout)
    }

    /** How often the client is on the object's list. */
    ghost function Subs(): nat
      requires Valid()
      reads this, shell, shell.Links(), shell.notis
    {
      if head == null then 0 else shell.Times(head, me)
    }

    ghost function Abs(): State<T>
      requires Valid()
      reads this, context, shell, shell.Links(), shell.notis
    {
      State(context.zero, layer, if head == null then None else Some(value), Subs(), queue, context.Abs())
    }

    constructor (shell: N.Shell, me: N.Controller, layer: bool, zero: T)
      requires shell.Valid() && me in shell.controllers
      ensures Valid() && Abs() == Init(zero, layer)
      ensures this.shell == shell && this.me == me && fresh(context)
    {
      this.shell, this.me, this.layer := shell, me, layer;
      context := new PropertyContext(zero);
      head, value, queue := null, zero, [];
    }

    method Create(v: T)
      requires Valid()
      modifies this`head, this`value, this`queue, shell`rings
      ensures Valid() && Abs() == Step(old(Abs()), Op.Create(v))
    {
      if head == null {
        head := shell.CreateObject();
        value := v;
        queue := queue + [Created];
      }
    }

    method Destroy()
      requires Valid()
      modifies this`head, this`queue, shell`rings, shell`home, shell.rings.Keys, shell.home.Keys
      ensures Valid() && Abs() == Step(old(Abs()), Op.Destroy)
    {
      if head != null {
        shell.RemoveObject(head);
        head := null;
        queue := queue + [Destroyed];
      }
    }

    /** The loop of send_surface_prop: one event per entry of the object's list;
        those of other controllers go elsewhere. */
    method Send(watchers: seq<N.Controller>, v: T)
      modifies this`queue
      ensures queue == old(queue) + Copies(Value(v), multiset(watchers)[me])
    {
      var i := 0;
      while i < |watchers|
        invariant i <= |watchers|
        invariant queue == old(queue) + Copies(Value(v), multiset(watchers[..i])[me])
      {
        assert watchers[..i + 1] == watchers[..i] + [watchers[i]];
        if watchers[i] == me {
          queue := queue + [Value(v)];
        }
        i := i + 1;
      }
      assert watchers[..i] == watchers;
    }

    method Change(v: T)
      requires Valid()
      modifies this`value, this`queue
      ensures Valid() && Abs() == Step(old(Abs()), Op.Change(v))
    {
      if head != null {
        value := v;
        var watchers := shell.SendProp(head);
        Send(watchers, v);
      }
    }

    method Deliver()
      requires Valid()
      modifies this`queue, context
      ensures Valid() && Abs() == Step(old(Abs()), Op.Deliver)
    {
      if queue != [] {
        var e := queue[0];
        queue := queue[1..];
        context.Dispatch(e);
      }
    }

    /** wl_display_roundtrip_queue. */
    method Roundtrip()
      requires Valid()
      modifies this`queue, context
      ensures Valid() && Abs() == Settle(old(Abs()))
    {
      while queue != []
        invariant Valid() && Abs().(queue := [], client := Client(Unlisted, []))
                             == old(Abs()).(queue := [], client := Client(Unlisted, []))
        invariant HearAll(context.zero, context.Abs(), queue) == HearAll(context.zero, old(context.Abs()), old(queue))
        decreases |queue|
      {
        Deliver();
      }
    }

    /** ilm_getPropertiesOfSurface: the answer comes last. */
    method Get()
      requires Valid()
      modifies this`queue, context
      ensures Valid() && Abs() == Step(old(Abs()), Op.Get)
    {
      Roundtrip();
      if head != null {
        context.Listener(value);
      }
    }

    /** SYNC_ADD; an error if the object does not exist. */
    method SyncAdd()
      requires Valid()
      modifies shell`rings, shell`home, shell`notis, shell.rings.Keys, shell.home.Keys
      ensures Valid() && Subs() == old(Subs()) + if head == null then 0 else 1
    {
      if head != null {
        shell.Subscribe(me, if layer then me.layerNotifications else me.surfaceNotifications, head);
      }
    }

    /** SYNC_REMOVE; an error if the object does not exist. */
    method SyncRemove()
      requires Valid()
      modifies shell`rings, shell`home, shell.rings.Keys, shell.home.Keys
      ensures Valid() && Subs() == if old(Subs()) > 0 then old(Subs()) - 1 else 0
    {
      if head != null {
        shell.Unsubscribe(me, head);
      }
    }

    method Register(callback: bool)
      requires Valid() && context.listed
      modifies context
      ensures Valid() && Abs() == SetCallback(old(Abs()), callback)
    {
      context.registered := callback;
    }

    /** ilm_surfaceAddNotification and ilm_layerAddNotification after their first
        roundtrip. */
    method AddSettled(callback: bool)
      requires Valid()
      modifies context, shell`rings, shell`home, shell`notis, shell.rings.Keys, shell.home.Keys
      ensures Valid() && Abs() == AddOn(old(Abs()), callback)
    {
      if context.listed {
        if layer || callback {
          SyncAdd();
        }
        Register(callback);
      } else if !layer && callback {
        context.Start();
        Register(callback);
      }
    }

    method AddNotification(callback: bool)
      requires Valid()
      modifies this`queue, context, shell`rings, shell`home, shell`notis, shell.rings.Keys, shell.home.Keys
      ensures Valid() && Abs() == Step(old(Abs()), Op.Add(callback))
    {
      Roundtrip();
      AddSettled(callback);
    }

    /** ilm_surfaceRemoveNotification, ilm_layerRemoveNotification. */
    method RemoveNotification()
      requires Valid()
      modifies this`queue, context, shell`rings, shell`home, shell.rings.Keys, shell.home.Keys
      ensures Valid() && Abs() == Step(old(Abs()), Op.Remove)
    {
      Roundtrip();
      if context.listed && context.registered {
        SyncRemove();
        Register(false);
      }
    }
  }
}
