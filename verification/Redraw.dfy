/** The redraw scheduler of the EGL example client (window.c): a list of deferred
    tasks, two flags and at most one frame callback per window. */
module Redraw {
  import opened WlList

  class Window {
    /** redraw_needed, redraw_scheduled and p_frame_cb. */
    var needed: bool
    var scheduled: bool
    var frameCb: Option<nat>
    /** A redraw was requested since the last one began, other than by the
        window's own redraw handler. */
    ghost var requested: bool

    constructor ()
      ensures !needed && !scheduled && frameCb.None? && !requested
    {
      needed, scheduled, frameCb, requested := false, false, None, false;
    }
  }

  /** What a redraw handler does: the windows it schedules in its k-th run. */
  type Handler = (Window, nat) -> seq<Window>

  datatype Event = Frame(cb: nat) | Request(w: Window) | Exit

  class Display {
    ghost var windows: set<Window>
    /** deferred_list, first element first. */
    var deferred: seq<Window>
    /** Frame callbacks the compositor still has to fire, with their listener data. */
    var callbacks: map<nat, Window>
    var nextCb: nat
    var runs: nat
    var running: bool
    /** Windows in the order their tasks were deferred, and in the order their
        tasks were run. */
    ghost var deferrals: seq<Window>
    ghost var started: seq<Window>
    /** Events in the order they were dispatched. */
    ghost var dispatched: seq<Event>

    /** Where one window stands; `current` is the window whose task is running,
        and the needed flag of `odd` may be out of step. */
    ghost predicate Placed(w: Window, odd: Option<Window>, current: Option<Window>)
      reads this`deferred, this`callbacks, w
    {
      && (w.scheduled <==> w in deferred || w.frameCb.Some? || current == Some(w))
      && !(w in deferred && w.frameCb.Some?)
      && (current == Some(w) ==> w !in deferred && w.frameCb.None? && !w.requested)
      && (odd == Some(w) || current == Some(w) || (w.needed <==> w.requested))
      && (odd == Some(w) || (w.needed ==> w.scheduled))
      && (w.frameCb.Some? ==> w.frameCb.value in callbacks && callbacks[w.frameCb.value] == w)
    }

    ghost predicate ValidBut(odd: Option<Window>, current: Option<Window>)
      reads this`windows, this`deferred, this`callbacks, this`nextCb, this`deferrals, this`started, this`runs, windows
    {
      && NoDup(deferred)
      && (forall w :: w in deferred ==> w in windows)
      && (current.Some? ==> current.value in windows)
      && (forall w {:trigger Placed(w, odd, current)} :: w in windows ==> Placed(w, odd, current))
      && (forall cb :: cb in callbacks ==> cb < nextCb && callbacks[cb] in windows && callbacks[cb].frameCb == Some(cb))
      && deferrals == started + Reverse(deferred)
      && runs == |started|
    }

    ghost predicate Valid(current: Option<Window>)
      reads this`windows, this`deferred, this`callbacks, this`nextCb, this`deferrals, this`started, this`runs, windows
    {
      ValidBut(None, current)
    }

    constructor ()
      ensures Valid(None) && windows == {} && started == [] && dispatched == []
    {
      windows, deferred, callbacks, nextCb, runs, running := {}, [], map[], 0, 0, false;
      deferrals, started, dispatched := [], [], [];
    }

    /** CreateEglWindow. */
    method CreateWindow() returns (w: Window)
      requires Valid(None)
      modifies this
      ensures Valid(None) && fresh(w) && windows == old(windows) + {w}
      ensures deferred == old(deferred) && started == old(started) && callbacks == old(callbacks)
    {
      w := new Window();
      forall x | x in windows ensures Placed(x, None, None) {
        assert old(Placed(x, None, None));
      }
      windows := windows + {w};
      assert forall x :: x in old(windows) ==> old(Placed(x, None, None));
    }

    /** WindowScheduleRedraw; the request counts unless it comes from the
        window's own handler. */
    method ScheduleRedraw(w: Window, ghost current: Option<Window>)
      requires ValidBut(Some(w), current) && w in windows
      modifies this`deferred, this`deferrals, w
      ensures Valid(current) && w.needed && w.scheduled && w.frameCb == old(w.frameCb)
      ensures w.requested == (old(w.requested) || current != Some(w))
      ensures deferred == if old(w.scheduled) then old(deferred) else [w] + old(deferred)
      ensures deferrals == if old(w.scheduled) then old(deferrals) else old(deferrals) + [w]
    {
      assert Placed(w, Some(w), current);
      w.needed := true;
      if !w.scheduled {
        NoDupCons(w, deferred);
        assert Reverse([w] + deferred) == Reverse(deferred) + [w];
        deferred := [w] + deferred;
        deferrals := deferrals + [w];
        w.scheduled := true;
      }
      if current != Some(w) {
        w.requested := true;
      }
      forall x | x in windows && x != w ensures Placed(x, None, current) {
        assert old(Placed(x, Some(w), current));
      }
    }

    /** One window may be out of step, so all may be in step. */
    lemma Relax(w: Window, current: Option<Window>)
      requires Valid(current)
      ensures ValidBut(Some(w), current)
    {
      forall x | x in windows ensures Placed(x, Some(w), current) {
        assert Placed(x, None, current);
      }
    }

    /** Requests of a handler can only name windows of this display. */
    ghost predicate Scripted(handler: Handler)
      reads this`windows
    {
      forall w, k :: w in windows ==> forall x :: x in handler(w, k) ==> x in windows
    }

    /** The call of redraw_handler. */
    method RunHandler(w: Window, asked: seq<Window>)
      requires Valid(Some(w)) && forall x :: x in asked ==> x in windows
      modifies this`deferred, this`deferrals, windows
      ensures Valid(Some(w)) && old(deferrals) <= deferrals
      ensures forall x :: x in windows ==> x.frameCb == old(x.frameCb)
      ensures forall x :: x in deferred ==> x in old(deferred) || x in asked
      ensures forall x :: x in windows && x != w ==> x.requested == (old(x.requested) || x in asked)
    {
      var i := 0;
      while i < |asked|
        invariant i <= |asked| && Valid(Some(w)) && old(deferrals) <= deferrals
        invariant forall x :: x in windows ==> x.frameCb == old(x.frameCb)
        invariant forall x :: x in deferred ==> x in old(deferred) || x in asked
        invariant forall x :: x in windows && x != w ==> x.requested == (old(x.requested) || x in asked[..i])
      {
        Relax(asked[i], Some(w));
        ScheduleRedraw(asked[i], Some(w));
        i := i + 1;
      }
      assert asked[..i] == asked;
    }

    /** idle_redraw, for a task that has just left the list. */
    method IdleRedraw(w: Window, handler: Handler)
      requires Valid(Some(w)) && Scripted(handler)
      modifies this`deferred, this`deferrals, this`callbacks, this`nextCb, windows
      ensures Valid(None)
      ensures old(deferrals) <= deferrals
      ensures w.frameCb.Some? && !w.needed && !w.requested
      ensures forall x :: x in windows && x != w ==> x.frameCb == old(x.frameCb)
      ensures forall x :: x in deferred ==> x in old(deferred) || x in handler(w, runs)
      ensures forall x :: x in windows && x != w ==> x.requested == (old(x.requested) || x in handler(w, runs))
    {
      RunHandler(w, handler(w, runs));
      assert Placed(w, None, Some(w));
      label Handled:
      w.needed := false;
      w.frameCb := Some(nextCb);
      callbacks := callbacks[nextCb := w];
      nextCb := nextCb + 1;
      forall x | x in windows && x != w ensures Placed(x, None, None) {
        assert old@Handled(Placed(x, None, Some(w)));
      }
    }

    /** Windows whose task could still be run before the next frame. */
    ghost function Ready(): set<Window>
      reads this, windows
    {
      set w | w in windows && w.frameCb.None?
    }

    /** Takes the task at the end of the list. */
    method TakeTask() returns (w: Window)
      requires Valid(None) && deferred != []
      modifies this`deferred, this`started, this`runs, windows
      ensures Valid(Some(w)) && w == old(deferred)[|old(deferred)| - 1] && started == old(started) + [w]
      ensures forall x :: x in windows ==> x.frameCb == old(x.frameCb) && (x != w ==> x.requested == old(x.requested))
    {
      var last := |deferred| - 1;
      w := deferred[last];
      assert Placed(w, None, None);
      TakeLast(deferred);
      ReverseFront(deferred);
      deferred := deferred[..last];
      started := started + [w];
      runs := runs + 1;
      w.requested := false;
      forall x | x in windows && x != w ensures Placed(x, None, Some(w)) {
        assert old(Placed(x, None, None));
      }
    }

    /** The drain loop of DisplayRun: whatever the handlers ask for, it ends after
        running each window at most once, tasks run in the order they were
        deferred, and what is still to be redrawn then waits for a frame. */
    method Drain(handler: Handler)
      requires Valid(None) && Scripted(handler)
      modifies this`deferred, this`deferrals, this`started, this`runs, this`callbacks, this`nextCb, windows
      ensures Valid(None) && deferred == []
      ensures old(started) <= started && old(deferrals) <= deferrals == started
      ensures NoDup(started[|old(started)|..])
      ensures forall w :: w in windows ==>
                if w in started[|old(started)|..] then old(w.frameCb).None? && w.frameCb.Some?
                else w.frameCb == old(w.frameCb)
      ensures forall w :: w in windows && w.requested ==> w.frameCb.Some?
    {
      ghost var batch: seq<Window> := [];
      while deferred != []
        invariant Valid(None) && Scripted(handler)
        invariant started == old(started) + batch && old(deferrals) <= deferrals
        invariant NoDup(batch)
        invariant forall w :: w in windows ==> if w in batch then old(w.frameCb).None? && w.frameCb.Some?
                                               else w.frameCb == old(w.frameCb)
        decreases |Ready()|
      {
        ghost var ready := Ready();
        var w := TakeTask();
        assert w in ready by {
          assert Placed(w, None, Some(w));
        }
        IdleRedraw(w, handler);
        assert Ready() == ready - {w};
        batch := batch + [w];
      }
      forall w | w in windows && w.requested ensures w.frameCb.Some? {
        assert Placed(w, None, None);
      }
    }

    /** frame_callback. The source asserts that the callback is the window's own;
        `assert` below shows that it is. */
    method FrameCallback(cb: nat)
      requires Valid(None) && cb in callbacks
      modifies this`deferred, this`deferrals, this`callbacks, callbacks[cb]
      ensures Valid(None) && callbacks == old(callbacks) - {cb} && old(callbacks[cb]).frameCb.None?
      ensures old(callbacks[cb].frameCb) == Some(cb)
      ensures old(callbacks[cb]).requested == old(callbacks[cb].requested)
      ensures old(deferrals) <= deferrals
      ensures deferred == if old(callbacks[cb].requested) then [old(callbacks[cb])] + old(deferred) else old(deferred)
    {
      var w := callbacks[cb];
      assert Placed(w, None, None);
      assert Some(cb) == w.frameCb;
      callbacks := callbacks - {cb};
      w.frameCb := None;
      w.scheduled := false;
      forall x | x in windows ensures Placed(x, Some(w), None) {
        assert old(Placed(x, None, None));
      }
      if w.needed {
        ScheduleRedraw(w, None);
      }
    }

    /** Delivery of events: the compositor fires only outstanding callbacks. */
    method Dispatch(events: seq<Event>)
      requires Valid(None) && forall e :: e in events && e.Request? ==> e.w in windows
      modifies this`deferred, this`deferrals, this`callbacks, this`running, this`dispatched, windows
      ensures Valid(None) && old(deferrals) <= deferrals && dispatched == old(dispatched) + events
      ensures running == (old(running) && Exit !in events)
      ensures forall w :: w in windows ==> w.requested == (old(w.requested) || Request(w) in events)
      ensures forall cb :: cb in callbacks <==> cb in old(callbacks) && Frame(cb) !in events
      ensures forall w :: w in windows ==> w.frameCb == Unfired(old(w.frameCb), events)
    {
      var i := 0;
      while i < |events|
        invariant i <= |events| && Valid(None) && old(deferrals) <= deferrals && dispatched == old(dispatched) + events[..i]
        invariant running == (old(running) && Exit !in events[..i])
        invariant forall w :: w in windows ==> w.requested == (old(w.requested) || Request(w) in events[..i])
        invariant forall cb :: cb in callbacks <==> cb in old(callbacks) && Frame(cb) !in events[..i]
        invariant forall w :: w in windows ==> w.frameCb == Unfired(old(w.frameCb), events[..i])
      {
        assert events[..i + 1] == events[..i] + [events[i]];
        DispatchOne(events[i]);
        i := i + 1;
      }
      assert events[..i] == events;
    }

    method DispatchOne(e: Event)
      requires Valid(None) && (e.Request? ==> e.w in windows)
      modifies this`deferred, this`deferrals, this`callbacks, this`running, this`dispatched, windows
      ensures Valid(None) && old(deferrals) <= deferrals && dispatched == old(dispatched) + [e]
      ensures running == (old(running) && e != Exit)
      ensures forall w :: w in windows ==> w.requested == (old(w.requested) || e == Request(w))
      ensures forall cb :: cb in callbacks <==> cb in old(callbacks) && e != Frame(cb)
      ensures forall w :: w in windows ==> w.frameCb == if old(w.frameCb).Some? && e == Frame(old(w.frameCb).value)
                                                        then None else old(w.frameCb)
    {
      dispatched := dispatched + [e];
      match e {
      case Frame(cb) =>
        forall w | w in windows && w.frameCb == Some(cb) ensures cb in callbacks && callbacks[cb] == w {
          assert Placed(w, None, None);
        }
        if cb in callbacks {
          FrameCallback(cb);
        }
      case Request(w) =>
        Relax(w, None);
        ScheduleRedraw(w, None);
      case Exit =>
        running := false;
      }
    }

    /** Where things stand when a round of DisplayRun begins: the tasks, the windows
        that wait for a frame, and how many tasks have run. */
    ghost function Now(): Moment
      reads this, windows
    {
      Moment(deferred, set w | w in windows && w.frameCb.Some?, |started|)
    }

    /** One round: the tasks, the events of the queue, and unless an Exit was
        dispatched, the events of the polled tasks. */
    method Round(queue: seq<Event>, polled: seq<Event>, handler: Handler) returns (stop: bool, ghost batch: seq<Window>)
      requires Valid(None) && Scripted(handler)
      requires forall e :: (e in queue || e in polled) && e.Request? ==> e.w in windows
      modifies this`deferred, this`deferrals, this`started, this`runs, this`callbacks, this`nextCb, this`running
      modifies this`dispatched, windows
      ensures Valid(None) && old(deferrals) <= deferrals
      ensures started == old(started) + batch && NoDup(batch) && Reverse(old(deferred)) <= batch
      ensures stop == !(old(running) && Exit !in queue)
      ensures dispatched == old(dispatched) + queue + if stop then [] else polled
      ensures !stop ==> running == (Exit !in polled)
      ensures Noted(queue, Now()) && (!stop ==> Noted(polled, Now()))
    {
      ghost var before, pending := started, Reverse(deferred);
      assert deferrals == before + pending;
      Drain(handler);
      batch := started[|before|..];
      assert batch[..|pending|] == pending;
      Dispatch(queue);
      stop := !running;
      if !stop {
        Dispatch(polled);
      }
      forall w | w in windows && w.requested ensures w in deferred || w.frameCb.Some? {
        assert Placed(w, None, None);
      }
    }

    /** DisplayRun over any events: what is dispatched from the queue and what the
        polled tasks dispatch, round by round. `trace` records the beginning of
        every round that is run, and the end. */
    method Run(rounds: seq<(seq<Event>, seq<Event>)>, handler: Handler) returns (ghost trace: seq<Moment>)
      requires Valid(None) && Scripted(handler)
      requires forall r, e :: r in rounds && (e in r.0 || e in r.1) && e.Request? ==> e.w in windows
      modifies this`deferred, this`deferrals, this`started, this`runs, this`callbacks, this`nextCb, this`running
      modifies this`dispatched, windows
      ensures Valid(None) && old(deferrals) <= deferrals
      ensures forall w :: w in windows && w.requested ==> w in deferred || w.frameCb.Some?
      ensures old(started) <= started && trace != [] && trace[0] == old(Now()) && trace[|trace| - 1] == Now()
      ensures Complete(trace, rounds, started, old(dispatched), dispatched)
    {
      running := true;
      trace := [Now()];
      var i := 0;
      assert rounds[0..] == rounds;
      while i < |rounds|
        invariant Valid(None) && Scripted(handler) && old(deferrals) <= deferrals && old(started) <= started
        invariant SoFar(trace, rounds, i, running, started, old(dispatched), dispatched)
        invariant trace[0] == old(Now()) && trace[i] == Now()
      {
        assert rounds[i] in rounds;
        ghost var was, sent, on := started, dispatched, running;
        var stop, batch := Round(rounds[i].0, rounds[i].1, handler);
        OneRound(trace, rounds, i, on, was, batch, old(dispatched), sent, dispatched, Now(), stop);
        trace := trace + [Now()];
        if stop {
          break;
        }
        i := i + 1;
      }
      forall w | w in windows && w.requested ensures w in deferred || w.frameCb.Some? {
        assert Placed(w, None, None);
      }
    }

    /** A request is served: once the frame the window may be waiting for has
        come, the next drain redraws the window. */
    method Serve(w: Window, handler: Handler)
      requires Valid(None) && Scripted(handler) && w in windows && w.requested
      modifies this`deferred, this`deferrals, this`started, this`runs, this`callbacks, this`nextCb, windows
      ensures Valid(None) && old(started) <= started && w in started[|old(started)|..]
    {
      assert Placed(w, None, None);
      if w.frameCb.Some? {
        FrameCallback(w.frameCb.value);
      }
      ghost var before, pending := started, Reverse(deferred);
      assert w in deferred;
      ghost var k :| 0 <= k < |deferred| && deferred[k] == w;
      assert pending[|deferred| - 1 - k] == w;
      assert deferrals == before + pending;
      Drain(handler);
      assert started[|before|..][..|pending|] == pending;
    }
  }

  datatype Moment = Moment(deferred: seq<Window>, waiting: set<Window>, begun: nat)

  /** A frame callback that the events do not fire. */
  function Unfired(cb: Option<nat>, events: seq<Event>): Option<nat> {
    if cb.Some? && Frame(cb.value) in events then None else cb
  }

  /** Rounds that DisplayRun begins: up to the one in which it finds after the
      queue that an Exit was dispatched, there or by the tasks polled before. */
  function Performed(rounds: seq<(seq<Event>, seq<Event>)>, running: bool): nat {
    if rounds == [] then 0
    else if !running || Exit in rounds[0].0 then 1
    else 1 + Performed(rounds[1..], Exit !in rounds[0].1)
  }

  /** The events it dispatches: in the last of these rounds only the queue. */
  function Delivered(rounds: seq<(seq<Event>, seq<Event>)>, running: bool): seq<Event> {
    if rounds == [] then []
    else if !running || Exit in rounds[0].0 then rounds[0].0
    else rounds[0].0 + rounds[0].1 + Delivered(rounds[1..], Exit !in rounds[0].1)
  }

  /** Every round runs the tasks deferred when it begins, in the order they were
      deferred, and each window at most once. */
  ghost predicate TasksRun(trace: seq<Moment>, started: seq<Window>) {
    && (forall k :: 0 <= k < |trace| ==> trace[k].begun <= |started|)
    && (forall k :: 0 <= k < |trace| - 1 ==> BatchRun(trace[k], trace[k + 1], started))
  }

  ghost predicate BatchRun(m: Moment, next: Moment, started: seq<Window>) {
    m.begun <= next.begun <= |started|
    && NoDup(started[m.begun..next.begun]) && Reverse(m.deferred) <= started[m.begun..next.begun]
  }

  lemma TasksGrow(trace: seq<Moment>, started: seq<Window>, batch: seq<Window>, next: Moment)
    requires trace != [] && TasksRun(trace, started) && trace[|trace| - 1].begun == |started|
    requires NoDup(batch) && Reverse(trace[|trace| - 1].deferred) <= batch && next.begun == |started| + |batch|
    ensures TasksRun(trace + [next], started + batch)
  {
    var trace', started' := trace + [next], started + batch;
    forall k | 0 <= k < |trace'| - 1 ensures BatchRun(trace'[k], trace'[k + 1], started') {
      if k < |trace| - 1 {
        assert BatchRun(trace[k], trace[k + 1], started);
        assert started'[trace[k].begun..trace[k + 1].begun] == started[trace[k].begun..trace[k + 1].begun];
      } else {
        assert started'[|started|..|started| + |batch|] == batch;
      }
    }
  }

  /** In the first `n` rounds: a window whose redraw was requested is deferred when
      the next round begins, or waits for a frame. */
  ghost predicate Answered(trace: seq<Moment>, rounds: seq<(seq<Event>, seq<Event>)>, n: int) {
    n < |trace| && n <= |rounds|
    && forall k :: 0 <= k < n ==> Noted(rounds[k].0, trace[k + 1]) && Noted(rounds[k].1, trace[k + 1])
  }

  lemma AnswersGrow(trace: seq<Moment>, rounds: seq<(seq<Event>, seq<Event>)>, i: nat, next: Moment)
    requires |trace| == i + 1 && i < |rounds| && Answered(trace, rounds, i)
    ensures Answered(trace + [next], rounds, i)
    ensures Noted(rounds[i].0, next) && Noted(rounds[i].1, next) ==> Answered(trace + [next], rounds, i + 1)
  {
    var more := trace + [next];
    forall k | 0 <= k < i ensures Noted(rounds[k].0, more[k + 1]) && Noted(rounds[k].1, more[k + 1]) {
      assert more[k + 1] == trace[k + 1];
    }
  }

  lemma RoundsStep(rounds: seq<(seq<Event>, seq<Event>)>, i: nat, running: bool)
    requires i < |rounds|
    ensures Performed(rounds[i..], running)
            == 1 + if !running || Exit in rounds[i].0 then 0 else Performed(rounds[i + 1..], Exit !in rounds[i].1)
    ensures Delivered(rounds[i..], running)
            == if !running || Exit in rounds[i].0 then rounds[i].0
               else rounds[i].0 + rounds[i].1 + Delivered(rounds[i + 1..], Exit !in rounds[i].1)
  {
    assert rounds[i..][0] == rounds[i] && rounds[i..][1..] == rounds[i + 1..];
  }

  ghost predicate Noted(events: seq<Event>, m: Moment) {
    forall i :: 0 <= i < |events| && events[i].Request? ==> events[i].w in m.deferred || events[i].w in m.waiting
  }

  /** The rounds up to `i` as DisplayRun goes through them. */
  ghost predicate SoFar(trace: seq<Moment>, rounds: seq<(seq<Event>, seq<Event>)>, i: nat, running: bool,
                        started: seq<Window>, before: seq<Event>, dispatched: seq<Event>) {
    && i <= |rounds| && |trace| == 1 + i && i + Performed(rounds[i..], running) == Performed(rounds, true)
    && dispatched + Delivered(rounds[i..], running) == before + Delivered(rounds, true)
    && TasksRun(trace, started) && Answered(trace, rounds, i)
  }

  /** All of them. */
  ghost predicate Complete(trace: seq<Moment>, rounds: seq<(seq<Event>, seq<Event>)>,
                           started: seq<Window>, before: seq<Event>, dispatched: seq<Event>) {
    && |trace| == 1 + Performed(rounds, true) && dispatched == before + Delivered(rounds, true)
    && TasksRun(trace, started) && Answered(trace, rounds, |trace| - 2)
  }

  lemma OneRound(trace: seq<Moment>, rounds: seq<(seq<Event>, seq<Event>)>, i: nat, running: bool, started: seq<Window>,
                 batch: seq<Window>, before: seq<Event>, sent: seq<Event>, dispatched: seq<Event>, next: Moment, stop: bool)
    requires SoFar(trace, rounds, i, running, started, before, sent) && i < |rounds|
    requires stop == (!running || Exit in rounds[i].0)
    requires dispatched == sent + rounds[i].0 + if stop then [] else rounds[i].1
    requires NoDup(batch) && Reverse(trace[i].deferred) <= batch
    requires trace[i].begun == |started| && next.begun == |started| + |batch|
    requires Noted(rounds[i].0, next) && (!stop ==> Noted(rounds[i].1, next))
    ensures stop ==> Complete(trace + [next], rounds, started + batch, before, dispatched)
    ensures !stop ==> SoFar(trace + [next], rounds, i + 1, Exit !in rounds[i].1, started + batch, before, dispatched)
  {
    RoundsStep(rounds, i, running);
    TasksGrow(trace, started, batch, next);
    AnswersGrow(trace, rounds, i, next);
    if !stop {
      var rest := Delivered(rounds[i + 1..], Exit !in rounds[i].1);
      assert sent + (rounds[i].0 + rounds[i].1 + rest) == dispatched + rest;
    }
  }

  /** So a redraw requested in one round is run in the next one, if the window waits
      for no frame when that begins. */
  lemma ServedNext(trace: seq<Moment>, rounds: seq<(seq<Event>, seq<Event>)>, started: seq<Window>, k: nat, w: Window)
    requires TasksRun(trace, started) && Answered(trace, rounds, |trace| - 2) && k < |trace| - 2
    requires Request(w) in rounds[k].0 || Request(w) in rounds[k].1
    requires w !in trace[k + 1].waiting
    ensures w in started[trace[k + 1].begun..trace[k + 2].begun]
  {
    var m := trace[k + 1];
    assert Noted(rounds[k].0, m) && Noted(rounds[k].1, m);
    assert BatchRun(m, trace[k + 2], started);
    var i :| 0 <= i < |m.deferred| && m.deferred[i] == w;
    assert Reverse(m.deferred)[|m.deferred| - 1 - i] == w;
  }

  lemma ReverseFront<T>(s: seq<T>)
    requires s != []
    ensures Reverse(s) == [s[|s| - 1]] + Reverse(s[..|s| - 1])
  {
  }

  lemma TakeLast<T>(s: seq<T>)
    requires NoDup(s) && s != []
    ensures NoDup(s[..|s| - 1]) && s[|s| - 1] !in s[..|s| - 1]
    ensures forall x :: x in s <==> x in s[..|s| - 1] || x == s[|s| - 1]
  {
    var front, last := s[..|s| - 1], s[|s| - 1];
    assert s == front + [last];
    assert forall x :: x in front + [last] <==> x in front || x == last;
  }
}
