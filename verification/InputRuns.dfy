/** Keyboard sessions, and the invariants of the input controller over whole
    runs of `Input.Step`. */
module InputRuns {
  import opened WlList
  import opened Protocol
  import opened Input
  import opened InputProofs

  // ---------- keyboard sessions ----------

  datatype Session = Idle | Entered | Broken

  /** The wl_keyboard protocol for one record: ENTER, then keys, then LEAVE,
      and again from the start. */
  function SessionNext(st: Session, e: KbdEvent, n: nat): Session {
    if e.session != n then st
    else match (st, e)
      case (Idle, Enter(_)) => Entered
      case (Entered, Key(_)) => Entered
      case (Entered, Leave(_)) => Idle
      case _ => Broken
  }

  function SessionRun(log: seq<KbdEvent>, n: nat): Session {
    if log == [] then Idle else SessionNext(SessionRun(log[..|log| - 1], n), log[|log| - 1], n)
  }

  lemma SessionSnoc(log: seq<KbdEvent>, e: KbdEvent, n: nat)
    ensures SessionRun(log + [e], n) == SessionNext(SessionRun(log, n), e, n)
  {
    assert (log + [e])[..|log|] == log;
  }

  /** What a session that is not broken means for the log: a key or a LEAVE is
      preceded by an ENTER with no LEAVE in between, and an ENTER is not. */
  lemma {:induction false} SessionMeaning(log: seq<KbdEvent>, n: nat)
    requires SessionRun(log, n) != Broken
    ensures forall i :: 0 <= i < |log| && log[i].session == n ==> (log[i].Enter? <==> !OpenAt(log, n, i))
    ensures SessionRun(log, n) == Entered <==> OpenAt(log, n, |log|)
  {
    if log != [] {
      var front, e := log[..|log| - 1], log[|log| - 1];
      assert log == front + [e];
      SessionMeaning(front, n);
      forall i | 0 <= i < |log| && log[i].session == n ensures log[i].Enter? <==> !OpenAt(log, n, i) {
        OpenAtPrefix(front, e, n, i);
        if i < |front| {
          assert front[i] == log[i];
        }
      }
      OpenAtSnoc(front, e, n);
    }
  }

  /** Position `i` lies after an ENTER of session `n` that no LEAVE has ended. */
  ghost predicate OpenAt(log: seq<KbdEvent>, n: nat, i: nat)
    requires i <= |log|
  {
    exists j :: 0 <= j < i && log[j] == Enter(n) && forall m :: j < m < i ==> log[m] != Leave(n)
  }

  lemma OpenAtPrefix(front: seq<KbdEvent>, e: KbdEvent, n: nat, i: nat)
    requires i <= |front|
    ensures OpenAt(front + [e], n, i) == OpenAt(front, n, i)
  {
    var log := front + [e];
    if OpenAt(log, n, i) {
      var j :| 0 <= j < i && log[j] == Enter(n) && forall m :: j < m < i ==> log[m] != Leave(n);
      assert front[j] == Enter(n) && forall m :: j < m < i ==> front[m] == log[m];
    }
    if OpenAt(front, n, i) {
      var j :| 0 <= j < i && front[j] == Enter(n) && forall m :: j < m < i ==> front[m] != Leave(n);
      assert log[j] == Enter(n) && forall m :: j < m < i ==> front[m] == log[m];
    }
  }

  lemma OpenAtSnoc(front: seq<KbdEvent>, e: KbdEvent, n: nat)
    ensures OpenAt(front + [e], n, |front| + 1)
            <==> e == Enter(n) || (e != Leave(n) && OpenAt(front, n, |front|))
  {
    var log := front + [e];
    if e == Enter(n) {
      assert log[|front|] == Enter(n);
    } else if e != Leave(n) && OpenAt(front, n, |front|) {
      var j :| 0 <= j < |front| && front[j] == Enter(n) && forall m :: j < m < |front| ==> front[m] != Leave(n);
      assert log[j] == Enter(n);
      forall m | j < m < |front| + 1 ensures log[m] != Leave(n) {
      }
    }
    if OpenAt(log, n, |front| + 1) && e != Enter(n) {
      var j :| 0 <= j < |front| + 1 && log[j] == Enter(n) && forall m :: j < m < |front| + 1 ==> log[m] != Leave(n);
      assert log[|front|] == e && front[j] == Enter(n);
      assert forall m :: j < m < |front| ==> front[m] == log[m];
    }
  }

  /** The KEYBOARD bit of a record is the state of its session, sessions are
      never reused, and no session is broken. */
  ghost predicate KbdOk(s: State) {
    && (forall id, k :: RecordOf(s, id, k).Some? ==>
         RecordOf(s, id, k).value.session < s.sessions
         && SessionRun(s.kbd, RecordOf(s, id, k).value.session) == if KbdBit(s, id, k) then Entered else Idle)
    && (forall id, k, id', k' :: (RecordOf(s, id, k).Some? && RecordOf(s, id', k').Some?
                                  && RecordOf(s, id, k).value.session == RecordOf(s, id', k').value.session)
                                 ==> id == id' && k == k')
    && (forall n :: SessionRun(s.kbd, n) != Broken)
    && (forall n :: n >= s.sessions ==> SessionRun(s.kbd, n) == Idle)
  }

  ghost predicate Inv(s: State) {
    Ok(s) && KbdOk(s)
  }

  lemma PointerStepKbd(s: State, s': State)
    requires KbdOk(s) && PointerStep(s, s')
    ensures KbdOk(s')
  {
    forall id, k | RecordOf(s', id, k).Some?
      ensures RecordOf(s, id, k).Some? && RecordOf(s, id, k).value.session == RecordOf(s', id, k).value.session
    {
      assert SameRecord(RecordOf(s, id, k), RecordOf(s', id, k));
    }
    forall id, k | RecordOf(s', id, k).Some?
      ensures RecordOf(s', id, k).value.session < s'.sessions
      ensures SessionRun(s'.kbd, RecordOf(s', id, k).value.session) == if KbdBit(s', id, k) then Entered else Idle
    {
      assert KbdBit(s', id, k) == KbdBit(s, id, k);
    }
  }

  /** Flipping the keyboard bit leaves everything else of the records. */
  lemma FlipRecords(s: State, id: nat, k: nat, on: bool)
    requires Inv(s) && RecordOf(s, id, k).Some? && KbdBit(s, id, k) != on
    ensures var s' := if on then KbdEnter(s, id, k) else KbdLeave(s, id, k);
            var r := RecordOf(s, id, k).value;
            && Shape(s, s') && s'.seats == s.seats && s'.sessions == s.sessions
            && s'.kbd == s.kbd + [if on then Enter(r.session) else Leave(r.session)]
            && (forall a, b :: RecordOf(s', a, b)
                               == if a == id && b == k then Some(r.(focus := r.focus.(kbd := on))) else RecordOf(s, a, b))
  {
    var r := RecordOf(s, id, k).value;
    var e := if on then Enter(r.session) else Leave(r.session);
    var r' := r.(focus := r.focus.(kbd := on));
    var s1 := s.(kbd := s.kbd + [e]);
    var s2 := PutRecord(s1, id, k, r');
    var s' := Send(s2, InputFocus(id, KEYBOARD, on));
    assert forall a, b :: RecordOf(s1, a, b) == RecordOf(s, a, b);
    PutRecordEffect(s1, id, k, r');
    assert Shape(s, s1);
    SendShape(s2, InputFocus(id, KEYBOARD, on));
    PointerStepTrans(s, s1, s2);
    PointerStepTrans(s, s2, s');
  }

  lemma FlipOk(s: State, s': State)
    requires Ok(s) && Shape(s, s') && s'.seats == s.seats
    requires forall a, b :: PtrBit(s', a, b) == PtrBit(s, a, b)
    ensures Ok(s')
  {
    ShapeKeepsWf(s, s');
    forall a, b ensures PtrBit(s', a, b) <==> Focuses(s', b, a) {
      assert PtrBit(s, a, b) <==> Focuses(s, b, a);
      assert Focuses(s', b, a) == Focuses(s, b, a);
    }
  }

  /** One more event of the record whose bit flips. */
  lemma FlipKbd(s: State, s': State, id: nat, k: nat, on: bool)
    requires KbdOk(s) && RecordOf(s, id, k).Some? && KbdBit(s, id, k) != on
    requires s'.sessions == s.sessions
    requires var r := RecordOf(s, id, k).value;
             && s'.kbd == s.kbd + [if on then Enter(r.session) else Leave(r.session)]
             && (forall a, b :: RecordOf(s', a, b)
                                == if a == id && b == k then Some(r.(focus := r.focus.(kbd := on))) else RecordOf(s, a, b))
    ensures KbdOk(s')
  {
    var r := RecordOf(s, id, k).value;
    var e := if on then Enter(r.session) else Leave(r.session);
    forall n: nat ensures SessionRun(s'.kbd, n) == SessionNext(SessionRun(s.kbd, n), e, n) {
      SessionSnoc(s.kbd, e, n);
    }
    forall a, b | RecordOf(s', a, b).Some?
      ensures SessionRun(s'.kbd, RecordOf(s', a, b).value.session) == if KbdBit(s', a, b) then Entered else Idle
    {
      assert RecordOf(s, a, b).Some? && RecordOf(s, a, b).value.session == RecordOf(s', a, b).value.session;
    }
    forall n: nat ensures SessionRun(s'.kbd, n) != Broken {
      assert SessionRun(s.kbd, n) != Broken;
    }
  }

  /** Flipping the keyboard bit together with the matching event. */
  lemma FlipEffect(s: State, id: nat, k: nat, on: bool)
    requires Inv(s) && RecordOf(s, id, k).Some? && KbdBit(s, id, k) != on
    ensures var s' := if on then KbdEnter(s, id, k) else KbdLeave(s, id, k);
            && Inv(s') && Shape(s, s') && s'.seats == s.seats
            && (forall a, b :: RecordOf(s', a, b)
                               == if a == id && b == k
                                  then Some(RecordOf(s, id, k).value.(focus := RecordOf(s, id, k).value.focus.(kbd := on)))
                                  else RecordOf(s, a, b))
  {
    var s' := if on then KbdEnter(s, id, k) else KbdLeave(s, id, k);
    FlipRecords(s, id, k, on);
    FlipOk(s, s');
    FlipKbd(s, s', id, k, on);
  }

  lemma KbdLeaveEffect(s: State, id: nat, k: nat)
    requires Inv(s)
    ensures Inv(KbdLeave(s, id, k)) && Shape(s, KbdLeave(s, id, k)) && KbdLeave(s, id, k).seats == s.seats
    ensures !KbdBit(KbdLeave(s, id, k), id, k)
  {
    if RecordOf(s, id, k).Some? && KbdBit(s, id, k) {
      FlipEffect(s, id, k, false);
    }
  }

  lemma KbdSetFocusEffect(s: State, id: nat, k: nat, enabled: bool)
    requires Inv(s)
    ensures Inv(KbdSetFocus(s, id, k, enabled)) && Shape(s, KbdSetFocus(s, id, k, enabled))
  {
    if RecordOf(s, id, k).Some? && KbdBit(s, id, k) != enabled {
      FlipEffect(s, id, k, enabled);
    }
  }

  lemma {:induction false} KeyEventsSound(l: seq<(nat, Surface)>, k: nat, e: KbdEvent)
    requires NoDup(Keys(l)) && e in KeyEvents(l, k)
    ensures exists id :: Lookup(l, id).Some? && Lookup(Lookup(l, id).value.accepted, k).Some?
                         && Lookup(Lookup(l, id).value.accepted, k).value.focus.kbd
                         && e == Key(Lookup(Lookup(l, id).value.accepted, k).value.session)
  {
    KeysTail(l);
    if e in KeyEvents(l[1..], k) {
      KeyEventsSound(l[1..], k, e);
      var id :| Lookup(l[1..], id).Some? && Lookup(Lookup(l[1..], id).value.accepted, k).Some?
                && Lookup(Lookup(l[1..], id).value.accepted, k).value.focus.kbd
                && e == Key(Lookup(Lookup(l[1..], id).value.accepted, k).value.session);
      LookupKeys(l[1..], id);
      assert Lookup(l, id) == Lookup(l[1..], id);
    } else {
      assert Lookup(l, l[0].0) == Some(l[0].1);
    }
  }

  lemma {:induction false} KeysKeepSessions(log: seq<KbdEvent>, q: seq<KbdEvent>, n: nat)
    requires forall e :: e in q ==> e.Key? && SessionRun(log, e.session) == Entered
    ensures SessionRun(log + q, n) == SessionRun(log, n)
  {
    if q == [] {
      assert log + q == log;
    } else {
      var front, last := q[..|q| - 1], q[|q| - 1];
      assert q == front + [last] && last in q;
      KeysKeepSessions(log, front, n);
      KeysKeepSessions(log, front, last.session);
      SessionSnoc(log + front, last, n);
      assert log + q == (log + front) + [last];
    }
  }

  lemma KeyPressEffect(s: State, k: nat)
    requires Inv(s)
    ensures Inv(KeyPress(s, k))
  {
    var s' := KeyPress(s, k);
    var q := KeyEvents(s.surfaces, k);
    forall e | e in q ensures e.Key? && SessionRun(s.kbd, e.session) == Entered {
      KeyEventsSound(s.surfaces, k, e);
      var id :| Lookup(s.surfaces, id).Some? && Lookup(Lookup(s.surfaces, id).value.accepted, k).Some?
                && Lookup(Lookup(s.surfaces, id).value.accepted, k).value.focus.kbd
                && e == Key(Lookup(Lookup(s.surfaces, id).value.accepted, k).value.session);
      assert RecordOf(s, id, k).Some? && KbdBit(s, id, k);
    }
    forall n: nat ensures SessionRun(s'.kbd, n) == SessionRun(s.kbd, n) {
      KeysKeepSessions(s.kbd, q, n);
    }
    forall id, k ensures RecordOf(s', id, k) == RecordOf(s, id, k) {
    }
    forall a, b ensures PtrBit(s', a, b) <==> Focuses(s', b, a) {
      assert PtrBit(s, a, b) <==> Focuses(s, b, a);
      assert Focuses(s', b, a) == Focuses(s, b, a);
    }
    assert forall a, w :: Owns(s', a, w) == Owns(s, a, w);
    forall id, k | RecordOf(s', id, k).Some?
      ensures SessionRun(s'.kbd, RecordOf(s', id, k).value.session) == if KbdBit(s', id, k) then Entered else Idle
    {
      assert KbdBit(s', id, k) == KbdBit(s, id, k);
    }
  }

  // ---------- records come and go ----------

  /** Broadcasting changes nothing the invariants speak of. */
  lemma SendKeeps(s: State, e: Event)
    requires Inv(s)
    ensures Inv(Send(s, e))
  {
    SameViewKeeps(s, Send(s, e));
  }

  /** The invariants depend on surfaces, seats, sessions and the log only. */
  lemma SameViewKeeps(s: State, s': State)
    requires Inv(s)
    requires s'.surfaces == s.surfaces && s'.seats == s.seats && s'.sessions == s.sessions && s'.kbd == s.kbd
    ensures Inv(s')
  {
    assert forall id, k :: RecordOf(s', id, k) == RecordOf(s, id, k);
    assert forall id, k :: KbdBit(s', id, k) == KbdBit(s, id, k);
    assert forall a, w :: Owns(s', a, w) == Owns(s, a, w);
    forall a, b ensures PtrBit(s', a, b) <==> Focuses(s', b, a) {
      assert PtrBit(s, a, b) <==> Focuses(s, b, a);
      assert Focuses(s', b, a) == Focuses(s, b, a);
    }
  }

  lemma AddAcceptedRecords(s: State, id: nat, k: nat)
    requires Lookup(s.surfaces, id).Some? && RecordOf(s, id, k).None?
    ensures var s' := AddAccepted(s, id, k);
            && (forall a, b :: RecordOf(s', a, b) == if a == id && b == k
                                                     then Some(Record(Devices(false, false, false), s.sessions))
                                                     else RecordOf(s, a, b))
            && (forall a, w :: Owns(s', a, w) == Owns(s, a, w))
            && (forall a :: Lookup(s'.surfaces, a) ==
                 if a == id
                 then Some(Lookup(s.surfaces, id).value.(accepted :=
                   [(k, Record(Devices(false, false, false), s.sessions))] + Lookup(s.surfaces, id).value.accepted))
                 else Lookup(s.surfaces, a))
  {
    var sf := Lookup(s.surfaces, id).value;
    var sf' := sf.(accepted := [(k, Record(Devices(false, false, false), s.sessions))] + sf.accepted);
    forall a ensures Lookup(AddAccepted(s, id, k).surfaces, a) == if a == id then Some(sf') else Lookup(s.surfaces, a) {
      LookupPut(s.surfaces, id, sf', a);
    }
    assert sf'.accepted[1..] == sf.accepted;
  }

  lemma AddAcceptedEffect(s: State, id: nat, k: nat)
    requires Inv(s) && Lookup(s.seats, k).Some?
    ensures Inv(AddAccepted(s, id, k))
    ensures AddAccepted(s, id, k).seats == s.seats && Keys(AddAccepted(s, id, k).surfaces) == Keys(s.surfaces)
  {
    if Lookup(s.surfaces, id).Some? && RecordOf(s, id, k).None? {
      var s' := AddAccepted(s, id, k);
      AddAcceptedRecords(s, id, k);
      var sf := Lookup(s.surfaces, id).value;
      LookupKeys(sf.accepted, k);
      KeysTail(Lookup(s'.surfaces, id).value.accepted);
      NoDupCons(k, Keys(sf.accepted));
      forall a, b ensures PtrBit(s', a, b) <==> Focuses(s', b, a) {
        assert PtrBit(s, a, b) <==> Focuses(s, b, a);
        assert Focuses(s', b, a) == Focuses(s, b, a);
      }
      assert SessionRun(s'.kbd, s.sessions) == Idle;
      forall a, b | RecordOf(s', a, b).Some?
        ensures RecordOf(s', a, b).value.session < s'.sessions
        ensures SessionRun(s'.kbd, RecordOf(s', a, b).value.session) == if KbdBit(s', a, b) then Entered else Idle
      {
        if !(a == id && b == k) {
          assert KbdBit(s', a, b) == KbdBit(s, a, b);
        }
      }
    }
  }

  lemma RemoveAcceptedRecords(s: State, id: nat, k: nat)
    requires Wf(s)
    ensures var s' := RemoveAccepted(s, id, k);
            && (forall a, b :: RecordOf(s', a, b) == if a == id && b == k then None else RecordOf(s, a, b))
            && (forall a, w :: Owns(s', a, w) == Owns(s, a, w))
            && Wf(s') && Keys(s'.surfaces) == Keys(s.surfaces)
            && s' == s.(surfaces := s'.surfaces)
  {
    if Lookup(s.surfaces, id).Some? {
      var sf := Lookup(s.surfaces, id).value;
      var s' := RemoveAccepted(s, id, k);
      var sf' := sf.(accepted := Remove(sf.accepted, k));
      forall a ensures Lookup(s'.surfaces, a) == if a == id then Some(sf') else Lookup(s.surfaces, a) {
        LookupPut(s.surfaces, id, sf', a);
      }
      forall b ensures Lookup(sf'.accepted, b) == if b == k then None else Lookup(sf.accepted, b) {
        LookupRemove(sf.accepted, k, b);
      }
      KeysRemove(sf.accepted, k);
      DropSpec(Keys(sf.accepted), k);
      assert forall a, w :: Owns(s', a, w) == Owns(s, a, w);
    }
  }

  /** Dropping records keeps the keyboard sessions of the others. */
  lemma FewerRecordsKbd(s: State, s': State)
    requires KbdOk(s) && s'.kbd == s.kbd && s'.sessions == s.sessions
    requires forall a, b :: RecordOf(s', a, b).Some? ==> RecordOf(s', a, b) == RecordOf(s, a, b)
    ensures KbdOk(s')
  {
    forall a, b | RecordOf(s', a, b).Some?
      ensures SessionRun(s'.kbd, RecordOf(s', a, b).value.session) == if KbdBit(s', a, b) then Entered else Idle
    {
      assert KbdBit(s', a, b) == KbdBit(s, a, b);
    }
  }

  lemma RemoveAcceptedEffect(s: State, id: nat, k: nat)
    requires Inv(s) && !PtrBit(s, id, k)
    ensures Inv(RemoveAccepted(s, id, k))
  {
    var s' := RemoveAccepted(s, id, k);
    RemoveAcceptedRecords(s, id, k);
    FewerRecordsKbd(s, s');
    forall a, b ensures PtrBit(s', a, b) <==> Focuses(s', b, a) {
      assert PtrBit(s, a, b) <==> Focuses(s, b, a);
      assert Focuses(s', b, a) == Focuses(s, b, a);
    }
  }

  // ---------- requests ----------

  lemma FocusSeatEffect(s: State, id: nat, k: nat, device: Devices, enabled: bool, env: Env)
    requires Inv(s)
    ensures Inv(FocusSeat(s, id, k, device, enabled, env))
    ensures Shape(s, FocusSeat(s, id, k, device, enabled, env))
  {
    var s1 := if device.ptr then ForcePointer(s, id, k, enabled, env) else s;
    ForcePointerEffect(s, id, k, enabled, env);
    PointerStepKbd(s, s1);
    var s2 := if device.kbd then KbdSetFocus(s1, id, k, enabled) else s1;
    KbdSetFocusEffect(s1, id, k, enabled);
    PointerStepTrans(s, s1, s2);
    if device.touch {
      TouchEffect(s, s2, InputFocus(id, device, enabled));
    }
  }

  lemma TouchEffect(s: State, s2: State, e: Event)
    requires Inv(s2) && Shape(s, s2) && e.InputFocus?
    ensures Inv(Send(s2, e)) && Shape(s, Send(s2, e))
  {
    SendKeeps(s2, e);
    SendShape(s2, e);
    PointerStepTrans(s, s2, Send(s2, e));
  }

  lemma {:induction false} FocusSeatsEffect(s: State, id: nat, ks: seq<nat>, device: Devices, enabled: bool, env: Env)
    requires Inv(s)
    ensures Inv(FocusSeats(s, id, ks, device, enabled, env))
    ensures Shape(s, FocusSeats(s, id, ks, device, enabled, env))
    decreases |ks|
  {
    if ks != [] {
      var s1 := FocusSeat(s, id, ks[0], device, enabled, env);
      FocusSeatEffect(s, id, ks[0], device, enabled, env);
      FocusSeatsEffect(s1, id, ks[1..], device, enabled, env);
      PointerStepTrans(s, s1, FocusSeats(s1, id, ks[1..], device, enabled, env));
    }
  }

  lemma AcceptEffect(s: State, id: nat, k: nat, env: Env)
    requires Inv(s) && Lookup(s.seats, k).Some?
    ensures Inv(Accept(s, id, k, env))
    ensures Shape(AddAccepted(s, id, k), Accept(s, id, k, env))
  {
    var s1 := AddAccepted(s, id, k);
    AddAcceptedEffect(s, id, k);
    var seat := Lookup(s.seats, k).value;
    if seat.pointer && seat.focus.None? {
      GrabFocusEffect(s1, k, env);
      PointerStepKbd(s1, GrabFocus(s1, k, env));
    }
  }

  /** Once the pointer is cleared no surface has the pointer bit of the seat. */
  lemma ClearedBit(s: State, id: nat, k: nat)
    requires Inv(s) && Lookup(s.seats, k).Some? && RecordOf(s, id, k).Some?
    ensures var s1 := if Lookup(s.seats, k).value.pointer && RecordOf(s, id, k).value.focus.ptr then ClearPointer(s, k) else s;
            Inv(s1) && Shape(s, s1) && !Focuses(s1, k, id)
  {
    var s1 := ClearPointer(s, k);
    ClearPointerEffect(s, k);
    PointerStepKbd(s, s1);
    assert PtrBit(s, id, k) <==> Focuses(s, k, id);
  }

  /** Leaving the keyboard does not bring the pointer bit back. */
  lemma LeaveUnmarked(s: State, id: nat, k: nat)
    requires Inv(s) && !Focuses(s, k, id)
    ensures Inv(KbdLeave(s, id, k)) && Shape(s, KbdLeave(s, id, k)) && !PtrBit(KbdLeave(s, id, k), id, k)
  {
    var s' := KbdLeave(s, id, k);
    KbdLeaveEffect(s, id, k);
    assert PtrBit(s', id, k) <==> Focuses(s', k, id);
    assert SameSurface(Lookup(s.surfaces, id), Lookup(s'.surfaces, id));
  }

  lemma UnfocusEffect(s: State, id: nat, k: nat)
    requires Inv(s) && Lookup(s.seats, k).Some? && RecordOf(s, id, k).Some?
    ensures Inv(Unfocus(s, id, k)) && Shape(s, Unfocus(s, id, k)) && !PtrBit(Unfocus(s, id, k), id, k)
  {
    var seat, r := Lookup(s.seats, k).value, RecordOf(s, id, k).value;
    var s1 := if seat.pointer && r.focus.ptr then ClearPointer(s, k) else s;
    ClearedBit(s, id, k);
    if seat.keyboard && r.focus.kbd {
      LeaveUnmarked(s1, id, k);
      PointerStepTrans(s, s1, KbdLeave(s1, id, k));
    } else {
      assert PtrBit(s1, id, k) <==> Focuses(s1, k, id);
    }
  }

  lemma RejectEffect(s: State, id: nat, k: nat)
    requires Inv(s) && Lookup(s.seats, k).Some? && RecordOf(s, id, k).Some?
    ensures Inv(Reject(s, id, k))
    ensures Shape(s, Unfocus(s, id, k)) && Wf(Unfocus(s, id, k))
  {
    UnfocusEffect(s, id, k);
    RemoveAcceptedEffect(Unfocus(s, id, k), id, k);
  }

  lemma AcceptanceEffect(s: State, id: nat, name: string, accepted: bool, env: Env)
    requires Inv(s)
    ensures Inv(SetInputAcceptance(s, id, name, accepted, env))
  {
    FindSeatSound(s.seats, name);
    var f := FindSeat(s.seats, name);
    if f.Some? && Lookup(s.surfaces, id).Some? {
      var k := f.value;
      if accepted {
        AcceptEffect(s, id, k, env);
        SendKeeps(Accept(s, id, k, env), InputAcceptance(id, name, true));
      } else if RecordOf(s, id, k).Some? {
        RejectEffect(s, id, k);
        SendKeeps(Reject(s, id, k), InputAcceptance(id, name, false));
      }
    }
  }

  // ---------- seats and surfaces ----------

  lemma {:induction false} AcceptEverywhereEffect(s: State, ids: seq<nat>, k: nat, name: string)
    requires Inv(s) && Lookup(s.seats, k).Some?
    ensures Inv(AcceptEverywhere(s, ids, k, name))
    decreases |ids|
  {
    if ids != [] {
      var s1 := AddAccepted(s, ids[0], k);
      AddAcceptedEffect(s, ids[0], k);
      SendKeeps(s1, InputAcceptance(ids[0], name, true));
      AcceptEverywhereEffect(Send(s1, InputAcceptance(ids[0], name, true)), ids[1..], k, name);
    }
  }

  lemma AnnounceSeatEffect(s: State, k: nat, name: string, keyboard: bool, pointer: bool)
    requires Inv(s) && Lookup(s.seats, k).None? && FindSeat(s.seats, name).None?
    ensures Inv(AnnounceSeat(s, k, name, keyboard, pointer))
    ensures Lookup(AnnounceSeat(s, k, name, keyboard, pointer).seats, k).Some?
  {
    var seat := Seat(name, keyboard, pointer, None, None, false, 0);
    var s1 := AnnounceSeat(s, k, name, keyboard, pointer);
    assert s1.seats[1..] == s.seats;
    LookupKeys(s.seats, k);
    KeysTail(s1.seats);
    NoDupCons(k, Keys(s.seats));
    FindSeatSound(s.seats, name);
    assert forall j :: Lookup(s1.seats, j) == if j == k then Some(seat) else Lookup(s.seats, j);
    assert forall a, b :: RecordOf(s1, a, b) == RecordOf(s, a, b);
    assert forall a, w :: Owns(s1, a, w) == Owns(s, a, w);
    forall a, b ensures PtrBit(s1, a, b) <==> Focuses(s1, b, a) {
      assert PtrBit(s, a, b) <==> Focuses(s, b, a);
      assert b != k ==> Focuses(s1, b, a) == Focuses(s, b, a);
    }
    FewerRecordsKbd(s, s1);
  }

  lemma CreateSeatEffect(s: State, k: nat, name: string, keyboard: bool, pointer: bool)
    requires Inv(s) && Lookup(s.seats, k).None? && FindSeat(s.seats, name).None?
    ensures Inv(CreateSeat(s, k, name, keyboard, pointer))
  {
    AnnounceSeatEffect(s, k, name, keyboard, pointer);
    if name == s.defaultSeat {
      AcceptEverywhereEffect(AnnounceSeat(s, k, name, keyboard, pointer), Keys(s.surfaces), k, name);
    }
  }

  lemma {:induction false} ForgetSeatRecords(s: State, ids: seq<nat>, k: nat)
    requires Wf(s)
    ensures var s' := ForgetSeat(s, ids, k);
            && Wf(s') && Keys(s'.surfaces) == Keys(s.surfaces) && s' == s.(surfaces := s'.surfaces)
            && (forall a, b :: RecordOf(s', a, b) == if b == k && a in ids then None else RecordOf(s, a, b))
            && (forall a, w :: Owns(s', a, w) == Owns(s, a, w))
    decreases |ids|
  {
    if ids != [] {
      RemoveAcceptedRecords(s, ids[0], k);
      ForgetSeatRecords(RemoveAccepted(s, ids[0], k), ids[1..], k);
    }
  }

  lemma DestroySeatEffect(s: State, k: nat)
    requires Inv(s)
    ensures Inv(DestroySeat(s, k))
    ensures forall a :: RecordOf(DestroySeat(s, k), a, k).None?
    ensures forall a, b :: b != k ==> RecordOf(DestroySeat(s, k), a, b) == RecordOf(s, a, b)
  {
    if Lookup(s.seats, k).Some? {
      var s1 := ForgetSeat(s, Keys(s.surfaces), k);
      ForgetSeatRecords(s, Keys(s.surfaces), k);
      var s' := DestroySeat(s, k);
      forall a, b ensures RecordOf(s', a, b) == if b == k then None else RecordOf(s, a, b) {
        LookupKeys(s.surfaces, a);
        assert RecordOf(s', a, b) == RecordOf(s1, a, b);
      }
      forall j ensures Lookup(s'.seats, j) == if j == k then None else Lookup(s.seats, j) {
        LookupRemove(s.seats, k, j);
      }
      KeysRemove(s.seats, k);
      DropSpec(Keys(s.seats), k);
      assert forall a, w :: Owns(s', a, w) == Owns(s1, a, w);
      assert forall a :: Lookup(s'.surfaces, a) == Lookup(s1.surfaces, a);
      forall a, b ensures PtrBit(s', a, b) <==> Focuses(s', b, a) {
        assert PtrBit(s, a, b) <==> Focuses(s, b, a);
        assert b != k ==> Focuses(s', b, a) == Focuses(s, b, a);
      }
      FewerRecordsKbd(s, s');
    }
  }

  lemma ListSurfaceEffect(s: State, id: nat, wsurf: nat)
    requires Inv(s) && Legal(s, SurfaceCreate(id, wsurf))
    ensures Inv(ListSurface(s, id, wsurf))
  {
    var s1 := ListSurface(s, id, wsurf);
    assert s1.surfaces[1..] == s.surfaces;
    LookupKeys(s.surfaces, id);
    KeysTail(s1.surfaces);
    NoDupCons(id, Keys(s.surfaces));
    FindSurfaceSound(s.surfaces, wsurf);
    forall a, b ensures RecordOf(s1, a, b) == RecordOf(s, a, b) {
    }
    assert forall a, w :: Owns(s1, a, w) <==> (a == id && w == wsurf) || (a != id && Owns(s, a, w));
    forall a, b ensures PtrBit(s1, a, b) <==> Focuses(s1, b, a) {
      assert PtrBit(s, a, b) <==> Focuses(s, b, a);
      if Lookup(s.seats, b).Some? {
        SeatInList(s.seats, b);
      }
    }
    FewerRecordsKbd(s, s1);
  }

  lemma CreateSurfaceEffect(s: State, id: nat, wsurf: nat)
    requires Inv(s) && Legal(s, SurfaceCreate(id, wsurf))
    ensures Inv(CreateSurface(s, id, wsurf))
  {
    var s1 := ListSurface(s, id, wsurf);
    ListSurfaceEffect(s, id, wsurf);
    FindSeatSound(s.seats, s.defaultSeat);
    var f := FindSeat(s.seats, s.defaultSeat);
    if f.Some? {
      AddAcceptedEffect(s1, id, f.value);
      SendKeeps(AddAccepted(s1, id, f.value), InputAcceptance(id, s.defaultSeat, true));
    }
  }

  lemma {:induction false} SeatInList(l: seq<(nat, Seat)>, k: nat)
    requires Lookup(l, k).Some?
    ensures exists i :: 0 <= i < |l| && l[i].1 == Lookup(l, k).value
  {
    if l[0].0 != k {
      SeatInList(l[1..], k);
      var i :| 0 <= i < |l[1..]| && l[1..][i].1 == Lookup(l[1..], k).value;
      assert l[i + 1].1 == Lookup(l, k).value;
    }
  }

  lemma {:induction false} UnforceEffect(s: State, id: nat, ks: seq<nat>)
    requires Ok(s)
    ensures Good(s, Unforce(s, id, ks)) && Unforce(s, id, ks).surfaces == s.surfaces
    decreases |ks|
  {
    if ks != [] {
      var seat := Lookup(s.seats, ks[0]);
      var forget := seat.Some? && seat.value.forced == Some(id);
      var s1 := if forget then SetForced(s, ks[0], None, seat.value.forcedOn) else s;
      if forget {
        SetForcedEffect(s, ks[0], None, seat.value.forcedOn);
      }
      UnforceEffect(s1, id, ks[1..]);
      GoodTrans(s, s1, Unforce(s1, id, ks[1..]));
    }
  }

  lemma DestroySurfaceEffect(s: State, id: nat)
    requires Inv(s)
    ensures Inv(DestroySurface(s, id))
  {
    if Lookup(s.surfaces, id).Some? {
      var s1 := Unforce(s, id, Keys(Lookup(s.surfaces, id).value.accepted));
      UnforceEffect(s, id, Keys(Lookup(s.surfaces, id).value.accepted));
      PointerStepKbd(s, s1);
      var s' := DestroySurface(s, id);
      forall a ensures Lookup(s'.surfaces, a) == if a == id then None else Lookup(s1.surfaces, a) {
        LookupRemove(s1.surfaces, id, a);
      }
      KeysRemove(s1.surfaces, id);
      DropSpec(Keys(s1.surfaces), id);
      forall a, b ensures RecordOf(s', a, b) == if a == id then None else RecordOf(s1, a, b) {
      }
      assert forall a, w :: Owns(s', a, w) == (a != id && Owns(s1, a, w));
      forall a, b ensures PtrBit(s', a, b) <==> Focuses(s', b, a) {
        assert PtrBit(s1, a, b) <==> Focuses(s1, b, a);
        assert a != id ==> Focuses(s', b, a) == Focuses(s1, b, a);
      }
      FewerRecordsKbd(s1, s');
    }
  }

  lemma {:induction false} LeaveAllEffect(s: State, ids: seq<nat>, k: nat)
    requires Inv(s)
    ensures Inv(LeaveAll(s, ids, k)) && Shape(s, LeaveAll(s, ids, k))
    decreases |ids|
  {
    if ids != [] {
      KbdLeaveEffect(s, ids[0], k);
      LeaveAllEffect(KbdLeave(s, ids[0], k), ids[1..], k);
      PointerStepTrans(s, KbdLeave(s, ids[0], k), LeaveAll(s, ids, k));
    }
  }

  lemma SeatUpdateEffect(s: State, k: nat, seat: Seat)
    requires Inv(s) && Lookup(s.seats, k).Some?
    requires seat.name == Lookup(s.seats, k).value.name && seat.focus == Lookup(s.seats, k).value.focus
    requires seat.focus.Some? ==> seat.pointer
    ensures Inv(PutSeat(s, k, seat))
  {
    var s' := PutSeat(s, k, seat);
    forall j ensures Lookup(s'.seats, j) == if j == k then Some(seat) else Lookup(s.seats, j) {
      LookupPut(s.seats, k, seat, j);
    }
    assert forall a, b :: RecordOf(s', a, b) == RecordOf(s, a, b);
    assert forall a, w :: Owns(s', a, w) == Owns(s, a, w);
    forall a, b ensures PtrBit(s', a, b) <==> Focuses(s', b, a) {
      assert PtrBit(s, a, b) <==> Focuses(s, b, a);
      assert Focuses(s', b, a) == Focuses(s, b, a);
    }
    FewerRecordsKbd(s, s');
  }

  // ---------- all runs ----------

  /** Every step weston can take keeps the invariants. */
  lemma StepKeepsInv(s: State, op: Op)
    requires Inv(s) && Legal(s, op)
    ensures Inv(Step(s, op))
  {
    match op
    case SeatCreate(k, name, keyboard, pointer) => CreateSeatEffect(s, k, name, keyboard, pointer);
    case SeatDestroy(k) => DestroySeatEffect(s, k);
    case Caps(k, keyboard, pointer) =>
      SeatUpdateEffect(s, k, Lookup(s.seats, k).value.(keyboard := keyboard, pointer := pointer));
    case SurfaceCreate(id, wsurf) => CreateSurfaceEffect(s, id, wsurf);
    case SurfaceDestroy(id) => DestroySurfaceEffect(s, id);
    case FocusRequest(id, device, enabled, env) =>
      if Lookup(s.surfaces, id).Some? {
        FocusSeatsEffect(s, id, Keys(Lookup(s.surfaces, id).value.accepted), device, enabled, env);
      }
    case AcceptanceRequest(id, name, accepted, env) => AcceptanceEffect(s, id, name, accepted, env);
    case PointerFocus(k, env) =>
      if HasPointer(s, k) {
        GrabFocusEffect(s, k, env);
        PointerStepKbd(s, GrabFocus(s, k, env));
      }
    case PointerMotion(k) =>
      if Lookup(s.seats, k).Some? {
        SeatUpdateEffect(s, k, Lookup(s.seats, k).value.(forced := None));
      }
    case PointerButton(k, count, released, env) =>
      if HasPointer(s, k) {
        var s1 := PutSeat(s, k, Lookup(s.seats, k).value.(buttons := count));
        SeatUpdateEffect(s, k, Lookup(s.seats, k).value.(buttons := count));
        LookupPut(s.seats, k, Lookup(s.seats, k).value.(buttons := count), k);
        if count == 0 && released {
          GrabFocusEffect(s1, k, env);
          PointerStepKbd(s1, GrabFocus(s1, k, env));
        }
      }
    case PointerCancel(k) =>
      ClearPointerEffect(s, k);
      PointerStepKbd(s, ClearPointer(s, k));
    case KeyboardKey(k) => KeyPressEffect(s, k);
    case KeyboardCancel(k) => LeaveAllEffect(s, Keys(s.surfaces), k);
  }

  /** The state after a list of steps. */
  function Run(s: State, ops: seq<Op>): State
    decreases |ops|
  {
    if ops == [] then s else Run(Step(s, ops[0]), ops[1..])
  }

  ghost predicate AllLegal(s: State, ops: seq<Op>)
    decreases |ops|
  {
    ops == [] || (Legal(s, ops[0]) && AllLegal(Step(s, ops[0]), ops[1..]))
  }

  /** The controller at start-up. */
  function Boot(defaultSeat: string): State {
    State(defaultSeat, [], [], 0, [], [])
  }

  lemma {:induction false} RunKeepsInv(s: State, ops: seq<Op>)
    requires Inv(s) && AllLegal(s, ops)
    ensures Inv(Run(s, ops))
    decreases |ops|
  {
    if ops != [] {
      StepKeepsInv(s, ops[0]);
      RunKeepsInv(Step(s, ops[0]), ops[1..]);
    }
  }

  lemma BootInv(name: string)
    ensures Inv(Boot(name))
  {
  }

  /** Pointer agreement in every reachable state. Two surfaces never carry the
      pointer bit of one seat, the bit is exactly where the focus is, and the
      focused ivi surface accepts the seat. */
  lemma PointerAgreement(name: string, ops: seq<Op>, k: nat)
    requires AllLegal(Boot(name), ops)
    ensures var s := Run(Boot(name), ops);
            && (forall id :: PtrBit(s, id, k) <==> Focuses(s, k, id))
            && (forall a, b :: PtrBit(s, a, k) && PtrBit(s, b, k) ==> a == b)
            && (forall id :: Focuses(s, k, id) ==> RecordOf(s, id, k).Some?)
  {
    BootInv(name);
    RunKeepsInv(Boot(name), ops);
    var s := Run(Boot(name), ops);
    assert forall id :: PtrBit(s, id, k) <==> Focuses(s, k, id);
  }

  /** Keyboard sessions in every reachable state: the log of every record ever
      created obeys the protocol, and a live record's KEYBOARD bit says
      whether its session is open. */
  lemma KeyboardSessions(name: string, ops: seq<Op>)
    requires AllLegal(Boot(name), ops)
    ensures var s := Run(Boot(name), ops);
            && (forall n :: SessionRun(s.kbd, n) != Broken)
            && (forall id, k :: RecordOf(s, id, k).Some? ==>
                 (KbdBit(s, id, k) <==> OpenAt(s.kbd, RecordOf(s, id, k).value.session, |s.kbd|)))
  {
    BootInv(name);
    RunKeepsInv(Boot(name), ops);
    var s := Run(Boot(name), ops);
    forall id, k | RecordOf(s, id, k).Some?
      ensures KbdBit(s, id, k) <==> OpenAt(s.kbd, RecordOf(s, id, k).value.session, |s.kbd|)
    {
      SessionMeaning(s.kbd, RecordOf(s, id, k).value.session);
    }
  }

  /** A record that is dropped on request ends with its session closed exactly
      when the seat still has its keyboard or the session was closed anyway:
      without the device no LEAVE is sent. */
  lemma RejectClosesSession(s: State, id: nat, k: nat)
    requires Inv(s) && Lookup(s.seats, k).Some? && RecordOf(s, id, k).Some?
    ensures SessionRun(Reject(s, id, k).kbd, RecordOf(s, id, k).value.session) == Idle
            <==> Lookup(s.seats, k).value.keyboard || !KbdBit(s, id, k)
  {
    var seat, r := Lookup(s.seats, k).value, RecordOf(s, id, k).value;
    var s1 := if seat.pointer && r.focus.ptr then ClearPointer(s, k) else s;
    ClearedKbd(s, id, k);
    assert Reject(s, id, k).kbd == Unfocus(s, id, k).kbd;
    if seat.keyboard && r.focus.kbd {
      SessionSnoc(s1.kbd, Leave(r.session), r.session);
    }
  }

  /** Clearing the pointer leaves the record's keyboard session alone. */
  lemma ClearedKbd(s: State, id: nat, k: nat)
    requires Inv(s) && Lookup(s.seats, k).Some? && RecordOf(s, id, k).Some?
    ensures var s1 := if Lookup(s.seats, k).value.pointer && RecordOf(s, id, k).value.focus.ptr then ClearPointer(s, k) else s;
            && s1.kbd == s.kbd && RecordOf(s1, id, k).Some? && KbdBit(s1, id, k) == KbdBit(s, id, k)
            && RecordOf(s1, id, k).value.session == RecordOf(s, id, k).value.session
  {
    var s1 := ClearPointer(s, k);
    ClearPointerEffect(s, k);
    assert SameRecord(RecordOf(s, id, k), RecordOf(s1, id, k));
    assert KbdBit(s1, id, k) == KbdBit(s, id, k);
  }
}
