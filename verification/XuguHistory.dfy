/** What the state of a Xugu session says about the run that led to it. */
module XuguHistory {
  import opened Text
  import opened XuguRuntime

  /** The steps of a run that concern one session object: how it connected, and what it lost. */
  predicate Attached(past: seq<Action>, o: nat) { OpenConnect(o, true, true) in past }

  predicate Detached(past: seq<Action>, o: nat) { Reconnect(o, false) in past }

  predicate Dropped(past: seq<Action>, o: nat) { ReconnectDrop(o) in past }

  /** The object connected once, in this way. */
  ghost predicate ConnectedAs(past: seq<Action>, o: nat, attached: bool, ok: bool) {
    forall a, k :: OpenConnect(o, a, k) in past <==> a == attached && k == ok
  }

  ghost predicate NotConnected(past: seq<Action>, o: nat) { forall a, k :: OpenConnect(o, a, k) !in past }

  ghost predicate AcquiredKey(past: seq<Action>, o: nat, key: string) { exists d :: OpenAcquire(o, key, d) in past }

  /** No step concerns an object that is not there yet. */
  ghost predicate Fresh(past: seq<Action>, o: nat) {
    NotConnected(past, o) && !Detached(past, o) && !Dropped(past, o) && OpenInsert(o) !in past
  }

  /** What the phase of an object tells. */
  ghost predicate Told(past: seq<Action>, o: nat, v: Session) {
    && OpenStart(v.id, o) in past
    && (v.held.Some? ==> AcquiredKey(past, o, v.held.value))
    && (v.dropping ==> Detached(past, o) && v.phase in {Registered, Closing, Released})
    && match v.phase
       case Checked => Fresh(past, o) && v.held == None
       case Acquired => Fresh(past, o) && (v.cancelDB.Some? <==> v.held.Some?)
       case Unattached(ok) =>
         && v.cancelDB == None && ConnectedAs(past, o, false, ok)
         && !Detached(past, o) && !Dropped(past, o) && OpenInsert(o) !in past
       case Ready =>
         && Opened(past, o, v) && !Detached(past, o) && !Dropped(past, o) && OpenInsert(o) !in past
         && (v.cancelDB.Some? <==> Attached(past, o))
       case Rejected => Opened(past, o, v) && OpenInsert(o) in past
       case Registered => Opened(past, o, v) && OpenInsert(o) in past && Cancels(past, o, v)
       case Closing => Opened(past, o, v) && OpenInsert(o) in past && CloseBegin(v.id) in past && Cancels(past, o, v)
       case Disconnected =>
         && ConnectedWell(past, o) && OpenInsert(o) in past && CloseBegin(v.id) in past
         && (v.held.Some? ==> Attached(past, o))
       case Released =>
         ConnectedWell(past, o) && OpenInsert(o) in past && CloseBegin(v.id) in past && CloseRelease(o) in past
       case Gone =>
         && v.held == None
         && (ConnectedAs(past, o, false, false)
             || (ConnectedWell(past, o) && OpenInsert(o) in past && OpenReject(o) in past))
  }

  ghost predicate ConnectedWell(past: seq<Action>, o: nat) {
    ConnectedAs(past, o, true, true) || ConnectedAs(past, o, false, true)
  }

  /** The object connected, and has its key exactly if it connected with the control and has not dropped it. */
  ghost predicate Opened(past: seq<Action>, o: nat, v: Session) {
    ConnectedWell(past, o) && (v.held.Some? <==> Attached(past, o) && !Dropped(past, o))
  }

  ghost predicate Cancels(past: seq<Action>, o: nat, v: Session) {
    v.cancelDB.Some? <==> Attached(past, o) && !Detached(past, o)
  }

  ghost predicate History(past: seq<Action>, s: State) {
    && (forall o | o in s.objects :: Told(past, o, s.objects[o]))
    && (forall o: nat | o !in s.objects :: Fresh(past, o))
    && (forall id | id in s.registry :: In(s, s.registry[id], Registered) && s.objects[s.registry[id]].id == id)
  }

  function Subject(s: State, a: Action): Option<nat>
    requires Enabled(s, a)
  {
    match a
    case OpenStart(_, o) => Some(o)
    case CloseBegin(id) => Some(s.registry[id])
    case Fetch(_) => None
    case _ => Some(a.o)
  }

  lemma OthersTold(past: seq<Action>, s: State, a: Action, o: nat)
    requires Enabled(s, a) && Subject(s, a) != Some(o)
    ensures o in s.objects && Told(past, o, s.objects[o]) ==> Told(past + [a], o, s.objects[o])
    ensures Fresh(past, o) ==> Fresh(past + [a], o)
  {
  }

  /** The object that a step is about. */
  lemma StartTold(past: seq<Action>, s: State, a: Action, o: nat)
    requires Enabled(s, a) && Subject(s, a) == Some(o) && (a.OpenStart? || a.OpenAcquire?)
    requires if o in s.objects then Told(past, o, s.objects[o]) else Fresh(past, o)
    ensures Told(past + [a], o, Step(s, a).objects[o])
  {
    hide Release;
    assert a in past + [a] && forall b | b in past :: b in past + [a];
    if a.OpenAcquire? {
      assert Step(s, a).objects[o].held.Some? ==> AcquiredKey(past + [a], o, a.key);
    }
  }

  lemma ConnectTold(past: seq<Action>, s: State, a: Action, o: nat)
    requires Enabled(s, a) && Subject(s, a) == Some(o) && (a.OpenConnect?)
    requires if o in s.objects then Told(past, o, s.objects[o]) else Fresh(past, o)
    ensures Told(past + [a], o, Step(s, a).objects[o])
  {
    hide Release;
    assert a in past + [a] && forall b | b in past :: b in past + [a];
  }

  lemma DropTold(past: seq<Action>, s: State, a: Action, o: nat)
    requires Enabled(s, a) && Subject(s, a) == Some(o) && (a.OpenDrop? || a.OpenReject?)
    requires if o in s.objects then Told(past, o, s.objects[o]) else Fresh(past, o)
    ensures Told(past + [a], o, Step(s, a).objects[o])
  {
    hide Release;
    assert a in past + [a] && forall b | b in past :: b in past + [a];
  }

  lemma InsertTold(past: seq<Action>, s: State, a: Action, o: nat)
    requires Enabled(s, a) && Subject(s, a) == Some(o) && (a.OpenInsert?)
    requires if o in s.objects then Told(past, o, s.objects[o]) else Fresh(past, o)
    ensures Told(past + [a], o, Step(s, a).objects[o])
  {
    hide Release;
    assert a in past + [a] && forall b | b in past :: b in past + [a];
  }

  lemma CloseTold(past: seq<Action>, s: State, a: Action, o: nat)
    requires Enabled(s, a) && Subject(s, a) == Some(o) && (a.CloseBegin? || a.CloseDisconnect? || a.CloseRelease?)
    requires o in s.objects && Told(past, o, s.objects[o])
    requires a.CloseBegin? ==> s.objects[o].phase == Registered && s.objects[o].id == a.id
    ensures Told(past + [a], o, Step(s, a).objects[o])
  {
    hide Release;
    assert a in past + [a] && forall b | b in past :: b in past + [a];
  }

  lemma ReconnectTold(past: seq<Action>, s: State, a: Action, o: nat)
    requires Enabled(s, a) && Subject(s, a) == Some(o) && (a.Reconnect? || a.ReconnectDrop?)
    requires if o in s.objects then Told(past, o, s.objects[o]) else Fresh(past, o)
    ensures Told(past + [a], o, Step(s, a).objects[o])
  {
    hide Release;
    assert a in past + [a] && forall b | b in past :: b in past + [a];
  }

  lemma SubjectTold(past: seq<Action>, s: State, a: Action, o: nat)
    requires Enabled(s, a) && Subject(s, a) == Some(o)
    requires if o in s.objects then Told(past, o, s.objects[o]) else Fresh(past, o)
    requires a.CloseBegin? ==> In(s, o, Registered) && s.objects[o].id == a.id
    ensures Told(past + [a], o, Step(s, a).objects[o])
  {
    hide Acquire, Release, Told, Fresh;
    match a
    case OpenStart(_, _) => StartTold(past, s, a, o);
    case OpenAcquire(_, _, _) => StartTold(past, s, a, o);
    case OpenConnect(_, _, _) => ConnectTold(past, s, a, o);
    case OpenInsert(_) => InsertTold(past, s, a, o);
    case OpenDrop(_) => DropTold(past, s, a, o);
    case OpenReject(_) => DropTold(past, s, a, o);
    case Reconnect(_, _) => ReconnectTold(past, s, a, o);
    case ReconnectDrop(_) => ReconnectTold(past, s, a, o);
    case _ => CloseTold(past, s, a, o);
  }

  lemma HistoryStep(past: seq<Action>, s: State, a: Action)
    requires History(past, s) && Enabled(s, a)
    ensures History(past + [a], Step(s, a))
  {
    hide Acquire, Release, Told, Fresh;
    var t := Step(s, a);
    forall o: nat ensures o in t.objects ==> Told(past + [a], o, t.objects[o])
      ensures o !in t.objects ==> Fresh(past + [a], o)
    {
      if Subject(s, a) == Some(o) {
        SubjectTold(past, s, a, o);
      } else {
        OthersTold(past, s, a, o);
        assert o in t.objects <==> o in s.objects;
        assert o in s.objects ==> t.objects[o] == s.objects[o];
      }
    }
  }

  lemma {:induction false} HistoryRun(past: seq<Action>, s: State, actions: seq<Action>)
    requires History(past, s) && Run(s, actions).Some?
    ensures History(past + actions, Run(s, actions).value)
    decreases |actions|
  {
    hide History, Step, Enabled;
    if actions == [] {
      assert past + actions == past;
    } else {
      HistoryStep(past, s, actions[0]);
      HistoryRun(past + [actions[0]], Step(s, actions[0]), actions[1..]);
      assert past + [actions[0]] + actions[1..] == past + actions;
    }
  }

  lemma Begun()
    ensures History([], INIT)
  {
  }

  /** Over every run: a registered session is one that was opened under its id, connected and was inserted; it
      has a cancel handle exactly if it connected with the control and no reconnect has lost it, and holds
      the key it acquired exactly as long as that was not dropped. */
  lemma RegisteredWasOpened(actions: seq<Action>, id: string)
    requires Run(INIT, actions).Some? && id in Run(INIT, actions).value.registry
    ensures var s := Run(INIT, actions).value; var o := s.registry[id];
      && o in s.objects && OpenStart(id, o) in actions && OpenInsert(o) in actions
      && (OpenConnect(o, true, true) in actions || OpenConnect(o, false, true) in actions)
      && OpenConnect(o, true, false) !in actions && OpenConnect(o, false, false) !in actions
      && (s.objects[o].cancelDB.Some? <==> OpenConnect(o, true, true) in actions && Reconnect(o, false) !in actions)
      && (s.objects[o].held.Some? <==> OpenConnect(o, true, true) in actions && ReconnectDrop(o) !in actions)
      && (s.objects[o].held.Some? ==> exists d :: OpenAcquire(o, s.objects[o].held.value, d) in actions)
  {
    hide Run;
    Begun();
    HistoryRun([], INIT, actions);
    assert [] + actions == actions;
    var s := Run(INIT, actions).value;
    TellsRegistered(actions, s.registry[id], s.objects[s.registry[id]]);
  }

  lemma TellsRegistered(past: seq<Action>, o: nat, v: Session)
    requires Told(past, o, v) && v.phase == Registered
    ensures OpenStart(v.id, o) in past && OpenInsert(o) in past
    ensures OpenConnect(o, true, true) in past || OpenConnect(o, false, true) in past
    ensures OpenConnect(o, true, false) !in past && OpenConnect(o, false, false) !in past
    ensures v.cancelDB.Some? <==> OpenConnect(o, true, true) in past && Reconnect(o, false) !in past
    ensures v.held.Some? <==> OpenConnect(o, true, true) in past && ReconnectDrop(o) !in past
    ensures v.held.Some? ==> exists d :: OpenAcquire(o, v.held.value, d) in past
  {
  }

  /** A session that could not connect is never registered. */
  lemma FailedIsNotRegistered(actions: seq<Action>, o: nat, attached: bool)
    requires Run(INIT, actions).Some? && OpenConnect(o, attached, false) in actions
    ensures o !in Run(INIT, actions).value.registry.Values
  {
    hide Run;
    var s := Run(INIT, actions).value;
    forall id | id in s.registry ensures s.registry[id] != o {
      RegisteredWasOpened(actions, id);
    }
  }

  // ---- whole requests, one after the other ----

  lemma RunThree(s: State, a: Action, b: Action, c: Action)
    requires Enabled(s, a) && Enabled(Step(s, a), b) && Enabled(Step(Step(s, a), b), c)
    ensures Run(s, [a, b, c]) == Some(Step(Step(Step(s, a), b), c))
  {
    hide Enabled, Step;
    RunCons(s, a, [b, c]);
    RunCons(Step(s, a), b, [c]);
    RunCons(Step(Step(s, a), b), c, []);
    assert [c] + [] == [c] && [b] + [c] == [b, c] && [a] + [b, c] == [a, b, c];
  }

  lemma {:induction false} RunSnoc(s: State, actions: seq<Action>, a: Action)
    requires Run(s, actions).Some? && Enabled(Run(s, actions).value, a)
    ensures Run(s, actions + [a]) == Some(Step(Run(s, actions).value, a))
    decreases |actions|
  {
    hide Enabled, Step;
    if actions == [] {
      assert actions + [a] == [a] && [a][1..] == [];
    } else {
      assert (actions + [a])[1..] == actions[1..] + [a];
      RunSnoc(Step(s, actions[0]), actions[1..], a);
    }
  }

  lemma ReservesControl(s: State, id: string, o: nat, key: string, dialed: bool) returns (t: State)
    requires id !in s.registry && |s.registry| < 256 && o !in s.objects
    ensures var (c, db) := Acquire(s.controls, key, dialed);
      && Run(s, [OpenStart(id, o), OpenAcquire(o, key, dialed)]) == Some(t)
      && t == State(
        s.registry, s.objects[o := Session(id, if db.Some? then Some(key) else None, db, Acquired, false)], c,
        s.fetched)
  {
    hide Run, Acquire;
    var a, b := OpenStart(id, o), OpenAcquire(o, key, dialed);
    RunNone(s);
    assert [] + [a] == [a] && [a] + [b] == [a, b];
    RunSnoc(s, [], a);
    RunSnoc(s, [a], b);
    t := Step(Step(s, a), b);
    var (c, db) := Acquire(s.controls, key, dialed);
    assert t.objects == s.objects[o := Session(id, if db.Some? then Some(key) else None, db, Acquired, false)];
  }

  lemma RunNone(s: State)
    ensures Run(s, []) == Some(s)
  {
  }

  lemma DropsControl(s: State, o: nat, ok: bool)
    requires In(s, o, Acquired)
    ensures var c := OpenConnect(o, false, ok); var d := OpenDrop(o); var v := s.objects[o];
      && Enabled(s, c) && Enabled(Step(s, c), d)
      && Step(Step(s, c), d) == State(
        s.registry, s.objects[o := v.(held := None, cancelDB := None, phase := if ok then Ready else Gone)],
        Release(s.controls, v.held), s.fetched)
  {
    hide Release;
    var v := s.objects[o];
    assert s.objects[o := v.(cancelDB := None, phase := Unattached(ok))]
        [o := v.(held := None, cancelDB := None, phase := if ok then Ready else Gone)]
        == s.objects[o := v.(held := None, cancelDB := None, phase := if ok then Ready else Gone)];
  }

  lemma PutTwice(objects: map<nat, Session>, o: nat, v: Session, w: Session)
    ensures objects[o := v][o := w] == objects[o := w]
  {
  }

  lemma Inserts(s: State, o: nat)
    requires In(s, o, Ready) && s.objects[o].id !in s.registry && |s.registry| < 256
    ensures Enabled(s, OpenInsert(o))
    ensures Step(s, OpenInsert(o)) == State(
      s.registry[s.objects[o].id := o], s.objects[o := s.objects[o].(phase := Registered)], s.controls, s.fetched)
  {
  }

  /** An open with the control attached: the session is registered with its key and the control's handle, and
      the control is shared by one more, or new. */
  lemma OpenShares(s: State, id: string, o: nat, key: string, dialed: bool)
    requires id !in s.registry && |s.registry| < 256 && o !in s.objects && (key in s.controls.byKey || dialed)
    ensures var c := s.controls;
      var db := if key in c.byKey then c.byKey[key].db else c.nextDb;
      var refs := if key in c.byKey then c.byKey[key].refs + 1 else 1;
      Run(s, [OpenStart(id, o), OpenAcquire(o, key, dialed), OpenConnect(o, true, true), OpenInsert(o)]) == Some(
        State(s.registry[id := o], s.objects[o := Session(id, Some(key), Some(db), Registered, false)],
              Controls(c.byKey[key := SharedControl(db, refs)], c.closed,
                       if key in c.byKey then c.nextDb else c.nextDb + 1),
              s.fetched))
  {
    hide Run, Acquire, Step, Enabled;
    var a, b, c, d := OpenStart(id, o), OpenAcquire(o, key, dialed), OpenConnect(o, true, true), OpenInsert(o);
    var u := ReservesControl(s, id, o, key, dialed);
    AcquireIs(s.controls, key, dialed);
    Attaches(u, o);
    assert [a, b] + [c] == [a, b, c] && [a, b, c] + [d] == [a, b, c, d];
    RunSnoc(s, [a, b], c);
    Inserts(Step(u, c), o);
    RunSnoc(s, [a, b, c], d);
    var v := u.objects[o];
    PutTwice(s.objects, o, v, v.(phase := Ready));
    PutTwice(s.objects, o, v.(phase := Ready), v.(phase := Registered));
  }

  lemma AcquireIs(c: Controls, key: string, dialed: bool)
    requires key in c.byKey || dialed
    ensures var db := if key in c.byKey then c.byKey[key].db else c.nextDb;
      var refs := if key in c.byKey then c.byKey[key].refs + 1 else 1;
      Acquire(c, key, dialed) == (
        Controls(c.byKey[key := SharedControl(db, refs)], c.closed, if key in c.byKey then c.nextDb else c.nextDb + 1),
        Some(db))
  {
  }

  lemma Attaches(s: State, o: nat)
    requires In(s, o, Acquired) && s.objects[o].held.Some?
    ensures Enabled(s, OpenConnect(o, true, true))
    ensures Step(s, OpenConnect(o, true, true)) == s.(objects := s.objects[o := s.objects[o].(phase := Ready)])
  {
  }

  /** An open that does not get the control: registered all the same if it connected, without key and handle,
      and the controls are as before; if it did not connect, the registry is, too. */
  lemma OpenWithout(s: State, id: string, o: nat, key: string, dialed: bool, ok: bool)
    requires id !in s.registry && |s.registry| < 256 && o !in s.objects
    requires key in s.controls.byKey ==> s.controls.byKey[key].refs > 0
    ensures var actions := [OpenStart(id, o), OpenAcquire(o, key, dialed), OpenConnect(o, false, ok), OpenDrop(o)];
      && Run(s, actions).Some? && var t := Run(s, actions).value;
      && t.controls.byKey == s.controls.byKey && t.registry == s.registry && t.fetched == s.fetched
      && t.objects == s.objects[o := Session(id, None, None, if ok then Ready else Gone, false)]
      && (ok ==> Run(s, actions + [OpenInsert(o)]) == Some(State(
            s.registry[id := o], s.objects[o := Session(id, None, None, Registered, false)], t.controls, s.fetched)))
  {
    hide Run, Acquire, Release, Step, Enabled;
    var a, b, c, d := OpenStart(id, o), OpenAcquire(o, key, dialed), OpenConnect(o, false, ok), OpenDrop(o);
    var u := ReservesControl(s, id, o, key, dialed);
    DropsControl(u, o, ok);
    assert [a, b] + [c] == [a, b, c] && [a, b, c] + [d] == [a, b, c, d];
    RunSnoc(s, [a, b], c);
    RunSnoc(s, [a, b, c], d);
    ReleaseUndoesAcquire(s.controls, key, dialed);
    var v := Session(id, None, None, if ok then Ready else Gone, false);
    PutTwice(s.objects, o, u.objects[o], v);
    if ok {
      var t := Run(s, [a, b, c, d]).value;
      Inserts(t, o);
      RunSnoc(s, [a, b, c, d], OpenInsert(o));
      PutTwice(s.objects, o, v, v.(phase := Registered));
    }
  }

  /** A close takes the session out of the registry and gives its reference back; the last one closes the
      control. */
  lemma CloseReleases(s: State, id: string)
    requires id in s.registry && In(s, s.registry[id], Registered) && !s.objects[s.registry[id]].dropping
    ensures var o := s.registry[id]; var v := s.objects[o]; var c := s.controls;
      var control := if v.held.Some? && v.held.value in c.byKey then c.byKey[v.held.value] else SharedControl(0, 0);
      Run(s, [CloseBegin(id), CloseDisconnect(o), CloseRelease(o)]) == Some(State(
        s.registry - {id}, s.objects[o := v.(cancelDB := None, phase := Released)],
        if v.held == None || v.held.value !in c.byKey then c
        else if control.refs > 1
        then c.(byKey := c.byKey[v.held.value := SharedControl(control.db, control.refs - 1)])
        else c.(byKey := c.byKey - {v.held.value}, closed := c.closed + {control.db}),
        s.fetched))
  {
    hide Run;
    var o := s.registry[id];
    RunThree(s, CloseBegin(id), CloseDisconnect(o), CloseRelease(o));
    assert s.objects[o := s.objects[o].(phase := Closing)][o := s.objects[o].(cancelDB := None, phase := Disconnected)]
        [o := s.objects[o].(cancelDB := None, phase := Released)]
        == s.objects[o := s.objects[o].(cancelDB := None, phase := Released)];
  }
}
