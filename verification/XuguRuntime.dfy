/** The multi-session runtime of the Xugu agent: the registry of sessions and the reference-counted
    control connections they share. Every lock region is one step; steps of different requests
    interleave freely. */
module XuguRuntime {
  import opened Text
  import Registry = SessionRegistry

  /** A control connection: which database handle it is and how many sessions reserved it. */
  datatype SharedControl = SharedControl(db: nat, refs: int)

  /** The part of the runtime that `controlMu` guards, with the handles closed so far. */
  datatype Controls = Controls(byKey: map<string, SharedControl>, closed: set<nat>, nextDb: nat)

  // ---- the control map ----

  /** acquireControlWith: a live control is shared; otherwise one is dialed, which may fail. */
  function Acquire(c: Controls, key: string, dialed: bool): (Controls, Option<nat>) {
    if key in c.byKey then
      var control := c.byKey[key];
      (c.(byKey := c.byKey[key := control.(refs := control.refs + 1)]), Some(control.db))
    else if dialed then
      (Controls(c.byKey[key := SharedControl(c.nextDb, 1)], c.closed, c.nextDb + 1), Some(c.nextDb))
    else (c, None)
  }

  /** releaseControl: no key and an unknown key are ignored; the last reference closes the handle. */
  function Release(c: Controls, key: Option<string>): Controls {
    if key.None? || key.value !in c.byKey then c
    else
      var control := c.byKey[key.value];
      if control.refs - 1 <= 0 then
        c.(byKey := c.byKey - {key.value}, closed := c.closed + {control.db})
      else c.(byKey := c.byKey[key.value := control.(refs := control.refs - 1)])
  }

  // ---- sessions and steps ----

  /** Where a session object is in its life; the first five belong to the opening request. */
  datatype Phase =
    | Checked                    // past the first look at the registry
    | Acquired                   // a control was reserved, or could not be
    | Unattached(ok: bool)       // connected without the control, or not at all: it is to be released
    | Ready                      // connected, about to be registered
    | Rejected                   // refused at registration, its control is to be released
    | Registered
    | Closing                    // taken out of the registry, not yet disconnected
    | Disconnected               // disconnected by the close, its control is to be released
    | Released                   // closed; `controlKey` is still set
    | Gone

  /** A session object. `held` is its `controlKey`, `cancelDB` the handle its server uses to cancel;
      `dropping` says a reconnect lost the control and is about to release it. */
  datatype Session = Session(id: string, held: Option<string>, cancelDB: Option<nat>, phase: Phase, dropping: bool)

  datatype State = State(
    registry: map<string, nat>,
    objects: map<nat, Session>,
    controls: Controls,
    fetched: set<nat>)           // sessions a validate request has looked up

  const INIT := State(map[], map[], Controls(map[], {}, 0), {})

  datatype Action =
    | OpenStart(id: string, o: nat)
    | OpenAcquire(o: nat, key: string, dialed: bool)
    | OpenConnect(o: nat, attached: bool, ok: bool)
    | OpenDrop(o: nat)
    | OpenInsert(o: nat)
    | OpenReject(o: nat)
    | CloseBegin(id: string)
    | CloseDisconnect(o: nat)
    | CloseRelease(o: nat)
    | Fetch(id: string)
    | Reconnect(o: nat, attached: bool)
    | ReconnectDrop(o: nat)

  predicate In(s: State, o: nat, phase: Phase) { o in s.objects && s.objects[o].phase == phase }

  /** Which steps can happen. A validate request holds on to the session it fetched, so it may
      reconnect at any later time, also after the session was closed. */
  predicate Enabled(s: State, a: Action) {
    match a
    case OpenStart(id, o) => id !in s.registry && |s.registry| < Registry.MAX_AGENT_SESSIONS && o !in s.objects
    case OpenAcquire(o, key, dialed) => In(s, o, Checked)
    case OpenConnect(o, attached, ok) => In(s, o, Acquired) && (attached ==> ok && s.objects[o].held.Some?)
    case OpenDrop(o) => o in s.objects && s.objects[o].phase.Unattached?
    case OpenInsert(o) => In(s, o, Ready)
    case OpenReject(o) => In(s, o, Rejected)
    case CloseBegin(id) => id in s.registry && s.registry[id] in s.objects
    case CloseDisconnect(o) => In(s, o, Closing) && !s.objects[o].dropping
    case CloseRelease(o) => In(s, o, Disconnected)
    case Fetch(id) => id in s.registry
    case Reconnect(o, attached) =>
      && o in s.fetched && o in s.objects && !s.objects[o].dropping
      && s.objects[o].phase in {Registered, Closing, Released}
      && (attached ==> s.objects[o].cancelDB.Some?)
    case ReconnectDrop(o) => o in s.objects && s.objects[o].dropping
  }

  function Put(s: State, o: nat, v: Session): State { s.(objects := s.objects[o := v]) }

  /** The state after a step. */
  function Step(s: State, a: Action): State
    requires Enabled(s, a)
  {
    match a
    case OpenStart(id, o) => Put(s, o, Session(id, None, None, Checked, false))
    case OpenAcquire(o, key, dialed) =>
      var (controls, db) := Acquire(s.controls, key, dialed);
      Put(s.(controls := controls), o,
          s.objects[o].(held := if db.Some? then Some(key) else None, cancelDB := db, phase := Acquired))
    case OpenConnect(o, attached, ok) =>
      var v := s.objects[o];
      Put(s, o, if attached then v.(phase := Ready) else v.(cancelDB := None, phase := Unattached(ok)))
    case OpenDrop(o) =>
      var v := s.objects[o];
      Put(s.(controls := Release(s.controls, v.held)), o, v.(held := None, phase := if v.phase.ok then Ready else Gone))
    case OpenInsert(o) =>
      var v := s.objects[o];
      if v.id in s.registry || |s.registry| >= Registry.MAX_AGENT_SESSIONS then
        Put(s, o, v.(cancelDB := None, phase := Rejected))
      else Put(s.(registry := s.registry[v.id := o]), o, v.(phase := Registered))
    case OpenReject(o) =>
      Put(s.(controls := Release(s.controls, s.objects[o].held)), o, s.objects[o].(held := None, phase := Gone))
    case CloseBegin(id) =>
      var o := s.registry[id];
      Put(s.(registry := s.registry - {id}), o, s.objects[o].(phase := Closing))
    case CloseDisconnect(o) => Put(s, o, s.objects[o].(cancelDB := None, phase := Disconnected))
    case CloseRelease(o) =>
      Put(s.(controls := Release(s.controls, s.objects[o].held)), o, s.objects[o].(phase := Released))
    case Fetch(id) => s.(fetched := s.fetched + {s.registry[id]})
    case Reconnect(o, attached) =>
      if attached then s else Put(s, o, s.objects[o].(cancelDB := None, dropping := true))
    case ReconnectDrop(o) =>
      Put(s.(controls := Release(s.controls, s.objects[o].held)), o, s.objects[o].(held := None, dropping := false))
  }

  // ---- conservation ----

  /** The session counts as a user of the control its key names. */
  predicate Holds(v: Session, key: string) { v.held == Some(key) && v.phase != Released }

  function Holders(objects: map<nat, Session>, key: string): set<nat> {
    set o | o in objects && Holds(objects[o], key)
  }

  /** The control of a key exists exactly while someone holds it, is counted exactly, and is open. */
  ghost predicate KeyOk(objects: map<nat, Session>, c: Controls, key: string) {
    && (key in c.byKey <==> Holders(objects, key) != {})
    && (key in c.byKey ==> c.byKey[key].refs == |Holders(objects, key)| && c.byKey[key].db !in c.closed)
  }

  ghost predicate Conserved(objects: map<nat, Session>, c: Controls) {
    forall key :: KeyOk(objects, c, key)
  }

  /** The session's cancel handle, if it has one, is that of the live control it holds. */
  ghost predicate CancelOk(v: Session, c: Controls) {
    v.cancelDB.Some? ==>
      && v.held.Some? && v.phase != Released
      && v.held.value in c.byKey && c.byKey[v.held.value].db == v.cancelDB.value
  }

  ghost predicate CancelsOk(objects: map<nat, Session>, c: Controls) {
    forall o | o in objects :: CancelOk(objects[o], c)
  }

  /** At most 256 sessions are registered, each under its own id; exactly the registered objects
      are in the registry. */
  ghost predicate RegistryOk(registry: map<string, nat>, objects: map<nat, Session>) {
    && |registry| <= Registry.MAX_AGENT_SESSIONS
    && (forall id | id in registry ::
        registry[id] in objects && objects[registry[id]].phase == Registered && objects[registry[id]].id == id)
    && (forall o | o in objects :: objects[o].phase == Registered ==>
        objects[o].id in registry && registry[objects[o].id] == o)
  }

  ghost predicate LifeOk(v: Session) {
    && (v.dropping ==> v.phase in {Registered, Closing, Released})
    && (v.phase in {Checked, Gone} ==> v.held == None)
    && (v.dropping || v.phase in {Checked, Rejected, Disconnected, Released, Gone} || v.phase.Unattached? ==>
        v.cancelDB == None)
  }

  ghost predicate LivesOk(objects: map<nat, Session>) {
    forall o | o in objects :: LifeOk(objects[o])
  }

  ghost predicate DbsFresh(c: Controls) {
    && (forall d | d in c.closed :: d < c.nextDb)
    && (forall key | key in c.byKey :: c.byKey[key].db < c.nextDb)
    && (forall k, l | k in c.byKey && l in c.byKey && k != l :: c.byKey[k].db != c.byKey[l].db)
  }

  ghost predicate ControlsOk(objects: map<nat, Session>, c: Controls) {
    Conserved(objects, c) && CancelsOk(objects, c) && DbsFresh(c)
  }

  ghost predicate Inv(s: State) {
    ControlsOk(s.objects, s.controls) && RegistryOk(s.registry, s.objects) && LivesOk(s.objects)
  }

  /** What the invariant says to a user of a session: its cancel handle is never a closed one. */
  lemma NeverClosed(s: State, o: nat)
    requires Inv(s) && o in s.objects && s.objects[o].cancelDB.Some?
    ensures s.objects[o].cancelDB.value !in s.controls.closed
  {
    assert KeyOk(s.objects, s.controls, s.objects[o].held.value);
  }

  /** The guard that is missing in the code: a reconnect must not release the stale key of a session that a
      close has released already, if a live control has that key by now. */
  predicate Guarded(s: State, a: Action) {
    a.ReconnectDrop? && In(s, a.o, Released) ==>
      s.objects[a.o].held == None || s.objects[a.o].held.value !in s.controls.byKey
  }

  // ---- steps keep it ----

  lemma HoldersPut(objects: map<nat, Session>, o: nat, v: Session, key: string)
    ensures Holders(objects[o := v], key) == Holders(objects, key) - {o} + (if Holds(v, key) then {o} else {})
  {
  }

  /** A step that leaves the controls alone and changes neither who holds what nor any handle, except
      that a handle may be given up. */
  lemma QuietStep(objects: map<nat, Session>, c: Controls, o: nat, v: Session)
    requires ControlsOk(objects, c)
    requires forall key :: Holds(v, key) == (o in objects && Holds(objects[o], key))
    requires CancelOk(v, c)
    ensures ControlsOk(objects[o := v], c)
  {
    var after := objects[o := v];
    forall key ensures KeyOk(after, c, key) {
      HoldersPut(objects, o, v, key);
      assert Holders(after, key) == Holders(objects, key);
      assert KeyOk(objects, c, key);
    }
  }

  /** A holder that releases its control: the count goes down by one, and at zero the handle that
      nobody uses any more is closed. */
  lemma ReleaseStep(objects: map<nat, Session>, c: Controls, o: nat, v: Session)
    requires ControlsOk(objects, c) && o in objects && objects[o].phase != Released && objects[o].cancelDB == None
    requires (v.held == None || v.phase == Released) && v.cancelDB == None
    ensures ControlsOk(objects[o := v], Release(c, objects[o].held))
  {
    var d := Release(c, objects[o].held);
    if objects[o].held == None {
      QuietStep(objects, c, o, v);
    } else {
      var key := objects[o].held.value;
      assert KeyOk(objects, c, key) && o in Holders(objects, key);
      var after := objects[o := v];
      forall k ensures KeyOk(after, d, k) {
        ReleaseKey(objects, c, o, v, k);
      }
      ReleaseCancels(objects, c, o, v);
    }
  }

  lemma ReleaseKey(objects: map<nat, Session>, c: Controls, o: nat, v: Session, k: string)
    requires KeyOk(objects, c, k) && DbsFresh(c) && o in objects && objects[o].phase != Released
        && objects[o].held.Some?
    requires objects[o].held.value in c.byKey && KeyOk(objects, c, objects[o].held.value)
    requires v.held == None || v.phase == Released
    ensures KeyOk(objects[o := v], Release(c, objects[o].held), k)
  {
    HoldersPut(objects, o, v, k);
    if k == objects[o].held.value {
      assert o in Holders(objects, k);
      assert |Holders(objects, k) - {o}| == |Holders(objects, k)| - 1;
    } else {
      assert Holders(objects[o := v], k) == Holders(objects, k);
    }
  }

  lemma ReleaseCancels(objects: map<nat, Session>, c: Controls, o: nat, v: Session)
    requires ControlsOk(objects, c) && o in objects && objects[o].phase != Released && objects[o].held.Some?
    requires v.cancelDB == None && objects[o].cancelDB == None
    ensures CancelsOk(objects[o := v], Release(c, objects[o].held)) && DbsFresh(Release(c, objects[o].held))
  {
    var key := objects[o].held.value;
    var d := Release(c, objects[o].held);
    assert KeyOk(objects, c, key);
    var after := objects[o := v];
    forall p | p in after ensures CancelOk(after[p], d) {
      if p != o && objects[p].cancelDB.Some? && objects[p].held == Some(key) {
        assert CancelOk(objects[p], c);
        assert {o, p} <= Holders(objects, key);
        TwoHolders(Holders(objects, key), o, p);
      } else if p != o {
        assert CancelOk(objects[p], c);
      }
    }
  }

  lemma TwoHolders(holders: set<nat>, o: nat, p: nat)
    requires o in holders && p in holders && o != p
    ensures |holders| >= 2
  {
    assert |holders - {o}| == |holders| - 1;
    assert p in holders - {o};
  }

  lemma AcquireStep(objects: map<nat, Session>, c: Controls, o: nat, key: string, dialed: bool)
    requires ControlsOk(objects, c) && o in objects && objects[o].held == None && KeyOk(objects, c, key)
    ensures var (d, db) := Acquire(c, key, dialed);
      var v := objects[o].(held := if db.Some? then Some(key) else None, cancelDB := db, phase := Acquired);
      ControlsOk(objects[o := v], d)
  {
    var (d, db) := Acquire(c, key, dialed);
    var v := objects[o].(held := if db.Some? then Some(key) else None, cancelDB := db, phase := Acquired);
    var after := objects[o := v];
    AcquireFresh(objects, c, key, dialed);
    forall k ensures KeyOk(after, d, k) {
      AcquireKey(objects, c, o, key, dialed, k);
    }
    forall p | p in after ensures CancelOk(after[p], d) {
      if p != o {
        assert CancelOk(objects[p], c);
      }
    }
  }

  lemma AcquireFresh(objects: map<nat, Session>, c: Controls, key: string, dialed: bool)
    requires DbsFresh(c) && KeyOk(objects, c, key)
    ensures var (d, db) := Acquire(c, key, dialed);
      && DbsFresh(d)
      && (forall k | k in c.byKey :: k in d.byKey && d.byKey[k].db == c.byKey[k].db)
      && (db.Some? ==> key in d.byKey && d.byKey[key].db == db.value)
  {
  }

  lemma AcquireKey(objects: map<nat, Session>, c: Controls, o: nat, key: string, dialed: bool, k: string)
    requires DbsFresh(c) && KeyOk(objects, c, k) && o in objects && objects[o].held == None
    ensures var (d, db) := Acquire(c, key, dialed);
      var v := objects[o].(held := if db.Some? then Some(key) else None, cancelDB := db, phase := Acquired);
      KeyOk(objects[o := v], d, k)
  {
    var (d, db) := Acquire(c, key, dialed);
    var v := objects[o].(held := if db.Some? then Some(key) else None, cancelDB := db, phase := Acquired);
    HoldersPut(objects, o, v, k);
    assert o !in Holders(objects, k);
    if db.Some? && k == key {
      assert |Holders(objects, k) + {o}| == |Holders(objects, k)| + 1;
    } else {
      assert Holders(objects[o := v], k) == Holders(objects, k);
    }
  }

  lemma ControlsStep(s: State, a: Action)
    requires Inv(s) && Enabled(s, a) && Guarded(s, a)
    ensures ControlsOk(Step(s, a).objects, Step(s, a).controls)
  {
    hide ControlsOk, Acquire, Release;
    var t := Step(s, a);
    match a
    case OpenStart(id, o) => QuietOf(s, o, t.objects[o]);
    case OpenAcquire(o, key, dialed) => AcquireOf(s, o, key); AcquireStep(s.objects, s.controls, o, key, dialed);
    case OpenConnect(o, attached, ok) => QuietOf(s, o, t.objects[o]);
    case OpenDrop(o) => ReleaseOf(s, o, t.objects[o]);
    case OpenInsert(o) => QuietOf(s, o, t.objects[o]);
    case OpenReject(o) => ReleaseOf(s, o, t.objects[o]);
    case CloseBegin(id) => QuietOf(s, s.registry[id], t.objects[s.registry[id]]);
    case CloseDisconnect(o) => QuietOf(s, o, t.objects[o]);
    case CloseRelease(o) => ReleaseOf(s, o, t.objects[o]);
    case Fetch(id) =>
    case Reconnect(o, attached) => if !attached { QuietOf(s, o, t.objects[o]); }
    case ReconnectDrop(o) => if In(s, o, Released) { StaleDrop(s, o); } else { ReleaseOf(s, o, t.objects[o]); }
  }

  /** Dropping a stale key that no control has changes nothing that counts. */
  lemma StaleDrop(s: State, o: nat)
    requires Inv(s) && In(s, o, Released) && Guarded(s, ReconnectDrop(o))
    ensures ControlsOk(s.objects[o := s.objects[o].(held := None, dropping := false)],
        Release(s.controls, s.objects[o].held))
  {
    assert LifeOk(s.objects[o]);
    QuietStep(s.objects, s.controls, o, s.objects[o].(held := None, dropping := false));
  }

  lemma AcquireOf(s: State, o: nat, key: string)
    requires Inv(s) && In(s, o, Checked)
    ensures s.objects[o].held == None && KeyOk(s.objects, s.controls, key)
  {
    assert LifeOk(s.objects[o]);
  }

  lemma QuietOf(s: State, o: nat, v: Session)
    requires ControlsOk(s.objects, s.controls)
    requires if o in s.objects
      then v.held == s.objects[o].held && (v.phase == Released <==> s.objects[o].phase == Released)
      else v.held == None
    requires v.cancelDB == None || (o in s.objects && v.cancelDB == s.objects[o].cancelDB)
    ensures ControlsOk(s.objects[o := v], s.controls)
  {
    if o in s.objects {
      assert CancelOk(s.objects[o], s.controls);
    }
    QuietStep(s.objects, s.controls, o, v);
  }

  lemma ReleaseOf(s: State, o: nat, v: Session)
    requires ControlsOk(s.objects, s.controls) && LivesOk(s.objects) && o in s.objects
    requires s.objects[o].phase != Released
    requires s.objects[o].dropping || s.objects[o].phase in {Rejected, Disconnected} || s.objects[o].phase.Unattached?
    requires v.cancelDB == s.objects[o].cancelDB && (v.held == None || v.phase == Released)
    ensures ControlsOk(s.objects[o := v], Release(s.controls, s.objects[o].held))
  {
    assert LifeOk(s.objects[o]);
    ReleaseStep(s.objects, s.controls, o, v);
  }

  lemma LivesStep(s: State, a: Action)
    requires LivesOk(s.objects) && RegistryOk(s.registry, s.objects) && Enabled(s, a) && Guarded(s, a)
    ensures LivesOk(Step(s, a).objects)
  {
    hide Acquire, Release;
    var t := Step(s, a);
    var changed := if a.CloseBegin? then s.registry[a.id] else if a.Fetch? then 0 else a.o;
    assert changed in s.objects ==> LifeOk(s.objects[changed]);
    forall o | o in t.objects ensures LifeOk(t.objects[o]) {
      if a.Fetch? || o != changed {
        assert LifeOk(s.objects[o]);
      }
    }
  }

  /** A change to one object that neither makes it registered nor takes a registered one away. */
  lemma RegistryPut(registry: map<string, nat>, objects: map<nat, Session>, o: nat, v: Session)
    requires RegistryOk(registry, objects)
    requires if o in objects && objects[o].phase == Registered
      then v.phase == Registered && v.id == objects[o].id
      else v.phase != Registered
    ensures RegistryOk(registry, objects[o := v])
  {
  }

  lemma RegistryInsert(registry: map<string, nat>, objects: map<nat, Session>, o: nat, v: Session)
    requires RegistryOk(registry, objects) && o in objects && objects[o].phase != Registered
    requires v.phase == Registered && v.id !in registry && |registry| < Registry.MAX_AGENT_SESSIONS
    ensures RegistryOk(registry[v.id := o], objects[o := v])
  {
    assert registry[v.id := o].Keys == registry.Keys + {v.id};
    assert |registry[v.id := o].Keys| == |registry.Keys| + 1;
  }

  lemma RegistryRemove(registry: map<string, nat>, objects: map<nat, Session>, id: string, v: Session)
    requires RegistryOk(registry, objects) && id in registry && v.phase != Registered
    ensures RegistryOk(registry - {id}, objects[registry[id] := v])
  {
    assert (registry - {id}).Keys == registry.Keys - {id};
    assert |(registry - {id}).Keys| <= |registry.Keys|;
  }

  lemma RegistryStep(s: State, a: Action)
    requires RegistryOk(s.registry, s.objects) && LivesOk(s.objects) && Enabled(s, a)
    ensures RegistryOk(Step(s, a).registry, Step(s, a).objects)
  {
    hide Acquire, Release, RegistryOk;
    var t := Step(s, a);
    if a.CloseBegin? {
      RegistryRemove(s.registry, s.objects, a.id, t.objects[s.registry[a.id]]);
    } else if a.OpenInsert? && s.objects[a.o].id !in s.registry && |s.registry| < Registry.MAX_AGENT_SESSIONS {
      RegistryInsert(s.registry, s.objects, a.o, t.objects[a.o]);
    } else if !a.Fetch? {
      assert a.o in s.objects ==> LifeOk(s.objects[a.o]);
      if !(a.Reconnect? && a.attached) {
        RegistryPut(s.registry, s.objects, a.o, t.objects[a.o]);
      }
    }
  }

  /** Every guarded step keeps the invariant. */
  lemma StepKeepsInv(s: State, a: Action)
    requires Inv(s) && Enabled(s, a) && Guarded(s, a)
    ensures Inv(Step(s, a))
  {
    ControlsStep(s, a);
    LivesStep(s, a);
    RegistryStep(s, a);
    hide ControlsOk, RegistryOk, LivesOk, Enabled, Step;
  }

  // ---- runs ----

  /** The state a run of steps ends in; none when a step was not possible. */
  function Run(s: State, actions: seq<Action>): Option<State>
    decreases |actions|
  {
    if actions == [] then Some(s)
    else if !Enabled(s, actions[0]) then None
    else Run(Step(s, actions[0]), actions[1..])
  }

  ghost predicate GuardedRun(s: State, actions: seq<Action>)
    decreases |actions|
  {
    actions == [] ||
    (Enabled(s, actions[0]) && Guarded(s, actions[0]) && GuardedRun(Step(s, actions[0]), actions[1..]))
  }

  /** The invariant holds in every state that the run passes. */
  ghost predicate InvAlong(s: State, actions: seq<Action>)
    decreases |actions|
  {
    Inv(s) && (actions != [] ==> Enabled(s, actions[0]) && InvAlong(Step(s, actions[0]), actions[1..]))
  }

  /** Shared-control conservation and the registry invariant over every run: they hold all along if and
      only if no reconnect drops a stale key that a live control has. */
  lemma {:induction false} EveryRunKeepsInv(s: State, actions: seq<Action>)
    requires Inv(s) && Run(s, actions).Some?
    ensures InvAlong(s, actions) <==> GuardedRun(s, actions)
    ensures GuardedRun(s, actions) ==> Inv(Run(s, actions).value)
    decreases |actions|
  {
    hide Inv, Step, Enabled, Guarded;
    if actions != [] {
      StepExactly(s, actions[0]);
      if Guarded(s, actions[0]) {
        EveryRunKeepsInv(Step(s, actions[0]), actions[1..]);
      } else {
        assert !InvAlong(Step(s, actions[0]), actions[1..]);
      }
    }
  }

  lemma InitOk()
    ensures Inv(INIT)
  {
    forall key ensures KeyOk(INIT.objects, INIT.controls, key) {
      assert Holders(INIT.objects, key) == {};
    }
  }

  /** Of all steps exactly the unguarded drops break the invariant. */
  lemma StepExactly(s: State, a: Action)
    requires Inv(s) && Enabled(s, a)
    ensures Inv(Step(s, a)) <==> Guarded(s, a)
  {
    if Guarded(s, a) {
      StepKeepsInv(s, a);
    } else {
      StaleReleaseBreaks(s, a.o);
    }
  }

  lemma StaleReleaseBreaks(s: State, o: nat)
    requires Inv(s) && Enabled(s, ReconnectDrop(o)) && !Guarded(s, ReconnectDrop(o))
    ensures !Conserved(Step(s, ReconnectDrop(o)).objects, Step(s, ReconnectDrop(o)).controls)
  {
    StaleCounts(s.objects, s.controls, o);
  }

  /** Such a drop can come up: any session that a validate request fetched may be reconnected after its
      close, and the reconnect then drops its key. */
  lemma StaleDropPossible(s: State, o: nat)
    requires Inv(s) && In(s, o, Released) && o in s.fetched && !s.objects[o].dropping
    ensures Enabled(s, Reconnect(o, false)) && !Enabled(s, Reconnect(o, true))
    ensures Enabled(Step(s, Reconnect(o, false)), ReconnectDrop(o))
  {
    assert LifeOk(s.objects[o]);
  }

  /** Releasing the stale key of a closed session keeps the counts right if and only if no live control has
      that key. */
  lemma StaleCounts(objects: map<nat, Session>, c: Controls, o: nat)
    requires ControlsOk(objects, c) && o in objects && objects[o].phase == Released
    ensures Conserved(objects[o := objects[o].(held := None, dropping := false)], Release(c, objects[o].held))
      <==> (objects[o].held == None || objects[o].held.value !in c.byKey)
  {
    var v := objects[o].(held := None, dropping := false);
    var after := objects[o := v];
    var held := objects[o].held;
    forall key ensures Holders(after, key) == Holders(objects, key) && KeyOk(objects, c, key) {
      HoldersPut(objects, o, v, key);
    }
    if held == None || held.value !in c.byKey {
      forall key ensures KeyOk(after, Release(c, held), key) {
        assert KeyOk(objects, c, key);
      }
    } else {
      assert !KeyOk(after, Release(c, held), held.value);
    }
  }

  /** Registering and closing touch only the session they are about: an open never removes or
      replaces a registered session, and only a close of its id takes one out. */
  lemma OnlyCloseRemoves(s: State, a: Action, id: string)
    requires RegistryOk(s.registry, s.objects) && Enabled(s, a) && id in s.registry && a != CloseBegin(id)
    ensures id in Step(s, a).registry && Step(s, a).registry[id] == s.registry[id]
  {
    hide Acquire, Release;
  }

  /** A ready session is registered if its id is free and fewer than 256 sessions are; otherwise it is refused. */
  lemma ReadyIsRegistered(s: State, o: nat)
    requires In(s, o, Ready)
    ensures Enabled(s, OpenInsert(o))
    ensures var t := Step(s, OpenInsert(o)); var id := s.objects[o].id;
      if id !in s.registry && |s.registry| < 256
      then t.registry == s.registry[id := o] && t.objects[o] == s.objects[o].(phase := Registered)
      else t.registry == s.registry && t.objects[o] == s.objects[o].(phase := Rejected, cancelDB := None)
  {
  }

  lemma ReleaseUndoesAcquire(c: Controls, key: string, dialed: bool)
    requires key in c.byKey ==> c.byKey[key].refs > 0
    ensures var (d, db) := Acquire(c, key, dialed);
      && (db == None <==> key !in c.byKey && !dialed)
      && Release(d, if db.Some? then Some(key) else None).byKey == c.byKey
      && Release(d, if db.Some? then Some(key) else None).closed ==
        (if key !in c.byKey && dialed then c.closed + {c.nextDb} else c.closed)
  {
    var (d, db) := Acquire(c, key, dialed);
    if db.Some? {
      assert Release(d, Some(key)).byKey == c.byKey;
    }
  }

  // ---- the run that goes wrong ----

  lemma RunCons(s: State, a: Action, rest: seq<Action>)
    requires Enabled(s, a)
    ensures Run(s, [a] + rest) == Run(Step(s, a), rest)
  {
    assert ([a] + rest)[1..] == rest;
  }

  /** Two sessions share a control; the first is looked up by a validate request, closed, and then
      reconnected by that request. */
  const OPEN_A := [OpenStart("a", 0), OpenAcquire(0, "k", true), OpenConnect(0, true, true), OpenInsert(0)]
  const OPEN_B := [OpenStart("b", 1), OpenAcquire(1, "k", true), OpenConnect(1, true, true), OpenInsert(1)]
  const CLOSE_A := [Fetch("a"), CloseBegin("a"), CloseDisconnect(0), CloseRelease(0)]
  const REVALIDATE_A := [Reconnect(0, false), ReconnectDrop(0)]

  function OneSession(): State {
    State(map["a" := 0], map[0 := Session("a", Some("k"), Some(0), Registered, false)],
          Controls(map["k" := SharedControl(0, 1)], {}, 1), {})
  }

  function TwoSessions(): State {
    State(map["a" := 0, "b" := 1],
          map[0 := Session("a", Some("k"), Some(0), Registered, false),
              1 := Session("b", Some("k"), Some(0), Registered, false)],
          Controls(map["k" := SharedControl(0, 2)], {}, 1), {})
  }

  function AfterClose(): State {
    State(map["b" := 1],
          map[0 := Session("a", Some("k"), None, Released, false),
              1 := Session("b", Some("k"), Some(0), Registered, false)],
          Controls(map["k" := SharedControl(0, 1)], {}, 1), {0})
  }

  function Damaged(): State {
    State(map["b" := 1],
          map[0 := Session("a", None, None, Released, false), 1 := Session("b", Some("k"), Some(0), Registered, false)],
          Controls(map[], {0}, 1), {0})
  }

  lemma RunFour(s: State, a: Action, b: Action, c: Action, d: Action, rest: seq<Action>)
    requires Enabled(s, a) && Enabled(Step(s, a), b) && Enabled(Step(Step(s, a), b), c)
    requires Enabled(Step(Step(Step(s, a), b), c), d)
    ensures Run(s, [a, b, c, d] + rest) == Run(Step(Step(Step(Step(s, a), b), c), d), rest)
  {
    hide Enabled, Step;
    RunCons(s, a, [b, c, d] + rest);
    RunCons(Step(s, a), b, [c, d] + rest);
    RunCons(Step(Step(s, a), b), c, [d] + rest);
    RunCons(Step(Step(Step(s, a), b), c), d, rest);
    assert [a, b, c, d] + rest == [a] + ([b, c, d] + rest);
    assert [b, c, d] + rest == [b] + ([c, d] + rest);
    assert [c, d] + rest == [c] + ([d] + rest);
  }

  lemma OpensA(rest: seq<Action>)
    ensures Run(INIT, OPEN_A + rest) == Run(OneSession(), rest)
  {
    var s := Step(INIT, OPEN_A[0]);
    var t := Step(s, OPEN_A[1]);
    var u := Step(t, OPEN_A[2]);
    assert Step(u, OPEN_A[3]) == OneSession();
    RunFour(INIT, OPEN_A[0], OPEN_A[1], OPEN_A[2], OPEN_A[3], rest);
  }

  lemma OpensB(rest: seq<Action>)
    ensures Run(OneSession(), OPEN_B + rest) == Run(TwoSessions(), rest)
  {
    var s := Step(OneSession(), OPEN_B[0]);
    var t := Step(s, OPEN_B[1]);
    var u := Step(t, OPEN_B[2]);
    assert Step(u, OPEN_B[3]) == TwoSessions();
    RunFour(OneSession(), OPEN_B[0], OPEN_B[1], OPEN_B[2], OPEN_B[3], rest);
  }

  /** Between fetch and release: the first session is out of the registry, in a given state. */
  function InClose(v: Session): State {
    TwoSessions().(registry := map["b" := 1], fetched := {0},
                   objects := map[0 := v, 1 := Session("b", Some("k"), Some(0), Registered, false)])
  }

  lemma FetchesA()
    ensures Enabled(TwoSessions(), Fetch("a")) && Step(TwoSessions(), Fetch("a")) == TwoSessions().(fetched := {0})
  {
    assert TwoSessions().fetched + {0} == {0};
  }

  lemma BeginsCloseA()
    ensures var s := TwoSessions().(fetched := {0});
      Enabled(s, CloseBegin("a")) && Step(s, CloseBegin("a"))
          == InClose(Session("a", Some("k"), Some(0), Closing, false))
  {
    var s := TwoSessions().(fetched := {0});
    assert s.registry - {"a"} == map["b" := 1];
  }

  lemma DisconnectsA()
    ensures var s := InClose(Session("a", Some("k"), Some(0), Closing, false));
      && Enabled(s, CloseDisconnect(0))
      && Step(s, CloseDisconnect(0)) == InClose(Session("a", Some("k"), None, Disconnected, false))
  {
  }

  lemma ClosesA(rest: seq<Action>)
    ensures Run(TwoSessions(), CLOSE_A + rest) == Run(AfterClose(), rest)
  {
    FetchesA();
    BeginsCloseA();
    DisconnectsA();
    ReleasesA(InClose(Session("a", Some("k"), None, Disconnected, false)));
    hide Step, Enabled;
    RunFour(TwoSessions(), CLOSE_A[0], CLOSE_A[1], CLOSE_A[2], CLOSE_A[3], rest);
  }

  lemma ReleasesA(u: State)
    requires u.registry == map["b" := 1] && u.fetched == {0} && u.controls == TwoSessions().controls
    requires u.objects == map[0 := Session("a", Some("k"), None, Disconnected, false),
              1 := Session("b", Some("k"), Some(0), Registered, false)]
    ensures Enabled(u, CloseRelease(0)) && Step(u, CloseRelease(0)) == AfterClose()
  {
    assert Release(u.controls, Some("k")).byKey == map["k" := SharedControl(0, 1)];
  }

  /** In the code as it is, a run ends with a registered session whose cancel handle is a closed
      control connection: the closed session's key was released twice. */
  lemma DoubleRelease()
    ensures Run(INIT, OPEN_A + (OPEN_B + (CLOSE_A + REVALIDATE_A))) == Some(Damaged())
    ensures In(Damaged(), 1, Registered) && Damaged().objects[1].cancelDB == Some(0) && 0 in Damaged().controls.closed
  {
    hide Run;
    OpensA(OPEN_B + (CLOSE_A + REVALIDATE_A));
    OpensB(CLOSE_A + REVALIDATE_A);
    ClosesA(REVALIDATE_A);
    Revalidates();
  }

  lemma Revalidates()
    ensures Run(AfterClose(), REVALIDATE_A) == Some(Damaged())
  {
    var s := AfterClose();
    var t := Step(s, Reconnect(0, false));
    assert Step(t, ReconnectDrop(0)) == Damaged();
    RunCons(s, Reconnect(0, false), [ReconnectDrop(0)]);
    RunCons(t, ReconnectDrop(0), []);
    assert REVALIDATE_A == [Reconnect(0, false)] + [ReconnectDrop(0)];
    assert [ReconnectDrop(0)] == [ReconnectDrop(0)] + [];
  }

  // ---- the lock regions on the server object ----

  /** The runtime object. A session object is named by its number; `closed` and `nextDb` record
      which handles were closed and handed out. */
  class RuntimeServer {
    var sessions: map<string, nat>
    var byKey: map<string, SharedControl>
    ghost var closed: set<nat>
    var nextDb: nat

    constructor ()
      ensures sessions == map[] && View() == INIT.controls
    {
      sessions, byKey, closed, nextDb := map[], map[], {}, 0;
    }

    ghost function View(): Controls
      reads this
    {
      Controls(byKey, closed, nextDb)
    }

    method AcquireControlWith(key: string, dialed: bool) returns (db: Option<nat>)
      modifies this`byKey, this`nextDb
      ensures (View(), db) == Acquire(old(View()), key, dialed)
    {
      if key in byKey {
        var control := byKey[key];
        byKey := byKey[key := SharedControl(control.db, control.refs + 1)];
        return Some(control.db);
      }
      if !dialed {
        return None;
      }
      db := Some(nextDb);
      byKey := byKey[key := SharedControl(nextDb, 1)];
      nextDb := nextDb + 1;
    }

    method ReleaseControl(key: Option<string>)
      modifies this`byKey, this`closed
      ensures View() == Release(old(View()), key)
    {
      if key.None? || key.value !in byKey {
        return;
      }
      var control := byKey[key.value];
      byKey := byKey[key.value := SharedControl(control.db, control.refs - 1)];
      if byKey[key.value].refs <= 0 {
        closed := closed + {control.db};
        byKey := byKey - {key.value};
      }
      assert byKey == Release(old(View()), key).byKey;
    }

    /** The second look at the registry, and the registration. */
    method Register(id: string, o: nat) returns (ok: bool)
      modifies this`sessions
      ensures ok == (id !in old(sessions) && |old(sessions)| < Registry.MAX_AGENT_SESSIONS)
      ensures sessions == if ok then old(sessions)[id := o] else old(sessions)
    {
      if id in sessions || |sessions| >= Registry.MAX_AGENT_SESSIONS {
        return false;
      }
      sessions := sessions[id := o];
      return true;
    }

    method Unregister(id: string) returns (o: Option<nat>)
      modifies this`sessions
      ensures o == if id in old(sessions) then Some(old(sessions)[id]) else None
      ensures sessions == old(sessions) - {id}
    {
      o := if id in sessions then Some(sessions[id]) else None;
      sessions := sessions - {id};
    }
  }
}
