/** The three agents register a new session in three ways; two of them keep the cap on the number of
    sessions over every interleaving, and one does not. */
module SessionRegistry {
  import opened Text

  const MAX_AGENT_SESSIONS := 256

  /** Oracle puts the session in the registry before it connects and takes it out if that fails;
      Xugu looks at the id and at the cap again after connecting; Kingbase looks at the id only. */
  datatype Agent = Oracle | Xugu | Kingbase

  datatype State = State(registry: map<string, nat>, opening: map<nat, string>)

  const INIT := State(map[], map[])

  /** Begin is the first look at the registry, Finish the lock region after connecting. */
  datatype Action = Begin(id: string, o: nat) | Finish(o: nat, connected: bool) | Close(id: string)

  predicate Enabled(s: State, a: Action) {
    match a
    case Begin(id, o) => id !in s.registry && |s.registry| < MAX_AGENT_SESSIONS && o !in s.opening
        && o !in s.registry.Values
    case Finish(o, connected) => o in s.opening
    case Close(id) => true
  }

  function Step(agent: Agent, s: State, a: Action): State
    requires Enabled(s, a)
  {
    match a
    case Begin(id, o) =>
      State(if agent == Oracle then s.registry[id := o] else s.registry, s.opening[o := id])
    case Finish(o, connected) =>
      var id := s.opening[o];
      State(
        if agent == Oracle then
          (if !connected && id in s.registry && s.registry[id] == o then s.registry - {id} else s.registry)
        else if connected && id !in s.registry && (agent == Xugu ==> |s.registry| < MAX_AGENT_SESSIONS) then
          s.registry[id := o]
        else s.registry,
        s.opening - {o})
    case Close(id) => s.(registry := s.registry - {id})
  }

  function Run(agent: Agent, s: State, actions: seq<Action>): Option<State>
    decreases |actions|
  {
    if actions == [] then Some(s)
    else if !Enabled(s, actions[0]) then None
    else Run(agent, Step(agent, s, actions[0]), actions[1..])
  }

  ghost predicate CapKept(agent: Agent) {
    forall actions :: Run(agent, INIT, actions).Some? ==>
      |Run(agent, INIT, actions).value.registry| <= MAX_AGENT_SESSIONS
  }

  // ---- what an open does to other sessions ----

  /** A registered session stays registered, under its id and unreplaced, over every run that does not close
      that id; for Oracle, which registers before it connects, its own open must not fail either. */
  lemma {:induction false} SessionStays(agent: Agent, s: State, actions: seq<Action>, id: string)
    requires id in s.registry && Close(id) !in actions
    requires agent == Oracle ==> Finish(s.registry[id], false) !in actions
    ensures var r := Run(agent, s, actions); r.Some? ==>
        id in r.value.registry && r.value.registry[id] == s.registry[id]
    decreases |actions|
  {
    if actions != [] && Enabled(s, actions[0]) {
      var t := Step(agent, s, actions[0]);
      assert actions[0] in actions;
      assert id in t.registry && t.registry[id] == s.registry[id];
      SessionStays(agent, t, actions[1..], id);
    }
  }

  // ---- the cap ----

  lemma Grown(registry: map<string, nat>, id: string, o: nat)
    ensures |registry[id := o]| <= |registry| + 1 && |registry - {id}| <= |registry|
    ensures id !in registry ==> |registry[id := o]| == |registry| + 1
  {
    assert registry[id := o].Keys == registry.Keys + {id};
    assert (registry - {id}).Keys == registry.Keys - {id};
  }

  lemma {:induction false} CapOverRuns(agent: Agent, s: State, actions: seq<Action>)
    requires agent != Kingbase && |s.registry| <= MAX_AGENT_SESSIONS
    ensures var r := Run(agent, s, actions); r.Some? ==> |r.value.registry| <= MAX_AGENT_SESSIONS
    decreases |actions|
  {
    if actions != [] && Enabled(s, actions[0]) {
      match actions[0] {
        case Begin(id, o) => Grown(s.registry, id, o);
        case Finish(o, connected) => Grown(s.registry, s.opening[o], o);
        case Close(id) => Grown(s.registry, id, 0);
      }
      CapOverRuns(agent, Step(agent, s, actions[0]), actions[1..]);
    }
  }

  // ---- without the second look at the cap ----

  function Name(o: nat): (r: string)
    ensures |r| == o
  {
    seq(o, _ => 'x')
  }

  function Begins(n: nat): (r: seq<Action>)
    ensures |r| == n && forall o | 0 <= o < n :: r[o] == Begin(Name(o), o)
  {
    seq(n, o requires 0 <= o < n => Begin(Name(o), o))
  }

  function Finishes(n: nat): (r: seq<Action>)
    ensures |r| == n && forall o | 0 <= o < n :: r[o] == Finish(o, true)
  {
    seq(n, o requires 0 <= o < n => Finish(o, true))
  }

  function Opening(lo: nat, n: nat): map<nat, string> { map o | lo <= o < n :: Name(o) }

  /** With nothing registered yet, any number of requests pass the first look. */
  lemma {:induction false} AllBegin(k: nat, n: nat, rest: seq<Action>)
    requires k <= n
    ensures Run(Kingbase, State(map[], Opening(0, k)), Begins(n)[k..] + rest)
        == Run(Kingbase, State(map[], Opening(0, n)), rest)
    decreases n - k
  {
    if k < n {
      var s := State(map[], Opening(0, k));
      var actions := Begins(n)[k..] + rest;
      assert actions[0] == Begin(Name(k), k) && actions[1..] == Begins(n)[k + 1..] + rest;
      assert Step(Kingbase, s, actions[0]).opening == Opening(0, k + 1);
      AllBegin(k + 1, n, rest);
    } else {
      assert Begins(n)[k..] + rest == rest;
    }
  }

  lemma FinishNext(registry: map<string, nat>, k: nat, n: nat)
    requires k < n && |registry| == k && forall id | id in registry :: |id| < k
    ensures var s := State(registry, Opening(k, n));
      && Enabled(s, Finish(k, true))
      && Step(Kingbase, s, Finish(k, true)) == State(registry[Name(k) := k], Opening(k + 1, n))
    ensures |registry[Name(k) := k]| == k + 1 && forall id | id in registry[Name(k) := k] :: |id| < k + 1
  {
    Grown(registry, Name(k), k);
    assert Opening(k, n) - {k} == Opening(k + 1, n);
  }

  /** Then all of them register. */
  lemma {:induction false} AllFinish(registry: map<string, nat>, k: nat, n: nat)
    requires k <= n && |registry| == k && forall id | id in registry :: |id| < k
    ensures var r := Run(Kingbase, State(registry, Opening(k, n)), Finishes(n)[k..]); r.Some? && |r.value.registry| == n
    decreases n - k
  {
    hide Opening, Step, Enabled;
    if k < n {
      var s := State(registry, Opening(k, n));
      var actions := Finishes(n)[k..];
      assert actions[0] == Finish(k, true) && actions[1..] == Finishes(n)[k + 1..];
      FinishNext(registry, k, n);
      AllFinish(registry[Name(k) := k], k + 1, n);
    } else {
      assert Finishes(n)[k..] == [];
    }
  }

  /** Kingbase can reach any number of registered sessions. */
  lemma KingbaseUnbounded(n: nat)
    ensures var r := Run(Kingbase, INIT, Begins(n) + Finishes(n)); r.Some? && |r.value.registry| == n
  {
    assert Opening(0, 0) == map[];
    assert Begins(n)[0..] == Begins(n) && Finishes(n)[0..] == Finishes(n);
    AllBegin(0, n, Finishes(n));
    AllFinish(map[], 0, n);
  }

  /** The cap holds over every interleaving exactly for the agents that look at it in the lock region
      that registers. */
  lemma CapExactly(agent: Agent)
    ensures CapKept(agent) <==> agent != Kingbase
  {
    if agent == Kingbase {
      KingbaseUnbounded(MAX_AGENT_SESSIONS + 1);
    } else {
      forall actions | Run(agent, INIT, actions).Some?
        ensures |Run(agent, INIT, actions).value.registry| <= MAX_AGENT_SESSIONS
      {
        CapOverRuns(agent, INIT, actions);
      }
    }
  }

  // ---- which Kingbase runs keep the cap ----

  /** The ids that are registered or may still be registered by an open in flight. */
  function Pending(s: State): set<string> { s.registry.Keys + s.opening.Values }

  /** The step that takes a state over the cap: an open that connected, of a new id, when the registry
      is full. */
  lemma KingbaseStepExact(s: State, a: Action)
    requires Enabled(s, a) && |s.registry| <= MAX_AGENT_SESSIONS
    ensures |Step(Kingbase, s, a).registry| > MAX_AGENT_SESSIONS <==>
      a.Finish? && a.connected && s.opening[a.o] !in s.registry && |s.registry| == MAX_AGENT_SESSIONS
  {
    match a {
      case Begin(id, o) =>
      case Finish(o, connected) => Grown(s.registry, s.opening[o], o);
      case Close(id) => Grown(s.registry, id, 0);
    }
  }

  predicate NoBegin(actions: seq<Action>) { forall a | a in actions :: !a.Begin? }

  lemma {:induction false} PendingShrinks(s: State, actions: seq<Action>)
    requires NoBegin(actions)
    ensures var r := Run(Kingbase, s, actions); r.Some? ==> Pending(r.value) <= Pending(s)
    decreases |actions|
  {
    if actions != [] && Enabled(s, actions[0]) {
      assert actions[0] in actions;
      PendingShrinks(Step(Kingbase, s, actions[0]), actions[1..]);
    }
  }

  /** Each open in flight can end connected; then every pending id is registered. */
  lemma {:induction false} AllPendingRegister(s: State) returns (actions: seq<Action>)
    ensures NoBegin(actions)
    ensures var r := Run(Kingbase, s, actions); r.Some? && r.value.registry.Keys == Pending(s)
    decreases |s.opening|
  {
    if s.opening == map[] {
      actions := [];
    } else {
      var o :| o in s.opening;
      var t := Step(Kingbase, s, Finish(o, true));
      assert t.opening.Keys == s.opening.Keys - {o};
      PendingKept(s, o);
      var rest := AllPendingRegister(t);
      actions := [Finish(o, true)] + rest;
      assert actions[1..] == rest;
    }
  }

  lemma PendingKept(s: State, o: nat)
    requires o in s.opening
    ensures Pending(Step(Kingbase, s, Finish(o, true))) == Pending(s)
  {
    var t := Step(Kingbase, s, Finish(o, true));
    assert t.registry.Keys == s.registry.Keys + {s.opening[o]};
    OpeningWithout(s.opening, o);
  }

  lemma OpeningWithout(opening: map<nat, string>, o: nat)
    requires o in opening
    ensures opening.Values == (opening - {o}).Values + {opening[o]}
  {
    forall id | id in opening.Values ensures id in (opening - {o}).Values + {opening[o]} {
      var q :| q in opening && opening[q] == id;
      assert q != o ==> q in opening - {o};
    }
  }

  lemma SizeOfSubset<T>(a: set<T>, b: set<T>)
    requires a <= b
    ensures |a| <= |b|
  {
    assert b == a + (b - a);
  }

  /** From any state the sessions that are already being opened can take Kingbase over the cap, whatever ends
      and is closed in whatever order, if and only if more ids than the cap are registered or in flight. */
  lemma KingbaseExceedsExactly(s: State)
    ensures (exists actions ::
        NoBegin(actions) && Run(Kingbase, s, actions).Some?
        && |Run(Kingbase, s, actions).value.registry| > MAX_AGENT_SESSIONS)
      <==> |Pending(s)| > MAX_AGENT_SESSIONS
  {
    if |Pending(s)| > MAX_AGENT_SESSIONS {
      var actions := AllPendingRegister(s);
      var r := Run(Kingbase, s, actions).value;
      assert |r.registry| == |r.registry.Keys|;
    }
    forall actions | NoBegin(actions) && Run(Kingbase, s, actions).Some?
      ensures |Run(Kingbase, s, actions).value.registry| <= |Pending(s)|
    {
      PendingShrinks(s, actions);
      var r := Run(Kingbase, s, actions).value;
      SizeOfSubset(r.registry.Keys, Pending(s));
      assert |r.registry| == |r.registry.Keys|;
    }
  }

  /** Every open starts while fewer ids than the cap are registered or in flight. */
  ghost predicate Counted(s: State, actions: seq<Action>)
    decreases |actions|
  {
    actions != [] && Enabled(s, actions[0]) ==>
      && (actions[0].Begin? ==> |Pending(s)| < MAX_AGENT_SESSIONS)
      && Counted(Step(Kingbase, s, actions[0]), actions[1..])
  }

  /** Counting the opens in flight at the first look would do: then no Kingbase run exceeds the cap. */
  lemma {:induction false} CountedKeepsCap(s: State, actions: seq<Action>)
    requires |Pending(s)| <= MAX_AGENT_SESSIONS && Counted(s, actions)
    ensures var r := Run(Kingbase, s, actions); r.Some? ==> |r.value.registry| <= MAX_AGENT_SESSIONS
    decreases |actions|
  {
    if actions == [] {
      SizeOfSubset(s.registry.Keys, Pending(s));
      assert |s.registry| == |s.registry.Keys|;
    } else if Enabled(s, actions[0]) {
      var t := Step(Kingbase, s, actions[0]);
      if actions[0].Begin? {
        SizeOfSubset(Pending(t), Pending(s) + {actions[0].id});
      } else {
        SizeOfSubset(Pending(t), Pending(s));
      }
      CountedKeepsCap(t, actions[1..]);
    }
  }

  // ---- sessions do get registered ----

  /** An open that connects, of a free id and with fewer than 256 sessions registered, leaves the session
      registered, for every agent: Oracle registers it at its start and keeps it. */
  lemma OpenRegisters(agent: Agent, s: State, id: string, o: nat)
    requires id !in s.registry && |s.registry| < 256 && o !in s.opening && o !in s.registry.Values
    ensures Enabled(s, Begin(id, o)) && Enabled(Step(agent, s, Begin(id, o)), Finish(o, true))
    ensures var t := Step(agent, Step(agent, s, Begin(id, o)), Finish(o, true));
      t.registry == s.registry[id := o] && t.opening == s.opening
  {
    assert s.opening[o := id] - {o} == s.opening;
  }

  /** One that does not connect leaves the registry as it was; and none starts with 256 sessions. */
  lemma FailedOpenLeavesNothing(agent: Agent, s: State, id: string, o: nat)
    requires Enabled(s, Begin(id, o))
    ensures |s.registry| < 256
    ensures Step(agent, Step(agent, s, Begin(id, o)), Finish(o, false)).registry == s.registry
  {
    assert s.registry[id := o] - {id} == s.registry;
  }

  /** A close takes out its id and no other. */
  lemma CloseRemoves(agent: Agent, s: State, id: string)
    ensures Enabled(s, Close(id)) && var t := Step(agent, s, Close(id));
      id !in t.registry && t.opening == s.opening
      && forall other | other != id ::
          && (other in t.registry <==> other in s.registry)
          && (other in s.registry ==> t.registry[other] == s.registry[other])
  {
  }
}
