/** The active operation of one agent session, its timeout timer and its live cursors, with every
    lock region of `activeCancelMu` as one step. */
module ActiveOperation {
  import opened Text

  /** The fields that the mutex guards. Operations, timers and cursors are named by numbers; an
      operation stands for its context, so to cancel it is to call its cancel function. */
  datatype Fields = Fields(
    activeCancel: Option<nat>,
    activeTimer: Option<nat>,
    activeTimedOut: bool,
    activeRows: map<nat, nat>)

  // ---- the lock regions ----

  /** A query looks at the timeout flag when it ends, so its start resets the flag and its timer sets it; the
      path of a statement without rows may do neither. */
  function Begun(f: Fields, op: nat, timer: Option<nat>, flags: bool): Fields {
    f.(activeCancel := Some(op), activeTimer := timer, activeTimedOut := if flags then false else f.activeTimedOut)
  }

  /** The timeout callback: it does nothing unless its own timer is the active one. */
  function Fired(f: Fields, timer: nat, flags: bool): (Fields, bool) {
    if f.activeTimer == Some(timer) then (f.(activeTimedOut := f.activeTimedOut || flags), true) else (f, false)
  }

  datatype Outcome = Failed | TimedOut | Opened(rows: nat)

  function Ended(f: Fields): Fields { f.(activeCancel := None, activeTimer := None) }

  /** After the driver's query call: a cursor is kept only if the call succeeded and the timer took
      no effect. */
  function QueryEnded(f: Fields, op: nat, failed: bool, rows: nat): (Fields, Outcome) {
    var g := Ended(f);
    if failed then (g, Failed)
    else if f.activeTimedOut then (g, TimedOut)
    else (g.(activeRows := g.activeRows[rows := op]), Opened(rows))
  }

  /** What a cancel request is going to cancel: the active operation and every live cursor. */
  function Collected(f: Fields): set<nat> {
    (if f.activeCancel.Some? then {f.activeCancel.value} else {}) + f.activeRows.Values
  }

  // ---- all interleavings ----

  /** The guarded fields and the history: which timer each operation armed, which operations use the timeout
      flag, which operation the session's worker is in, which timers have fired and which of them took
      effect, which operations were cancelled and what is about to be, and how each operation ended. */
  datatype State = State(
    fields: Fields,
    armed: map<nat, nat>,
    flagging: set<nat>,
    current: Option<nat>,
    used: set<nat>,
    fired: set<nat>,
    effects: set<nat>,
    cancelled: set<nat>,
    collected: set<nat>,
    outcomes: map<nat, Outcome>)

  const INIT := State(Fields(None, None, false, map[]), map[], {}, None, {}, {}, {}, {}, {}, map[])

  datatype Action =
    | Arm(op: nat, timer: Option<nat>, flags: bool)   // context and timer are made, before the lock
    | Begin(op: nat, timer: Option<nat>)
    | Fire(expired: nat)
    | EndQuery(op: nat, failed: bool, rows: nat)
    | EndExec(op: nat)
    | CancelRequest
    | CancelDelivered(op: nat)
    | CloseRows(rows: nat)

  function TimerOf(s: State, op: nat): set<nat> { set t | t in s.armed && s.armed[t] == op }

  /** A session serves one request at a time, so operations follow each other; timer callbacks and
      cancel requests come at any moment. Stopping a timer does not help when its callback already
      waits for the lock, so a timer may fire whenever it has not fired before. */
  predicate Enabled(s: State, a: Action) {
    match a
    case Arm(op, timer, flags) => s.current == None && op !in s.used && (timer.Some? ==> timer.value !in s.armed)
    case Begin(op, timer) =>
      && s.current == Some(op) && s.fields.activeCancel == None && op !in s.outcomes
      && TimerOf(s, op) == (if timer.Some? then {timer.value} else {})
    case Fire(timer) => timer in s.armed && timer !in s.fired
    case EndQuery(op, failed, rows) => s.current == Some(op) && s.fields.activeCancel == Some(op) && op in s.flagging
        && rows !in s.fields.activeRows
    case EndExec(op) => s.current == Some(op) && s.fields.activeCancel == Some(op)
    case CancelRequest => true
    case CancelDelivered(op) => op in s.collected
    case CloseRows(rows) => rows in s.fields.activeRows
  }

  function Step(s: State, a: Action): State
    requires Enabled(s, a)
  {
    match a
    case Arm(op, timer, flags) =>
      s.(flagging := if flags then s.flagging + {op} else s.flagging, current := Some(op), used := s.used + {op},
         armed := if timer.Some? then s.armed[timer.value := op] else s.armed)
    case Begin(op, timer) => s.(fields := Begun(s.fields, op, timer, op in s.flagging))
    case Fire(timer) =>
      var (f, effect) := Fired(s.fields, timer, s.armed[timer] in s.flagging);
      s.(fields := f, fired := s.fired + {timer},
         effects := if effect then s.effects + {timer} else s.effects,
         cancelled := if effect then s.cancelled + {s.armed[timer]} else s.cancelled)
    case EndQuery(op, failed, rows) =>
      var (f, outcome) := QueryEnded(s.fields, op, failed, rows);
      s.(fields := f, current := None, outcomes := s.outcomes[op := outcome],
         cancelled := if outcome.Opened? then s.cancelled else s.cancelled + {op})
    case EndExec(op) =>
      s.(fields := Ended(s.fields), current := None, outcomes := s.outcomes[op := Failed],
         cancelled := s.cancelled + {op})
    case CancelRequest => s.(collected := s.collected + Collected(s.fields))
    case CancelDelivered(op) => s.(cancelled := s.cancelled + {op})
    case CloseRows(rows) =>
      s.(fields := s.fields.(activeRows := s.fields.activeRows - {rows}),
         cancelled := s.cancelled + {s.fields.activeRows[rows]})
  }

  ghost predicate Inv(s: State) {
    // the active timer is that of the operation the worker is in
    && (s.fields.activeCancel.Some? ==> s.current == s.fields.activeCancel)
    && (s.fields.activeTimer.Some? ==>
          && s.fields.activeCancel.Some? && s.fields.activeTimer.value in s.armed
          && s.armed[s.fields.activeTimer.value] == s.fields.activeCancel.value)
    // in a query the flag is set exactly when its timer took effect
    && s.flagging <= s.used
    && (s.fields.activeCancel.Some? && s.fields.activeCancel.value in s.flagging ==>
          (s.fields.activeTimedOut <==> (s.fields.activeTimer.Some? && s.fields.activeTimer.value in s.effects)))
    // an operation has one timer, which takes effect only once the operation has begun
    && s.effects <= s.fired && s.fired <= s.armed.Keys
    && (forall t, u | t in s.armed && u in s.armed :: s.armed[t] == s.armed[u] ==> t == u)
    && (forall t | t in s.armed :: s.armed[t] in s.used)
    && (forall t | t in s.effects :: s.armed[t] in s.outcomes || s.fields.activeTimer == Some(t))
    && (s.current.Some? ==> s.current.value in s.used && s.current.value !in s.outcomes)
    && s.outcomes.Keys <= s.used && s.collected <= s.used
    && (s.current.Some? && s.fields.activeCancel.Some? ==>
          TimerOf(s, s.current.value) == if s.fields.activeTimer.Some? then {s.fields.activeTimer.value} else {})
    // no operation that returned a cursor was ever hit by its timer
    && (forall op | op in s.outcomes && s.outcomes[op].Opened? :: TimerOf(s, op) !! s.effects)
    && (forall rows | rows in s.fields.activeRows ::
        s.fields.activeRows[rows] in s.outcomes && s.outcomes[s.fields.activeRows[rows]] == Opened(rows))
  }

  lemma StepKeepsInv(s: State, a: Action)
    requires Inv(s) && Enabled(s, a)
    ensures Inv(Step(s, a))
  {
    hide Inv, Step, Enabled;
    if a.Arm? || a.Begin? || a.Fire? {
      StartKeepsInv(s, a);
    } else {
      EndKeepsInv(s, a);
    }
  }

  lemma StartKeepsInv(s: State, a: Action)
    requires Inv(s) && Enabled(s, a) && (a.Arm? || a.Begin? || a.Fire?)
    ensures Inv(Step(s, a))
  {
    var t := Step(s, a);
    forall op
      ensures TimerOf(t, op) == if a.Arm? && a.timer.Some? && a.op == op then TimerOf(s, op) + {a.timer.value}
          else TimerOf(s, op)
    {
    }
  }

  lemma EndKeepsInv(s: State, a: Action)
    requires Inv(s) && Enabled(s, a) && !a.Arm? && !a.Begin? && !a.Fire?
    ensures Inv(Step(s, a))
  {
    var t := Step(s, a);
    forall op
      ensures TimerOf(t, op) == TimerOf(s, op)
    {
    }
  }

  function Run(s: State, actions: seq<Action>): Option<State>
    decreases |actions|
  {
    if actions == [] then Some(s)
    else if !Enabled(s, actions[0]) then None
    else Run(Step(s, actions[0]), actions[1..])
  }

  lemma {:induction false} EveryRunKeepsInv(s: State, actions: seq<Action>)
    requires Inv(s)
    ensures Run(s, actions).Some? ==> Inv(Run(s, actions).value)
    decreases |actions|
  {
    hide Inv, Step, Enabled;
    if actions != [] && Enabled(s, actions[0]) {
      StepKeepsInv(s, actions[0]);
      EveryRunKeepsInv(Step(s, actions[0]), actions[1..]);
    }
  }

  /** A callback cancels only the operation that armed it, and only while that one is active. */
  lemma FireHitsOwnOperation(s: State, timer: nat)
    requires Inv(s) && Enabled(s, Fire(timer))
    ensures var t := Step(s, Fire(timer));
      if s.fields.activeCancel == Some(s.armed[timer]) then
        && t.cancelled == s.cancelled + {s.armed[timer]}
        && t.fields == s.fields.(activeTimedOut := s.fields.activeTimedOut || s.armed[timer] in s.flagging)
      else t.cancelled == s.cancelled && t.fields == s.fields
  {
    if s.fields.activeCancel == Some(s.armed[timer]) {
      assert timer in TimerOf(s, s.current.value);
    }
  }

  /** Over every run: a query that returned a cursor was not hit by its timer, and that timer, whenever
      it still fires, cancels nothing. */
  lemma TimerIsolation(actions: seq<Action>, op: nat, timer: nat)
    requires Run(INIT, actions).Some?
    requires var s := Run(INIT, actions).value;
      op in s.outcomes && s.outcomes[op].Opened? && timer in s.armed && s.armed[timer] == op
    ensures var s := Run(INIT, actions).value;
      && timer !in s.effects
      && (Enabled(s, Fire(timer)) ==>
          Step(s, Fire(timer)).cancelled == s.cancelled && Step(s, Fire(timer)).fields == s.fields)
  {
    hide Run;
    InitOk();
    EveryRunKeepsInv(INIT, actions);
    var s := Run(INIT, actions).value;
    assert timer in TimerOf(s, op);
  }

  /** The timer that an operation armed took effect. */
  ghost predicate TimerTookEffect(s: State, op: nat) { exists t | t in s.armed :: s.armed[t] == op && t in s.effects }

  /** Over every run: how a query ends. It fails if the driver's call failed; it times out if the call succeeded
      and the operation's own timer took effect; in all other cases its cursor is opened and becomes
      live. Exactly an opened one is not cancelled at the end, and nothing is active any more. */
  lemma QueryEndsExactly(actions: seq<Action>, op: nat, failed: bool, rows: nat)
    requires Run(INIT, actions).Some? && Enabled(Run(INIT, actions).value, EndQuery(op, failed, rows))
    ensures var s := Run(INIT, actions).value; var t := Step(s, EndQuery(op, failed, rows));
      && op in t.outcomes
      && (t.outcomes[op] == Failed <==> failed)
      && (t.outcomes[op] == TimedOut <==> !failed && TimerTookEffect(s, op))
      && (t.outcomes[op] == Opened(rows) <==> !failed && !TimerTookEffect(s, op))
      && t.fields.activeRows ==
        (if !failed && !TimerTookEffect(s, op) then s.fields.activeRows[rows := op] else s.fields.activeRows)
      && t.cancelled == (if !failed && !TimerTookEffect(s, op) then s.cancelled else s.cancelled + {op})
      && t.fields.activeCancel == None && t.fields.activeTimer == None
  {
    hide Run;
    InitOk();
    EveryRunKeepsInv(INIT, actions);
    var s := Run(INIT, actions).value;
    OwnTimer(s, op);
  }

  /** In the operation that the worker is in, the flag says whether its own timer took effect. */
  lemma OwnTimer(s: State, op: nat)
    requires Inv(s) && s.fields.activeCancel == Some(op) && s.current == Some(op) && op in s.flagging
    ensures s.fields.activeTimedOut <==> TimerTookEffect(s, op)
  {
    if TimerTookEffect(s, op) {
      var t :| t in s.armed && s.armed[t] == op && t in s.effects;
      assert t in TimerOf(s, op);
    }
  }

  /** A query can end whenever its worker is in it, and the end of a statement without rows leaves nothing
      active and its context cancelled. */
  lemma ExecEnds(s: State, op: nat)
    requires Inv(s) && s.fields.activeCancel == Some(op)
    ensures Enabled(s, EndExec(op)) && (op in s.flagging ==> forall failed, rows: nat ::
        rows !in s.fields.activeRows ==> Enabled(s, EndQuery(op, failed, rows)))
    ensures var t := Step(s, EndExec(op));
      && t.fields.activeCancel == None && t.fields.activeTimer == None && t.current == None
      && op in t.cancelled && t.fields.activeRows == s.fields.activeRows
  {
  }

  lemma InitOk()
    ensures Inv(INIT)
  {
  }

  lemma {:induction false} CancelsStay(s: State, actions: seq<Action>)
    ensures var r := Run(s, actions); r.Some? ==> s.collected <= r.value.collected && s.cancelled <= r.value.cancelled
    decreases |actions|
  {
    if actions != [] && Enabled(s, actions[0]) {
      CancelsStay(Step(s, actions[0]), actions[1..]);
    }
  }

  lemma {:induction false} RunConcat(s: State, a: seq<Action>, b: seq<Action>)
    ensures Run(s, a + b) == if Run(s, a).None? then None else Run(Run(s, a).value, b)
    decreases |a|
  {
    hide Step, Enabled;
    if a == [] {
      assert a + b == b;
    } else if Enabled(s, a[0]) {
      assert (a + b)[1..] == a[1..] + b;
      RunConcat(Step(s, a[0]), a[1..], b);
    }
  }

  // ---- who is cancelled ----

  /** The operation's cursor is live. */
  predicate IsLive(s: State, op: nat) { op in s.fields.activeRows.Values }

  ghost predicate ShouldBeCancelled(past: seq<Action>, s: State, op: nat) {
    TimerTookEffect(s, op) || CancelDelivered(op) in past || (op in s.outcomes && !IsLive(s, op))
  }

  ghost predicate Accounted(past: seq<Action>, s: State) {
    forall op :: op in s.cancelled <==> ShouldBeCancelled(past, s, op)
  }

  lemma TookEffectStep(s: State, a: Action, op: nat)
    requires Inv(s) && Enabled(s, a)
    ensures TimerTookEffect(Step(s, a), op) <==>
      TimerTookEffect(s, op) || (a.Fire? && s.fields.activeTimer == Some(a.expired) && s.armed[a.expired] == op)
  {
    var t := Step(s, a);
    if TimerTookEffect(s, op) {
      var u :| u in s.armed && s.armed[u] == op && u in s.effects;
      assert t.armed[u] == op && u in t.effects;
    }
    if a.Fire? && s.fields.activeTimer == Some(a.expired) && s.armed[a.expired] == op {
      assert t.armed[a.expired] == op && a.expired in t.effects;
    }
    if TimerTookEffect(t, op) {
      var u :| u in t.armed && t.armed[u] == op && u in t.effects;
      assert u in s.effects ==> u in s.armed && s.armed[u] == op;
    }
  }

  lemma LiveStep(s: State, a: Action, op: nat)
    requires Inv(s) && Enabled(s, a)
    ensures IsLive(Step(s, a), op) <==>
      (IsLive(s, op) && !(a.CloseRows? && s.fields.activeRows[a.rows] == op))
      || (a.EndQuery? && a.op == op && Step(s, a).outcomes[op].Opened?)
  {
    var t := Step(s, a);
    if IsLive(s, op) {
      var rows :| rows in s.fields.activeRows && s.fields.activeRows[rows] == op;
      assert !(a.CloseRows? && a.rows == rows) ==> rows in t.fields.activeRows && t.fields.activeRows[rows] == op;
    }
    if a.EndQuery? && a.op == op && t.outcomes[op].Opened? {
      assert t.fields.activeRows[a.rows] == op;
    }
  }

  lemma AccountedStep(past: seq<Action>, s: State, a: Action)
    requires Inv(s) && Enabled(s, a) && Accounted(past, s)
    ensures Accounted(past + [a], Step(s, a))
  {
    hide Inv, TimerTookEffect, IsLive, Step, Enabled;
    var t := Step(s, a);
    forall op ensures op in t.cancelled <==> ShouldBeCancelled(past + [a], t, op) {
      TookEffectStep(s, a, op);
      LiveStep(s, a, op);
      OutcomesStep(s, a, op);
      CancelledStep(s, a, op);
      assert op in s.cancelled <==> ShouldBeCancelled(past, s, op);
      assert CancelDelivered(op) in past + [a] <==> CancelDelivered(op) in past || a == CancelDelivered(op);
    }
  }

  lemma OutcomesStep(s: State, a: Action, op: nat)
    requires Inv(s) && Enabled(s, a)
    ensures op in Step(s, a).outcomes <==> op in s.outcomes || ((a.EndQuery? || a.EndExec?) && a.op == op)
    ensures IsLive(s, op) ==> op in s.outcomes
    ensures (a.EndQuery? || a.EndExec?) && a.op == op ==> op !in s.outcomes && !IsLive(s, op)
  {
  }

  lemma CancelledStep(s: State, a: Action, op: nat)
    requires Inv(s) && Enabled(s, a)
    ensures op in Step(s, a).cancelled <==>
      || op in s.cancelled || a == CancelDelivered(op)
      || (a.Fire? && s.fields.activeTimer == Some(a.expired) && s.armed[a.expired] == op)
      || ((a.EndQuery? || a.EndExec?) && a.op == op && !Step(s, a).outcomes[op].Opened?)
      || (a.CloseRows? && s.fields.activeRows[a.rows] == op)
    ensures a.CloseRows? && s.fields.activeRows[a.rows] == op ==> IsLive(s, op)
    ensures a.EndExec? ==> !Step(s, a).outcomes[a.op].Opened?
  {
  }

  lemma {:induction false} AccountedRun(past: seq<Action>, s: State, actions: seq<Action>)
    requires Inv(s) && Accounted(past, s) && Run(s, actions).Some?
    ensures Accounted(past + actions, Run(s, actions).value)
    decreases |actions|
  {
    hide Inv, Accounted, Step, Enabled;
    if actions == [] {
      assert past + actions == past;
    } else {
      AccountedStep(past, s, actions[0]);
      StepKeepsInv(s, actions[0]);
      AccountedRun(past + [actions[0]], Step(s, actions[0]), actions[1..]);
      assert past + [actions[0]] + actions[1..] == past + actions;
    }
  }

  /** Over every run: a context is cancelled exactly if its timer took effect, a cancel request reached it, or
      its operation has ended and its cursor is not live. So nothing that ended without a live cursor is
      left uncancelled, and nothing else is cancelled. */
  lemma CancelledExactly(actions: seq<Action>, op: nat)
    requires Run(INIT, actions).Some?
    ensures var s := Run(INIT, actions).value;
      op in s.cancelled <==>
        || TimerTookEffect(s, op) || CancelDelivered(op) in actions
        || (op in s.outcomes && op !in s.fields.activeRows.Values)
  {
    hide Run, Inv, TimerTookEffect;
    InitOk();
    NoneAtFirst();
    AccountedRun([], INIT, actions);
    assert [] + actions == actions;
    assert ShouldBeCancelled(actions, Run(INIT, actions).value, op) <==> op in Run(INIT, actions).value.cancelled;
  }

  lemma NoneAtFirst()
    ensures Accounted([], INIT)
  {
  }

  /** A cancel request reaches the operation that is active and every live cursor when it looks, whatever
      happens before it gets to cancel them, and they stay cancelled. */
  lemma CancelReachesAll(s: State, op: nat, between: seq<Action>, after: seq<Action>)
    requires s.fields.activeCancel == Some(op) || op in s.fields.activeRows.Values
    requires Run(s, [CancelRequest] + between).Some?
    ensures Enabled(Run(s, [CancelRequest] + between).value, CancelDelivered(op))
    ensures var r := Run(s, [CancelRequest] + between + [CancelDelivered(op)] + after);
      r.Some? ==> op in r.value.cancelled
  {
    hide Step, Enabled;
    var request := [CancelRequest];
    assert (request + between)[1..] == between;
    Requested(s, op);
    CancelsStay(Step(s, CancelRequest), between);
    var t := Run(s, request + between).value;
    Delivered(t, op);
    assert request + between + [CancelDelivered(op)] + after == (request + between) + ([CancelDelivered(op)] + after);
    RunConcat(s, request + between, [CancelDelivered(op)] + after);
    assert ([CancelDelivered(op)] + after)[1..] == after;
    CancelsStay(Step(t, CancelDelivered(op)), after);
  }

  lemma Requested(s: State, op: nat)
    requires s.fields.activeCancel == Some(op) || op in s.fields.activeRows.Values
    ensures Enabled(s, CancelRequest) && op in Step(s, CancelRequest).collected
  {
  }

  lemma Delivered(s: State, op: nat)
    requires op in s.collected
    ensures Enabled(s, CancelDelivered(op)) && op in Step(s, CancelDelivered(op)).cancelled
  {
  }

  /** It does not reach an operation that starts after the request: only another request can. */
  lemma {:induction false} CancelSparesLater(s: State, actions: seq<Action>, op: nat)
    requires op !in s.collected && CancelRequest !in actions && Run(s, actions).Some?
    ensures op !in Run(s, actions).value.collected && CancelDelivered(op) !in actions
    decreases |actions|
  {
    if actions != [] {
      assert actions[0] in actions;
      CancelSparesLater(Step(s, actions[0]), actions[1..], op);
    }
  }

  /** What is to be cancelled was started before. */
  lemma CollectedWasUsed(actions: seq<Action>)
    requires Run(INIT, actions).Some?
    ensures Run(INIT, actions).value.collected <= Run(INIT, actions).value.used
  {
    InitOk();
    EveryRunKeepsInv(INIT, actions);
  }

  // ---- the lock regions on the server object ----

  class Server {
    var activeCancel: Option<nat>
    var activeTimer: Option<nat>
    var activeTimedOut: bool
    var activeRows: map<nat, nat>

    ghost function View(): Fields
      reads this
    {
      Fields(activeCancel, activeTimer, activeTimedOut, activeRows)
    }

    constructor ()
      ensures View() == INIT.fields
    {
      activeCancel, activeTimer, activeTimedOut, activeRows := None, None, false, map[];
    }

    method BeginActiveOperation(op: nat, timer: Option<nat>)
      modifies this
      ensures View() == Begun(old(View()), op, timer, true)
    {
      activeCancel := Some(op);
      activeTimer := timer;
      activeTimedOut := false;
    }

    method BeginExec(op: nat, timer: Option<nat>)
      modifies this
      ensures View() == Begun(old(View()), op, timer, false)
    {
      activeCancel := Some(op);
      activeTimer := timer;
    }

    method TimerCallback(timer: nat) returns (cancel: bool)
      modifies this
      ensures (View(), cancel) == Fired(old(View()), timer, true)
    {
      cancel := false;
      if activeTimer == Some(timer) {
        activeTimedOut := true;
        cancel := true;
      }
    }

    method ExecTimerCallback(timer: nat) returns (cancel: bool)
      ensures (View(), cancel) == Fired(View(), timer, false)
    {
      cancel := activeTimer == Some(timer);
    }

    method QueryReturned(op: nat, failed: bool, rows: nat) returns (outcome: Outcome)
      modifies this
      ensures (View(), outcome) == QueryEnded(old(View()), op, failed, rows)
    {
      activeCancel := None;
      if activeTimer.Some? {
        activeTimer := None;
      }
      if failed {
        outcome := Failed;
      } else if activeTimedOut {
        outcome := TimedOut;
      } else {
        activeRows := activeRows[rows := op];
        outcome := Opened(rows);
      }
    }

    method EndActiveOperation()
      modifies this
      ensures View() == Ended(old(View()))
    {
      activeCancel := None;
      if activeTimer.Some? {
        activeTimer := None;
      }
    }

    method CollectCancels() returns (cancels: set<nat>)
      ensures cancels == Collected(View())
    {
      cancels := {};
      if activeCancel.Some? {
        cancels := cancels + {activeCancel.value};
      }
      cancels := cancels + activeRows.Values;
    }
  }
}
