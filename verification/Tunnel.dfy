/** The tunnel as interleaved steps of requests and the worker process: both byte streams, with every region
    under a queue lock and every look at a flag file as one step. */
module Tunnel {
  import opened Text
  import opened Base64
  import opened TunnelQueue

  /** Where a read request is: about to drain, with a drained segment in hand, or, having drained nothing,
      about to look at the error file or at the closed file. */
  datatype Phase = Drains | Holds(segment: nat) | AtError | AtClosed

  datatype Response = Response(reader: nat, code: nat)

  /** The session directory, what each process holds in memory, and the history of both streams. What a
      drain of a read request took is a segment; `sent` are the segments sent to the client, as numbers. */
  datatype State = State(
    inQueue: string, outQueue: string, closed: bool, error: bool,   // files
    accepted: seq<Byte>,      // appended by write requests
    drained: seq<Byte>,       // drained by the worker, not yet written to the target
    toTarget: seq<Byte>,
    fromTarget: seq<Byte>,
    fetched: seq<Byte>,       // read from the target, not yet appended
    segments: seq<seq<Byte>>,
    readers: map<nat, Phase>,
    sent: seq<nat>,
    stopped: bool,            // the worker left its loop
    responses: seq<Response>)

  const INIT := State("", "", false, false, [], [], [], [], [], [], map[], [], false, [])

  datatype Action =
    | Write(data: seq<Byte>)
    | WorkerDrain
    | WorkerWrite(n: nat)
    | WorkerRead(data: seq<Byte>)
    | WorkerAppend
    | WorkerFail
    | WorkerStop
    | WorkerMarkClosed
    | ReadStart(r: nat)
    | ReadDrain(r: nat)
    | ReadSend(r: nat)
    | LookError(r: nat)
    | LookClosed(r: nat)
    | ReadTimeout(r: nat)

  predicate Reading(s: State, r: nat, phase: Phase) { r in s.readers && s.readers[r] == phase }

  /** Any number of requests and the worker interleave. A worker that stops because of the close flag, the
      end of the stream or its age has empty hands; one that fails may not. */
  predicate Enabled(s: State, a: Action) {
    match a
    case Write(data) => data != []
    case WorkerDrain => !s.stopped && s.drained == [] && s.fetched == []
    case WorkerWrite(n) => !s.stopped && 0 < n <= |s.drained|
    case WorkerRead(data) => !s.stopped && s.drained == [] && s.fetched == [] && data != []
    case WorkerAppend => !s.stopped && s.fetched != []
    case WorkerFail => !s.stopped
    case WorkerStop => !s.stopped && s.drained == [] && s.fetched == []
    case WorkerMarkClosed => s.stopped && !s.closed
    case ReadStart(r) => r !in s.readers
    case ReadDrain(r) => Reading(s, r, Drains)
    case ReadSend(r) => r in s.readers && s.readers[r].Holds?
    case LookError(r) => Reading(s, r, AtError)
    case LookClosed(r) => Reading(s, r, AtClosed)
    case ReadTimeout(r) => Reading(s, r, Drains)
  }

  /** The request is answered. */
  function Answer(s: State, r: nat, code: nat): State {
    s.(readers := s.readers - {r}, responses := s.responses + [Response(r, code)])
  }

  function Move(s: State, r: nat, phase: Phase): State { s.(readers := s.readers[r := phase]) }

  function Step(s: State, a: Action): State
    requires Enabled(s, a)
  {
    match a
    case Write(data) => s.(inQueue := Appended(s.inQueue, data), accepted := s.accepted + data)
    case WorkerDrain => s.(drained := Data(s.inQueue), inQueue := "")
    case WorkerWrite(n) => s.(toTarget := s.toTarget + s.drained[..n], drained := s.drained[n..])
    case WorkerRead(data) => s.(fromTarget := s.fromTarget + data, fetched := data)
    case WorkerAppend => s.(outQueue := Appended(s.outQueue, s.fetched), fetched := [])
    case WorkerFail => s.(error := true, stopped := true)
    case WorkerStop => s.(stopped := true)
    case WorkerMarkClosed => s.(closed := true)
    case ReadStart(r) => Move(s, r, Drains)
    case ReadDrain(r) =>
      var data := Data(s.outQueue);
      if data == [] then Move(s.(outQueue := ""), r, AtError)
      else Move(s.(outQueue := "", segments := s.segments + [data]), r, Holds(|s.segments|))
    case ReadSend(r) => Answer(s.(sent := s.sent + [s.readers[r].segment]), r, 200)
    case LookError(r) => if s.error then Answer(s, r, 502) else Move(s, r, AtClosed)
    case LookClosed(r) => if s.closed then Answer(s, r, 410) else Move(s, r, Drains)
    case ReadTimeout(r) => Answer(s, r, 204)
  }

  // ---- conservation ----

  /** The bytes towards the target are at exactly one place, in order. */
  ghost predicate InConserved(s: State) {
    WholeLines(s.inQueue) && s.accepted == s.toTarget + s.drained + Data(s.inQueue)
  }

  /** The bytes towards the client are in a segment, in the queue file or in the worker's hands, in order. */
  ghost predicate OutConserved(s: State) {
    WholeLines(s.outQueue) && s.fromTarget == Flat(s.segments) + Data(s.outQueue) + s.fetched
  }

  /** Every segment was sent once or is in the hands of one request, and not both. */
  ghost predicate EachOnce(n: nat, sent: seq<nat>, readers: map<nat, Phase>) {
    && (forall i | 0 <= i < |sent| :: sent[i] < n)
    && (forall i, j | 0 <= i < j < |sent| :: sent[i] != sent[j])
    && (forall r | r in readers && readers[r].Holds? :: readers[r].segment < n && readers[r].segment !in sent)
    && (forall q, r | q in readers && r in readers && readers[q].Holds? && readers[q] == readers[r] :: q == r)
    && (forall i: nat | i < n :: i in sent || Holds(i) in readers.Values)
  }

  /** A worker that stopped without an error has nothing in its hands. */
  ghost predicate HandsEmpty(s: State) {
    (s.closed ==> s.stopped) && (s.stopped && !s.error ==> s.drained == [] && s.fetched == [])
  }

  ghost predicate Inv(s: State) {
    InConserved(s) && OutConserved(s) && EachOnce(|s.segments|, s.sent, s.readers) && HandsEmpty(s)
  }

  lemma InitInv()
    ensures Inv(INIT)
  {
    EmptyQueue();
  }

  lemma Regroup(a: seq<Byte>, b: seq<Byte>, c: seq<Byte>, d: seq<Byte>)
    ensures a + (b + c) == a + b + c && a + [] == a && a + b + (c + d) == a + b + c + d
  {
  }

  lemma StepKeepsIn(s: State, a: Action)
    requires InConserved(s) && Enabled(s, a)
    ensures InConserved(Step(s, a))
  {
    hide Data, Appended, WholeLines;
    EmptyQueue();
    match a
    case Write(data) =>
      AppendedData(s.inQueue, data);
      Regroup(s.toTarget + s.drained, Data(s.inQueue), data, []);
    case WorkerDrain =>
      Regroup(s.toTarget, [], [], []);
      Regroup(s.toTarget + Data(s.inQueue), [], [], []);
    case WorkerWrite(n) =>
      assert s.drained == s.drained[..n] + s.drained[n..];
      Regroup(s.toTarget, s.drained[..n], s.drained[n..], []);
    case _ =>
  }

  lemma FlatSnoc(segments: seq<seq<Byte>>, data: seq<Byte>)
    ensures Flat(segments + [data]) == Flat(segments) + data
  {
    assert (segments + [data])[..|segments|] == segments;
  }

  lemma StepKeepsOut(s: State, a: Action)
    requires OutConserved(s) && Enabled(s, a)
    ensures OutConserved(Step(s, a))
  {
    hide Data, Appended, WholeLines, Flat;
    EmptyQueue();
    match a
    case WorkerRead(data) => Regroup(Flat(s.segments) + Data(s.outQueue), [], [], []);
    case WorkerAppend =>
      AppendedData(s.outQueue, s.fetched);
      Regroup(Flat(s.segments), Data(s.outQueue), s.fetched, []);
      Regroup(Flat(s.segments) + (Data(s.outQueue) + s.fetched), [], [], []);
    case ReadDrain(r) =>
      FlatSnoc(s.segments, Data(s.outQueue));
      Regroup(Flat(s.segments), [], [], []);
      Regroup(Flat(s.segments) + Data(s.outQueue), [], [], []);
    case _ =>
  }

  /** A request that holds no segment moves or ends. */
  lemma OthersMove(n: nat, sent: seq<nat>, readers: map<nat, Phase>, r: nat, phase: Phase)
    requires EachOnce(n, sent, readers) && !phase.Holds? && (r in readers ==> !readers[r].Holds?)
    ensures EachOnce(n, sent, readers[r := phase]) && EachOnce(n, sent, readers - {r})
  {
    forall i: nat | i < n && i !in sent
      ensures Holds(i) in readers[r := phase].Values && Holds(i) in (readers - {r}).Values
    {
      var q :| q in readers && readers[q] == Holds(i);
      assert readers[r := phase][q] == Holds(i) && (readers - {r})[q] == Holds(i);
    }
  }

  lemma TakeSegment(n: nat, sent: seq<nat>, readers: map<nat, Phase>, r: nat)
    requires EachOnce(n, sent, readers) && r in readers && !readers[r].Holds?
    ensures EachOnce(n + 1, sent, readers[r := Holds(n)])
  {
    var after := readers[r := Holds(n)];
    assert after[r] == Holds(n);
    forall i: nat | i < n && i !in sent ensures Holds(i) in after.Values {
      var q :| q in readers && readers[q] == Holds(i);
      assert after[q] == Holds(i);
    }
  }

  lemma SendSegment(n: nat, sent: seq<nat>, readers: map<nat, Phase>, r: nat)
    requires EachOnce(n, sent, readers) && r in readers && readers[r].Holds?
    ensures EachOnce(n, sent + [readers[r].segment], readers - {r})
  {
    var last := readers[r].segment;
    var after := sent + [last];
    assert forall i | 0 <= i < |sent| :: after[i] == sent[i] && sent[i] in sent;
    assert after[|sent|] == last;
    forall i: nat | i < n && i !in after ensures Holds(i) in (readers - {r}).Values {
      assert i !in sent && i != last;
      var q :| q in readers && readers[q] == Holds(i);
      assert (readers - {r})[q] == Holds(i);
    }
  }

  lemma StepKeepsOnce(s: State, a: Action)
    requires EachOnce(|s.segments|, s.sent, s.readers) && Enabled(s, a)
    ensures var t := Step(s, a); EachOnce(|t.segments|, t.sent, t.readers)
  {
    hide Data, Appended, EachOnce;
    match a
    case ReadStart(r) => OthersMove(|s.segments|, s.sent, s.readers, r, Drains);
    case ReadDrain(r) =>
      OthersMove(|s.segments|, s.sent, s.readers, r, AtError);
      TakeSegment(|s.segments|, s.sent, s.readers, r);
    case ReadSend(r) => SendSegment(|s.segments|, s.sent, s.readers, r);
    case LookError(r) => OthersMove(|s.segments|, s.sent, s.readers, r, AtClosed);
    case LookClosed(r) => OthersMove(|s.segments|, s.sent, s.readers, r, Drains);
    case ReadTimeout(r) => OthersMove(|s.segments|, s.sent, s.readers, r, Drains);
    case _ =>
  }

  lemma StepKeepsInv(s: State, a: Action)
    requires Inv(s) && Enabled(s, a)
    ensures Inv(Step(s, a))
  {
    hide Data, Appended, InConserved, OutConserved, EachOnce;
    StepKeepsIn(s, a);
    StepKeepsOut(s, a);
    StepKeepsOnce(s, a);
  }

  // ---- runs ----

  /** Every run of enabled steps. */
  ghost predicate Run(s: State, actions: seq<Action>, t: State)
    decreases |actions|
  {
    if actions == [] then s == t
    else Enabled(s, actions[0]) && Run(Step(s, actions[0]), actions[1..], t)
  }

  lemma {:induction false} RunKeepsInv(s: State, actions: seq<Action>, t: State)
    requires Inv(s) && Run(s, actions, t)
    ensures Inv(t)
    decreases |actions|
  {
    hide Inv, Enabled, Step;
    if actions != [] {
      StepKeepsInv(s, actions[0]);
      RunKeepsInv(Step(s, actions[0]), actions[1..], t);
    }
  }

  /** Conservation, over every interleaving with any number of requests at once. Towards the target the bytes
      accepted are those written, then those in the worker's hands, then those in the queue file. Towards
      the client the bytes read from the target are the drained segments, then those in the queue file, then
      those in the worker's hands; and each segment was sent in exactly one response or is held by exactly
      one request. */
  lemma StreamsConserved(actions: seq<Action>, s: State)
    requires Run(INIT, actions, s)
    ensures s.accepted == s.toTarget + s.drained + Data(s.inQueue) && s.toTarget <= s.accepted
    ensures s.fromTarget == Flat(s.segments) + Data(s.outQueue) + s.fetched
    ensures EachOnce(|s.segments|, s.sent, s.readers)
    ensures s.stopped && !s.error ==> s.drained == [] && s.fetched == []
    ensures s.drained == [] && s.inQueue == "" ==> s.toTarget == s.accepted
  {
    hide Data, Appended, WholeLines, Enabled, Step, EachOnce;
    InitInv();
    RunKeepsInv(INIT, actions, s);
    EmptyQueue();
  }

  // ---- order ----

  /** The bytes of the responses, in the order in which they were sent. */
  function Received(segments: seq<seq<Byte>>, sent: seq<nat>): seq<Byte>
    requires forall i | 0 <= i < |sent| :: sent[i] < |segments|
  {
    if sent == [] then []
    else
      assert sent[|sent| - 1] < |segments| && forall i | 0 <= i < |sent| - 1 :: sent[..|sent| - 1][i] == sent[i];
      Received(segments, sent[..|sent| - 1]) + segments[sent[|sent| - 1]]
  }

  /** Each read request starts when no other is there, as the client sends them. */
  ghost predicate OneByOne(s: State, actions: seq<Action>)
    decreases |actions|
  {
    actions != [] && Enabled(s, actions[0]) ==>
      (actions[0].ReadStart? ==> s.readers == map[]) && OneByOne(Step(s, actions[0]), actions[1..])
  }

  /** At most one request, and the segments are sent in the order in which they were drained. */
  ghost predicate Serial(s: State) {
    && (forall q, r | q in s.readers && r in s.readers :: q == r)
    && (forall i | 0 <= i < |s.sent| :: s.sent[i] == i)
    && (forall r | r in s.readers && s.readers[r].Holds? :: s.readers[r].segment == |s.sent| == |s.segments| - 1)
    && ((forall r | r in s.readers :: !s.readers[r].Holds?) ==> |s.segments| == |s.sent|)
  }

  lemma SerialStep(s: State, a: Action)
    requires Serial(s) && Enabled(s, a) && (a.ReadStart? ==> s.readers == map[])
    ensures Serial(Step(s, a))
  {
    hide Data, Appended;
    var t := Step(s, a);
    if a.ReadSend? {
      assert forall q | q in s.readers :: q == a.r;
      assert t.readers == map[];
    } else if a.ReadDrain? {
      assert forall q | q in s.readers :: q == a.r;
      assert t.readers == map[a.r := t.readers[a.r]];
    }
  }

  lemma {:induction false} SerialRun(s: State, actions: seq<Action>, t: State)
    requires Serial(s) && Run(s, actions, t) && OneByOne(s, actions)
    ensures Serial(t)
    decreases |actions|
  {
    hide Serial, Enabled, Step;
    if actions != [] {
      SerialStep(s, actions[0]);
      SerialRun(Step(s, actions[0]), actions[1..], t);
    }
  }

  lemma {:induction false} ReceivedInOrder(segments: seq<seq<Byte>>, sent: seq<nat>)
    requires |sent| <= |segments| && forall i | 0 <= i < |sent| :: sent[i] == i
    ensures Received(segments, sent) == Flat(segments[..|sent|])
    decreases |sent|
  {
    if sent != [] {
      var n := |sent| - 1;
      assert forall i | 0 <= i < n :: sent[..n][i] == sent[i];
      ReceivedInOrder(segments, sent[..n]);
      assert segments[..n + 1][..n] == segments[..n] && sent[n] == n;
    }
  }

  /** If read requests do not overlap, what the client received is in order: it is a prefix of what was read
      from the target, all of it but the bytes in hand or queued. */
  lemma ReceivedIsPrefix(actions: seq<Action>, s: State)
    requires Run(INIT, actions, s) && OneByOne(INIT, actions)
    ensures (forall i | 0 <= i < |s.sent| :: s.sent[i] < |s.segments|) && Received(s.segments, s.sent) <= s.fromTarget
    ensures (forall r | r in s.readers :: !s.readers[r].Holds?) ==>
      s.fromTarget == Received(s.segments, s.sent) + Data(s.outQueue) + s.fetched
  {
    hide Data, Received, EachOnce;
    StreamsConserved(actions, s);
    SerialRun(INIT, actions, s);
    assert |s.sent| <= |s.segments|;
    ReceivedInOrder(s.segments, s.sent);
    if forall r | r in s.readers :: !s.readers[r].Holds? {
      assert s.segments[..|s.sent|] == s.segments;
    } else {
      var n := |s.segments| - 1;
      assert s.segments == s.segments[..n] + [s.segments[n]];
      FlatSnoc(s.segments[..n], s.segments[n]);
    }
  }

  // ---- the answer 410 ----

  lemma {:induction false} RunSplit(s: State, a: seq<Action>, b: seq<Action>, t: State) returns (mid: State)
    requires Run(s, a + b, t)
    ensures Run(s, a, mid) && Run(mid, b, t)
    decreases |a|
  {
    hide Enabled, Step;
    if a == [] {
      assert a + b == b;
      mid := s;
    } else {
      assert (a + b)[1..] == a[1..] + b;
      mid := RunSplit(Step(s, a[0]), a[1..], b, t);
    }
  }

  predicate NoDrain(actions: seq<Action>) { forall a | a in actions :: !a.ReadDrain? }

  lemma QueueStep(s: State, a: Action)
    requires WholeLines(s.outQueue) && Enabled(s, a) && !a.ReadDrain?
    ensures WholeLines(Step(s, a).outQueue)
    ensures Data(Step(s, a).outQueue) != [] <==> Data(s.outQueue) != [] || a == WorkerAppend
  {
    hide Data, Appended, WholeLines;
    if a == WorkerAppend {
      AppendedData(s.outQueue, s.fetched);
    }
  }

  /** Without a drain the queue has data exactly if it had some or the worker appended. */
  lemma {:induction false} QueueGrows(s: State, actions: seq<Action>, t: State)
    requires WholeLines(s.outQueue) && Run(s, actions, t) && NoDrain(actions)
    ensures Data(t.outQueue) != [] <==> Data(s.outQueue) != [] || WorkerAppend in actions
    decreases |actions|
  {
    hide Data, WholeLines, Enabled, Step;
    if actions != [] {
      assert actions[0] in actions;
      QueueStep(s, actions[0]);
      QueueGrows(Step(s, actions[0]), actions[1..], t);
    }
  }

  lemma DrainEmpties(s: State, q: nat)
    requires Enabled(s, ReadDrain(q))
    ensures Step(s, ReadDrain(q)).outQueue == ""
  {
  }

  /** A read request answers 410 with bytes still queued exactly if the worker appended after the last drain
      of any request. */
  lemma GoneWithBytesQueued(before: seq<Action>, q: nat, between: seq<Action>, s: State, r: nat)
    requires Run(INIT, before + ([ReadDrain(q)] + between), s) && NoDrain(between)
    requires Reading(s, r, AtClosed) && s.closed
    ensures var t := Step(s, LookClosed(r));
      && t.responses == s.responses + [Response(r, 410)]
      && (Data(t.outQueue) != [] <==> WorkerAppend in between)
  {
    hide Data, Appended, WholeLines;
    var drain := [ReadDrain(q)] + between;
    var mid := RunSplit(INIT, before, drain, s);
    assert drain[0] == ReadDrain(q) && drain[1..] == between;
    DrainEmpties(mid, q);
    EmptyQueue();
    QueueGrows(Step(mid, ReadDrain(q)), between, s);
  }

  /** Those bytes are not lost: once the session is closed, and unless the worker failed, the next read
      request that finds any drains everything that was not drained before. */
  lemma NextReadGetsAll(actions: seq<Action>, s: State, r: nat)
    requires Run(INIT, actions, s) && s.closed && !s.error && r !in s.readers && Data(s.outQueue) != []
    ensures var u := Step(Step(s, ReadStart(r)), ReadDrain(r));
      Reading(u, r, Holds(|s.segments|)) && Flat(u.segments) == u.fromTarget == s.fromTarget
  {
    hide Data, WholeLines, Flat, EachOnce, InConserved;
    InitInv();
    RunKeepsInv(INIT, actions, s);
    FlatSnoc(s.segments, Data(s.outQueue));
    Regroup(Flat(s.segments) + Data(s.outQueue), [], [], []);
  }

  /** Such a run exists: the read request finds the queue empty, then the worker appends a byte, stops
      and marks the session closed, and only then the request looks at the flag. */
  lemma GoneTooEarly() returns (actions: seq<Action>, s: State)
    ensures Run(INIT, actions, s) && s.responses == [Response(0, 410)] && s.sent == []
    ensures Data(s.outQueue) == [7] && s.fromTarget == [7]
  {
    var s1, first := FindsNothing();
    var s2, second := WorkerEnds(s1, 7);
    var last := LooksLast(s2);
    s := Step(Step(s2, LookError(0)), LookClosed(0));
    RunConcat(s1, second, s2, last, s);
    RunConcat(INIT, first, s1, second + last, s);
    actions := first + (second + last);
  }

  lemma FindsNothing() returns (t: State, actions: seq<Action>)
    ensures Run(INIT, actions, t) && t == INIT.(readers := map[0 := AtError])
  {
    hide Data, Appended, WholeLines;
    EmptyQueue();
    var s1 := Step(INIT, ReadStart(0));
    t := Step(s1, ReadDrain(0));
    assert Run(s1, [ReadDrain(0)], t);
    RunCons(INIT, ReadStart(0), [ReadDrain(0)], t);
    actions := [ReadStart(0)] + [ReadDrain(0)];
    assert t.readers == map[0 := AtError];
  }

  lemma WorkerEnds(s: State, b: Byte) returns (t: State, actions: seq<Action>)
    requires !s.stopped && !s.closed && s.drained == [] && s.fetched == [] && s.outQueue == ""
    ensures Run(s, actions, t) && Data(t.outQueue) == [b]
    ensures t == s.(fromTarget := s.fromTarget + [b], outQueue := t.outQueue, stopped := true, closed := true)
  {
    hide Data, Appended, WholeLines;
    EmptyQueue();
    AppendedData("", [b]);
    assert [] + [b] == [b];
    var s1 := Step(s, WorkerRead([b]));
    var s2 := Step(s1, WorkerAppend);
    var s3 := Step(s2, WorkerStop);
    t := Step(s3, WorkerMarkClosed);
    assert Run(s3, [WorkerMarkClosed], t);
    RunCons(s2, WorkerStop, [WorkerMarkClosed], t);
    RunCons(s1, WorkerAppend, [WorkerStop] + [WorkerMarkClosed], t);
    RunCons(s, WorkerRead([b]), [WorkerAppend] + ([WorkerStop] + [WorkerMarkClosed]), t);
    actions := [WorkerRead([b])] + ([WorkerAppend] + ([WorkerStop] + [WorkerMarkClosed]));
  }

  lemma LooksLast(s: State) returns (actions: seq<Action>)
    requires Reading(s, 0, AtError) && s.closed && !s.error
    ensures Enabled(s, LookError(0)) && Enabled(Step(s, LookError(0)), LookClosed(0))
    ensures Run(s, actions, Step(Step(s, LookError(0)), LookClosed(0)))
  {
    var t := Step(s, LookError(0));
    assert Run(t, [LookClosed(0)], Step(t, LookClosed(0)));
    RunCons(s, LookError(0), [LookClosed(0)], Step(t, LookClosed(0)));
    actions := [LookError(0)] + [LookClosed(0)];
  }

  lemma RunCons(s: State, a: Action, rest: seq<Action>, t: State)
    requires Enabled(s, a) && Run(Step(s, a), rest, t)
    ensures Run(s, [a] + rest, t)
  {
    assert ([a] + rest)[1..] == rest;
  }

  /** Two requests that overlap can bring the bytes in the wrong order: the second one drains later and
      answers first. */
  lemma Overtaken() returns (actions: seq<Action>, s: State)
    ensures Run(INIT, actions, s) && s.fromTarget == [7, 8] && s.sent == [1, 0] && s.segments == [[7], [8]]
    ensures Received(s.segments, s.sent) == [8, 7]
  {
    hide Data, Appended, WholeLines, Received;
    var s1, first := DrainsOne(INIT, 0, 7);
    var s2, second := DrainsOne(s1, 1, 8);
    var s3 := Step(s2, ReadSend(1));
    s := Step(s3, ReadSend(0));
    assert Run(s3, [ReadSend(0)], s);
    RunCons(s2, ReadSend(1), [ReadSend(0)], s);
    RunConcat(s1, second, s2, [ReadSend(1)] + [ReadSend(0)], s);
    RunConcat(INIT, first, s1, second + ([ReadSend(1)] + [ReadSend(0)]), s);
    actions := first + (second + ([ReadSend(1)] + [ReadSend(0)]));
    assert Received(s.segments, [1]) == [8] && Received(s.segments, [1, 0]) == [8, 7] by {
      ReceivedTwo(s.segments);
    }
  }

  lemma ReceivedTwo(segments: seq<seq<Byte>>)
    requires |segments| == 2
    ensures Received(segments, [1]) == segments[1] && Received(segments, [1, 0]) == segments[1] + segments[0]
  {
    assert [1][..0] == [] && [1, 0][..1] == [1];
    assert Received(segments, []) == [];
  }

  lemma {:induction false} RunConcat(s: State, a: seq<Action>, mid: State, b: seq<Action>, t: State)
    requires Run(s, a, mid) && Run(mid, b, t)
    ensures Run(s, a + b, t)
    decreases |a|
  {
    hide Enabled, Step;
    if a == [] {
      assert a + b == b;
    } else {
      assert (a + b)[1..] == a[1..] + b;
      RunConcat(Step(s, a[0]), a[1..], mid, b, t);
    }
  }

  /** A byte comes from the target and a new request drains it. */
  lemma DrainsOne(s: State, r: nat, b: Byte) returns (t: State, actions: seq<Action>)
    requires !s.stopped && s.drained == [] && s.fetched == [] && s.outQueue == "" && r !in s.readers
    ensures Run(s, actions, t)
    ensures t == s.(fromTarget := s.fromTarget + [b], segments := s.segments + [[b]],
                    readers := s.readers[r := Holds(|s.segments|)])
  {
    hide Data, Appended, WholeLines;
    EmptyQueue();
    AppendedData("", [b]);
    assert [] + [b] == [b];
    var s1 := Step(s, WorkerRead([b]));
    var s2 := Step(s1, WorkerAppend);
    var s3 := Step(s2, ReadStart(r));
    t := Step(s3, ReadDrain(r));
    assert Data(s3.outQueue) == [b];
    assert s.readers[r := Drains][r := Holds(|s.segments|)] == s.readers[r := Holds(|s.segments|)];
    assert Run(s3, [ReadDrain(r)], t);
    RunCons(s2, ReadStart(r), [ReadDrain(r)], t);
    RunCons(s1, WorkerAppend, [ReadStart(r)] + [ReadDrain(r)], t);
    RunCons(s, WorkerRead([b]), [WorkerAppend] + ([ReadStart(r)] + [ReadDrain(r)]), t);
    actions := [WorkerRead([b])] + ([WorkerAppend] + ([ReadStart(r)] + [ReadDrain(r)]));
  }

  // ---- the answers ----

  /** Data is answered with 200 and is sent as it was drained; an error file with 502, the closed flag with
      410, the end of the waiting time with 204; and nothing else ends a request. */
  lemma AnswersAre(s: State, a: Action)
    requires Enabled(s, a)
    ensures var t := Step(s, a);
      match a
      case ReadSend(r) => t.responses == s.responses + [Response(r, 200)] && t.sent == s.sent + [s.readers[r].segment]
      case LookError(r) => t.responses == if s.error then s.responses + [Response(r, 502)] else s.responses
      case LookClosed(r) => t.responses == if s.closed then s.responses + [Response(r, 410)] else s.responses
      case ReadTimeout(r) => t.responses == s.responses + [Response(r, 204)]
      case _ => t.responses == s.responses && t.sent == s.sent
    ensures forall r | r in s.readers && r !in Step(s, a).readers ::
        |Step(s, a).responses| == |s.responses| + 1 && Step(s, a).responses[|s.responses|].reader == r
  {
    hide Data, Appended;
  }
}
