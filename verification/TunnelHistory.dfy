/** The tunnel's state as a function of the run: what came in, which flags are set, and that bytes arrive. */
module TunnelHistory {
  import opened Text
  import opened Base64
  import opened TunnelQueue
  import opened Tunnel

  /** All bytes that write requests brought, in order. */
  function Written(actions: seq<Action>): seq<Byte> {
    if actions == [] then []
    else (if actions[0].Write? then actions[0].data else []) + Written(actions[1..])
  }

  /** All bytes that the target sent. */
  function SentByTarget(actions: seq<Action>): seq<Byte> {
    if actions == [] then []
    else (if actions[0].WorkerRead? then actions[0].data else []) + SentByTarget(actions[1..])
  }

  lemma StepHistory(s: State, a: Action)
    requires Enabled(s, a)
    ensures var t := Step(s, a);
      && t.accepted == s.accepted + (if a.Write? then a.data else [])
      && t.fromTarget == s.fromTarget + (if a.WorkerRead? then a.data else [])
      && (t.error <==> s.error || a == WorkerFail)
      && (t.stopped <==> s.stopped || a == WorkerFail || a == WorkerStop)
      && (t.closed <==> s.closed || a == WorkerMarkClosed)
  {
    hide Data, Appended;
    assert s.accepted + [] == s.accepted && s.fromTarget + [] == s.fromTarget;
  }

  lemma {:induction false} RunHistory(s: State, actions: seq<Action>, t: State)
    requires Run(s, actions, t)
    ensures t.accepted == s.accepted + Written(actions) && t.fromTarget == s.fromTarget + SentByTarget(actions)
    ensures t.error <==> s.error || WorkerFail in actions
    ensures t.stopped <==> s.stopped || WorkerFail in actions || WorkerStop in actions
    ensures t.closed <==> s.closed || WorkerMarkClosed in actions
    decreases |actions|
  {
    hide Step, Enabled;
    if actions != [] {
      var a, rest := actions[0], actions[1..];
      StepHistory(s, a);
      RunHistory(Step(s, a), rest, t);
      assert actions == [a] + rest;
      assert forall b :: b in actions <==> b == a || b in rest;
    }
  }

  /** Over every run, end to end: the bytes written by the client are those that reached the target, then those in
      the worker's hands, then those queued; and the flags say exactly what the worker did. */
  lemma ClientToTarget(actions: seq<Action>, s: State)
    requires Run(INIT, actions, s)
    ensures Written(actions) == s.toTarget + s.drained + Data(s.inQueue)
    ensures SentByTarget(actions) == Flat(s.segments) + Data(s.outQueue) + s.fetched
    ensures (s.error <==> WorkerFail in actions) && (s.closed <==> WorkerMarkClosed in actions)
    ensures s.stopped <==> WorkerFail in actions || WorkerStop in actions
  {
    hide Data, EachOnce, Run;
    StreamsConserved(actions, s);
    RunHistory(INIT, actions, s);
    assert [] + Written(actions) == Written(actions) && [] + SentByTarget(actions) == SentByTarget(actions);
  }

  /** Nothing stands still: a worker in its loop drains what is queued and can write all of it, also piece by
      piece; then everything accepted has reached the target. */
  lemma QueuedReachesTarget(s: State, n: nat)
    requires Inv(s) && !s.stopped && s.drained == [] && s.fetched == [] && 0 < n < |Data(s.inQueue)|
    ensures Enabled(s, WorkerDrain)
    ensures var u := Step(s, WorkerDrain);
      && u.inQueue == "" && Enabled(u, WorkerWrite(n)) && Enabled(u, WorkerWrite(|Data(s.inQueue)|))
      && Step(u, WorkerWrite(|Data(s.inQueue)|)).toTarget == s.accepted
      && var v := Step(u, WorkerWrite(n));
      && v.toTarget == s.toTarget + Data(s.inQueue)[..n] && Enabled(v, WorkerWrite(|v.drained|))
      && Step(v, WorkerWrite(|v.drained|)).toTarget == s.accepted
  {
    hide Data, WholeLines, OutConserved, EachOnce;
    var data := Data(s.inQueue);
    assert s.accepted == s.toTarget + [] + data;
    assert data[..|data|] == data && data[..n] + data[n..] == data && data[n..][..|data| - n] == data[n..];
  }

  /** What the target sent is appended, and a read request that starts then drains it and answers with it. */
  lemma SentReachesClient(s: State, data: seq<Byte>, r: nat)
    requires Inv(s) && Enabled(s, WorkerRead(data)) && r !in s.readers
    ensures Enabled(Step(s, WorkerRead(data)), WorkerAppend)
    ensures var u := Step(Step(s, WorkerRead(data)), WorkerAppend); Enabled(u, ReadStart(r))
    ensures var v := Step(Step(Step(s, WorkerRead(data)), WorkerAppend), ReadStart(r));
      Enabled(v, ReadDrain(r))
    ensures var w := Step(Step(Step(Step(s, WorkerRead(data)), WorkerAppend), ReadStart(r)), ReadDrain(r));
      && w.outQueue == "" && w.segments == s.segments + [Data(s.outQueue) + data]
      && Enabled(w, ReadSend(r)) && Step(w, ReadSend(r)).sent == s.sent + [|s.segments|]
  {
    hide Data, Appended, WholeLines, InConserved, EachOnce;
    AppendedData(s.outQueue, data);
  }
}
