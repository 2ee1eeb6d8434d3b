/**
 What a turn records and emits, said of the fixture events themselves, and what the
 sessions of the test provider adapter owe to the operations of a run.
 */
module ProviderTurns {
  import opened Outcomes
  import opened Sequences
  import opened Text
  import opened ProviderSessions
  import opened ProviderSessionLaws

  // ----- One event -----

  /** Fixture events that are emitted under another name, with a payload of their own. */
  const RENAMED: map<string, string> := map[
    "message.delta" := "content.delta",
    "message.completed" := "item.completed",
    "tool.started" := "item.started",
    "tool.completed" := "item.completed",
    "approval.requested" := "request.opened",
    "approval.resolved" := "request.resolved"]

  /** The emitted event: renamed, in the thread, and in this turn if the fixture names any turn. */
  predicate IsEmission(e: RuntimeEvent, raw: RawEvent, threadId: string, turnId: string) {
    && e.name == (if raw.name in RENAMED then RENAMED[raw.name] else raw.name)
    && e.threadId == threadId
    && (e.turnId.Some? <==> raw.turnId.Some?) && (e.turnId.Some? ==> e.turnId.value == turnId)
    && (raw.name == "message.delta" ==> e.delta == Some(if raw.delta.Some? then raw.delta.value else ""))
    && (raw.name != "message.delta" && raw.name in RENAMED ==> e.delta == None)
    && (raw.name !in RENAMED ==> e.delta == raw.payloadDelta)
  }

  lemma {:induction false} StampedIsEmission(e: RuntimeEvent, raw: RawEvent, threadId: string, turnId: string)
    ensures Stamped(raw, threadId, turnId) == e <==> IsEmission(e, raw, threadId, turnId)
    ensures IsCompletion(Stamped(raw, threadId, turnId)) <==> raw.name == "turn.completed"
  {
  }

  // ----- The text of a turn -----

  /** The text of the two kinds of delta events, one after the other. */
  function SpokenText(response: Response): string {
    if response == [] then ""
    else
      var last := response[|response| - 1];
      SpokenText(response[..|response| - 1]) +
      if last.name == "message.delta" && last.delta.Some? then last.delta.value
      else if last.name == "content.delta" && last.payloadDelta.Some? then last.payloadDelta.value
      else ""
  }

  lemma {:induction false} JoinSnoc(parts: seq<string>, last: string)
    ensures Join(parts + [last], "") == Join(parts, "") + last
  {
    if parts == [] {
      assert parts + [last] == [last];
    } else {
      JoinSnoc(parts[1..], last);
      assert (parts + [last])[1..] == parts[1..] + [last];
      JoinFront(parts);
      JoinFront(parts + [last]);
    }
  }

  lemma {:induction false} JoinFront(parts: seq<string>)
    requires parts != []
    ensures Join(parts, "") == parts[0] + Join(parts[1..], "")
  {
    if |parts| == 1 {
      assert parts[0] + [] == parts[0];
    }
  }

  lemma {:induction false} StampedFront(response: Response, threadId: string, turnId: string)
    requires response != []
    ensures var all, n := AllStamped(response, threadId, turnId), |response| - 1;
            all[..n] == AllStamped(response[..n], threadId, turnId) && all[n] == Stamped(response[n], threadId, turnId)
  {
    hide Stamped;
  }

  lemma {:induction false} DeltasAreSpoken(response: Response, threadId: string, turnId: string)
    ensures Join(Deltas(AllStamped(response, threadId, turnId)), "") == SpokenText(response)
    decreases |response|
  {
    hide AllStamped, Stamped, Join;
    if response == [] {
      NothingSpoken(threadId, turnId);
    } else {
      var n := |response| - 1;
      var all, before := AllStamped(response, threadId, turnId), Deltas(AllStamped(response[..n], threadId, turnId));
      DeltasAreSpoken(response[..n], threadId, turnId);
      StampedFront(response, threadId, turnId);
      StampedIsEmission(all[n], response[n], threadId, turnId);
      if all[n].name == "content.delta" && all[n].delta.Some? {
        JoinSnoc(before, all[n].delta.value);
      } else {
        assert before + [] == before;
      }
      OnlyDeltasSpeak(all[n], response[n], threadId, turnId);
    }
  }

  lemma {:induction false} NothingSpoken(threadId: string, turnId: string)
    ensures Join(Deltas(AllStamped([], threadId, turnId)), "") == ""
  {
  }

  lemma {:induction false} OnlyDeltasSpeak(e: RuntimeEvent, raw: RawEvent, threadId: string, turnId: string)
    requires IsEmission(e, raw, threadId, turnId)
    ensures (if e.name == "content.delta" && e.delta.Some? then e.delta.value else "") ==
            if raw.name == "message.delta" && raw.delta.Some? then raw.delta.value
            else if raw.name == "content.delta" && raw.payloadDelta.Some? then raw.payloadDelta.value
            else ""
  {
  }

  /** The user's input, and the spoken text behind it if there is any. */
  predicate IsTurnOf(turn: Turn, number: nat, input: string, response: Response) {
    && turn.id == "turn-" + NatText(number)
    && 1 <= |turn.items| <= 2 && turn.items[0] == UserMessage(input)
    && (|turn.items| == 2 <==> SpokenText(response) != "")
    && (|turn.items| == 2 ==> turn.items[1] == AgentMessage(SpokenText(response)))
  }

  /** An answered send uses the first response and records, behind the other turns, its turn. */
  lemma {:induction false} SendRecords(s: Session, threadId: string, input: string)
    requires s.queued != []
    ensures var t := SendIn(s, threadId, input);
            && t.turnCount == s.turnCount + 1 && s.queued == [s.queued[0]] + t.queued
            && |t.turns| == |s.turns| + 1 && s.turns == t.turns[..|s.turns|]
            && IsTurnOf(t.turns[|s.turns|], t.turnCount, input, s.queued[0])
  {
    hide AllStamped, Deltas, NatText, Join;
    DeltasAreSpoken(s.queued[0], threadId, TurnId(s.turnCount + 1));
    hide SpokenText;
  }

  // ----- What a turn emits -----

  predicate Completes(raw: RawEvent) {
    raw.name == "turn.completed"
  }

  predicate Continues(raw: RawEvent) {
    raw.name != "turn.completed"
  }

  /** The events emitted for the fixtures at these positions, in order. */
  predicate AreEmissions(response: Response, at: seq<nat>, sent: seq<RuntimeEvent>, threadId: string, turnId: string)
    requires forall j :: 0 <= j < |at| ==> at[j] < |response|
  {
    |sent| == |at| && forall j :: 0 <= j < |at| ==> IsEmission(sent[j], response[at[j]], threadId, turnId)
  }

  /** All but completions in order, and then the completions, or one of the turn's own if there is none. */
  predicate IsEmitted(response: Response, sent: seq<RuntimeEvent>, threadId: string, turnId: string) {
    var others, ends := Positions(response, |response|, Continues), Positions(response, |response|, Completes);
    && |sent| == |others| + (if ends == [] then 1 else |ends|)
    && AreEmissions(response, others, sent[..|others|], threadId, turnId)
    && (ends == [] ==> sent[|others|] == RuntimeEvent("turn.completed", threadId, Some(turnId), None))
    && (ends != [] ==> AreEmissions(response, ends, sent[|others|..], threadId, turnId))
  }

  lemma {:induction false} SelectPrefix(response: Response, n: nat, threadId: string, turnId: string)
    requires n <= |response|
    ensures var all := AllStamped(response, threadId, turnId);
            && AreEmissions(response, Positions(response, n, Continues), Select(all[..n], false), threadId, turnId)
            && AreEmissions(response, Positions(response, n, Completes), Select(all[..n], true), threadId, turnId)
  {
    hide Select, IsEmission, Stamped, IsCompletion, AreEmissions, Deltas, AllStamped, Positions;
    if n == 0 {
      NothingEmitted(response, threadId, turnId);
    } else {
      SelectPrefix(response, n - 1, threadId, turnId);
      SelectStep(response, n - 1, threadId, turnId);
    }
  }

  lemma {:induction false} SelectStep(response: Response, i: nat, threadId: string, turnId: string)
    requires i < |response|
    requires var all := AllStamped(response, threadId, turnId);
             && AreEmissions(response, Positions(response, i, Continues), Select(all[..i], false), threadId, turnId)
             && AreEmissions(response, Positions(response, i, Completes), Select(all[..i], true), threadId, turnId)
    ensures var all, n := AllStamped(response, threadId, turnId), i + 1;
            && AreEmissions(response, Positions(response, n, Continues), Select(all[..n], false), threadId, turnId)
            && AreEmissions(response, Positions(response, n, Completes), Select(all[..n], true), threadId, turnId)
  {
    var all := AllStamped(response, threadId, turnId);
    assert all[i] == Stamped(response[i], threadId, turnId);
    hide Select, IsEmission, Stamped, IsCompletion, AreEmissions, Deltas, AllStamped, Positions;
    EventStep(all, i);
    StampedIsEmission(all[i], response[i], threadId, turnId);
    PositionsStep(response, i, Continues);
    PositionsStep(response, i, Completes);
    var others, ends := Positions(response, i, Continues), Positions(response, i, Completes);
    if Completes(response[i]) {
      OneMoreEmission(response, ends, Select(all[..i], true), i, all[i], threadId, turnId);
      assert Select(all[..i], false) + [] == Select(all[..i], false) && others + [] == others;
    } else {
      OneMoreEmission(response, others, Select(all[..i], false), i, all[i], threadId, turnId);
      assert Select(all[..i], true) + [] == Select(all[..i], true) && ends + [] == ends;
    }
  }

  lemma {:induction false} NothingEmitted(response: Response, threadId: string, turnId: string)
    ensures AreEmissions(response, [], [], threadId, turnId)
    ensures var all := AllStamped(response, threadId, turnId);
            Select(all[..0], false) == [] && Select(all[..0], true) == []
    ensures Positions(response, 0, Continues) == [] && Positions(response, 0, Completes) == []
  {
  }

  lemma {:induction false} OneMoreEmission(response: Response, at: seq<nat>, sent: seq<RuntimeEvent>, i: nat,
      e: RuntimeEvent, threadId: string, turnId: string)
    requires (forall j :: 0 <= j < |at| ==> at[j] < |response|) && i < |response|
    requires AreEmissions(response, at, sent, threadId, turnId) && IsEmission(e, response[i], threadId, turnId)
    ensures AreEmissions(response, at + [i], sent + [e], threadId, turnId)
  {
    hide IsEmission;
  }

  /** What a turn emits, event by event. */
  lemma {:induction false} TurnEmits(response: Response, threadId: string, turnId: string)
    ensures IsEmitted(response, TurnEvents(response, threadId, turnId), threadId, turnId)
  {
    var all, sent := AllStamped(response, threadId, turnId), TurnEvents(response, threadId, turnId);
    SelectPrefix(response, |response|, threadId, turnId);
    assert all[..|response|] == all;
    hide Select, AllStamped, IsEmission, Positions;
    var front := Select(all, false);
    assert sent[..|front|] == front;
    assert sent[|front|..] == if Select(all, true) == [] then [OwnCompletion(threadId, turnId)] else Select(all, true);
  }

  // ----- Failures -----

  /** When an operation fails. */
  predicate Fails(a: Adapter, op: Operation, f: Failure) {
    match f
    case WrongProvider => op.Start? && !op.providerMatches
    case NoSession => (op.Send? || op.Rollback? || op.Queue?) && op.threadId !in a.sessions
    case NoResponse => op.Send? && op.threadId in a.sessions && a.sessions[op.threadId].queued == []
    case BadTurnCount =>
      op.Rollback? && op.threadId in a.sessions && !(0 <= op.count <= |a.sessions[op.threadId].turns|)
  }

  /** An operation fails for exactly that reason; only a send without a response leaves a trace, in the count. */
  lemma {:induction false} FailureMeaning(a: Adapter, op: Operation, f: Failure)
    ensures Apply(a, op).1 == Some(f) <==> Fails(a, op, f)
    ensures Fails(a, op, f) && !f.NoResponse? ==> Apply(a, op).0 == a
    ensures Fails(a, op, NoResponse) ==>
              Apply(a, op).0 == a.(sessions := a.sessions[op.threadId :=
                a.sessions[op.threadId].(turnCount := a.sessions[op.threadId].turnCount + 1)])
  {
    hide TurnEvents, TurnId, TurnFor, RollbackIn;
  }

  // ----- Which sessions exist, and what they hold -----

  predicate IsStart(op: Operation) {
    op.Start? && op.providerMatches
  }

  /** Operations that begin or end a thread's session. */
  function Decides(threadId: string): Operation -> bool {
    (op: Operation) => (IsStart(op) && op.threadId == threadId) || op == Stop(threadId) || op == StopAll
  }

  /** The last operation of the run that begins or ends the thread's session begins it. */
  predicate IsAlive(ops: seq<Operation>, threadId: string) {
    var last := LastIn(ops, 0, |ops|, Decides(threadId));
    last.Some? && ops[last.value].Start?
  }

  lemma {:induction false} LastInPrefix<T>(s: seq<T>, to: nat, wanted: T -> bool)
    requires to <= |s|
    ensures LastIn(s[..to], 0, to, wanted) == LastIn(s, 0, to, wanted)
  {
    LastInWithin(s, to, to, wanted);
  }

  lemma {:induction false} LastInWithin<T>(s: seq<T>, n: nat, to: nat, wanted: T -> bool)
    requires to <= n <= |s|
    ensures LastIn(s[..n], 0, to, wanted) == LastIn(s, 0, to, wanted)
  {
    if to > 0 {
      LastInWithin(s, n, to - 1, wanted);
    }
  }

  lemma {:induction false} StepLives(a: Adapter, op: Operation, threadId: string)
    ensures var b := Apply(a, op).0;
            && (threadId in b.sessions <==> if Decides(threadId)(op) then op.Start? else threadId in a.sessions)
            && b.startCount == a.startCount + (if IsStart(op) then 1 else 0)
  {
    hide TurnEvents, SendIn, RollbackIn;
  }

  /** On every run a session exists exactly while its last start is not followed by a stop, and starts are counted. */
  lemma {:induction false} SessionsOnRuns(ops: seq<Operation>, threadId: string)
    ensures threadId in Run(ops).sessions <==> IsAlive(ops, threadId)
    ensures Run(ops).startCount == |Positions(ops, |ops|, IsStart)|
    decreases |ops|
  {
    hide Apply, Decides, IsStart;
    if ops != [] {
      var n := |ops| - 1;
      SessionsOnRuns(ops[..n], threadId);
      StepLives(Run(ops[..n]), ops[n], threadId);
      LastInPrefix(ops, n, Decides(threadId));
      PositionsPrefix(ops, n, n, IsStart);
    }
  }

  function QueueAll(threadId: string, responses: seq<Response>): (ops: seq<Operation>)
    ensures |ops| == |responses| && forall i :: 0 <= i < |ops| ==> ops[i] == Queue(threadId, responses[i])
  {
    seq(|responses|, i requires 0 <= i < |responses| => Queue(threadId, responses[i]))
  }

  /** Queued responses wait behind those already queued, in the order they came. */
  lemma {:induction false} QueuedInOrder(ops: seq<Operation>, threadId: string, responses: seq<Response>)
    requires threadId in Run(ops).sessions
    ensures var s, all := Run(ops).sessions[threadId], ops + QueueAll(threadId, responses);
            threadId in Run(all).sessions && Run(all).sessions[threadId] == s.(queued := s.queued + responses)
    decreases |responses|
  {
    hide Apply, Run;
    if responses == [] {
      assert ops + QueueAll(threadId, responses) == ops;
      assert Run(ops).sessions[threadId].queued + [] == Run(ops).sessions[threadId].queued;
    } else {
      var front, last := responses[..|responses| - 1], responses[|responses| - 1];
      var before := ops + QueueAll(threadId, front);
      QueuedInOrder(ops, threadId, front);
      assert ops + QueueAll(threadId, responses) == before + [Queue(threadId, last)];
      RefusedAppend(before, Queue(threadId, last), 0);
      QueueStep(Run(before), threadId, last);
      assert Run(ops).sessions[threadId].queued + front + [last] == Run(ops).sessions[threadId].queued + responses by {
        assert front + [last] == responses;
      }
    }
  }

  lemma {:induction false} QueueStep(a: Adapter, threadId: string, response: Response)
    requires threadId in a.sessions
    ensures var s, b := a.sessions[threadId], Apply(a, Queue(threadId, response)).0;
            threadId in b.sessions && b.sessions[threadId] == s.(queued := s.queued + [response])
  {
  }
}
