/** The sessions of the test provider adapter, `ch3/apps/server/integration/TestProviderAdapter.integration.ts`. */
module ProviderSessions {
  import opened Outcomes
  import opened Text

  /** A fixture event: its type, the turn id if it has one, and the two places a text delta may be. */
  datatype RawEvent = RawEvent(name: string, turnId: Option<string>, delta: Option<string>,
      payloadDelta: Option<string>)

  datatype RuntimeEvent = RuntimeEvent(name: string, threadId: string, turnId: Option<string>, delta: Option<string>)

  type Response = seq<RawEvent>

  datatype Item = UserMessage(text: string) | AgentMessage(text: string)

  datatype Turn = Turn(id: string, items: seq<Item>)

  datatype Session = Session(turns: seq<Turn>, turnCount: nat, queued: seq<Response>, rollbackCalls: seq<nat>)

  datatype Adapter = Adapter(sessions: map<string, Session>, forNext: seq<Response>, events: seq<RuntimeEvent>,
      startCount: nat)

  const NO_SESSIONS := Adapter(map[], [], [], 0)

  datatype Failure = WrongProvider | NoSession | NoResponse | BadTurnCount

  datatype Operation =
    | Start(threadId: string, providerMatches: bool)
    | Send(threadId: string, input: string)
    | Rollback(threadId: string, count: int)
    | Queue(threadId: string, response: Response)
    | QueueForNext(response: Response)
    | Stop(threadId: string)
    | StopAll

  // ----- Fixture events -----

  const COMPLETED := "turn.completed"

  function RuntimeName(name: string): string {
    if name == "message.delta" then "content.delta"
    else if name == "message.completed" || name == "tool.completed" then "item.completed"
    else if name == "tool.started" then "item.started"
    else if name == "approval.requested" then "request.opened"
    else if name == "approval.resolved" then "request.resolved"
    else name
  }

  function RuntimeDelta(raw: RawEvent): Option<string> {
    if raw.name == "message.delta" then if raw.delta.Some? then raw.delta else Some("")
    else if RuntimeName(raw.name) != raw.name then None
    else raw.payloadDelta
  }

  /** A fixture event as emitted: normalised and stamped with the thread and, if it names a turn, this turn. */
  function Stamped(raw: RawEvent, threadId: string, turnId: string): RuntimeEvent {
    RuntimeEvent(RuntimeName(raw.name), threadId, if raw.turnId.Some? then Some(turnId) else None, RuntimeDelta(raw))
  }

  function AllStamped(response: Response, threadId: string, turnId: string): (events: seq<RuntimeEvent>)
    ensures |events| == |response|
  {
    seq(|response|, i requires 0 <= i < |response| => Stamped(response[i], threadId, turnId))
  }

  predicate IsCompletion(e: RuntimeEvent) {
    e.name == COMPLETED
  }

  /** The completion events, or the others, in order. */
  function Select(events: seq<RuntimeEvent>, completions: bool): seq<RuntimeEvent> {
    if events == [] then []
    else
      var last := events[|events| - 1];
      Select(events[..|events| - 1], completions) + if IsCompletion(last) == completions then [last] else []
  }

  function Deltas(events: seq<RuntimeEvent>): seq<string> {
    if events == [] then []
    else
      var last := events[|events| - 1];
      Deltas(events[..|events| - 1]) + if last.name == "content.delta" && last.delta.Some?
          then [last.delta.value] else []
  }

  function OwnCompletion(threadId: string, turnId: string): RuntimeEvent {
    RuntimeEvent(COMPLETED, threadId, Some(turnId), None)
  }

  /** What a turn emits: everything but completions first, then the completions or one of its own. */
  function TurnEvents(response: Response, threadId: string, turnId: string): seq<RuntimeEvent> {
    var all := AllStamped(response, threadId, turnId);
    Select(all, false) + if Select(all, true) == [] then [OwnCompletion(threadId, turnId)] else Select(all, true)
  }

  function TurnId(number: nat): string {
    "turn-" + NatText(number)
  }

  function TurnFor(number: nat, threadId: string, input: string, response: Response): Turn {
    var text := Join(Deltas(AllStamped(response, threadId, TurnId(number))), "");
    Turn(TurnId(number), if text != "" then [UserMessage(input), AgentMessage(text)] else [UserMessage(input)])
  }

  // ----- Sessions -----

  /** A send uses up one number in any case, and one queued response if there is one. */
  function SendIn(s: Session, threadId: string, input: string): Session {
    if s.queued == [] then s.(turnCount := s.turnCount + 1)
    else
      Session(s.turns + [TurnFor(s.turnCount + 1, threadId, input, s.queued[0])],
              s.turnCount + 1, s.queued[1..], s.rollbackCalls)
  }

  function RollbackIn(s: Session, count: nat): Session
    requires count <= |s.turns|
  {
    var turns := s.turns[..|s.turns| - count];
    Session(turns, |turns|, s.queued, s.rollbackCalls + [count])
  }

  function Apply(a: Adapter, op: Operation): (Adapter, Option<Failure>) {
    match op
    case Start(threadId, providerMatches) =>
      if !providerMatches then (a, Some(WrongProvider))
      else (Adapter(a.sessions[threadId := Session([], 0, a.forNext, [])], [], a.events, a.startCount + 1), None)
    case Send(threadId, input) =>
      if threadId !in a.sessions then (a, Some(NoSession))
      else
        var s := a.sessions[threadId];
        var next := a.(sessions := a.sessions[threadId := SendIn(s, threadId, input)]);
        if s.queued == [] then (next, Some(NoResponse))
        else (next.(events := a.events + TurnEvents(s.queued[0], threadId, TurnId(s.turnCount + 1))), None)
    case Rollback(threadId, count) =>
      if threadId !in a.sessions then (a, Some(NoSession))
      else if count < 0 || count > |a.sessions[threadId].turns| then (a, Some(BadTurnCount))
      else (a.(sessions := a.sessions[threadId := RollbackIn(a.sessions[threadId], count)]), None)
    case Queue(threadId, response) =>
      if threadId !in a.sessions then (a, Some(NoSession))
      else
        var s := a.sessions[threadId];
        (a.(sessions := a.sessions[threadId := s.(queued := s.queued + [response])]), None)
    case QueueForNext(response) => (a.(forNext := a.forNext + [response]), None)
    case Stop(threadId) => (a.(sessions := a.sessions - {threadId}), None)
    case StopAll => (a.(sessions := map[]), None)
  }

  // ----- The adapter -----

  class TestProviderAdapter {
    var sessions: map<string, Session>
    var queuedForNext: seq<Response>
    var runtimeEvents: seq<RuntimeEvent>
    var sessionCount: nat

    function State(): Adapter
      reads this
    {
      Adapter(sessions, queuedForNext, runtimeEvents, sessionCount)
    }

    constructor ()
      ensures State() == NO_SESSIONS
    {
      sessions, queuedForNext, runtimeEvents, sessionCount := map[], [], [], 0;
    }

    method StartSession(threadId: string, providerMatches: bool) returns (failure: Option<Failure>)
      modifies this
      ensures (State(), failure) == Apply(old(State()), Start(threadId, providerMatches))
    {
      if !providerMatches {
        return Some(WrongProvider);
      }
      sessionCount := sessionCount + 1;
      sessions := sessions[threadId := Session([], 0, queuedForNext, [])];
      queuedForNext := [];
      return None;
    }

    method Emit(event: RuntimeEvent)
      modifies this`runtimeEvents
      ensures runtimeEvents == old(runtimeEvents) + [event]
    {
      runtimeEvents := runtimeEvents + [event];
    }

    /** The event loop of a turn: completions are held back, everything else goes out at once. */
    method EmitTurn(response: Response, threadId: string, turnId: string)
      returns (assistantDeltas: seq<string>, deferred: seq<RuntimeEvent>)
      modifies this`runtimeEvents
      ensures runtimeEvents == old(runtimeEvents) + Select(AllStamped(response, threadId, turnId), false)
      ensures deferred == Select(AllStamped(response, threadId, turnId), true)
      ensures assistantDeltas == Deltas(AllStamped(response, threadId, turnId))
    {
      assistantDeltas, deferred := [], [];
      ghost var was := runtimeEvents;
      ghost var all := AllStamped(response, threadId, turnId);
      var i := 0;
      assert was == was + [];
      while i < |response|
        invariant 0 <= i <= |response|
        invariant runtimeEvents == was + Select(all[..i], false)
        invariant deferred == Select(all[..i], true)
        invariant assistantDeltas == Deltas(all[..i])
      {
        var runtimeEvent := Stamped(response[i], threadId, turnId);
        EventStep(all, i);
        hide Select, Deltas, Stamped;
        if runtimeEvent.name == "content.delta" && runtimeEvent.delta.Some? {
          assistantDeltas := assistantDeltas + [runtimeEvent.delta.value];
        }
        if runtimeEvent.name == COMPLETED {
          deferred := deferred + [runtimeEvent];
        } else {
          Emit(runtimeEvent);
        }
        i := i + 1;
      }
      assert all[..i] == all;
    }

    method EmitAll(events: seq<RuntimeEvent>)
      modifies this`runtimeEvents
      ensures runtimeEvents == old(runtimeEvents) + events
    {
      var i := 0;
      while i < |events|
        invariant 0 <= i <= |events|
        invariant runtimeEvents == old(runtimeEvents) + events[..i]
      {
        Emit(events[i]);
        i := i + 1;
      }
    }

    method SendTurn(threadId: string, input: string) returns (r: Result<string, Failure>)
      modifies this
      ensures (State(), if r.Err? then Some(r.error) else None) == Apply(old(State()), Send(threadId, input))
      ensures r.Ok? ==> r.value == TurnId(old(sessions)[threadId].turnCount + 1)
    {
      hide AllStamped, Select, Deltas, NatText, Join;
      if threadId !in sessions {
        return Err(NoSession);
      }
      var state := sessions[threadId];
      var turnCount := state.turnCount + 1;
      sessions := sessions[threadId := state.(turnCount := turnCount)];
      var turnId := TurnId(turnCount);
      if state.queued == [] {
        return Err(NoResponse);
      }
      var response := state.queued[0];
      var assistantDeltas, deferred := EmitTurn(response, threadId, turnId);
      var assistantText := Join(assistantDeltas, "");
      var items := if |assistantText| > 0
          then [UserMessage(input), AgentMessage(assistantText)] else [UserMessage(input)];
      var turns := state.turns + [Turn(turnId, items)];
      sessions := sessions[threadId := Session(turns, turnCount, state.queued[1..], state.rollbackCalls)];
      if |deferred| == 0 {
        Emit(OwnCompletion(threadId, turnId));
      } else {
        EmitAll(deferred);
      }
      assert runtimeEvents == old(runtimeEvents) + TurnEvents(response, threadId, turnId);
      assert sessions == old(sessions)[threadId := SendIn(state, threadId, input)];
      return Ok(turnId);
    }

    method RollbackThread(threadId: string, count: int) returns (r: Result<seq<Turn>, Failure>)
      modifies this`sessions
      ensures (State(), if r.Err? then Some(r.error) else None) == Apply(old(State()), Rollback(threadId, count))
      ensures r.Ok? ==> r.value == sessions[threadId].turns
    {
      if threadId !in sessions {
        return Err(NoSession);
      }
      var state := sessions[threadId];
      if count < 0 || count > |state.turns| {
        return Err(BadTurnCount);
      }
      var turns := state.turns[..|state.turns| - count];
      sessions := sessions[threadId := Session(turns, |turns|, state.queued, state.rollbackCalls + [count])];
      return Ok(turns);
    }

    method QueueTurnResponse(threadId: string, response: Response) returns (failure: Option<Failure>)
      modifies this`sessions
      ensures (State(), failure) == Apply(old(State()), Queue(threadId, response))
    {
      if threadId !in sessions {
        return Some(NoSession);
      }
      var state := sessions[threadId];
      sessions := sessions[threadId := state.(queued := state.queued + [response])];
      return None;
    }

    method QueueTurnResponseForNextSession(response: Response)
      modifies this`queuedForNext
      ensures State() == Apply(old(State()), QueueForNext(response)).0
    {
      queuedForNext := queuedForNext + [response];
    }

    method StopSession(threadId: string)
      modifies this`sessions
      ensures State() == Apply(old(State()), Stop(threadId)).0
    {
      sessions := sessions - {threadId};
    }

    method StopEverySession()
      modifies this`sessions
      ensures State() == Apply(old(State()), StopAll).0
    {
      sessions := map[];
    }
  }

  lemma {:induction false} EventStep(all: seq<RuntimeEvent>, i: nat)
    requires i < |all|
    ensures var e := all[i];
            && Select(all[..i + 1], true) == Select(all[..i], true) + (if IsCompletion(e) then [e] else [])
            && Select(all[..i + 1], false) == Select(all[..i], false) + (if IsCompletion(e) then [] else [e])
            && Deltas(all[..i + 1]) ==
               Deltas(all[..i]) + (if e.name == "content.delta" && e.delta.Some? then [e.delta.value] else [])
  {
    assert all[..i + 1][..i] == all[..i];
  }
}
