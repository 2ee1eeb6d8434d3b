/**
 The protocol of `JsonRpcChild` in
 `ch3/apps/server/scripts/cursor-acp-model-mismatch-probe.ts` as a state machine:
 one step for each request call, stdout line, timer, exit and error, in any
 interleaving.
 */
module JsonRpcProtocol {
  import opened Outcomes
  import opened Sequences

  // ----- Messages -----

  /** An id as parsed from JSON. Only numbers and strings can equal a key of the table. */
  datatype Id = Number(n: int) | Text(s: string) | OtherJson

  /** Result and error payloads are kept as JSON text. */
  datatype Message = Message(id: Option<Id>, name: Option<string>, result: Option<string>, error: Option<string>)

  datatype Line = Unusable | Json(message: Message)

  /** `!message.method`. */
  predicate NoMethod(m: Message) {
    m.name.None? || m.name.value == ""
  }

  predicate IsReply(m: Message) {
    m.id.Some? && NoMethod(m)
  }

  datatype Outgoing =
    | Call(id: nat, name: string)
    | Notification(name: string)
    | Allow(to: Id)
    | Unhandled(to: Id)

  // ----- State -----

  datatype Pending = Pending(id: nat, name: string)

  /** How the promise of a request ended. */
  datatype Outcome =
    | Resolved(result: Option<string>)
    | RpcFailed(error: string)
    | TimedOut
    | ProcessExited
    | ProcessError

  datatype Settlement = Settlement(id: nat, name: string, outcome: Outcome)

  /**
   `pending` lists the table's entries in insertion order, `timers` the ids whose
   timer is running, `settled` every resolve or reject call made on a response
   promise, `refused` the requests whose write threw, `written` the lines sent.
   */
  datatype State = State(
    nextId: nat,
    closed: bool,
    pending: seq<Pending>,
    timers: set<nat>,
    settled: seq<Settlement>,
    refused: seq<nat>,
    written: seq<Outgoing>)

  const INITIAL_STATE := State(1, false, [], {}, [], [], [])

  datatype Event =
    | Request(name: string)
    | Notify(name: string)
    | StdoutLine(line: Line)
    | Timer(id: nat)
    | Exit
    | Error

  // ----- Steps -----

  function IndexOf(pending: seq<Pending>, id: nat): (r: Option<nat>)
    ensures r.Some? ==> r.value < |pending| && pending[r.value].id == id
    ensures r.None? ==> forall i :: 0 <= i < |pending| ==> pending[i].id != id
  {
    FindIndex(pending, (p: Pending) => p.id == id)
  }

  function Without(pending: seq<Pending>, i: nat): seq<Pending>
    requires i < |pending|
  {
    pending[..i] + pending[i + 1..]
  }

  /** `pending.get(id)`: only a number can be a key. */
  function Lookup(pending: seq<Pending>, id: Id): (r: Option<nat>)
    ensures r.Some? ==> r.value < |pending|
  {
    if id.Number? && id.n >= 0 then IndexOf(pending, id.n) else None
  }

  function Write(s: State, message: Outgoing): State {
    if s.closed then s else s.(written := s.written + [message])
  }

  function ReplyOutcome(m: Message): Outcome {
    match m.error
    case Some(e) => RpcFailed(e)
    case None => Resolved(m.result)
  }

  /** Deletes the entry, clears its timer and settles its promise. */
  function SettleAt(s: State, i: nat, outcome: Outcome): State
    requires i < |s.pending|
  {
    var p := s.pending[i];
    s.(pending := Without(s.pending, i), timers := s.timers - {p.id},
       settled := s.settled + [Settlement(p.id, p.name, outcome)])
  }

  function StepLine(s: State, m: Message): State {
    if IsReply(m) then
      match Lookup(s.pending, m.id.value)
      case None => s
      case Some(i) => SettleAt(s, i, ReplyOutcome(m))
    else if m.id.None? then s
    else if m.name == Some("session/request_permission") then Write(s, Allow(m.id.value))
    else if m.id.value != Text("") then Write(s, Unhandled(m.id.value))
    else s
  }

  function SettlementsOf(pending: seq<Pending>, outcome: Outcome): (r: seq<Settlement>)
    ensures |r| == |pending|
    ensures forall i :: 0 <= i < |r| ==> r[i] == Settlement(pending[i].id, pending[i].name, outcome)
  {
    seq(|pending|, i requires 0 <= i < |pending| => Settlement(pending[i].id, pending[i].name, outcome))
  }

  function IdsOf(pending: seq<Pending>): set<nat> {
    set i | 0 <= i < |pending| :: pending[i].id
  }

  lemma {:induction false} IdsAppend(pending: seq<Pending>, p: Pending)
    ensures IdsOf(pending + [p]) == IdsOf(pending) + {p.id}
  {
    var all := pending + [p];
    assert all[|pending|] == p;
    forall id | id in IdsOf(pending)
      ensures id in IdsOf(all)
    {
      var k :| 0 <= k < |pending| && pending[k].id == id;
      assert all[k].id == id;
    }
  }

  function Close(s: State, outcome: Outcome): State {
    s.(closed := true, pending := [], timers := s.timers - IdsOf(s.pending),
       settled := s.settled + SettlementsOf(s.pending, outcome))
  }

  function Step(s: State, e: Event): State {
    match e
    case Request(name) =>
      var registered := s.(nextId := s.nextId + 1,
                           pending := s.pending + [Pending(s.nextId, name)],
                           timers := s.timers + {s.nextId});
      if s.closed then registered.(refused := s.refused + [s.nextId])
      else Write(registered, Call(s.nextId, name))
    case Notify(name) => Write(s, Notification(name))
    case StdoutLine(Unusable) => s
    case StdoutLine(Json(message)) => StepLine(s, message)
    case Timer(id) =>
      if id !in s.timers then s
      else (match IndexOf(s.pending, id)
            case Some(i) => SettleAt(s, i, TimedOut)
            case None => s.(timers := s.timers - {id}, settled := s.settled + [Settlement(id, "", TimedOut)]))
    case Exit => Close(s, ProcessExited)
    case Error => Close(s, ProcessError)
  }

  function Run(events: seq<Event>): State {
    if events == [] then INITIAL_STATE else Step(Run(events[..|events| - 1]), events[|events| - 1])
  }
}

/** The class, its handlers proved to be the protocol's steps. */
module JsonRpcClient {
  import opened Outcomes
  import opened JsonRpcProtocol

  class JsonRpcChild {
    var pending: seq<Pending>
    var nextId: nat
    var closed: bool
    var timers: set<nat>
    // What the outside sees: promise settlements, thrown writes, lines sent.
    var settled: seq<Settlement>
    var refused: seq<nat>
    var written: seq<Outgoing>

    ghost function View(): State
      reads this
    {
      State(nextId, closed, pending, timers, settled, refused, written)
    }

    constructor ()
      ensures View() == INITIAL_STATE
    {
      pending, nextId, closed, timers := [], 1, false, {};
      settled, refused, written := [], [], [];
    }

    /** Sends a line, or reports that the process is closed. */
    method WriteMessage(message: Outgoing) returns (sent: bool)
      modifies this`written
      ensures View() == Write(old(View()), message)
      ensures sent == !closed
    {
      if closed {
        return false;
      }
      written := written + [message];
      return true;
    }

    /** `request`: the entry and its timer exist before the write is tried. */
    method Request(name: string) returns (id: nat)
      modifies this
      ensures View() == Step(old(View()), Event.Request(name))
      ensures id == old(nextId)
    {
      id := nextId;
      nextId := nextId + 1;
      timers := timers + {id};
      pending := pending + [Pending(id, name)];
      var sent := WriteMessage(Call(id, name));
      if !sent {
        refused := refused + [id];
      }
    }

    method Notify(name: string)
      modifies this`written
      ensures View() == Step(old(View()), Event.Notify(name))
    {
      var _ := WriteMessage(Notification(name));
    }

    method HandleStdoutLine(line: Line)
      modifies this
      ensures View() == Step(old(View()), StdoutLine(line))
    {
      if line.Unusable? {
        return;
      }
      var message := line.message;
      if message.id.Some? && NoMethod(message) {
        var found := Lookup(pending, message.id.value);
        if found.None? {
          return;
        }
        var entry := pending[found.value];
        pending := Without(pending, found.value);
        if message.error.Some? {
          Reject(entry, RpcFailed(message.error.value));
          return;
        }
        timers := timers - {entry.id};
        settled := settled + [Settlement(entry.id, entry.name, Resolved(message.result))];
        return;
      }
      if message.name == Some("session/request_permission") && message.id.Some? {
        var _ := WriteMessage(Allow(message.id.value));
        return;
      }
      if message.id.Some? && message.id.value != Text("") {
        var _ := WriteMessage(Unhandled(message.id.value));
      }
    }

    /** `pending.reject`: clears the timer, then rejects. */
    method Reject(entry: Pending, outcome: Outcome)
      modifies this`timers, this`settled
      ensures timers == old(timers) - {entry.id}
      ensures settled == old(settled) + [Settlement(entry.id, entry.name, outcome)]
    {
      timers := timers - {entry.id};
      settled := settled + [Settlement(entry.id, entry.name, outcome)];
    }

    /** The callback of a request's timer. */
    method OnTimer(id: nat)
      requires id in timers
      modifies this
      ensures View() == Step(old(View()), Timer(id))
    {
      timers := timers - {id};
      var found := IndexOf(pending, id);
      var name := "";
      if found.Some? {
        name := pending[found.value].name;
        pending := Without(pending, found.value);
      }
      settled := settled + [Settlement(id, name, TimedOut)];
    }

    /** The loop both process handlers run over the table. */
    method RejectAll(outcome: Outcome)
      modifies this
      ensures View() == Close(old(View()), outcome)
    {
      closed := true;
      var i := 0;
      while i < |pending|
        invariant 0 <= i <= |pending|
        invariant closed && pending == old(pending) && nextId == old(nextId)
        invariant refused == old(refused) && written == old(written)
        invariant timers == old(timers) - IdsOf(pending[..i])
        invariant settled == old(settled) + SettlementsOf(pending[..i], outcome)
      {
        assert pending[..i + 1] == pending[..i] + [pending[i]];
        IdsAppend(pending[..i], pending[i]);
        assert SettlementsOf(pending[..i + 1], outcome) ==
               SettlementsOf(pending[..i], outcome) + [Settlement(pending[i].id, pending[i].name, outcome)];
        Reject(pending[i], outcome);
        i := i + 1;
      }
      assert pending[..i] == pending;
      pending := [];
    }

    method OnExit()
      modifies this
      ensures View() == Step(old(View()), Exit)
    {
      RejectAll(ProcessExited);
    }

    method OnError()
      modifies this
      ensures View() == Step(old(View()), Error)
    {
      RejectAll(ProcessError);
    }
  }
}
