/** What every interleaving of the JSON-RPC client's steps keeps. */
module JsonRpcSafety {
  import opened Outcomes
  import opened JsonRpcProtocol

  function SettledIds(settled: seq<Settlement>): set<nat> {
    set i | 0 <= i < |settled| :: settled[i].id
  }

  predicate DistinctPending(pending: seq<Pending>) {
    forall i, j :: 0 <= i < j < |pending| ==> pending[i].id != pending[j].id
  }

  predicate DistinctSettled(settled: seq<Settlement>) {
    forall i, j :: 0 <= i < j < |settled| ==> settled[i].id != settled[j].id
  }

  predicate WasIssued(s: State, id: nat) {
    1 <= id < s.nextId
  }

  /** The ids handed out so far. */
  function Issued(s: State): set<nat> {
    set id: nat | id < s.nextId && WasIssued(s, id)
  }

  /**
   Every request is either waiting with a live timer or settled once, never both,
   and no other timer is live.
   */
  ghost predicate Inv(s: State) {
    && s.nextId >= 1
    && DistinctPending(s.pending) && DistinctSettled(s.settled)
    && s.timers == IdsOf(s.pending)
    && IdsOf(s.pending) !! SettledIds(s.settled)
    && IdsOf(s.pending) + SettledIds(s.settled) == Issued(s)
  }

  lemma {:induction false} IdsWithout(pending: seq<Pending>, i: nat)
    requires DistinctPending(pending) && i < |pending|
    ensures DistinctPending(Without(pending, i))
    ensures IdsOf(Without(pending, i)) == IdsOf(pending) - {pending[i].id}
  {
    var rest := Without(pending, i);
    forall id | id in IdsOf(pending) - {pending[i].id}
      ensures id in IdsOf(rest)
    {
      var k :| 0 <= k < |pending| && pending[k].id == id;
      assert rest[if k < i then k else k - 1] == pending[k];
    }
    forall id | id in IdsOf(rest)
      ensures id in IdsOf(pending) - {pending[i].id}
    {
      var k :| 0 <= k < |rest| && rest[k].id == id;
      assert rest[k] == pending[if k < i then k else k + 1];
    }
  }

  lemma {:induction false} SettledAppend(settled: seq<Settlement>, more: seq<Settlement>)
    ensures SettledIds(settled + more) == SettledIds(settled) + SettledIds(more)
    ensures DistinctSettled(settled) && DistinctSettled(more) && SettledIds(settled) !! SettledIds(more) ==>
              DistinctSettled(settled + more)
  {
    var all := settled + more;
    forall id | id in SettledIds(settled)
      ensures id in SettledIds(all)
    {
      var k :| 0 <= k < |settled| && settled[k].id == id;
      assert all[k].id == id;
    }
    forall id | id in SettledIds(more)
      ensures id in SettledIds(all)
    {
      var k :| 0 <= k < |more| && more[k].id == id;
      assert all[|settled| + k].id == id;
    }
    if DistinctSettled(settled) && DistinctSettled(more) && SettledIds(settled) !! SettledIds(more) {
      forall i, j | 0 <= i < j < |all|
        ensures all[i].id != all[j].id
      {
        if i < |settled| <= j {
          assert settled[i].id in SettledIds(settled) && more[j - |settled|].id in SettledIds(more);
        }
      }
    }
  }

  lemma {:induction false} SettleKeepsInv(s: State, i: nat, outcome: Outcome)
    requires Inv(s) && i < |s.pending|
    ensures Inv(SettleAt(s, i, outcome))
  {
    var p := s.pending[i];
    IdsWithout(s.pending, i);
    assert p.id in IdsOf(s.pending);
    var one := [Settlement(p.id, p.name, outcome)];
    assert SettledIds(one) == {p.id} by {
      assert one[0].id == p.id;
    }
    SettledAppend(s.settled, one);
  }

  lemma {:induction false} CloseKeepsInv(s: State, outcome: Outcome)
    requires Inv(s)
    ensures Inv(Close(s, outcome))
  {
    var more := SettlementsOf(s.pending, outcome);
    assert SettledIds(more) == IdsOf(s.pending) by {
      forall id | id in IdsOf(s.pending)
        ensures id in SettledIds(more)
      {
        var k :| 0 <= k < |s.pending| && s.pending[k].id == id;
        assert more[k].id == id;
      }
    }
    SettledAppend(s.settled, more);
  }

  lemma {:induction false} StepKeepsInv(s: State, e: Event)
    requires Inv(s)
    ensures Inv(Step(s, e))
  {
    match e
    case Request(name) =>
      IdsAppend(s.pending, Pending(s.nextId, name));
      assert forall i :: 0 <= i < |s.pending| ==> s.pending[i].id in IdsOf(s.pending);
      assert s.nextId !in Issued(s);
      assert Issued(Step(s, e)) == Issued(s) + {s.nextId};
    case Notify(_) =>
    case StdoutLine(Unusable) =>
    case StdoutLine(Json(m)) =>
      if IsReply(m) && Lookup(s.pending, m.id.value).Some? {
        SettleKeepsInv(s, Lookup(s.pending, m.id.value).value, ReplyOutcome(m));
      }
    case Timer(id) =>
      if id in s.timers {
        SettleKeepsInv(s, IndexOf(s.pending, id).value, TimedOut);
      }
    case Exit => CloseKeepsInv(s, ProcessExited);
    case Error => CloseKeepsInv(s, ProcessError);
  }

  /** On every run: unique ids, at most one settlement each, and a live timer for each unsettled request. */
  lemma {:induction false} RunKeepsInv(events: seq<Event>)
    ensures Inv(Run(events))
  {
    if events == [] {
      assert IdsOf([]) == {} && SettledIds([]) == {};
    } else {
      RunKeepsInv(events[..|events| - 1]);
      StepKeepsInv(Run(events[..|events| - 1]), events[|events| - 1]);
    }
  }

  // ----- What settles a request -----

  /** The event that may settle request `id` with `outcome`. */
  predicate Causes(e: Event, id: nat, outcome: Outcome) {
    match outcome
    case Resolved(result) =>
      e.StdoutLine? && e.line.Json? &&
      var m := e.line.message;
      NoMethod(m) && m.id == Some(Number(id)) && m.error == None && m.result == result
    case RpcFailed(error) =>
      e.StdoutLine? && e.line.Json? &&
      var m := e.line.message;
      NoMethod(m) && m.id == Some(Number(id)) && m.error == Some(error)
    case TimedOut => e == Timer(id)
    case ProcessExited => e == Exit
    case ProcessError => e == Error
  }

  predicate Waiting(s: State, id: nat) {
    exists i :: 0 <= i < |s.pending| && s.pending[i].id == id
  }

  predicate SettledWith(s: State, id: nat, outcome: Outcome) {
    exists i :: 0 <= i < |s.settled| && s.settled[i].id == id && s.settled[i].outcome == outcome
  }

  /** One step settles exactly the waiting requests it is a cause for. */
  lemma {:induction false} StepSettles(s: State, e: Event, id: nat, outcome: Outcome)
    requires Inv(s)
    ensures SettledWith(Step(s, e), id, outcome) <==>
            SettledWith(s, id, outcome) || (Waiting(s, id) && Causes(e, id, outcome))
  {
    match e
    case Request(_) => SameSettlements(s, Step(s, e), id, outcome);
    case Notify(_) => SameSettlements(s, Step(s, e), id, outcome);
    case StdoutLine(Unusable) => SameSettlements(s, Step(s, e), id, outcome);
    case StdoutLine(Json(m)) => LineSettles(s, m, id, outcome);
    case Timer(fired) => TimerSettles(s, fired, id, outcome);
    case Exit => AllSettle(s, ProcessExited, id, outcome);
    case Error => AllSettle(s, ProcessError, id, outcome);
  }

  lemma {:induction false} SameSettlements(s: State, t: State, id: nat, outcome: Outcome)
    ensures t.settled == s.settled ==> (SettledWith(t, id, outcome) <==> SettledWith(s, id, outcome))
  {
  }

  lemma {:induction false} LineSettles(s: State, m: Message, id: nat, outcome: Outcome)
    requires Inv(s)
    ensures SettledWith(Step(s, StdoutLine(Json(m))), id, outcome) <==>
            SettledWith(s, id, outcome) || (Waiting(s, id) && Causes(StdoutLine(Json(m)), id, outcome))
  {
    hide SettledWith, DistinctSettled;
    if IsReply(m) && Lookup(s.pending, m.id.value).Some? {
      OneSettles(s, Lookup(s.pending, m.id.value).value, ReplyOutcome(m), id, outcome);
    } else {
      SameSettlements(s, Step(s, StdoutLine(Json(m))), id, outcome);
    }
  }

  lemma {:induction false} TimerSettles(s: State, fired: nat, id: nat, outcome: Outcome)
    requires Inv(s)
    ensures SettledWith(Step(s, Timer(fired)), id, outcome) <==>
            SettledWith(s, id, outcome) || (Waiting(s, id) && Causes(Timer(fired), id, outcome))
  {
    hide SettledWith, DistinctSettled;
    if fired in s.timers {
      OneSettles(s, IndexOf(s.pending, fired).value, TimedOut, id, outcome);
    } else {
      assert fired !in IdsOf(s.pending);
    }
  }

  lemma {:induction false} OneSettles(s: State, i: nat, how: Outcome, id: nat, outcome: Outcome)
    requires Inv(s) && i < |s.pending|
    ensures SettledWith(SettleAt(s, i, how), id, outcome) <==>
            SettledWith(s, id, outcome) || (s.pending[i].id == id && how == outcome)
  {
    var t := SettleAt(s, i, how);
    assert t.settled[|s.settled|].id == s.pending[i].id && t.settled[|s.settled|].outcome == how;
    if SettledWith(s, id, outcome) {
      var k :| 0 <= k < |s.settled| && s.settled[k].id == id && s.settled[k].outcome == outcome;
      assert t.settled[k] == s.settled[k];
    }
  }

  lemma {:induction false} AllSettle(s: State, how: Outcome, id: nat, outcome: Outcome)
    ensures SettledWith(Close(s, how), id, outcome) <==>
            SettledWith(s, id, outcome) || (Waiting(s, id) && how == outcome)
  {
    var t := Close(s, how);
    var more := SettlementsOf(s.pending, how);
    if SettledWith(t, id, outcome) {
      var k :| 0 <= k < |t.settled| && t.settled[k].id == id && t.settled[k].outcome == outcome;
      if k >= |s.settled| {
        assert t.settled[k] == more[k - |s.settled|];
        assert s.pending[k - |s.settled|].id == id;
      }
    }
    if Waiting(s, id) && how == outcome {
      var k :| 0 <= k < |s.pending| && s.pending[k].id == id;
      assert t.settled[|s.settled| + k] == more[k];
    }
    if SettledWith(s, id, outcome) {
      var k :| 0 <= k < |s.settled| && s.settled[k].id == id && s.settled[k].outcome == outcome;
      assert t.settled[k] == s.settled[k];
    }
  }

  /** Event `j` found the request waiting and was a cause for this outcome. */
  predicate SettledBy(events: seq<Event>, j: nat, id: nat, outcome: Outcome) {
    j < |events| && Waiting(Run(events[..j]), id) && Causes(events[j], id, outcome)
  }

  /**
   A request is settled with an outcome exactly when some event of the run is a
   cause for that outcome, carrying the request's own id, and found it waiting.
   */
  lemma {:induction false} SettledOnlyByOwnId(events: seq<Event>, id: nat, outcome: Outcome)
    ensures SettledWith(Run(events), id, outcome) <==> exists j :: SettledBy(events, j, id, outcome)
  {
    hide Causes, Step, SettledWith, Waiting, Run;
    if events == [] {
      NothingSettled(id, outcome);
      assert forall j: nat :: !SettledBy(events, j, id, outcome);
    } else {
      var n := |events| - 1;
      var front := events[..n];
      LastEventSettles(events, id, outcome);
      SettledOnlyByOwnId(front, id, outcome);
      forall j: nat | j < n
        ensures SettledBy(events, j, id, outcome) <==> SettledBy(front, j, id, outcome)
      {
        assert events[..j] == front[..j];
      }
      assert forall j: nat :: SettledBy(events, j, id, outcome) ==> j == n || SettledBy(front, j, id, outcome);
      assert forall j: nat :: SettledBy(front, j, id, outcome) ==> j < n;
    }
  }

  lemma {:induction false} NothingSettled(id: nat, outcome: Outcome)
    ensures !SettledWith(Run([]), id, outcome)
  {
  }

  lemma {:induction false} LastEventSettles(events: seq<Event>, id: nat, outcome: Outcome)
    requires events != []
    ensures SettledWith(Run(events), id, outcome) <==>
            SettledWith(Run(events[..|events| - 1]), id, outcome) || SettledBy(events, |events| - 1, id, outcome)
  {
    hide Causes, Step, SettledWith, Waiting;
    var front := events[..|events| - 1];
    RunKeepsInv(front);
    StepSettles(Run(front), events[|events| - 1], id, outcome);
  }

  /** Two different outcomes of one request cannot both happen. */
  lemma {:induction false} SettledOnce(events: seq<Event>, id: nat, a: Outcome, b: Outcome)
    requires SettledWith(Run(events), id, a) && SettledWith(Run(events), id, b)
    ensures a == b && 1 <= id < Run(events).nextId && !Waiting(Run(events), id)
  {
    hide Inv, Run, SettledWith, Waiting;
    RunKeepsInv(events);
    StateSettledOnce(Run(events), id, a, b);
  }

  lemma {:induction false} StateSettledOnce(s: State, id: nat, a: Outcome, b: Outcome)
    requires Inv(s) && SettledWith(s, id, a) && SettledWith(s, id, b)
    ensures a == b && 1 <= id < s.nextId && !Waiting(s, id)
  {
    hide DistinctPending;
    var i :| 0 <= i < |s.settled| && s.settled[i].id == id && s.settled[i].outcome == a;
    assert id in SettledIds(s.settled);
    assert id in Issued(s);
  }

  /** After an exit or error step nothing waits: every id handed out before is settled. */
  lemma {:induction false} CloseSettlesAll(events: seq<Event>, e: Event, id: nat)
    requires e == Exit || e == Error
    requires 1 <= id < Run(events).nextId
    ensures var s := Run(events + [e]);
            s.closed && s.pending == [] && s.timers == {} && exists outcome :: SettledWith(s, id, outcome)
  {
    var all := events + [e];
    assert all[..|events|] == events;
    RunKeepsInv(all);
    var s := Run(all);
    assert WasIssued(s, id) && id in Issued(s);
    var k :| 0 <= k < |s.settled| && s.settled[k].id == id;
    assert SettledWith(s, id, s.settled[k].outcome);
  }

  // ----- Writing -----

  predicate SentCall(s: State, id: nat) {
    exists i :: 0 <= i < |s.written| && s.written[i].Call? && s.written[i].id == id
  }

  /** Each request was either sent or refused, never both, and only a closed client has refused any. */
  ghost predicate WriteInv(s: State) {
    && (forall id: nat :: WasIssued(s, id) ==> (SentCall(s, id) <==> id !in s.refused))
    && (forall id: nat :: SentCall(s, id) ==> WasIssued(s, id))
    && (forall id :: id in s.refused ==> WasIssued(s, id))
    && (!s.closed ==> s.refused == [])
    && s.nextId >= 1
  }

  lemma {:induction false} WriteOther(s: State, message: Outgoing)
    requires WriteInv(s) && !message.Call?
    ensures WriteInv(Write(s, message))
  {
    var t := Write(s, message);
    forall id
      ensures SentCall(t, id) <==> SentCall(s, id)
    {
      if SentCall(s, id) {
        var i :| 0 <= i < |s.written| && s.written[i].Call? && s.written[i].id == id;
        assert t.written[i] == s.written[i];
      }
    }
  }

  lemma {:induction false} RequestKeepsWriteInv(s: State, name: string)
    requires WriteInv(s)
    ensures WriteInv(Step(s, Request(name)))
  {
    var t := Step(s, Request(name));
    forall id
      ensures SentCall(t, id) <==> SentCall(s, id) || (!s.closed && id == s.nextId)
    {
      if SentCall(s, id) {
        var i :| 0 <= i < |s.written| && s.written[i].Call? && s.written[i].id == id;
        assert t.written[i] == s.written[i];
      }
      if !s.closed {
        assert t.written[|s.written|] == Call(s.nextId, name);
      }
    }
  }

  /** On every run a request was sent under its id exactly when its write was not refused. */
  lemma {:induction false} RunKeepsWriteInv(events: seq<Event>)
    ensures WriteInv(Run(events))
  {
    if events != [] {
      var s, e := Run(events[..|events| - 1]), events[|events| - 1];
      RunKeepsWriteInv(events[..|events| - 1]);
      match e
      case Request(name) => RequestKeepsWriteInv(s, name);
      case Notify(name) => WriteOther(s, Notification(name));
      case StdoutLine(Unusable) =>
      case StdoutLine(Json(m)) =>
        if m.id.Some? {
          WriteOther(s, Allow(m.id.value));
          WriteOther(s, Unhandled(m.id.value));
          SameWrites(s, Step(s, e));
        }
      case Timer(_) => SameWrites(s, Step(s, e));
      case Exit => SameWrites(s, Step(s, e));
      case Error => SameWrites(s, Step(s, e));
    }
  }

  lemma {:induction false} SameWrites(s: State, t: State)
    requires WriteInv(s)
    ensures t.nextId == s.nextId && t.written == s.written && t.refused == s.refused && (s.closed ==> t.closed) ==>
            WriteInv(t)
  {
    assert t.written == s.written ==> forall id :: SentCall(t, id) <==> SentCall(s, id);
  }

  lemma {:induction false} ClosedStep(s: State, e: Event)
    requires s.closed
    ensures var t := Step(s, e);
            && t.closed && t.written == s.written && t.nextId >= s.nextId
            && (forall id :: id in s.refused ==> id in t.refused)
            && forall id :: s.nextId <= id < t.nextId ==> id in t.refused
  {
  }

  /** Once a client is closed it stays closed, sends nothing more, and refuses the write of every later request. */
  lemma {:induction false} ClosedIsSilent(events: seq<Event>, more: seq<Event>)
    ensures var s, t := Run(events), Run(events + more);
            s.closed ==>
              && t.closed && t.written == s.written && t.nextId >= s.nextId
              && forall id :: s.nextId <= id < t.nextId ==> id in t.refused
    decreases |more|
  {
    hide Step;
    if more == [] {
      assert events + more == events;
    } else {
      var front, last := more[..|more| - 1], more[|more| - 1];
      ClosedIsSilent(events, front);
      assert (events + more)[..|events + more| - 1] == events + front;
      if Run(events).closed {
        ClosedStep(Run(events + front), last);
      }
    }
  }
}
