/** What the JSON-RPC client sends and whom its settlements name, on every interleaving. */
module JsonRpcLines {
  import opened Outcomes
  import opened Sequences
  import opened JsonRpcProtocol
  import opened JsonRpcSafety

  predicate IsRequest(e: Event) {
    e.Request?
  }

  /** How many requests were made before event `i`. */
  function RequestsBefore(events: seq<Event>, i: nat): nat
    requires i <= |events|
  {
    |Positions(events, i, IsRequest)|
  }

  /** Neither exit nor error came before event `i`. */
  predicate OpenAt(events: seq<Event>, i: nat)
    requires i <= |events|
  {
    forall j :: 0 <= j < i ==> events[j] != Exit && events[j] != Error
  }

  /** The event is a request of the server with this id. */
  predicate ServerAsks(e: Event, id: Id, name: string) {
    e.StdoutLine? && e.line.Json? && e.line.message.id == Some(id) && e.line.message.name == Some(name)
  }

  const PERMISSION := "session/request_permission"

  /** Event `i` makes the client send this line. */
  predicate Asks(events: seq<Event>, i: nat, line: Outgoing) {
    i < |events| && OpenAt(events, i) &&
    match line
    case Call(id, name) => events[i] == Request(name) && id == 1 + RequestsBefore(events, i)
    case Notification(name) => events[i] == Notify(name)
    case Allow(id) => ServerAsks(events[i], id, PERMISSION)
    case Unhandled(id) =>
      && events[i].StdoutLine? && events[i].line.Json? && id != Text("")
      && var m := events[i].line.message;
         m.id == Some(id) && m.name.Some? && m.name.value != "" && m.name.value != PERMISSION
  }

  /** The lines sent, one for each of these events in order, and for no other event. */
  ghost predicate SentFor(events: seq<Event>, at: seq<nat>, lines: seq<Outgoing>) {
    && |at| == |lines|
    && (forall j, k :: 0 <= j < k < |at| ==> at[j] < at[k])
    && (forall k :: 0 <= k < |at| ==> Asks(events, at[k], lines[k]))
    && (forall i: nat, line :: Asks(events, i, line) ==> i in at)
  }

  lemma {:induction false} AsksBefore(events: seq<Event>, n: nat, i: nat, line: Outgoing)
    requires n <= |events| && i < n
    ensures Asks(events[..n], i, line) <==> Asks(events, i, line)
  {
    PositionsPrefix(events, n, i, IsRequest);
    assert OpenAt(events[..n], i) <==> OpenAt(events, i);
  }

  lemma {:induction false} Counts(s: State, events: seq<Event>, i: nat)
    requires i < |events| && s.nextId == 1 + RequestsBefore(events, i) && (s.closed <==> !OpenAt(events, i))
    ensures var t := Step(s, events[i]);
            t.nextId == 1 + RequestsBefore(events, i + 1) && (t.closed <==> !OpenAt(events, i + 1))
  {
    CountsMore(events, i);
    hide RequestsBefore, OpenAt;
  }

  lemma {:induction false} CountsMore(events: seq<Event>, i: nat)
    requires i < |events|
    ensures RequestsBefore(events, i + 1) == RequestsBefore(events, i) + if events[i].Request? then 1 else 0
    ensures OpenAt(events, i + 1) <==> OpenAt(events, i) && events[i] != Exit && events[i] != Error
  {
  }

  /** One line more, or none. */
  predicate AddsAtMostOne(lines: seq<Outgoing>, more: seq<Outgoing>) {
    more == lines || (|more| == |lines| + 1 && more[..|lines|] == lines)
  }

  lemma {:induction false} Appends(lines: seq<Outgoing>, line: Outgoing, other: Outgoing)
    ensures AddsAtMostOne(lines, lines) && AddsAtMostOne(lines, lines + [line])
    ensures lines + [other] == lines + [line] <==> other == line
    ensures lines + [other] != lines
  {
    assert (lines + [line])[|lines|] == line && (lines + [other])[|lines|] == other;
  }

  /** The line that one event makes the client send, if any. */
  lemma {:induction false} OneLine(s: State, events: seq<Event>, i: nat, line: Outgoing)
    requires i < |events| && s.nextId == 1 + RequestsBefore(events, i) && (s.closed <==> !OpenAt(events, i))
    ensures var t := Step(s, events[i]);
            AddsAtMostOne(s.written, t.written) && (Asks(events, i, line) <==> t.written == s.written + [line])
  {
    var t := Step(s, events[i]);
    if t.written != s.written {
      Appends(s.written, t.written[|s.written|], line);
    } else {
      Appends(s.written, line, line);
    }
    hide AddsAtMostOne;
  }

  lemma {:induction false} CountsOnRuns(events: seq<Event>)
    ensures Run(events).nextId == 1 + RequestsBefore(events, |events|)
    ensures Run(events).closed <==> !OpenAt(events, |events|)
    decreases |events|
  {
    hide Step;
    if events != [] {
      var n := |events| - 1;
      CountsOnRuns(events[..n]);
      CountsBefore(events, n);
      Counts(Run(events[..n]), events, n);
    }
  }

  lemma {:induction false} CountsBefore(events: seq<Event>, n: nat)
    requires n <= |events|
    ensures RequestsBefore(events[..n], n) == RequestsBefore(events, n)
    ensures OpenAt(events[..n], n) <==> OpenAt(events, n)
  {
    PositionsPrefix(events, n, n, IsRequest);
  }

  lemma {:induction false} SentSoFar(events: seq<Event>, n: nat, at: seq<nat>, lines: seq<Outgoing>)
    requires n + 1 == |events| && SentFor(events[..n], at, lines)
    ensures forall k :: 0 <= k < |at| ==> at[k] < n && Asks(events, at[k], lines[k])
    ensures forall i: nat, line :: i < n && Asks(events, i, line) ==> i in at
  {
    forall i: nat, line | i < n
      ensures Asks(events[..n], i, line) <==> Asks(events, i, line)
    {
      AsksBefore(events, n, i, line);
    }
    forall k | 0 <= k < |at|
      ensures at[k] < n && Asks(events, at[k], lines[k])
    {
      assert Asks(events[..n], at[k], lines[k]);
    }
    hide Asks;
  }

  lemma {:induction false} OneMoreSent(events: seq<Event>, n: nat, at: seq<nat>, lines: seq<Outgoing>, line: Outgoing)
    requires n + 1 == |events| && SentFor(events[..n], at, lines) && Asks(events, n, line)
    ensures SentFor(events, at + [n], lines + [line])
  {
    SentSoFar(events, n, at, lines);
    AsksInRange(events);
    hide Asks;
  }

  lemma {:induction false} NoMoreSent(events: seq<Event>, n: nat, at: seq<nat>, lines: seq<Outgoing>)
    requires n + 1 == |events| && SentFor(events[..n], at, lines) && forall line :: !Asks(events, n, line)
    ensures SentFor(events, at, lines)
  {
    SentSoFar(events, n, at, lines);
    AsksInRange(events);
    hide Asks;
  }

  lemma {:induction false} AsksInRange(events: seq<Event>)
    ensures forall i: nat, line :: Asks(events, i, line) ==> i < |events|
  {
  }

  lemma {:induction false} NothingSent()
    ensures SentFor([], [], Run([]).written)
  {
  }

  lemma {:induction false} SentStep(events: seq<Event>, n: nat, at: seq<nat>, before: seq<Outgoing>,
      after: seq<Outgoing>)
    requires n + 1 == |events| && SentFor(events[..n], at, before) && AddsAtMostOne(before, after)
    requires forall line :: Asks(events, n, line) <==> after == before + [line]
    ensures exists more :: SentFor(events, more, after)
  {
    hide Asks, SentFor;
    if after == before {
      forall line
        ensures !Asks(events, n, line)
      {
        Appends(before, line, line);
      }
      NoMoreSent(events, n, at, before);
    } else {
      var line := after[|before|];
      assert after == before + [line];
      OneMoreSent(events, n, at, before, line);
    }
  }

  /**
   On every run the lines sent are, in order: one for each request, notification, permission
   request and other named request of the server that came before the process ended.
   */
  lemma {:induction false} WrittenOnRuns(events: seq<Event>)
    ensures exists at :: SentFor(events, at, Run(events).written)
    decreases |events|
  {
    hide Asks, Step, SentFor, Run, AddsAtMostOne;
    if events == [] {
      NothingSent();
    } else {
      var n := |events| - 1;
      var s, t := Run(events[..n]), Run(events);
      WrittenOnRuns(events[..n]);
      CountsOnRuns(events[..n]);
      CountsBefore(events, n);
      LastStep(events);
      hide RequestsBefore, OpenAt;
      var at :| SentFor(events[..n], at, s.written);
      forall line
        ensures AddsAtMostOne(s.written, t.written) && (Asks(events, n, line) <==> t.written == s.written + [line])
      {
        OneLine(s, events, n, line);
      }
      OneLine(s, events, n, Notification(""));
      SentStep(events, n, at, s.written, t.written);
    }
  }

  lemma {:induction false} LastStep(events: seq<Event>)
    requires events != []
    ensures Run(events) == Step(Run(events[..|events| - 1]), events[|events| - 1])
  {
  }

  // ----- Whom entries and settlements name -----

  /** The method of the request that has this id. */
  predicate IsNameOf(events: seq<Event>, id: nat, name: string) {
    exists i :: 0 <= i < |events| && events[i] == Request(name) && id == 1 + RequestsBefore(events, i)
  }

  predicate AllNamed(events: seq<Event>, entries: seq<Pending>) {
    forall k :: 0 <= k < |entries| ==> IsNameOf(events, entries[k].id, entries[k].name)
  }

  predicate AllNamedSettled(events: seq<Event>, settled: seq<Settlement>) {
    forall k :: 0 <= k < |settled| ==> IsNameOf(events, settled[k].id, settled[k].name)
  }

  lemma {:induction false} NamesStay(events: seq<Event>, n: nat, id: nat, name: string)
    requires n <= |events| && IsNameOf(events[..n], id, name)
    ensures IsNameOf(events, id, name)
  {
    var i :| 0 <= i < n && events[..n][i] == Request(name) && id == 1 + RequestsBefore(events[..n], i);
    PositionsPrefix(events, n, i, IsRequest);
    assert events[i] == Request(name);
  }

  lemma {:induction false} StepNames(s: State, e: Event, events: seq<Event>)
    requires Inv(s) && AllNamed(events, s.pending) && AllNamedSettled(events, s.settled)
    requires e.Request? ==> IsNameOf(events, s.nextId, e.name)
    ensures AllNamed(events, Step(s, e).pending) && AllNamedSettled(events, Step(s, e).settled)
  {
    hide IsNameOf, DistinctPending, DistinctSettled, SettledIds, Issued;
    if e.Timer? && e.id in s.timers {
      assert IndexOf(s.pending, e.id).Some?;
    }
    hide IdsOf;
  }

  /** On every run each waiting entry and each settlement names the method its request was made with. */
  lemma {:induction false} NamesOnRuns(events: seq<Event>)
    ensures AllNamed(events, Run(events).pending) && AllNamedSettled(events, Run(events).settled)
    decreases |events|
  {
    hide Step, IsNameOf;
    if events != [] {
      var n := |events| - 1;
      var s := Run(events[..n]);
      NamesOnRuns(events[..n]);
      RunKeepsInv(events[..n]);
      CountsOnRuns(events[..n]);
      CountsBefore(events, n);
      forall id, name | IsNameOf(events[..n], id, name)
        ensures IsNameOf(events, id, name)
      {
        NamesStay(events, n, id, name);
      }
      if events[n].Request? {
        NewName(events, n);
      }
      StepNames(s, events[n], events);
    }
  }

  lemma {:induction false} NewName(events: seq<Event>, n: nat)
    requires n < |events| && events[n].Request?
    ensures IsNameOf(events, 1 + RequestsBefore(events, n), events[n].name)
  {
  }
}
