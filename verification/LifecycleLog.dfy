/** The lifecycle event log of `ch3/apps/server/src/serverLifecycleEvents.ts`. */
module LifecycleLog {
  datatype Kind = Welcome | Ready

  datatype Input = Input(kind: Kind, payload: string)

  datatype Event = Event(sequence: nat, kind: Kind, payload: string)

  datatype Log = Log(sequence: nat, events: seq<Event>)

  const EMPTY_LOG := Log(0, [])

  function WithoutKind(events: seq<Event>, kind: Kind): seq<Event> {
    if events == [] then []
    else (if events[0].kind != kind then [events[0]] else []) + WithoutKind(events[1..], kind)
  }

  function NextEvent(log: Log, input: Input): Event {
    Event(log.sequence + 1, input.kind, input.payload)
  }

  /** The atomic update of `publish`: the new event replaces the one of its kind and comes first. */
  function Updated(log: Log, input: Input): Log {
    Log(log.sequence + 1, [NextEvent(log, input)] + WithoutKind(log.events, input.kind))
  }

  /** The service: the state cell and everything handed to the broadcast channel so far. */
  class LifecycleEvents {
    var state: Log
    var broadcasts: seq<Event>

    constructor ()
      ensures state == EMPTY_LOG && broadcasts == []
    {
      state := EMPTY_LOG;
      broadcasts := [];
    }

    /** First step of `publish`; other publishers may run between the two. */
    method Modify(input: Input) returns (event: Event)
      modifies this`state
      ensures event == NextEvent(old(state), input) && state == Updated(old(state), input)
    {
      var nextSequence := state.sequence + 1;
      event := Event(nextSequence, input.kind, input.payload);
      var kept := FilterOut(state.events, event.kind);
      state := Log(nextSequence, [event] + kept);
    }

    /** Second step of `publish`. */
    method Broadcast(event: Event)
      modifies this`broadcasts
      ensures broadcasts == old(broadcasts) + [event]
    {
      broadcasts := broadcasts + [event];
    }

    method Publish(input: Input) returns (event: Event)
      modifies this
      ensures event == NextEvent(old(state), input) && state == Updated(old(state), input)
      ensures broadcasts == old(broadcasts) + [event]
    {
      event := Modify(input);
      Broadcast(event);
    }

    method Snapshot() returns (log: Log)
      ensures log == state
    {
      log := state;
    }
  }

  method FilterOut(events: seq<Event>, kind: Kind) returns (kept: seq<Event>)
    ensures kept == WithoutKind(events, kind)
  {
    hide WithoutKind;
    kept := [];
    var i := 0;
    assert events[0..] == events;
    while i < |events|
      invariant 0 <= i <= |events|
      invariant WithoutKind(events, kind) == kept + WithoutKind(events[i..], kind)
    {
      WithoutKindStep(events, i, kind);
      if events[i].kind != kind {
        kept := kept + [events[i]];
      }
      i := i + 1;
    }
    WithoutKindStep(events, i, kind);
  }

  lemma {:induction false} WithoutKindStep(events: seq<Event>, i: nat, kind: Kind)
    requires i <= |events|
    ensures i == |events| ==> WithoutKind(events[i..], kind) == []
    ensures i < |events| ==>
              WithoutKind(events[i..], kind) ==
              (if events[i].kind != kind then [events[i]] else []) + WithoutKind(events[i + 1..], kind)
  {
    if i < |events| {
      assert events[i..][1..] == events[i + 1..];
    }
  }
}
