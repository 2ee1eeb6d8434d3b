/** When a client of the lifecycle log receives its events in the order of their numbers. */
module LifecycleOrder {
  import opened LifecycleLog
  import opened LifecycleDelivery

  predicate StrictlyAscending(events: seq<Event>) {
    forall i, j :: 0 <= i < j < |events| ==> events[i].sequence < events[j].sequence
  }

  predicate AllBelow(a: seq<Event>, b: seq<Event>) {
    forall i, j :: 0 <= i < |a| && 0 <= j < |b| ==> a[i].sequence < b[j].sequence
  }

  /** While the client was subscribed, the publisher with the lowest number always broadcast first. */
  predicate InTurn(steps: seq<Step>) {
    steps == [] || (InTurn(steps[..|steps| - 1]) && TakesTurn(Run(steps[..|steps| - 1]), steps[|steps| - 1]))
  }

  predicate TakesTurn(s: System, step: Step) {
    step.Broadcast? && step.index < |s.pending| && s.client.joined.Some? ==> step.index == 0
  }

  /** The events still to be broadcast wait in the order of their numbers. */
  predicate Queued(s: System) {
    StrictlyAscending(s.pending) && forall i :: 0 <= i < |s.pending| ==> s.pending[i].sequence <= s.log.sequence
  }

  /** What the client has received is in order, and everything still to come is higher. */
  predicate DeliveredInOrder(s: System) {
    StrictlyAscending(s.client.received) && AllBelow(s.client.received, s.pending)
  }

  lemma {:induction false} ReceivedWasNumbered(s: System, i: nat)
    requires Inv(s) && i < |s.client.received|
    ensures s.client.received[i].sequence <= s.log.sequence
  {
    BroadcastWasPublished(s, s.client.joined.value + i);
  }

  lemma {:induction false} StepKeepsQueued(s: System, step: Step)
    requires Queued(s)
    ensures Queued(Next(s, step))
  {
    if step.Broadcast? && step.index < |s.pending| {
      WithoutOne(s.pending, step.index);
    }
    hide WithoutKind, StrictlyAscending;
    if step.Publish? {
      PublishKeepsQueued(s, step.input);
    }
  }

  lemma {:induction false} PublishKeepsQueued(s: System, input: Input)
    requires Queued(s)
    ensures Queued(Next(s, Publish(input)))
  {
    hide WithoutKind;
    assert NextEvent(s.log, input).sequence == s.log.sequence + 1 == Updated(s.log, input).sequence;
    hide NextEvent, Updated;
  }

  lemma {:induction false} WithoutOne(events: seq<Event>, i: nat)
    requires StrictlyAscending(events) && i < |events|
    ensures var rest := events[..i] + events[i + 1..];
            StrictlyAscending(rest) && forall k :: 0 <= k < |rest| ==> rest[k] == events[if k < i then k else k + 1]
  {
  }

  lemma {:induction false} LowestLeftBehind(received: seq<Event>, pending: seq<Event>, i: nat)
    requires StrictlyAscending(pending) && 0 < i < |pending|
    ensures !AllBelow(received + [pending[i]], pending[..i] + pending[i + 1..])
  {
    var got, rest := received + [pending[i]], pending[..i] + pending[i + 1..];
    assert got[|received|] == pending[i] && rest[0] == pending[0];
  }

  /** One broadcast to the client keeps the order exactly when it takes the lowest number. */
  lemma {:induction false} BroadcastOrder(received: seq<Event>, pending: seq<Event>, i: nat)
    requires StrictlyAscending(pending) && i < |pending|
    ensures var got, rest := received + [pending[i]], pending[..i] + pending[i + 1..];
            StrictlyAscending(got) && AllBelow(got, rest) <==>
            StrictlyAscending(received) && AllBelow(received, pending) && i == 0
  {
    var got, rest := received + [pending[i]], pending[..i] + pending[i + 1..];
    WithoutOne(pending, i);
    if StrictlyAscending(got) && AllBelow(got, rest) {
      assert forall k :: 0 <= k < |received| ==> got[k] == received[k];
      assert got[|received|] == pending[i];
      if i > 0 {
        LowestLeftBehind(received, pending, i);
        assert false;
      }
      assert forall k :: 1 <= k < |pending| ==> rest[k - 1] == pending[k];
    }
  }

  /** A step keeps the order of delivery exactly when it takes its turn. */
  lemma {:induction false} StepOrder(s: System, step: Step)
    requires Inv(s) && Queued(s)
    ensures DeliveredInOrder(Next(s, step)) <==> DeliveredInOrder(s) && TakesTurn(s, step)
  {
    hide LogOf, Numbered, Updated;
    match step
    case Publish(input) => PublishOrder(s, input);
    case Broadcast(i) =>
      if i < |s.pending| && s.client.joined.Some? {
        BroadcastOrder(s.client.received, s.pending, i);
      }
    case Subscribe =>
    case TakeSnapshot =>
  }

  lemma {:induction false} PublishOrder(s: System, input: Input)
    requires Inv(s) && Queued(s)
    ensures DeliveredInOrder(Next(s, Publish(input))) <==> DeliveredInOrder(s)
  {
    var t := Next(s, Publish(input));
    forall i | 0 <= i < |s.client.received|
      ensures s.client.received[i].sequence < s.log.sequence + 1
    {
      ReceivedWasNumbered(s, i);
    }
    hide Inv, Updated;
    assert forall j :: 0 <= j < |s.pending| ==> t.pending[j] == s.pending[j];
  }

  /** On every run the client's events are in order, and below all that are to come, exactly when turns were taken. */
  lemma {:induction false} OrderOfRun(steps: seq<Step>)
    ensures Queued(Run(steps))
    ensures DeliveredInOrder(Run(steps)) <==> InTurn(steps)
    decreases |steps|
  {
    if steps != [] {
      var front, last := steps[..|steps| - 1], steps[|steps| - 1];
      OrderOfRun(front);
      RunKeepsInv(front);
      hide Inv, Queued, DeliveredInOrder, TakesTurn, Next;
      StepKeepsQueued(Run(front), last);
      StepOrder(Run(front), last);
    }
  }

  /** Once all broadcasts have run, the client has its events in ascending order exactly when turns were taken. */
  lemma {:induction false} InOrderMeaning(steps: seq<Step>)
    ensures Run(steps).pending == [] ==> (StrictlyAscending(Run(steps).client.received) <==> InTurn(steps))
  {
    hide Run, InTurn;
    OrderOfRun(steps);
  }

  /** Two concurrent publishers can deliver their events in the opposite order. */
  lemma {:induction false} OutOfOrder(first: Input, second: Input)
    ensures var s := Run([Subscribe, Publish(first), Publish(second), Broadcast(1)]);
            var t := Next(s, Broadcast(0));
            t.pending == [] && |t.client.received| == 2 &&
            t.client.received[0].sequence == 2 && t.client.received[1].sequence == 1
  {
    RunPrefixes(Subscribe, Publish(first), Publish(second), Broadcast(1));
  }
}
