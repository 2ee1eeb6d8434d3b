/**
 Concurrent publishers and a subscribing client of the lifecycle log, as interleaved
 steps. Clients do not affect each other, so one client stands for each of them.
 */
module LifecycleDelivery {
  import opened Outcomes
  import opened Sequences
  import opened LifecycleLog

  /**
   A client: how many broadcasts had happened when it subscribed, what its
   subscription has received, its snapshot, and whether the subscription was
   already there when the snapshot was taken.
   */
  datatype Client = Client(joined: Option<nat>, received: seq<Event>, snapshot: Option<Log>, joinedFirst: bool)

  const NEW_CLIENT := Client(None, [], None, false)

  /** `pending` holds the events whose publisher has not run its broadcast step yet. */
  datatype System = System(log: Log, published: seq<Event>, pending: seq<Event>, broadcast: seq<Event>, client: Client)

  const START := System(EMPTY_LOG, [], [], [], NEW_CLIENT)

  datatype Step =
    | Publish(input: Input)
    | Broadcast(index: nat)
    | Subscribe
    | TakeSnapshot

  function Next(s: System, step: Step): System {
    match step
    case Publish(input) =>
      var event := NextEvent(s.log, input);
      s.(log := Updated(s.log, input), published := s.published + [event], pending := s.pending + [event])
    case Broadcast(i) =>
      if i >= |s.pending| then s
      else
        var event := s.pending[i];
        s.(pending := s.pending[..i] + s.pending[i + 1..],
           broadcast := s.broadcast + [event],
           client := if s.client.joined.Some? then s.client.(received := s.client.received + [event]) else s.client)
    case Subscribe =>
      if s.client.joined.Some? then s else s.(client := s.client.(joined := Some(|s.broadcast|)))
    case TakeSnapshot =>
      if s.client.snapshot.Some? then s
      else s.(client := s.client.(snapshot := Some(s.log), joinedFirst := s.client.joined.Some?))
  }

  function Run(steps: seq<Step>): System {
    if steps == [] then START else Next(Run(steps[..|steps| - 1]), steps[|steps| - 1])
  }

  // ----- What a log holds -----

  predicate Numbered(published: seq<Event>) {
    forall i :: 0 <= i < |published| ==> published[i].sequence == i + 1
  }

  /** `e` was published and nothing of its kind after it. */
  predicate IsLatest(published: seq<Event>, e: Event) {
    1 <= e.sequence <= |published| && published[e.sequence - 1] == e &&
    forall i :: e.sequence <= i < |published| ==> published[i].kind != e.kind
  }

  predicate Descending(events: seq<Event>) {
    forall i, j :: 0 <= i < j < |events| ==> events[i].sequence > events[j].sequence
  }

  /** The log of a history: the latest event of each kind, newest first. */
  ghost predicate LogOf(log: Log, published: seq<Event>) {
    && log.sequence == |published|
    && Descending(log.events)
    && forall e :: e in log.events <==> IsLatest(published, e)
  }

  lemma {:induction false} WithoutKindFacts(events: seq<Event>, kind: Kind)
    ensures forall e :: e in WithoutKind(events, kind) <==> e in events && e.kind != kind
    ensures Descending(events) ==> Descending(WithoutKind(events, kind))
  {
    if events != [] {
      var rest := WithoutKind(events[1..], kind);
      WithoutKindFacts(events[1..], kind);
      assert forall e :: e in events <==> e == events[0] || e in events[1..];
      if Descending(events) {
        assert Descending(events[1..]);
        forall j | 0 <= j < |rest|
          ensures events[0].sequence > rest[j].sequence
        {
          assert rest[j] in rest && rest[j] in events[1..];
        }
      }
    }
  }

  lemma {:induction false} UpdateKeepsLog(log: Log, published: seq<Event>, input: Input)
    requires Numbered(published) && LogOf(log, published)
    ensures var all := published + [NextEvent(log, input)];
            Numbered(all) && LogOf(Updated(log, input), all)
  {
    var event := NextEvent(log, input);
    var all := published + [event];
    var kept := WithoutKind(log.events, input.kind);
    WithoutKindFacts(log.events, input.kind);
    forall e
      ensures IsLatest(all, e) <==> e == event || (IsLatest(published, e) && e.kind != event.kind)
    {
      LatestAppend(published, event, e);
    }
    forall j | 0 <= j < |kept|
      ensures kept[j].sequence < event.sequence
    {
      assert kept[j] in kept && IsLatest(published, kept[j]);
    }
  }

  lemma {:induction false} LatestAppend(published: seq<Event>, event: Event, e: Event)
    requires Numbered(published) && event.sequence == |published| + 1
    ensures IsLatest(published + [event], e) <==> e == event || (IsLatest(published, e) && e.kind != event.kind)
  {
    var all := published + [event];
    assert all[|published|] == event;
    if IsLatest(published, e) && e.kind != event.kind {
      assert forall i :: 0 <= i < |published| ==> all[i] == published[i];
    }
    if IsLatest(all, e) && e != event {
      assert all[e.sequence - 1] == published[e.sequence - 1];
      assert forall i :: e.sequence <= i < |published| ==> published[i] == all[i];
    }
  }

  // ----- The invariant of every run -----

  ghost predicate ClientInv(s: System) {
    var c := s.client;
    && (c.joined.Some? ==> c.joined.value <= |s.broadcast| && c.received == s.broadcast[c.joined.value..])
    && (c.joined.None? ==> c.received == [])
    && (c.snapshot.Some? ==> c.snapshot.value.sequence <= |s.published| &&
                             LogOf(c.snapshot.value, s.published[..c.snapshot.value.sequence]))
    && (c.joinedFirst ==> c.joined.Some? && c.snapshot.Some? && JoinedInTime(s))
  }

  /** No event numbered above the snapshot had been broadcast when the client subscribed. */
  predicate JoinedInTime(s: System) {
    var c := s.client;
    c.joined.Some? && c.snapshot.Some? && c.joined.value <= |s.broadcast| &&
    forall k :: 0 <= k < c.joined.value ==> s.broadcast[k].sequence <= c.snapshot.value.sequence
  }

  ghost predicate Inv(s: System) {
    && Numbered(s.published)
    && LogOf(s.log, s.published)
    && multiset(s.broadcast) + multiset(s.pending) == multiset(s.published)
    && ClientInv(s)
  }

  lemma {:induction false} StepKeepsInv(s: System, step: Step)
    requires Inv(s)
    ensures Inv(Next(s, step))
  {
    match step
    case Publish(input) => PublishKeepsInv(s, input);
    case Broadcast(i) =>
      if i < |s.pending| {
        BroadcastKeepsInv(s, i);
      }
    case Subscribe =>
      hide LogOf, Numbered;
      assert s.broadcast[|s.broadcast|..] == [];
    case TakeSnapshot =>
      SnapshotKeepsInv(s);
  }

  lemma {:induction false} PublishKeepsInv(s: System, input: Input)
    requires Inv(s)
    ensures Inv(Next(s, Publish(input)))
  {
    var event := NextEvent(s.log, input);
    UpdateKeepsLog(s.log, s.published, input);
    hide LogOf, Numbered, Updated, NextEvent;
    var c := s.client;
    if c.snapshot.Some? {
      var n := c.snapshot.value.sequence;
      assert (s.published + [event])[..n] == s.published[..n];
    }
  }

  lemma {:induction false} BroadcastKeepsInv(s: System, i: nat)
    requires Inv(s) && i < |s.pending|
    ensures Inv(Next(s, Broadcast(i)))
  {
    hide LogOf, Numbered;
    var event, c := s.pending[i], s.client;
    assert s.pending == s.pending[..i] + [event] + s.pending[i + 1..];
    assert multiset(s.pending) == multiset(s.pending[..i]) + multiset{event} + multiset(s.pending[i + 1..]);
    if c.joined.Some? {
      assert (s.broadcast + [event])[c.joined.value..] == s.broadcast[c.joined.value..] + [event];
    }
  }

  lemma {:induction false} BroadcastWasPublished(s: System, k: nat)
    requires Inv(s) && k < |s.broadcast|
    ensures s.broadcast[k] in s.published && 1 <= s.broadcast[k].sequence <= |s.published|
  {
    hide LogOf, ClientInv;
    assert s.broadcast[k] in multiset(s.broadcast);
    assert s.broadcast[k] in multiset(s.published);
  }

  lemma {:induction false} SnapshotKeepsInv(s: System)
    requires Inv(s)
    ensures Inv(Next(s, TakeSnapshot))
  {
    assert s.published[..|s.published|] == s.published;
    assert s.log.sequence == |s.published|;
    forall k | 0 <= k < |s.broadcast|
      ensures s.broadcast[k].sequence <= |s.published|
    {
      BroadcastWasPublished(s, k);
    }
    hide LogOf, Numbered;
  }

  /** On every run the log, and every snapshot taken, holds the latest event of each kind, newest first. */
  lemma {:induction false} RunKeepsInv(steps: seq<Step>)
    ensures Inv(Run(steps))
    decreases |steps|
  {
    if steps != [] {
      RunKeepsInv(steps[..|steps| - 1]);
      StepKeepsInv(Run(steps[..|steps| - 1]), steps[|steps| - 1]);
    }
  }

  predicate IsPublish(step: Step) {
    step.Publish?
  }

  /** The inputs published before step `n`, in order and numbered from 1. */
  predicate ArePublished(steps: seq<Step>, n: nat, published: seq<Event>)
    requires n <= |steps|
  {
    var at := Positions(steps, n, IsPublish);
    |published| == |at| && forall j :: 0 <= j < |at| ==>
      var input := steps[at[j]].input; published[j] == Event(j + 1, input.kind, input.payload)
  }

  lemma {:induction false} ArePublishedStep(steps: seq<Step>, i: nat, published: seq<Event>)
    requires i < |steps| && ArePublished(steps[..i], i, published)
    ensures ArePublished(
              steps, i + 1,
              if steps[i].Publish?
              then published + [Event(|published| + 1, steps[i].input.kind, steps[i].input.payload)] else published)
  {
    PositionsPrefix(steps, i, i, IsPublish);
    PositionsStep(steps, i, IsPublish);
    hide Positions;
  }

  lemma {:induction false} SequenceCounts(s: System)
    requires Inv(s)
    ensures s.log.sequence == |s.published|
  {
  }

  /** The events of a run are those published, in order and numbered from 1. */
  lemma {:induction false} PublishedOnRuns(steps: seq<Step>)
    ensures ArePublished(steps, |steps|, Run(steps).published)
    decreases |steps|
  {
    hide ArePublished, Inv, Next;
    if steps == [] {
      NothingPublished();
    } else {
      var n := |steps| - 1;
      var s := Run(steps[..n]);
      PublishedOnRuns(steps[..n]);
      RunKeepsInv(steps[..n]);
      SequenceCounts(s);
      NextPublished(s, steps[n]);
      ArePublishedStep(steps, n, s.published);
    }
  }

  lemma {:induction false} NothingPublished()
    ensures ArePublished([], 0, Run([]).published)
  {
  }

  lemma {:induction false} NextPublished(s: System, step: Step)
    ensures Next(s, step).published ==
            if step.Publish? then s.published + [Event(s.log.sequence + 1, step.input.kind, step.input.payload)]
            else s.published
  {
    hide Updated;
  }

  // ----- Delivery -----

  /** Every event numbered above the snapshot has reached the subscription. */
  ghost predicate Complete(s: System) {
    s.client.snapshot.Some? &&
    forall e :: e in s.published && e.sequence > s.client.snapshot.value.sequence ==> e in s.client.received
  }

  lemma {:induction false} PublishedOnce(s: System, e: Event)
    requires Inv(s)
    ensures multiset(s.published)[e] <= 1
  {
    assert e in multiset(s.published) <==> e in s.published;
    if e in s.published {
      var i := e.sequence - 1;
      assert s.published[i] == e;
      assert s.published == s.published[..i] + [e] + s.published[i + 1..];
      assert multiset(s.published) == multiset(s.published[..i]) + multiset{e} + multiset(s.published[i + 1..]);
      assert e !in s.published[..i] && e !in s.published[i + 1..];
      assert multiset(s.published[..i])[e] == 0 && multiset(s.published[i + 1..])[e] == 0;
    }
  }

  /** Nothing is delivered twice. */
  lemma {:induction false} DeliveredOnce(steps: seq<Step>, e: Event)
    ensures multiset(Run(steps).client.received)[e] <= 1
  {
    var s := Run(steps);
    RunKeepsInv(steps);
    PublishedOnce(s, e);
    hide LogOf, Numbered;
    if s.client.joined.Some? {
      var j := s.client.joined.value;
      assert s.broadcast == s.broadcast[..j] + s.broadcast[j..];
      assert multiset(s.broadcast) == multiset(s.broadcast[..j]) + multiset(s.broadcast[j..]);
    }
  }

  lemma {:induction false} Located(s: System, e: Event)
    requires Inv(s) && s.client.joined.Some? && e in s.published
    ensures var j := s.client.joined.value;
            e in s.broadcast[..j] || e in s.client.received || e in s.pending
  {
    hide LogOf, Numbered;
    var j := s.client.joined.value;
    assert e in multiset(s.published);
    assert e in multiset(s.broadcast) + multiset(s.pending);
    assert s.broadcast == s.broadcast[..j] + s.broadcast[j..];
  }

  /**
   A client that subscribed before it took its snapshot gets every event numbered
   above the snapshot as soon as that event's broadcast step has run.
   */
  lemma {:induction false} SubscribedFirst(steps: seq<Step>, e: Event)
    ensures var s := Run(steps);
            s.client.joinedFirst && s.client.snapshot.Some? &&
            e in s.published && e.sequence > s.client.snapshot.value.sequence ==>
              e in s.client.received || e in s.pending
    ensures Run(steps).client.joinedFirst ==> Run(steps).client.snapshot.Some?
  {
    var s := Run(steps);
    RunKeepsInv(steps);
    hide LogOf, Numbered, Run;
    if s.client.joinedFirst && e in s.published && e.sequence > s.client.snapshot.value.sequence {
      Located(s, e);
    }
  }

  /** Once all broadcasts have run, nothing is missing exactly when the client joined in time. */
  lemma {:induction false} CompleteMeaning(steps: seq<Step>)
    ensures var s := Run(steps);
            s.client.joined.Some? && s.client.snapshot.Some? && s.pending == [] ==>
              (Complete(s) <==> JoinedInTime(s))
  {
    var s := Run(steps);
    RunKeepsInv(steps);
    hide Run;
    if s.client.joined.Some? && s.client.snapshot.Some? && s.pending == [] {
      if JoinedInTime(s) {
        InTimeIsComplete(s);
      }
      if Complete(s) {
        CompleteIsInTime(s);
      }
    }
  }

  lemma {:induction false} InTimeIsComplete(s: System)
    requires Inv(s) && s.pending == [] && JoinedInTime(s)
    ensures Complete(s)
  {
    forall e | e in s.published && e.sequence > s.client.snapshot.value.sequence
      ensures e in s.client.received
    {
      Located(s, e);
    }
  }

  lemma {:induction false} CompleteIsInTime(s: System)
    requires Inv(s) && s.client.joined.Some? && Complete(s)
    ensures JoinedInTime(s)
  {
    var j := s.client.joined.value;
    forall k | 0 <= k < j
      ensures s.broadcast[k].sequence <= s.client.snapshot.value.sequence
    {
      var e := s.broadcast[k];
      BroadcastWasPublished(s, k);
      PublishedOnce(s, e);
      SeenTwice(s.broadcast, k, j, e);
      assert multiset(s.broadcast)[e] <= multiset(s.published)[e];
    }
  }

  lemma {:induction false} SeenTwice(broadcast: seq<Event>, k: nat, j: nat, e: Event)
    requires k < j <= |broadcast| && broadcast[k] == e
    ensures e in broadcast[j..] ==> multiset(broadcast)[e] >= 2
  {
    assert broadcast == broadcast[..j] + broadcast[j..];
    assert multiset(broadcast) == multiset(broadcast[..j]) + multiset(broadcast[j..]);
    assert broadcast[..j][k] == e;
    assert e in broadcast[..j];
    assert multiset(broadcast[..j])[e] >= 1;
    assert e in broadcast[j..] ==> multiset(broadcast[j..])[e] >= 1;
  }

  // ----- What the client ends up knowing -----

  /** The snapshot's events and the received ones numbered above it. */
  predicate InView(c: Client, e: Event)
    requires c.snapshot.Some?
  {
    e in c.snapshot.value.events || (e in c.received && e.sequence > c.snapshot.value.sequence)
  }

  ghost predicate NewestInView(c: Client, e: Event)
    requires c.snapshot.Some?
  {
    InView(c, e) && forall other :: InView(c, other) && other.kind == e.kind ==> other.sequence <= e.sequence
  }

  /** A complete client's newest event of each kind is the one the server holds. */
  lemma {:induction false} Converges(steps: seq<Step>, e: Event)
    ensures var s := Run(steps);
            s.client.joined.Some? && s.pending == [] && Complete(s) ==>
              (NewestInView(s.client, e) <==> e in s.log.events)
  {
    var s := Run(steps);
    RunKeepsInv(steps);
    hide Run;
    if s.client.joined.Some? && s.pending == [] && Complete(s) {
      forall other | InView(s.client, other)
        ensures other in s.published
      {
        ViewWasPublished(s, other);
      }
      if e in s.log.events {
        LatestIsSeen(s, e);
        forall other | InView(s.client, other) && other.kind == e.kind
          ensures other.sequence <= e.sequence
        {
          assert s.published[other.sequence - 1] == other;
        }
      }
      if NewestInView(s.client, e) {
        var latest := LatestOf(s.published, e);
        assert latest in s.log.events;
        LatestIsSeen(s, latest);
        assert s.published[e.sequence - 1] == e;
      }
    }
  }

  lemma {:induction false} ViewWasPublished(s: System, e: Event)
    requires Inv(s) && s.client.joined.Some? && s.client.snapshot.Some? && InView(s.client, e)
    ensures e in s.published
  {
    var n := s.client.snapshot.value.sequence;
    if e in s.client.snapshot.value.events {
      assert IsLatest(s.published[..n], e);
      assert e == s.published[e.sequence - 1];
    } else {
      var j := s.client.joined.value;
      var k :| 0 <= k < |s.client.received| && s.client.received[k] == e;
      BroadcastWasPublished(s, j + k);
    }
  }

  lemma {:induction false} LatestIsSeen(s: System, e: Event)
    requires Inv(s) && Complete(s) && e in s.log.events
    ensures InView(s.client, e)
  {
    var n := s.client.snapshot.value.sequence;
    assert IsLatest(s.published, e);
    if e.sequence <= n {
      assert s.published[..n][e.sequence - 1] == e;
      assert IsLatest(s.published[..n], e);
    } else {
      assert e in s.published;
    }
  }

  /** The last event of the kind of `e`. */
  lemma {:induction false} LatestOf(published: seq<Event>, e: Event) returns (latest: Event)
    requires Numbered(published) && e in published
    ensures IsLatest(published, latest) && latest.kind == e.kind && latest.sequence >= e.sequence
    decreases |published| - e.sequence
  {
    latest := e;
    assert published[e.sequence - 1] == e;
    if i :| e.sequence <= i < |published| && published[i].kind == e.kind {
      latest := LatestOf(published, published[i]);
    }
  }

  // ----- What the code does not promise -----

  /**
   A client that takes its snapshot first and subscribes afterwards, as the
   lifecycle subscription of the web-socket server does, can miss an event for good.
   */
  lemma {:induction false} SnapshotFirstMisses(input: Input)
    ensures var s := Run([TakeSnapshot, Publish(input), Broadcast(0), Subscribe]);
            s.client.joined.Some? && s.client.snapshot.Some? && s.pending == [] && !Complete(s)
  {
    var steps := [TakeSnapshot, Publish(input), Broadcast(0), Subscribe];
    RunPrefixes(steps[0], steps[1], steps[2], steps[3]);
    var s := Run(steps);
    var event := NextEvent(EMPTY_LOG, input);
    assert s.published == [event] && s.client.received == [];
    assert event in s.published;
  }

  lemma {:induction false} RunPrefixes(a: Step, b: Step, c: Step, d: Step)
    ensures Run([a, b, c, d]) == Next(Next(Next(Next(START, a), b), c), d)
  {
    assert [a][..0] == [] && [a, b][..1] == [a] && [a, b, c][..2] == [a, b] && [a, b, c, d][..3] == [a, b, c];
    assert Run([]) == START;
    assert Run([a]) == Next(START, a);
    assert Run([a, b]) == Next(Run([a]), b);
    assert Run([a, b, c]) == Next(Run([a, b]), c);
  }
}
