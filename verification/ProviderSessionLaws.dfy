/** What every run of the adapter keeps, and what rolling back undoes. */
module ProviderSessionLaws {
  import opened Outcomes
  import opened Text
  import opened ProviderSessions

  function Run(ops: seq<Operation>): Adapter {
    if ops == [] then NO_SESSIONS else Apply(Run(ops[..|ops| - 1]), ops[|ops| - 1]).0
  }

  predicate CountsTurns(s: Session) {
    s.turnCount >= |s.turns|
  }

  /** The turns are numbered by their positions. */
  predicate Aligned(turns: seq<Turn>) {
    forall i :: 0 <= i < |turns| ==> turns[i].id == TurnId(i + 1)
  }

  predicate Exact(s: Session) {
    s.turnCount == |s.turns| && Aligned(s.turns)
  }

  lemma {:induction false} TurnIdInjective(a: nat, b: nat)
    requires TurnId(a) == TurnId(b)
    ensures a == b
  {
    assert TurnId(a)[5..] == NatText(a) && TurnId(b)[5..] == NatText(b);
    NatTextValue(a);
    NatTextValue(b);
  }

  // ----- Runs -----

  /** On every run the turn count of every session is at least the number of its turns. */
  lemma {:induction false} CountNeverBelow(ops: seq<Operation>, threadId: string)
    ensures threadId in Run(ops).sessions ==> CountsTurns(Run(ops).sessions[threadId])
    decreases |ops|
  {
    if ops != [] {
      var a, op := Run(ops[..|ops| - 1]), ops[|ops| - 1];
      CountNeverBelow(ops[..|ops| - 1], threadId);
      hide TurnEvents, TurnFor, TurnId;
      assert threadId in Apply(a, op).0.sessions ==> CountsTurns(Apply(a, op).0.sessions[threadId]);
    }
  }

  /** No send of the run found its session without a queued response. */
  predicate NoSendFailed(ops: seq<Operation>) {
    ops == [] ||
    (NoSendFailed(ops[..|ops| - 1]) && Apply(Run(ops[..|ops| - 1]), ops[|ops| - 1]).1 != Some(NoResponse))
  }

  /** On runs where every send had a response, each session has turns turn-1 to turn-n and counts n. */
  lemma {:induction false} ExactRuns(ops: seq<Operation>, threadId: string)
    requires NoSendFailed(ops)
    ensures threadId in Run(ops).sessions ==> Exact(Run(ops).sessions[threadId])
    decreases |ops|
  {
    if ops != [] {
      var a, op := Run(ops[..|ops| - 1]), ops[|ops| - 1];
      ExactRuns(ops[..|ops| - 1], threadId);
      StepKeepsExact(a, op, threadId);
    }
  }

  lemma {:induction false} StepKeepsExact(a: Adapter, op: Operation, threadId: string)
    requires threadId in a.sessions ==> Exact(a.sessions[threadId])
    requires Apply(a, op).1 != Some(NoResponse)
    ensures threadId in Apply(a, op).0.sessions ==> Exact(Apply(a, op).0.sessions[threadId])
  {
    hide TurnEvents, TurnId, AllStamped, Deltas;
    if op.Send? && op.threadId == threadId && threadId in a.sessions {
      SendAlignment(a.sessions[threadId], threadId, op.input);
    }
  }

  /**
   After a response is used, the turns stay numbered by position exactly when no earlier
   send had failed uncorrected.
   */
  lemma {:induction false} SendAlignment(s: Session, threadId: string, input: string)
    requires Aligned(s.turns) && s.queued != []
    ensures Aligned(SendIn(s, threadId, input).turns) <==> s.turnCount == |s.turns|
  {
    hide TurnId, AllStamped, Deltas;
    var t := SendIn(s, threadId, input);
    assert t.turns[|s.turns|].id == TurnId(s.turnCount + 1);
    if Aligned(t.turns) {
      TurnIdInjective(s.turnCount + 1, |s.turns| + 1);
    }
  }

  // ----- Sending and rolling back -----

  function Sends(s: Session, threadId: string, inputs: seq<string>): Session {
    if inputs == [] then s else SendIn(Sends(s, threadId, inputs[..|inputs| - 1]), threadId, inputs[|inputs| - 1])
  }

  /** Responses are used first in, first out: the i-th new turn comes from the i-th input and the i-th response. */
  lemma {:induction false} SendsMeaning(s: Session, threadId: string, inputs: seq<string>)
    requires |inputs| <= |s.queued|
    ensures var t := Sends(s, threadId, inputs);
            && t.turnCount == s.turnCount + |inputs|
            && t.queued == s.queued[|inputs|..]
            && t.rollbackCalls == s.rollbackCalls
            && |t.turns| == |s.turns| + |inputs|
            && t.turns[..|s.turns|] == s.turns
            && forall i :: 0 <= i < |inputs| ==>
                 t.turns[|s.turns| + i] == TurnFor(s.turnCount + i + 1, threadId, inputs[i], s.queued[i])
    decreases |inputs|
  {
    hide TurnFor;
    var n := |inputs|;
    if n > 0 {
      var front := inputs[..n - 1];
      SendsMeaning(s, threadId, front);
      var u := Sends(s, threadId, front);
      assert u.queued[0] == s.queued[n - 1] && u.queued[1..] == s.queued[n..];
      var t := SendIn(u, threadId, inputs[n - 1]);
      assert t.turns[..|s.turns|] == u.turns[..|s.turns|];
      assert forall j :: 0 <= j < |u.turns| ==> t.turns[j] == u.turns[j];
    } else {
      assert s.turns[..|s.turns|] == s.turns;
    }
  }

  /** Rolling back as many turns as were sent restores the turns, and the count too if none was missing before. */
  lemma {:induction false} RollbackUndoesSends(s: Session, threadId: string, inputs: seq<string>)
    requires |inputs| <= |s.queued|
    ensures var t := Sends(s, threadId, inputs);
            && |inputs| <= |t.turns|
            && RollbackIn(t, |inputs|).turns == s.turns
            && (RollbackIn(t, |inputs|).turnCount == s.turnCount <==> s.turnCount == |s.turns|)
  {
    hide SendIn, TurnFor;
    SendsMeaning(s, threadId, inputs);
  }

  function Rollbacks(threadId: string, counts: seq<int>): (ops: seq<Operation>)
    ensures |ops| == |counts| && forall i :: 0 <= i < |ops| ==> ops[i] == Rollback(threadId, counts[i])
  {
    seq(|counts|, i requires 0 <= i < |counts| => Rollback(threadId, counts[i]))
  }

  function Total(counts: seq<int>): int {
    if counts == [] then 0 else Total(counts[..|counts| - 1]) + counts[|counts| - 1]
  }

  predicate AllNatural(counts: seq<int>) {
    forall i :: 0 <= i < |counts| ==> counts[i] >= 0
  }

  /** `t` is `s` after these rollbacks: the sum of the counts is dropped, and each is recorded. */
  predicate RolledBack(s: Session, t: Session, counts: seq<int>) {
    && 0 <= Total(counts) <= |s.turns|
    && t.turns == s.turns[..|s.turns| - Total(counts)]
    && (counts != [] ==> t.turnCount == |t.turns|) && (counts == [] ==> t == s)
    && t.queued == s.queued && t.rollbackCalls == s.rollbackCalls + counts
  }

  /** No operation of the run from position `from` on failed. */
  predicate NoneRefused(ops: seq<Operation>, from: nat) {
    forall i :: from <= i < |ops| ==> Apply(Run(ops[..i]), ops[i]).1 == None
  }

  lemma {:induction false} RefusedAppend(ops: seq<Operation>, op: Operation, from: nat)
    requires from <= |ops|
    ensures NoneRefused(ops + [op], from) <==> NoneRefused(ops, from) && Apply(Run(ops), op).1 == None
    ensures Run(ops + [op]) == Apply(Run(ops), op).0
  {
    hide Apply;
    var all := ops + [op];
    assert all[..|ops|] == ops && all[|ops|] == op;
    assert forall i :: 0 <= i < |ops| ==> all[..i] == ops[..i] && all[i] == ops[i];
    if NoneRefused(all, from) {
      assert forall i :: from <= i < |ops| ==> Apply(Run(all[..i]), all[i]).1 == None;
      assert Apply(Run(all[..|ops|]), all[|ops|]).1 == None;
    }
  }

  lemma {:induction false} RollbackAccepted(a: Adapter, threadId: string, count: int)
    requires threadId in a.sessions
    ensures var s, (b, failure) := a.sessions[threadId], Apply(a, Rollback(threadId, count));
            && (failure == None <==> 0 <= count <= |s.turns|)
            && (failure == None ==> b.sessions == a.sessions[threadId := RollbackIn(s, count)])
  {
  }

  /**
   Any number of rollbacks in a row all succeed exactly when none is negative and
   together they are at most the turns there are; then they drop their sum.
   */
  lemma {:induction false} RollbacksAdd(ops: seq<Operation>, threadId: string, counts: seq<int>)
    requires threadId in Run(ops).sessions
    ensures var s, all := Run(ops).sessions[threadId], ops + Rollbacks(threadId, counts);
            && (NoneRefused(all, |ops|) <==> AllNatural(counts) && Total(counts) <= |s.turns|)
            && (NoneRefused(all, |ops|) ==>
                  threadId in Run(all).sessions && RolledBack(s, Run(all).sessions[threadId], counts))
    decreases |counts|
  {
    hide Apply, NoneRefused, Run, RolledBack, RollbackIn;
    if counts == [] {
      NothingRefused(ops);
      NothingRolledBack(Run(ops).sessions[threadId]);
      assert ops + Rollbacks(threadId, counts) == ops;
    } else {
      var front, count := counts[..|counts| - 1], counts[|counts| - 1];
      var before := ops + Rollbacks(threadId, front);
      RollbacksAdd(ops, threadId, front);
      assert ops + Rollbacks(threadId, counts) == before + [Rollback(threadId, count)];
      RefusedAppend(before, Rollback(threadId, count), |ops|);
      assert AllNatural(counts) <==> AllNatural(front) && count >= 0;
      if NoneRefused(before, |ops|) {
        RollbackAccepted(Run(before), threadId, count);
        RollbackTurns(Run(ops).sessions[threadId], Run(before).sessions[threadId], counts);
      }
    }
  }

  lemma {:induction false} NothingRolledBack(s: Session)
    ensures RolledBack(s, s, [])
  {
    assert s.turns[..|s.turns|] == s.turns;
  }

  lemma {:induction false} RollbackTurns(s: Session, t: Session, counts: seq<int>)
    requires counts != [] && RolledBack(s, t, counts[..|counts| - 1])
    ensures |t.turns| == |s.turns| - Total(counts[..|counts| - 1])
    ensures var count := counts[|counts| - 1];
            0 <= count <= |t.turns| ==> RolledBack(s, RollbackIn(t, count), counts)
  {
    assert counts[..|counts| - 1] + [counts[|counts| - 1]] == counts;
  }

  lemma {:induction false} NothingRefused(ops: seq<Operation>)
    ensures NoneRefused(ops, |ops|)
  {
  }

  // ----- When turn ids stay unique -----

  /** The number in a turn id. */
  function NumberIn(id: string): nat {
    if |id| >= 5 && AllDigits(id[5..]) then DigitsValue(id[5..]) else 0
  }

  lemma {:induction false} NumberInTurnId(n: nat)
    ensures NumberIn(TurnId(n)) == n
  {
    assert TurnId(n)[5..] == NatText(n);
    NatTextValue(n);
  }

  predicate IsNumbered(turn: Turn) {
    turn.id == TurnId(NumberIn(turn.id)) && NumberIn(turn.id) > 0
  }

  /** Every id is a turn number, and the numbers ascend. */
  predicate Ascending(turns: seq<Turn>) {
    && (forall i :: 0 <= i < |turns| ==> IsNumbered(turns[i]))
    && (forall i, j :: 0 <= i < j < |turns| ==> NumberIn(turns[i].id) < NumberIn(turns[j].id))
  }

  /** Moreover no number is above the turn count, so the next one is new. */
  predicate Fresh(s: Session) {
    Ascending(s.turns) && forall i :: 0 <= i < |s.turns| ==> NumberIn(s.turns[i].id) <= s.turnCount
  }

  predicate UniqueIds(turns: seq<Turn>) {
    forall i, j :: 0 <= i < j < |turns| ==> turns[i].id != turns[j].id
  }

  lemma {:induction false} AscendingIsUnique(turns: seq<Turn>)
    requires Ascending(turns)
    ensures UniqueIds(turns)
  {
    hide NumberIn, TurnId;
    forall i, j | 0 <= i < j < |turns|
      ensures turns[i].id != turns[j].id
    {
      assert NumberIn(turns[i].id) < NumberIn(turns[j].id);
    }
  }

  lemma {:induction false} NewTurnNumber(s: Session, threadId: string, input: string)
    requires s.queued != []
    ensures var turns := SendIn(s, threadId, input).turns;
            && |turns| == |s.turns| + 1 && turns[..|s.turns|] == s.turns
            && turns[|s.turns|].id == TurnId(s.turnCount + 1)
            && IsNumbered(turns[|s.turns|]) && NumberIn(turns[|s.turns|].id) == s.turnCount + 1
  {
    hide AllStamped, Deltas, TurnId, NumberIn;
    NumberInTurnId(s.turnCount + 1);
  }

  /** A send, answered or not, keeps ids fresh. */
  lemma {:induction false} SendKeepsFresh(s: Session, threadId: string, input: string)
    requires Fresh(s)
    ensures Fresh(SendIn(s, threadId, input))
  {
    hide AllStamped, Deltas, TurnId, NumberIn;
    if s.queued != [] {
      NewTurnNumber(s, threadId, input);
      var turns := SendIn(s, threadId, input).turns;
      assert forall i :: 0 <= i < |s.turns| ==> turns[i] == s.turns[i];
    }
  }

  /** Ascending numbers are at least their positions. */
  lemma {:induction false} AtLeastPosition(turns: seq<Turn>, i: nat)
    requires Ascending(turns) && i < |turns|
    ensures NumberIn(turns[i].id) >= i + 1
  {
    hide NumberIn, TurnId;
    assert IsNumbered(turns[i]);
    if i > 0 {
      AtLeastPosition(turns, i - 1);
    }
  }

  /** Ascending numbers that do not exceed their count are the positions. */
  lemma {:induction false} PackedIsAligned(turns: seq<Turn>, i: nat)
    requires Ascending(turns) && i < |turns|
    requires NumberIn(turns[|turns| - 1].id) <= |turns|
    ensures NumberIn(turns[i].id) == i + 1
    decreases |turns| - i
  {
    hide NumberIn, TurnId;
    AtLeastPosition(turns, i);
    if i < |turns| - 1 {
      PackedIsAligned(turns, i + 1);
    }
  }

  /** A rollback keeps ids fresh exactly when the turns it keeps are numbered by position. */
  lemma {:induction false} RollbackFreshness(s: Session, count: nat)
    requires Fresh(s) && count <= |s.turns|
    ensures Fresh(RollbackIn(s, count)) <==> Aligned(s.turns[..|s.turns| - count])
  {
    hide NumberIn, TurnId;
    var kept := s.turns[..|s.turns| - count];
    assert forall i :: 0 <= i < |kept| ==> kept[i] == s.turns[i];
    assert Ascending(kept);
    if Fresh(RollbackIn(s, count)) {
      forall i | 0 <= i < |kept|
        ensures kept[i].id == TurnId(i + 1)
      {
        PackedIsAligned(kept, i);
        assert IsNumbered(kept[i]);
      }
    }
    if Aligned(kept) {
      forall i | 0 <= i < |kept|
        ensures NumberIn(kept[i].id) <= |kept|
      {
        NumberInTurnId(i + 1);
      }
    }
  }

  /**
   After further answered sends the ids are unique exactly when no turn that was
   there has one of the numbers the sends use up.
   */
  lemma {:induction false} UniqueAfterSends(s: Session, threadId: string, inputs: seq<string>)
    requires Ascending(s.turns) && |inputs| <= |s.queued|
    ensures UniqueIds(Sends(s, threadId, inputs).turns) <==>
            forall i :: 0 <= i < |s.turns| ==>
              !(s.turnCount < NumberIn(s.turns[i].id) <= s.turnCount + |inputs|)
  {
    hide Sends, TurnFor, NumberIn, TurnId;
    SendsMeaning(s, threadId, inputs);
    var turns, n := Sends(s, threadId, inputs).turns, |s.turns|;
    assert forall i :: 0 <= i < n ==> turns[i] == s.turns[i];
    SentNumbers(s, threadId, inputs);
    forall i | 0 <= i < n
      ensures IsNumbered(turns[i])
    {
      assert IsNumbered(s.turns[i]);
    }
    if i :| 0 <= i < n && s.turnCount < NumberIn(s.turns[i].id) <= s.turnCount + |inputs| {
      UsedNumberRepeats(s, threadId, inputs, i);
    }
    if forall i :: 0 <= i < n ==> !(s.turnCount < NumberIn(s.turns[i].id) <= s.turnCount + |inputs|) {
      forall i, j | 0 <= i < j < |turns|
        ensures turns[i].id != turns[j].id
      {
        if j < n {
          assert NumberIn(s.turns[i].id) < NumberIn(s.turns[j].id);
        } else {
          assert NumberIn(turns[j].id) == s.turnCount + (j - n) + 1;
          assert i >= n ==> NumberIn(turns[i].id) == s.turnCount + (i - n) + 1;
        }
      }
    }
  }

  lemma {:induction false} UsedNumberRepeats(s: Session, threadId: string, inputs: seq<string>, i: nat)
    requires |inputs| <= |s.queued| && i < |s.turns| && IsNumbered(s.turns[i])
    requires s.turnCount < NumberIn(s.turns[i].id) <= s.turnCount + |inputs|
    ensures !UniqueIds(Sends(s, threadId, inputs).turns)
  {
    hide Sends, NumberIn, TurnId, TurnFor;
    SendsMeaning(s, threadId, inputs);
    SentNumbers(s, threadId, inputs);
    var turns := Sends(s, threadId, inputs).turns;
    var j := |s.turns| + NumberIn(s.turns[i].id) - s.turnCount - 1;
    assert turns[..|s.turns|][i] == s.turns[i];
    assert turns[i].id == turns[j].id;
  }

  lemma {:induction false} SentNumbers(s: Session, threadId: string, inputs: seq<string>)
    requires |inputs| <= |s.queued|
    ensures var turns := Sends(s, threadId, inputs).turns;
            && |turns| == |s.turns| + |inputs|
            && forall j :: |s.turns| <= j < |turns| ==>
                 turns[j].id == TurnId(s.turnCount + (j - |s.turns|) + 1) &&
                 NumberIn(turns[j].id) == s.turnCount + (j - |s.turns|) + 1
  {
    hide Sends, NumberIn, TurnId, AllStamped, Deltas;
    SendsMeaning(s, threadId, inputs);
    var turns := Sends(s, threadId, inputs).turns;
    forall j | |s.turns| <= j < |turns|
      ensures turns[j].id == TurnId(s.turnCount + (j - |s.turns|) + 1) &&
              NumberIn(turns[j].id) == s.turnCount + (j - |s.turns|) + 1
    {
      var i := j - |s.turns|;
      assert turns[|s.turns| + i] == TurnFor(s.turnCount + i + 1, threadId, inputs[i], s.queued[i]);
      NumberInTurnId(s.turnCount + i + 1);
    }
  }

  /**
   A rollback that keeps a last turn numbered above its position makes two turns
   share an id as soon as enough answered sends have followed.
   */
  lemma {:induction false} UnalignedRollbackRepeats(s: Session, count: nat, threadId: string, inputs: seq<string>)
    requires Fresh(s) && count < |s.turns|
    requires var kept := |s.turns| - count;
             kept < NumberIn(s.turns[kept - 1].id) <= kept + |inputs| && |inputs| <= |s.queued|
    ensures !UniqueIds(Sends(RollbackIn(s, count), threadId, inputs).turns)
  {
    hide Sends, NumberIn, TurnId;
    var r := RollbackIn(s, count);
    assert forall i :: 0 <= i < |r.turns| ==> r.turns[i] == s.turns[i];
    assert Ascending(r.turns);
    UniqueAfterSends(r, threadId, inputs);
  }

  /** Every rollback of the run that was carried out kept turns numbered by position. */
  predicate RollbacksAligned(ops: seq<Operation>) {
    ops == [] ||
    var a, op := Run(ops[..|ops| - 1]), ops[|ops| - 1];
    RollbacksAligned(ops[..|ops| - 1]) &&
    (op.Rollback? && Apply(a, op).1 == None ==> Aligned(Apply(a, op).0.sessions[op.threadId].turns))
  }

  /** On such runs, failed sends or not, the turn ids of every session are unique. */
  lemma {:induction false} IdsUniqueOnRuns(ops: seq<Operation>, threadId: string)
    requires RollbacksAligned(ops)
    ensures threadId in Run(ops).sessions ==>
              Fresh(Run(ops).sessions[threadId]) && UniqueIds(Run(ops).sessions[threadId].turns)
    decreases |ops|
  {
    if ops != [] {
      var a, op := Run(ops[..|ops| - 1]), ops[|ops| - 1];
      IdsUniqueOnRuns(ops[..|ops| - 1], threadId);
      StepKeepsFresh(a, op, threadId);
      hide Fresh, UniqueIds, Apply;
      if threadId in Run(ops).sessions {
        FreshIsUnique(Run(ops).sessions[threadId]);
      }
    }
  }

  lemma {:induction false} FreshIsUnique(s: Session)
    requires Fresh(s)
    ensures UniqueIds(s.turns)
  {
    AscendingIsUnique(s.turns);
  }

  lemma {:induction false} StepKeepsFresh(a: Adapter, op: Operation, threadId: string)
    requires threadId in a.sessions ==> Fresh(a.sessions[threadId])
    requires op.Rollback? && Apply(a, op).1 == None ==> Aligned(Apply(a, op).0.sessions[op.threadId].turns)
    ensures threadId in Apply(a, op).0.sessions ==> Fresh(Apply(a, op).0.sessions[threadId])
  {
    hide TurnEvents, TurnId, NumberIn, SendIn;
    if threadId in a.sessions {
      var s := a.sessions[threadId];
      if op.Send? && op.threadId == threadId {
        SendKeepsFresh(s, threadId, op.input);
      } else if op.Rollback? && op.threadId == threadId && 0 <= op.count <= |s.turns| {
        RollbackFreshness(s, op.count);
      }
    }
  }

  /**
   A session is started, a send finds no response, the next send is answered, no
   turn is rolled back, and the send after that repeats the turn id.
   */
  function RepeatingRun(threadId: string, input: string, a: Response, b: Response): seq<Operation> {
    [Start(threadId, true), Send(threadId, input), Queue(threadId, a), Queue(threadId, b),
     Send(threadId, input), Rollback(threadId, 0), Send(threadId, input)]
  }

  lemma {:induction false} RunTakesStep(ops: seq<Operation>, op: Operation)
    ensures Run(ops + [op]) == Apply(Run(ops), op).0
  {
    assert (ops + [op])[..|ops|] == ops;
  }

  lemma {:induction false} RepeatingRunQueues(threadId: string, input: string, a: Response, b: Response)
    ensures var r := Run(RepeatingRun(threadId, input, a, b)[..4]);
            threadId in r.sessions && r.sessions[threadId] == Session([], 1, [a, b], [])
  {
    hide TurnEvents, TurnFor;
    var ops := RepeatingRun(threadId, input, a, b);
    assert ops[..1] == [] + [ops[0]] && ops[..2] == ops[..1] + [ops[1]];
    assert ops[..3] == ops[..2] + [ops[2]] && ops[..4] == ops[..3] + [ops[3]];
    RunTakesStep([], ops[0]);
    RunTakesStep(ops[..1], ops[1]);
    RunTakesStep(ops[..2], ops[2]);
    RunTakesStep(ops[..3], ops[3]);
    assert [a] + [b] == [a, b];
  }

  /** A failed send followed by a rollback of nothing makes two turns share an id. */
  lemma {:induction false} FailedSendRepeatsId(threadId: string, input: string, a: Response, b: Response)
    ensures var r := Run(RepeatingRun(threadId, input, a, b));
            threadId in r.sessions &&
            var turns := r.sessions[threadId].turns; |turns| == 2 && turns[0].id == turns[1].id
  {
    hide TurnEvents, TurnFor, Run;
    var ops := RepeatingRun(threadId, input, a, b);
    RepeatingRunQueues(threadId, input, a, b);
    assert ops[..5] == ops[..4] + [ops[4]] && ops[..6] == ops[..5] + [ops[5]] && ops == ops[..6] + [ops[6]];
    RunTakesStep(ops[..4], ops[4]);
    RunTakesStep(ops[..5], ops[5]);
    RunTakesStep(ops[..6], ops[6]);
    var first, second := TurnFor(2, threadId, input, a), TurnFor(2, threadId, input, b);
    assert Run(ops[..5]).sessions[threadId] == Session([first], 2, [b], []);
    assert [first][..1] == [first];
    assert Run(ops[..6]).sessions[threadId] == Session([first], 1, [b], [0]);
    assert Run(ops).sessions[threadId].turns == [first, second];
    SameNumberSameId(2, threadId, input, a, b);
  }

  lemma {:induction false} SameNumberSameId(n: nat, threadId: string, input: string, a: Response, b: Response)
    ensures TurnFor(n, threadId, input, a).id == TurnFor(n, threadId, input, b).id
  {
    hide AllStamped, Deltas, TurnId;
  }

  // ----- What a turn emits -----

  predicate AllAre(events: seq<RuntimeEvent>, completions: bool) {
    forall i :: 0 <= i < |events| ==> IsCompletion(events[i]) == completions
  }

  lemma {:induction false} SelectFacts(events: seq<RuntimeEvent>, completions: bool)
    ensures AllAre(Select(events, completions), completions)
    ensures AllAre(events, completions) ==> Select(events, completions) == events && Select(events, !completions) == []
    decreases |events|
  {
    hide IsCompletion;
    if events != [] {
      var front, last := events[..|events| - 1], events[|events| - 1];
      SelectFacts(front, completions);
      assert events == front + [last];
      assert AllAre(events, completions) ==> AllAre(front, completions) && IsCompletion(last) == completions;
    }
  }

  lemma {:induction false} SelectAppend(a: seq<RuntimeEvent>, b: seq<RuntimeEvent>, completions: bool)
    ensures Select(a + b, completions) == Select(a, completions) + Select(b, completions)
    decreases |b|
  {
    hide IsCompletion;
    if b == [] {
      assert a + b == a;
    } else {
      assert (a + b)[..|a + b| - 1] == a + b[..|b| - 1];
      SelectAppend(a, b[..|b| - 1], completions);
    }
  }

  /** All but completions come first, in order and none lost; then at least one completion. */
  lemma {:induction false} CompletionsComeLast(response: Response, threadId: string, turnId: string)
    ensures var all, sent := AllStamped(response, threadId, turnId), TurnEvents(response, threadId, turnId);
            var k := |Select(all, false)|;
            && k < |sent|
            && sent[..k] == Select(all, false)
            && Select(sent, false) == Select(all, false)
            && (forall i :: 0 <= i < |sent| ==> (IsCompletion(sent[i]) <==> i >= k))
            && (Select(all, true) != [] ==> Select(sent, true) == Select(all, true))
            && (Select(all, true) == [] ==> Select(sent, true) == [OwnCompletion(threadId, turnId)])
  {
    hide Select, AllStamped;
    var all, sent := AllStamped(response, threadId, turnId), TurnEvents(response, threadId, turnId);
    var front := Select(all, false);
    var own := [OwnCompletion(threadId, turnId)];
    var back := if Select(all, true) == [] then own else Select(all, true);
    SelectFacts(all, false);
    SelectFacts(all, true);
    assert AllAre(own, true);
    SelectFacts(front, false);
    SelectFacts(back, true);
    SelectAppend(front, back, false);
    SelectAppend(front, back, true);
    assert sent[..|front|] == front && front + [] == front && [] + back == back;
  }

  /** Every emitted event belongs to the thread, and one that names a turn names this turn. */
  lemma {:induction false} EventsAreStamped(response: Response, threadId: string, turnId: string, i: nat)
    requires i < |TurnEvents(response, threadId, turnId)|
    ensures var e := TurnEvents(response, threadId, turnId)[i];
            e.threadId == threadId && (e.turnId.Some? ==> e.turnId.value == turnId)
  {
    var all, sent := AllStamped(response, threadId, turnId), TurnEvents(response, threadId, turnId);
    var e := sent[i];
    if i < |Select(all, false)| {
      SelectSubset(all, false, e);
    } else if Select(all, true) != [] {
      SelectSubset(all, true, e);
    }
  }

  lemma {:induction false} SelectSubset(events: seq<RuntimeEvent>, completions: bool, e: RuntimeEvent)
    requires e in Select(events, completions)
    ensures e in events
    decreases |events|
  {
    var front := events[..|events| - 1];
    if e in Select(front, completions) {
      SelectSubset(front, completions, e);
    }
  }

  // ----- Sessions do not disturb each other -----

  /** Sessions start with what is queued for the next one, so every start counts. */
  predicate Concerns(op: Operation, threadId: string) {
    match op
    case Start(_, _) => true
    case Send(t, _) => t == threadId
    case Rollback(t, _) => t == threadId
    case Queue(t, _) => t == threadId
    case QueueForNext(_) => true
    case Stop(t) => t == threadId
    case StopAll => true
  }

  /** The operations that concern a thread. */
  function OwnOperations(ops: seq<Operation>, threadId: string): seq<Operation> {
    if ops == [] then []
    else
      OwnOperations(ops[..|ops| - 1], threadId) +
      if Concerns(ops[|ops| - 1], threadId) then [ops[|ops| - 1]] else []
  }

  function EventsOf(events: seq<RuntimeEvent>, threadId: string): seq<RuntimeEvent> {
    if events == [] then []
    else
      EventsOf(events[..|events| - 1], threadId) +
      if events[|events| - 1].threadId == threadId then [events[|events| - 1]] else []
  }

  /** A thread's session and events, and what is queued for the next session, are the same. */
  predicate SameFor(a: Adapter, b: Adapter, threadId: string) {
    && (threadId in a.sessions <==> threadId in b.sessions)
    && (threadId in a.sessions ==> a.sessions[threadId] == b.sessions[threadId])
    && a.forNext == b.forNext
    && EventsOf(a.events, threadId) == EventsOf(b.events, threadId)
  }

  lemma {:induction false} EventsOfAppend(a: seq<RuntimeEvent>, b: seq<RuntimeEvent>, threadId: string)
    ensures EventsOf(a + b, threadId) == EventsOf(a, threadId) + EventsOf(b, threadId)
    decreases |b|
  {
    if b == [] {
      assert a + b == a;
    } else {
      assert (a + b)[..|a + b| - 1] == a + b[..|b| - 1];
      EventsOfAppend(a, b[..|b| - 1], threadId);
    }
  }

  lemma {:induction false} NoEventsOf(events: seq<RuntimeEvent>, threadId: string)
    requires forall e :: e in events ==> e.threadId != threadId
    ensures EventsOf(events, threadId) == []
    decreases |events|
  {
    if events != [] {
      NoEventsOf(events[..|events| - 1], threadId);
      assert events[|events| - 1] in events;
    }
  }

  lemma {:induction false} OtherOperation(a: Adapter, op: Operation, threadId: string)
    requires !Concerns(op, threadId)
    ensures SameFor(Apply(a, op).0, a, threadId)
  {
    hide TurnEvents, SendIn, RollbackIn, EventsOf;
    if op.Send? && op.threadId in a.sessions && a.sessions[op.threadId].queued != [] {
      var s := a.sessions[op.threadId];
      var sent := TurnEvents(s.queued[0], op.threadId, TurnId(s.turnCount + 1));
      EventsOfAppend(a.events, sent, threadId);
      forall e | e in sent
        ensures e.threadId != threadId
      {
        var i :| 0 <= i < |sent| && sent[i] == e;
        EventsAreStamped(s.queued[0], op.threadId, TurnId(s.turnCount + 1), i);
      }
      NoEventsOf(sent, threadId);
    }
  }

  lemma {:induction false} OwnOperation(a: Adapter, b: Adapter, op: Operation, threadId: string)
    requires SameFor(a, b, threadId) && Concerns(op, threadId)
    ensures SameFor(Apply(a, op).0, Apply(b, op).0, threadId)
  {
    hide TurnEvents, SendIn, RollbackIn, EventsOf;
    if op.Send? && op.threadId in a.sessions && a.sessions[op.threadId].queued != [] {
      var s := a.sessions[op.threadId];
      var sent := TurnEvents(s.queued[0], op.threadId, TurnId(s.turnCount + 1));
      EventsOfAppend(a.events, sent, threadId);
      EventsOfAppend(b.events, sent, threadId);
    }
  }

  /** On every run a thread's session and events are what the operations that concern it alone would give. */
  lemma {:induction false} OthersUntouched(ops: seq<Operation>, threadId: string)
    ensures SameFor(Run(ops), Run(OwnOperations(ops, threadId)), threadId)
    decreases |ops|
  {
    hide Apply, Concerns, SameFor;
    if ops == [] {
      SameForItself(NO_SESSIONS, threadId);
    } else {
      var front, op := ops[..|ops| - 1], ops[|ops| - 1];
      var own := OwnOperations(front, threadId);
      OthersUntouched(front, threadId);
      if Concerns(op, threadId) {
        OwnOperation(Run(front), Run(own), op, threadId);
        assert (own + [op])[..|own|] == own;
      } else {
        OtherOperation(Run(front), op, threadId);
        SameForBoth(Run(ops), Run(front), Run(own), threadId);
        assert own + [] == own;
      }
    }
  }

  lemma {:induction false} SameForItself(a: Adapter, threadId: string)
    ensures SameFor(a, a, threadId)
  {
  }

  lemma {:induction false} SameForBoth(a: Adapter, b: Adapter, c: Adapter, threadId: string)
    requires SameFor(a, b, threadId) && SameFor(b, c, threadId)
    ensures SameFor(a, c, threadId)
  {
  }

  /** A new session takes all responses queued for it, in order, and no later session sees them. */
  lemma {:induction false} NextSessionTakesQueue(a: Adapter, responses: seq<Response>, threadId: string)
    requires a.forNext == []
    ensures var started := Apply(QueuedForNext(a, responses), Start(threadId, true)).0;
            started.sessions[threadId] == Session([], 0, responses, []) && started.forNext == []
  {
    QueuesInOrder(a, responses);
  }

  function QueuedForNext(a: Adapter, responses: seq<Response>): Adapter {
    if responses == [] then a
    else Apply(QueuedForNext(a, responses[..|responses| - 1]), QueueForNext(responses[|responses| - 1])).0
  }

  lemma {:induction false} QueuesInOrder(a: Adapter, responses: seq<Response>)
    ensures QueuedForNext(a, responses) == a.(forNext := a.forNext + responses)
    decreases |responses|
  {
    if responses != [] {
      var front := responses[..|responses| - 1];
      QueuesInOrder(a, front);
      assert a.forNext + front + [responses[|responses| - 1]] == a.forNext + responses;
    } else {
      assert a.forNext + responses == a.forNext;
    }
  }
}
