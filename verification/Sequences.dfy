/** Searching a sequence from either end, and listing positions in it. */
module Sequences {
  import opened Outcomes

  /** The first element that is wanted. */
  function FindIndex<T>(s: seq<T>, wanted: T -> bool): (r: Option<nat>)
    ensures r.Some? ==> r.value < |s| && wanted(s[r.value]) && forall i :: 0 <= i < r.value ==> !wanted(s[i])
    ensures r.None? ==> forall i :: 0 <= i < |s| ==> !wanted(s[i])
  {
    if s == [] then None
    else if wanted(s[0]) then Some(0)
    else match FindIndex(s[1..], wanted)
      case None => None
      case Some(i) => Some(i + 1)
  }

  /** The last wanted element at a position from `from` on and before `to`. */
  function LastIn<T>(s: seq<T>, from: nat, to: nat, wanted: T -> bool): (r: Option<nat>)
    requires from <= to <= |s|
    ensures r.Some? ==> from <= r.value < to && wanted(s[r.value]) && forall i :: r.value < i < to ==> !wanted(s[i])
    ensures r.None? ==> forall i :: from <= i < to ==> !wanted(s[i])
  {
    if from == to then None
    else if wanted(s[to - 1]) then Some(to - 1)
    else LastIn(s, from, to - 1, wanted)
  }

  /** The positions of the wanted elements before `to`, in order. */
  function Positions<T>(s: seq<T>, to: nat, wanted: T -> bool): (at: seq<nat>)
    requires to <= |s|
    ensures forall j :: 0 <= j < |at| ==> at[j] < to && wanted(s[at[j]])
    ensures forall i :: 0 <= i < to && wanted(s[i]) ==> i in at
    ensures forall j, k :: 0 <= j < k < |at| ==> at[j] < at[k]
  {
    if to == 0 then [] else Positions(s, to - 1, wanted) + if wanted(s[to - 1]) then [to - 1] else []
  }

  /** `kept` lists the wanted elements of `s`, in order. */
  predicate Picks<T(==)>(s: seq<T>, wanted: T -> bool, kept: seq<T>) {
    var at := Positions(s, |s|, wanted);
    |kept| == |at| && forall j :: 0 <= j < |at| ==> kept[j] == s[at[j]]
  }

  /** `at` is `front` followed by the elements of `tail`, each one higher. */
  predicate IsShifted(front: seq<nat>, tail: seq<nat>, at: seq<nat>) {
    && |at| == |front| + |tail|
    && forall j :: 0 <= j < |at| ==> at[j] == if j < |front| then front[j] else tail[j - |front|] + 1
  }

  lemma {:induction false} ShiftedStep(front: seq<nat>, tail: seq<nat>, at: seq<nat>, k: nat)
    ensures IsShifted(front, [], front)
    ensures IsShifted(front, tail, at) ==> IsShifted(front, tail + [k], at + [k + 1])
  {
  }

  function StartIf(first: bool): seq<nat> {
    if first then [0] else []
  }

  lemma {:induction false} PositionsCons<T>(x: T, rest: seq<T>, to: nat, wanted: T -> bool)
    requires to <= |rest|
    ensures IsShifted(StartIf(wanted(x)), Positions(rest, to, wanted), Positions([x] + rest, to + 1, wanted))
  {
    hide Positions, IsShifted;
    var s := [x] + rest;
    if to == 0 {
      NoPositions(s, wanted);
      NoPositions(rest, wanted);
      PositionsStep(s, 0, wanted);
      assert Positions(s, 1, wanted) == StartIf(wanted(x));
      ShiftedStep(StartIf(wanted(x)), [], [], 0);
    } else {
      PositionsCons(x, rest, to - 1, wanted);
      PositionsStep(rest, to - 1, wanted);
      PositionsStep(s, to, wanted);
      hide StartIf;
      assert s[to] == rest[to - 1];
      var tail, at := Positions(rest, to - 1, wanted), Positions(s, to, wanted);
      if wanted(s[to]) {
        ShiftedStep(StartIf(wanted(x)), tail, at, to - 1);
      } else {
        assert tail + [] == tail && at + [] == at;
      }
    }
  }

  /** A filter may look at the first element and go on with the rest. */
  lemma {:induction false} PicksCons<T>(s: seq<T>, wanted: T -> bool, kept: seq<T>)
    requires s != [] && Picks(s[1..], wanted, kept)
    ensures Picks(s, wanted, (if wanted(s[0]) then [s[0]] else []) + kept)
  {
    hide Positions;
    var rest := s[1..];
    assert s == [s[0]] + rest;
    PositionsCons(s[0], rest, |rest|, wanted);
    if wanted(s[0]) {
      PicksFirst(s, rest, wanted, kept);
    } else {
      PicksOthers(s, rest, wanted, kept);
      assert [] + kept == kept;
    }
  }

  lemma {:induction false} PicksFirst<T>(s: seq<T>, rest: seq<T>, wanted: T -> bool, kept: seq<T>)
    requires s != [] && s[1..] == rest && Picks(rest, wanted, kept)
    requires IsShifted([0], Positions(rest, |rest|, wanted), Positions(s, |s|, wanted))
    ensures Picks(s, wanted, [s[0]] + kept)
  {
    hide Positions;
  }

  lemma {:induction false} PicksOthers<T>(s: seq<T>, rest: seq<T>, wanted: T -> bool, kept: seq<T>)
    requires s != [] && s[1..] == rest && Picks(rest, wanted, kept)
    requires IsShifted([], Positions(rest, |rest|, wanted), Positions(s, |s|, wanted))
    ensures Picks(s, wanted, kept)
  {
    hide Positions;
  }

  lemma {:induction false} PicksNone<T>(wanted: T -> bool)
    ensures Picks([], wanted, [])
  {
  }

  lemma {:induction false} PositionsPrefix<T>(s: seq<T>, n: nat, to: nat, wanted: T -> bool)
    requires to <= n <= |s|
    ensures Positions(s[..n], to, wanted) == Positions(s, to, wanted)
  {
    if to > 0 {
      PositionsPrefix(s, n, to - 1, wanted);
    }
  }

  lemma {:induction false} NoPositions<T>(s: seq<T>, wanted: T -> bool)
    ensures Positions(s, 0, wanted) == []
  {
  }

  lemma {:induction false} PositionsStep<T>(s: seq<T>, i: nat, wanted: T -> bool)
    requires i < |s|
    ensures Positions(s, i + 1, wanted) == Positions(s, i, wanted) + if wanted(s[i]) then [i] else []
  {
  }
}
