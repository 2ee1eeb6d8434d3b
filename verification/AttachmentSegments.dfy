/** What the segment of a thread id is, run by run. */
module AttachmentSegments {
  import opened Outcomes
  import opened Text
  import opened AttachmentIds

  // ----- Runs -----

  /** The characters that become dashes: all but lower-case letters, digits and underscores. */
  predicate IsGap(c: char) {
    !IsWordChar(c)
  }

  /** Two replacements in a row, of foreign characters and of dashes, are one. */
  lemma {:induction false} OnePass(s: string, foreign: bool, dash: bool)
    requires (forall i :: 0 <= i < |s| ==> !IsUpper(s[i])) && (foreign ==> dash)
    ensures ReplaceRuns(ReplaceRuns(s, IsForeign, foreign), IsDash, dash) == ReplaceRuns(s, IsGap, dash)
    decreases |s|
  {
    if s != [] {
      var c, rest := s[0], s[1..];
      OneChar(c);
      hide IsForeign, IsDash, IsGap;
      if IsForeign(c) {
        OnePass(rest, true, true);
        if !foreign {
          DashCons(ReplaceRuns(rest, IsForeign, true), dash);
        } else {
          assert "" + ReplaceRuns(rest, IsForeign, true) == ReplaceRuns(rest, IsForeign, true);
        }
      } else {
        OnePass(rest, false, IsDash(c));
        var inner := ReplaceRuns(rest, IsForeign, false);
        assert ([c] + inner)[1..] == inner;
      }
    }
  }

  lemma {:induction false} OneChar(c: char)
    requires !IsUpper(c)
    ensures IsGap(c) <==> IsForeign(c) || IsDash(c)
    ensures !(IsForeign(c) && IsDash(c)) && IsDash('-')
  {
  }

  lemma {:induction false} DashCons(inner: string, dash: bool)
    ensures ReplaceRuns("-" + inner, IsDash, dash) == (if dash then "" else "-") + ReplaceRuns(inner, IsDash, true)
  {
    assert ("-" + inner)[1..] == inner;
  }

  /** A word character, or a whole run of other characters. */
  predicate IsRun(pieces: seq<string>, i: nat)
    requires i < |pieces|
  {
    var p := pieces[i];
    || (|p| == 1 && !IsGap(p[0]))
    || (p != "" && (forall k :: 0 <= k < |p| ==> IsGap(p[k])) &&
        (i + 1 < |pieces| ==> pieces[i + 1] != "" && !IsGap(pieces[i + 1][0])))
  }

  predicate AreRuns(pieces: seq<string>) {
    forall i :: 0 <= i < |pieces| ==> IsRun(pieces, i)
  }

  /** The text with each run of other characters replaced by one dash. */
  function Dashed(pieces: seq<string>): string {
    if pieces == [] then ""
    else (if pieces[0] != "" && IsGap(pieces[0][0]) then "-" else pieces[0]) + Dashed(pieces[1..])
  }

  function Whole(pieces: seq<string>): string {
    if pieces == [] then "" else pieces[0] + Whole(pieces[1..])
  }

  /** The rest of an open run, and the text behind it. */
  lemma {:induction false} SkipRun(s: string) returns (n: nat)
    ensures n <= |s| && (forall k :: 0 <= k < n ==> IsGap(s[k])) && (n < |s| ==> !IsGap(s[n]))
    ensures ReplaceRuns(s, IsGap, true) == ReplaceRuns(s[n..], IsGap, false)
  {
    hide IsGap;
    if s != [] && IsGap(s[0]) {
      var m := SkipRun(s[1..]);
      n := m + 1;
      assert s[n..] == s[1..][m..];
    } else {
      n := 0;
      assert s[0..] == s;
    }
  }

  /** The first piece of a text. */
  lemma {:induction false} FirstRun(s: string) returns (n: nat)
    requires s != []
    ensures 0 < n <= |s|
    ensures if IsGap(s[0]) then forall k :: 0 <= k < n ==> IsGap(s[k]) else n == 1
    ensures IsGap(s[0]) && n < |s| ==> !IsGap(s[n])
    ensures ReplaceRuns(s, IsGap, false) ==
            (if IsGap(s[0]) then "-" else s[..n]) + ReplaceRuns(s[n..], IsGap, false)
  {
    hide IsGap;
    if IsGap(s[0]) {
      var m := SkipRun(s[1..]);
      n := m + 1;
      assert s[n..] == s[1..][m..];
      assert forall k :: 0 < k < n ==> s[k] == s[1..][k - 1];
    } else {
      n := 1;
      assert s[..1] == [s[0]];
    }
  }

  lemma {:induction false} RunsCons(first: string, rest: seq<string>)
    requires AreRuns(rest) && first != ""
    requires if IsGap(first[0])
             then (forall k :: 0 <= k < |first| ==> IsGap(first[k])) &&
                  (rest != [] ==> rest[0] != "" && !IsGap(rest[0][0]))
             else |first| == 1
    ensures AreRuns([first] + rest)
  {
    hide IsGap;
    var pieces := [first] + rest;
    forall i | 0 <= i < |pieces|
      ensures IsRun(pieces, i)
    {
      if i > 0 {
        assert IsRun(rest, i - 1);
      }
    }
  }

  /** Replacing runs is dashing the pieces of the text. */
  lemma {:induction false} RunsOf(s: string) returns (pieces: seq<string>)
    ensures AreRuns(pieces) && Whole(pieces) == s && Dashed(pieces) == ReplaceRuns(s, IsGap, false)
    ensures s != [] ==> pieces != [] && pieces[0] != "" && pieces[0][0] == s[0]
    ensures s == [] ==> pieces == []
    decreases |s|
  {
    hide IsGap, AreRuns;
    if s == [] {
      pieces := [];
      NoRuns();
    } else {
      var n := FirstRun(s);
      var rest := RunsOf(s[n..]);
      hide ReplaceRuns;
      pieces := [s[..n]] + rest;
      assert pieces[1..] == rest && s == s[..n] + s[n..];
      RunsCons(s[..n], rest);
    }
  }

  lemma {:induction false} NoRuns()
    ensures AreRuns([])
  {
  }

  predicate AllEdges(s: string) {
    forall i :: 0 <= i < |s| ==> IsEdge(s[i])
  }

  lemma {:induction false} StartEdges(s: string)
    ensures |StripStart(s)| <= |s| && AllEdges(s[..|s| - |StripStart(s)|])
    ensures s == s[..|s| - |StripStart(s)|] + StripStart(s)
    decreases |s|
  {
    hide IsEdge;
    if s != [] && IsEdge(s[0]) {
      var rest := s[1..];
      StartEdges(rest);
      var n := |s| - |StripStart(s)|;
      assert s[..n] == [s[0]] + rest[..n - 1];
      assert s == [s[0]] + rest;
    } else {
      assert s[..0] == [] && [] + s == s;
    }
  }

  lemma {:induction false} EndEdges(s: string)
    ensures StripEnd(s) <= s && AllEdges(s[|StripEnd(s)|..])
    decreases |s|
  {
    hide IsEdge;
    if s != [] && IsEdge(s[|s| - 1]) {
      var front := s[..|s| - 1];
      EndEdges(front);
      var n := |StripEnd(s)|;
      assert s[n..] == front[n..] + [s[|s| - 1]];
    } else {
      assert s[|s|..] == [];
    }
  }

  /** `core` is `s` without the dashes and underscores at both ends. */
  predicate IsCoreOf(s: string, lead: string, core: string, tail: string) {
    && s == lead + (core + tail) && AllEdges(lead) && AllEdges(tail)
    && (core != "" ==> !IsEdge(core[0]) && !IsEdge(core[|core| - 1]))
  }

  /**
   The trimmed and lower-cased thread id is cut into word characters and runs of
   others; each run becomes a dash; dashes and underscores at the ends are dropped.
   */
  predicate IsUncut(threadId: string, pieces: seq<string>, lead: string, core: string, tail: string) {
    Whole(pieces) == Lower(Trim(threadId)) && AreRuns(pieces) && IsCoreOf(Dashed(pieces), lead, core, tail)
  }

  lemma {:induction false} UncutMeaning(threadId: string) returns (pieces: seq<string>, lead: string, tail: string)
    ensures IsUncut(threadId, pieces, lead, Uncut(threadId), tail)
  {
    hide ReplaceRuns, StripStart, StripEnd, AreRuns, Whole, Dashed, IsEdge, Trim;
    var t := Lower(Trim(threadId));
    OnePass(t, false, false);
    pieces := RunsOf(t);
    var dashed := Dashed(pieces);
    var started := StripStart(dashed);
    var core := StripEnd(started);
    StartEdges(dashed);
    EndEdges(started);
    StartStripped(dashed);
    EndStripped(started);
    lead, tail := dashed[..|dashed| - |started|], started[|core|..];
    assert started == core + tail;
  }

  /** The segment: at most 80 characters of that, without dashes and underscores that the cut puts at the end. */
  predicate IsCut(core: string, segment: string, dropped: string) {
    && (if |core| <= 80 then core else core[..80]) == segment + dropped
    && AllEdges(dropped) && (segment != "" ==> !IsEdge(segment[|segment| - 1]))
  }

  /** What the segment of any thread id is, and that there is none only if nothing is left. */
  lemma {:induction false} SegmentMeaning(threadId: string)
    ensures exists pieces, lead, core, tail, segment, dropped ::
              && IsUncut(threadId, pieces, lead, core, tail) && IsCut(core, segment, dropped)
              && ToSafeThreadAttachmentSegment(threadId) == if segment == "" then None else Some(segment)
  {
    hide IsUncut, AllEdges, IsEdge, StripEnd, Uncut;
    var pieces, lead, tail := UncutMeaning(threadId);
    var core := Uncut(threadId);
    var cut := First(core, MAX_SEGMENT);
    var segment := StripEnd(cut);
    EndEdges(cut);
    EndStripped(cut);
    var dropped := cut[|segment|..];
    assert cut == segment + dropped;
    assert IsCut(core, segment, dropped);
  }
}
