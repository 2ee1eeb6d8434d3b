/** The attachment ids of `ch3/apps/server/src/attachmentStore.ts`. */
module AttachmentIds {
  import opened Outcomes
  import opened Text
  import opened ImageExtensions
  import opened AttachmentPaths

  const MAX_SEGMENT: nat := 80

  predicate IsWordChar(c: char) {
    IsLower(c) || IsDigit(c) || c == '_'
  }

  predicate IsSegmentChar(c: char) {
    IsWordChar(c) || c == '-'
  }

  /** The class of the first replacement; the pattern ignores case. */
  predicate IsForeign(c: char) {
    !IsSegmentChar(LowerChar(c))
  }

  predicate IsDash(c: char) {
    c == '-'
  }

  predicate IsEdge(c: char) {
    c == '-' || c == '_'
  }

  /** Every maximal run of `bad` characters becomes one dash; `inRun` says that a run is already open. */
  function ReplaceRuns(s: string, bad: char -> bool, inRun: bool): string {
    if s == [] then []
    else if !bad(s[0]) then [s[0]] + ReplaceRuns(s[1..], bad, false)
    else (if inRun then "" else "-") + ReplaceRuns(s[1..], bad, true)
  }

  function StripStart(s: string): string {
    if s != [] && IsEdge(s[0]) then StripStart(s[1..]) else s
  }

  function StripEnd(s: string): string {
    if s != [] && IsEdge(s[|s| - 1]) then StripEnd(s[..|s| - 1]) else s
  }

  /** The chain of replacements before the cut to 80 characters. */
  function Uncut(threadId: string): string {
    StripEnd(StripStart(ReplaceRuns(ReplaceRuns(Lower(Trim(threadId)), IsForeign, false), IsDash, false)))
  }

  function ToSafeThreadAttachmentSegment(threadId: string): Option<string> {
    var segment := StripEnd(First(Uncut(threadId), MAX_SEGMENT));
    if segment == [] then None else Some(segment)
  }

  // ----- The id grammar -----

  predicate IsWord(s: string) {
    s != [] && forall i :: 0 <= i < |s| ==> IsWordChar(s[i])
  }

  /** `[a-z0-9_]+(?:-[a-z0-9_]+)*`: words between single dashes. */
  predicate MatchesSegment(s: string) {
    forall i :: 0 <= i < |Split(s, '-')| ==> IsWord(Split(s, '-')[i])
  }

  predicate IsHex(c: char) {
    IsDigit(c) || 'a' <= c <= 'f'
  }

  /** Hexadecimal groups of 8, 4, 4, 4 and 12, in lower case. */
  predicate IsUuid(s: string) {
    |s| == 36 &&
    forall i :: 0 <= i < 36 ==> if i == 8 || i == 13 || i == 18 || i == 23 then s[i] == '-' else IsHex(s[i])
  }

  /** The id for a thread, given the random UUID. */
  function CreateAttachmentId(threadId: string, uuid: string): Option<string> {
    match ToSafeThreadAttachmentSegment(threadId)
    case None => None
    case Some(segment) => Some(segment + "-" + uuid)
  }

  /** The id pattern, case-insensitive; the UUID part has fixed length, so the split is forced. */
  function MatchId(id: string): Option<string> {
    if |id| < 37 then None
    else
      var cut := |id| - 37;
      if id[cut] == '-' && MatchesSegment(Lower(id[..cut])) && IsUuid(Lower(id[cut + 1..]))
      then Some(id[..cut])
      else None
  }

  function ParseThreadSegment(attachmentId: string): Option<string> {
    match NormalizeAttachmentRelativePath(attachmentId)
    case None => None
    case Some(id) =>
      if id == "" || '/' in id || '.' in id then None
      else match MatchId(id)
        case None => None
        case Some(segment) => Some(Lower(segment))
  }

  datatype Attachment = Attachment(id: string, mimeType: string, name: string)

  function AttachmentRelativePath(attachment: Attachment, fromMime: Option<string>): string {
    attachment.id + InferImageExtension(attachment.mimeType, fromMime, Some(attachment.name))
  }

  function ParseAttachmentId(relativePath: string): Option<string> {
    match NormalizeAttachmentRelativePath(relativePath)
    case None => None
    case Some(normalized) =>
      if normalized == "" || '/' in normalized then None
      else match LastIndexOf(normalized, '.')
        case None => None
        case Some(dot) => if dot == 0 || '.' in normalized[..dot] then None else Some(normalized[..dot])
  }

  // ----- The sanitised segment -----

  predicate NoDoubleDash(s: string) {
    forall i :: 0 < i < |s| ==> !(s[i - 1] == '-' && s[i] == '-')
  }

  predicate SegmentChars(s: string) {
    forall i :: 0 <= i < |s| ==> IsSegmentChar(s[i])
  }

  /** At most 80 segment characters without a double dash, with a letter or digit at both ends. */
  predicate Canonical(s: string) {
    s != [] && |s| <= MAX_SEGMENT && SegmentChars(s) && NoDoubleDash(s) && !IsEdge(s[0]) && !IsEdge(s[|s| - 1])
  }

  lemma {:induction false} ForeignReplaced(s: string, inRun: bool)
    requires forall i :: 0 <= i < |s| ==> !IsUpper(s[i])
    ensures SegmentChars(ReplaceRuns(s, IsForeign, inRun))
    ensures SegmentChars(s) ==> ReplaceRuns(s, IsForeign, inRun) == s
  {
    if s != [] {
      ForeignReplaced(s[1..], IsForeign(s[0]));
      assert [s[0]] + s[1..] == s;
      assert SegmentChars(s) ==> SegmentChars(s[1..]) && IsSegmentChar(s[0]);
    }
  }

  lemma {:induction false} DashesReplaced(s: string, inRun: bool)
    requires SegmentChars(s)
    ensures var r := ReplaceRuns(s, IsDash, inRun);
            && SegmentChars(r) && NoDoubleDash(r)
            && (inRun && r != [] ==> r[0] != '-')
            && (NoDoubleDash(s) && (inRun && s != [] ==> s[0] != '-') ==> r == s)
  {
    if s != [] {
      assert SegmentChars(s[1..]) && IsSegmentChar(s[0]);
      DashesReplaced(s[1..], IsDash(s[0]));
      assert [s[0]] + s[1..] == s;
      if NoDoubleDash(s) {
        assert NoDoubleDash(s[1..]);
        assert |s| > 1 && s[0] == '-' ==> s[1] != '-';
      }
    }
  }

  lemma {:induction false} StartStripped(s: string)
    ensures |StripStart(s)| <= |s| && StripStart(s) == s[|s| - |StripStart(s)|..]
    ensures StripStart(s) != [] ==> !IsEdge(StripStart(s)[0])
  {
    if s != [] && IsEdge(s[0]) {
      StartStripped(s[1..]);
    }
  }

  lemma {:induction false} EndStripped(s: string)
    ensures |StripEnd(s)| <= |s| && StripEnd(s) == s[..|StripEnd(s)|]
    ensures StripEnd(s) != [] ==> !IsEdge(StripEnd(s)[|StripEnd(s)| - 1])
    ensures s != [] && !IsEdge(s[0]) ==> StripEnd(s) != []
  {
    if s != [] && IsEdge(s[|s| - 1]) {
      EndStripped(s[..|s| - 1]);
      assert |s| == 1 ==> s[0] == s[|s| - 1];
    }
  }

  lemma {:induction false} SliceKeeps(s: string, from: nat, to: nat)
    requires from <= to <= |s| && SegmentChars(s) && NoDoubleDash(s)
    ensures SegmentChars(s[from..to]) && NoDoubleDash(s[from..to])
  {
  }

  lemma {:induction false} UncutShape(threadId: string)
    ensures var u := Uncut(threadId);
            SegmentChars(u) && NoDoubleDash(u) && (u != [] ==> !IsEdge(u[0]) && !IsEdge(u[|u| - 1]))
  {
    hide ReplaceRuns, SegmentChars, NoDoubleDash, StripStart, StripEnd, Trim, Lower;
    var plain := ReplaceRuns(Lower(Trim(threadId)), IsForeign, false);
    ForeignReplaced(Lower(Trim(threadId)), false);
    var single := ReplaceRuns(plain, IsDash, false);
    DashesReplaced(plain, false);
    var started := StripStart(single);
    StartStripped(single);
    SliceKeeps(single, |single| - |started|, |single|);
    EndStripped(started);
    SliceKeeps(started, 0, |StripEnd(started)|);
  }

  /** Every sanitised segment is canonical. */
  lemma {:induction false} SanitizedIsCanonical(threadId: string)
    ensures var r := ToSafeThreadAttachmentSegment(threadId); r.Some? ==> Canonical(r.value)
    ensures ToSafeThreadAttachmentSegment(threadId).None? <==> Uncut(threadId) == []
  {
    hide Uncut, SegmentChars, NoDoubleDash, StripEnd;
    UncutShape(threadId);
    var u := Uncut(threadId);
    var cut := First(u, MAX_SEGMENT);
    EndStripped(cut);
    SliceKeeps(u, 0, |StripEnd(cut)|);
    assert StripEnd(cut) == u[..|StripEnd(cut)|];
  }

  lemma {:induction false} CanonicalKept(s: string)
    requires Canonical(s)
    ensures ToSafeThreadAttachmentSegment(s) == Some(s)
  {
    hide ReplaceRuns, Trim, Lower;
    assert IsSegmentChar(s[0]) && IsSegmentChar(s[|s| - 1]);
    TrimFacts(s);
    LowerCase(s);
    ForeignReplaced(s, false);
    DashesReplaced(s, false);
  }

  lemma {:induction false} LowerCase(s: string)
    requires SegmentChars(s)
    ensures Lower(s) == s && forall i :: 0 <= i < |s| ==> !IsUpper(s[i])
  {
    assert forall i :: 0 <= i < |s| ==> IsSegmentChar(s[i]);
  }

  /** The segments that sanitising leaves alone are exactly the canonical ones. */
  lemma {:induction false} FixedPoints(s: string)
    ensures ToSafeThreadAttachmentSegment(s) == Some(s) <==> Canonical(s)
  {
    hide ToSafeThreadAttachmentSegment, Canonical;
    SanitizedIsCanonical(s);
    if Canonical(s) {
      CanonicalKept(s);
    }
  }

  /** Sanitising twice is sanitising once. */
  lemma {:induction false} SanitizeIdempotent(threadId: string)
    ensures var r := ToSafeThreadAttachmentSegment(threadId);
            r.Some? ==> ToSafeThreadAttachmentSegment(r.value) == r
  {
    hide ToSafeThreadAttachmentSegment, Canonical;
    SanitizedIsCanonical(threadId);
    var r := ToSafeThreadAttachmentSegment(threadId);
    if r.Some? {
      CanonicalKept(r.value);
    }
  }

  // ----- What sanitising keeps -----

  /** The letters and digits of a text in order, letters in lower case. */
  function Alphanumerics(s: string): string {
    if s == [] then []
    else Alphanumerics(s[..|s| - 1]) + if IsAlphanumeric(s[|s| - 1]) then [LowerChar(s[|s| - 1])] else []
  }

  lemma {:induction false} AlphanumericsAppend(a: string, b: string)
    ensures Alphanumerics(a + b) == Alphanumerics(a) + Alphanumerics(b)
  {
    if b == [] {
      assert a + b == a;
    } else {
      assert (a + b)[..|a + b| - 1] == a + b[..|b| - 1];
      AlphanumericsAppend(a, b[..|b| - 1]);
    }
  }

  lemma {:induction false} AlphanumericsFirst(s: string)
    requires s != []
    ensures Alphanumerics(s) == (if IsAlphanumeric(s[0]) then [LowerChar(s[0])] else []) + Alphanumerics(s[1..])
  {
    assert [s[0]] + s[1..] == s;
    assert [s[0]][..0] == [];
    AlphanumericsAppend([s[0]], s[1..]);
  }

  lemma {:induction false} ReplaceKeeps(s: string, bad: char -> bool, inRun: bool)
    requires forall c :: bad(c) ==> !IsAlphanumeric(c)
    ensures Alphanumerics(ReplaceRuns(s, bad, inRun)) == Alphanumerics(s)
    decreases |s|
  {
    if s != [] {
      hide IsAlphanumeric, Alphanumerics;
      var rest := ReplaceRuns(s[1..], bad, bad(s[0]));
      var head := if !bad(s[0]) then [s[0]] else if inRun then "" else "-";
      ReplaceKeeps(s[1..], bad, bad(s[0]));
      AlphanumericsFirst(s);
      AlphanumericsAppend(head, rest);
      OneAlphanumeric(s[0]);
      OneAlphanumeric('-');
    }
  }

  lemma {:induction false} OneAlphanumeric(c: char)
    ensures Alphanumerics([c]) == if IsAlphanumeric(c) then [LowerChar(c)] else []
    ensures Alphanumerics("") == "" && !IsAlphanumeric('-')
  {
    assert [c][..0] == [];
  }

  lemma {:induction false} StripKeeps(s: string)
    ensures Alphanumerics(StripStart(s)) == Alphanumerics(s) && Alphanumerics(StripEnd(s)) == Alphanumerics(s)
  {
    if s != [] {
      StripKeeps(s[1..]);
      StripKeeps(s[..|s| - 1]);
      AlphanumericsFirst(s);
    }
  }

  lemma {:induction false} TrimKeeps(s: string)
    ensures Alphanumerics(Trim(s)) == Alphanumerics(s)
  {
    TrimStartKeeps(s);
    TrimEndKeeps(TrimStart(s));
  }

  lemma {:induction false} TrimStartKeeps(s: string)
    ensures Alphanumerics(TrimStart(s)) == Alphanumerics(s)
  {
    if s != [] && IsSpace(s[0]) {
      TrimStartKeeps(s[1..]);
      AlphanumericsFirst(s);
    }
  }

  lemma {:induction false} TrimEndKeeps(s: string)
    ensures Alphanumerics(TrimEnd(s)) == Alphanumerics(s)
  {
    if s != [] && IsSpace(s[|s| - 1]) {
      TrimEndKeeps(s[..|s| - 1]);
    }
  }

  lemma {:induction false} LowerKeeps(s: string)
    ensures Alphanumerics(Lower(s)) == Alphanumerics(s)
  {
    if s != [] {
      LowerKeeps(s[..|s| - 1]);
      assert Lower(s)[..|s| - 1] == Lower(s[..|s| - 1]);
    }
  }

  /** Before the cut no letter or digit of the thread id is lost or moved. */
  lemma {:induction false} UncutKeeps(threadId: string)
    ensures Alphanumerics(Uncut(threadId)) == Alphanumerics(threadId)
  {
    hide Alphanumerics, ReplaceRuns, StripStart, StripEnd, Lower, Trim;
    var trimmed := Trim(threadId);
    var plain := ReplaceRuns(Lower(trimmed), IsForeign, false);
    var single := ReplaceRuns(plain, IsDash, false);
    TrimKeeps(threadId);
    LowerKeeps(trimmed);
    ReplaceKeeps(Lower(trimmed), IsForeign, false);
    ReplaceKeeps(plain, IsDash, false);
    StripKeeps(single);
    StripKeeps(StripStart(single));
  }

  /**
   The segment spells a prefix of the thread id's letters and digits, all of them
   unless the cut to 80 characters was reached.
   */
  lemma {:induction false} SegmentSpellsThread(threadId: string)
    ensures var r := ToSafeThreadAttachmentSegment(threadId);
            r.Some? ==>
              && Alphanumerics(r.value) <= Alphanumerics(threadId)
              && (|Uncut(threadId)| <= MAX_SEGMENT ==> Alphanumerics(r.value) == Alphanumerics(threadId))
  {
    hide Alphanumerics, Uncut, StripEnd;
    var u := Uncut(threadId);
    var cut := First(u, MAX_SEGMENT);
    UncutKeeps(threadId);
    StripKeeps(cut);
    assert cut + u[|cut|..] == u;
    AlphanumericsAppend(cut, u[|cut|..]);
  }

  /** No id can be made exactly when the thread id has no ASCII letter or digit. */
  lemma {:induction false} NoSegment(threadId: string)
    ensures ToSafeThreadAttachmentSegment(threadId).None? <==> Alphanumerics(threadId) == []
  {
    hide Uncut, ToSafeThreadAttachmentSegment;
    SanitizedIsCanonical(threadId);
    UncutKeeps(threadId);
    UncutShape(threadId);
    var u := Uncut(threadId);
    if u != [] {
      assert IsSegmentChar(u[0]) && IsAlphanumeric(u[0]);
      AlphanumericsFirst(u);
    }
  }

  // ----- The grammar -----

  predicate Tail(s: string) {
    && (forall i :: 0 < i < |Split(s, '-')| ==> IsWord(Split(s, '-')[i]))
    && (forall i :: 0 <= i < |Split(s, '-')[0]| ==> IsWordChar(Split(s, '-')[0][i]))
  }

  /** Words between single dashes, said without splitting. */
  lemma {:induction false} TailMeaning(s: string)
    ensures Tail(s) <==> SegmentChars(s) && NoDoubleDash(s) && (s != [] ==> s[|s| - 1] != '-')
    ensures Split(s, '-')[0] == [] <==> s == [] || s[0] == '-'
  {
    if s != [] {
      TailMeaning(s[1..]);
      TailStep(s);
      ShapeStep(s);
    }
  }

  lemma {:induction false} TailStep(s: string)
    requires s != []
    ensures Tail(s) <==>
            Tail(s[1..]) && if s[0] == '-' then Split(s[1..], '-')[0] != [] else IsWordChar(s[0])
  {
    var rest, parts := Split(s[1..], '-'), Split(s, '-');
    if s[0] == '-' {
      assert parts == [[]] + rest;
      assert forall i :: 0 <= i < |rest| ==> parts[i + 1] == rest[i];
      if Tail(s) {
        assert forall i :: 0 <= i < |rest| ==> IsWord(rest[i]) by {
          forall i | 0 <= i < |rest|
            ensures IsWord(rest[i])
          {
            assert IsWord(parts[i + 1]);
          }
        }
      }
    } else {
      assert parts == [[s[0]] + rest[0]] + rest[1..];
      assert forall i :: 0 < i < |rest| ==> parts[i] == rest[i];
      assert parts[0][0] == s[0] && parts[0][1..] == rest[0];
      assert forall i :: 0 <= i < |rest[0]| ==> parts[0][i + 1] == rest[0][i];
    }
  }

  lemma {:induction false} ShapeStep(s: string)
    requires s != []
    ensures SegmentChars(s) <==> SegmentChars(s[1..]) && IsSegmentChar(s[0])
    ensures NoDoubleDash(s) <==> NoDoubleDash(s[1..]) && !(|s| > 1 && s[0] == '-' && s[1] == '-')
  {
    assert s == [s[0]] + s[1..];
    if NoDoubleDash(s[1..]) && !(|s| > 1 && s[0] == '-' && s[1] == '-') {
      forall i | 0 < i < |s|
        ensures !(s[i - 1] == '-' && s[i] == '-')
      {
        assert i > 1 ==> s[1..][i - 2] == s[i - 1] && s[1..][i - 1] == s[i];
      }
    }
    if NoDoubleDash(s) {
      forall i | 0 < i < |s[1..]|
        ensures !(s[1..][i - 1] == '-' && s[1..][i] == '-')
      {
        assert s[1..][i - 1] == s[i] && s[1..][i] == s[i + 1];
      }
    }
  }

  lemma {:induction false} CanonicalMatches(s: string)
    requires Canonical(s)
    ensures MatchesSegment(s) && Lower(s) == s
  {
    hide Split;
    TailMeaning(s);
    assert forall i :: 0 <= i < |Split(s, '-')| ==> IsWord(Split(s, '-')[i]);
    assert forall i :: 0 <= i < |s| ==> IsSegmentChar(s[i]);
  }

  // ----- Creating, parsing, naming -----

  /** Every segment matches the id grammar and is at most 80 characters long. */
  lemma {:induction false} SegmentMatchesGrammar(threadId: string)
    ensures var r := ToSafeThreadAttachmentSegment(threadId);
            r.Some? ==> |r.value| <= MAX_SEGMENT && MatchesSegment(r.value)
  {
    hide ToSafeThreadAttachmentSegment, MatchesSegment;
    SanitizedIsCanonical(threadId);
    var r := ToSafeThreadAttachmentSegment(threadId);
    if r.Some? {
      CanonicalMatches(r.value);
    }
  }

  predicate PlainId(id: string) {
    id != [] && '.' !in id && '/' !in id && '\\' !in id && '\0' !in id
  }

  lemma {:induction false} PlainIdKept(id: string)
    requires PlainId(id)
    ensures NormalizeAttachmentRelativePath(id) == Some(id)
  {
    assert id[0] != '.';
    PlainNameKept(id);
  }

  lemma {:induction false} CreatedIsPlain(segment: string, uuid: string)
    requires Canonical(segment) && IsUuid(uuid)
    ensures PlainId(segment + "-" + uuid)
  {
    forall i | 0 <= i < |segment + "-" + uuid|
      ensures IsSegmentChar((segment + "-" + uuid)[i])
    {
      assert i > |segment| ==> (segment + "-" + uuid)[i] == uuid[i - |segment| - 1];
    }
  }

  /** `n` is a segment, a dash and a UUID, in any letter case. */
  predicate HasParts(n: string, segment: string, uuid: string) {
    n == segment + "-" + uuid && MatchesSegment(Lower(segment)) && IsUuid(Lower(uuid))
  }

  lemma {:induction false} MatchedSegmentChars(s: string)
    requires MatchesSegment(s)
    ensures SegmentChars(s)
  {
    hide Split;
    TailMeaning(s);
    assert IsWord(Split(s, '-')[0]);
  }

  lemma {:induction false} LowerSlash(s: string)
    requires SegmentChars(Lower(s))
    ensures '/' !in s && '.' !in s
  {
    forall i | 0 <= i < |s|
      ensures s[i] != '/' && s[i] != '.'
    {
      assert IsSegmentChar(Lower(s)[i]);
    }
  }

  lemma {:induction false} UuidChars(s: string)
    requires IsUuid(s)
    ensures SegmentChars(s)
  {
  }

  lemma {:induction false} PartsAreClean(n: string, segment: string, uuid: string)
    requires HasParts(n, segment, uuid)
    ensures n != "" && '/' !in n && '.' !in n && |uuid| == 36
  {
    hide MatchesSegment, IsUuid;
    MatchedSegmentChars(Lower(segment));
    LowerSlash(segment);
    UuidChars(Lower(uuid));
    LowerSlash(uuid);
    UuidLength(Lower(uuid));
  }

  lemma {:induction false} UuidLength(s: string)
    requires IsUuid(s)
    ensures |s| == 36
  {
  }

  lemma {:induction false} MatchFinds(n: string, segment: string, uuid: string)
    requires HasParts(n, segment, uuid)
    ensures MatchId(n) == Some(segment)
  {
    hide MatchesSegment, IsUuid, Lower;
    PartsAreClean(n, segment, uuid);
    assert n[..|segment|] == segment && n[|segment| + 1..] == uuid && n[|segment|] == '-';
  }

  /** The id names this segment. */
  ghost predicate Names(n: string, segment: string) {
    exists written, uuid :: HasParts(n, written, uuid) && Lower(written) == segment
  }

  /** An id parses to a segment exactly when its normal form is the segment, a dash and a UUID, in any letter case. */
  lemma {:induction false} ParseMeaning(id: string, segment: string)
    ensures ParseThreadSegment(id) == Some(segment) <==>
            NormalizeAttachmentRelativePath(id).Some? && Names(NormalizeAttachmentRelativePath(id).value, segment)
  {
    hide NormalizeAttachmentRelativePath, MatchesSegment, IsUuid, Lower;
    if NormalizeAttachmentRelativePath(id).Some? {
      var n := NormalizeAttachmentRelativePath(id).value;
      if ParseThreadSegment(id) == Some(segment) {
        var cut := |n| - 37;
        assert n == n[..cut] + "-" + n[cut + 1..];
        assert HasParts(n, n[..cut], n[cut + 1..]);
      }
      if Names(n, segment) {
        var written, uuid :| HasParts(n, written, uuid) && Lower(written) == segment;
        PartsAreClean(n, written, uuid);
        MatchFinds(n, written, uuid);
      }
    }
  }

  /** A current-directory prefix, or one slash in front, makes no difference to the parser. */
  lemma {:induction false} PrefixIgnored(id: string)
    requires PlainId(id)
    ensures ParseThreadSegment("./" + id) == ParseThreadSegment(id)
    ensures ParseThreadSegment("/" + id) == ParseThreadSegment(id)
  {
    assert id[0] != '.' && id[0] != '/' && id[0] != '\\';
    PlainNameKept(id);
    PlainNamePrefixed(id);
    hide NormalizeAttachmentRelativePath, MatchId, Lower;
  }

  /** Parsing a created id gives back exactly the segment of its thread. */
  lemma {:induction false} CreatedIdParses(threadId: string, uuid: string)
    requires IsUuid(uuid)
    ensures var id := CreateAttachmentId(threadId, uuid);
            id.Some? ==> ParseThreadSegment(id.value) == ToSafeThreadAttachmentSegment(threadId)
  {
    hide ToSafeThreadAttachmentSegment, ParseThreadSegment, Canonical, MatchesSegment, PlainId;
    SanitizedIsCanonical(threadId);
    var r := ToSafeThreadAttachmentSegment(threadId);
    if r.Some? {
      CanonicalMatches(r.value);
      CreatedIsPlain(r.value, uuid);
      assert Lower(uuid) == uuid;
      hide Lower, IsUuid;
      var id := r.value + "-" + uuid;
      assert HasParts(id, r.value, uuid);
      PlainIdKept(id);
      ParseMeaning(id, r.value);
    }
  }

  lemma {:induction false} ExtensionShape(extension: string)
    requires extension in SAFE_EXTENSIONS || extension == ".bin"
    ensures extension != [] && extension[0] == '.' && PlainId(extension[1..])
  {
  }

  lemma {:induction false} LastDot(id: string, extension: string)
    requires extension != [] && extension[0] == '.' && '.' !in extension[1..]
    ensures LastIndexOf(id + extension, '.') == Some(|id|)
  {
    var s := id + extension;
    assert s[|id|] == '.' && s[|id| + 1..] == extension[1..];
    LastIndexIs(s, '.', |id|);
  }

  /** An attachment's path leads back to its id exactly when the id has no dot, slash, backslash or NUL. */
  lemma {:induction false} PathLeadsBack(attachment: Attachment, fromMime: Option<string>)
    ensures ParseAttachmentId(AttachmentRelativePath(attachment, fromMime)) == Some(attachment.id) <==>
            PlainId(attachment.id)
  {
    hide InferImageExtension, NormalizeAttachmentRelativePath;
    var id, extension := attachment.id, InferImageExtension(attachment.mimeType, fromMime, Some(attachment.name));
    var path := id + extension;
    ExtensionShape(extension);
    NormalizedClean(path);
    if PlainId(id) {
      LastDot(id, extension);
      assert extension == ['.'] + extension[1..];
      assert path[0] == id[0];
      PlainNameKept(path);
      assert path[..|id|] == id;
    }
  }

  /** A created id survives the way through the file name. */
  lemma {:induction false} CreatedPathLeadsBack(threadId: string, uuid: string, mimeType: string, name: string,
      fromMime: Option<string>)
    requires IsUuid(uuid)
    ensures var id := CreateAttachmentId(threadId, uuid);
            id.Some? ==> ParseAttachmentId(AttachmentRelativePath(Attachment(id.value, mimeType, name), fromMime)) == id
  {
    hide ToSafeThreadAttachmentSegment, Canonical, PlainId, ParseAttachmentId, AttachmentRelativePath, IsUuid;
    SanitizedIsCanonical(threadId);
    var r := ToSafeThreadAttachmentSegment(threadId);
    if r.Some? {
      CreatedIsPlain(r.value, uuid);
      PathLeadsBack(Attachment(r.value + "-" + uuid, mimeType, name), fromMime);
    }
  }
}
