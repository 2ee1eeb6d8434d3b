/**
 How the lines of an update manifest are spelled; and, with `ManifestGrammar`, exactly
 which texts parse, to what, and why the others do not.
 */
module ManifestLexis {
  import opened Outcomes
  import opened Text
  import opened UpdateManifest
  import opened ManifestText
  import opened ManifestScalars
  import opened ManifestGrammar

  predicate AllSpace(s: string) {
    forall i :: 0 <= i < |s| ==> IsSpace(s[i])
  }

  predicate HoldsAt(line: string, prefix: string, gap: string, value: string, tail: string) {
    && line == prefix + (gap + (value + tail))
    && AllSpace(gap) && AllSpace(tail) && value != [] && Trimmed(value) && OneLine(value)
  }

  /** The line is the prefix, whitespace, the value and whitespace. */
  ghost predicate Holds(line: string, prefix: string, value: string) {
    exists gap, tail :: HoldsAt(line, prefix, gap, value, tail)
  }

  ghost predicate HoldsField(line: string, prefix: string, text: string) {
    exists value :: Holds(line, prefix, value) && SpellsField(value, text)
  }

  ghost predicate SpellsKnown(line: string, kind: Line) {
    match kind
    case Blank => AllSpace(line)
    case UrlLine(url) => HoldsField(line, URL_PREFIX, url)
    case Sha512Line(sha512) => HoldsField(line, SHA512_PREFIX, sha512)
    case SizeLine(size) =>
      exists value :: Holds(line, SIZE_PREFIX, value) && AllDigits(value) && DigitsValue(value) == size
    case FilesHeader => StartsWith(line, "files:") && AllSpace(line[6..])
    case TopLevel(key, v) =>
      IsIdentifier(key) && exists value :: Holds(line, key + ":", value) && SpellsScalar(value, v)
    case Unsupported => false
  }

  /** What a line says. It is unsupported if it says nothing else. */
  ghost predicate SpellsLine(line: string, kind: Line) {
    if kind.Unsupported? then forall other :: !SpellsKnown(line, other) else SpellsKnown(line, kind)
  }

  // ----- Whitespace around a value -----

  lemma {:induction false} TrimStartOf(gap: string, value: string)
    requires AllSpace(gap) && value != [] && !IsSpace(value[0])
    ensures TrimStart(gap + value) == value
  {
    hide IsSpace;
    if gap == [] {
      assert gap + value == value;
    } else {
      TrimStartOf(gap[1..], value);
      assert (gap + value)[1..] == gap[1..] + value;
    }
  }

  lemma {:induction false} TrimStartGap(s: string)
    ensures |TrimStart(s)| <= |s| && AllSpace(s[..|s| - |TrimStart(s)|])
    ensures s == s[..|s| - |TrimStart(s)|] + TrimStart(s)
    decreases |s|
  {
    hide IsSpace, AllSpace;
    if s != [] && IsSpace(s[0]) {
      var rest := s[1..];
      TrimStartGap(rest);
      hide TrimStart;
      var n := |rest| - |TrimStart(rest)|;
      MoreSpace(s[0], rest[..n]);
      assert s[..n + 1] == [s[0]] + rest[..n];
      assert s == [s[0]] + rest;
    } else {
      assert s[..0] == [] && [] + s == s;
      NoGap();
    }
  }

  lemma {:induction false} NoGap()
    ensures AllSpace([])
  {
  }

  lemma {:induction false} MoreSpace(c: char, s: string)
    requires IsSpace(c) && AllSpace(s)
    ensures AllSpace([c] + s)
  {
    hide IsSpace;
  }

  lemma {:induction false} TrimEndOfSpace(s: string)
    requires AllSpace(s)
    ensures TrimEnd(s) == []
  {
    hide IsSpace;
    if s != [] {
      TrimEndOfSpace(s[..|s| - 1]);
    }
  }

  lemma {:induction false} TrimEndTail(s: string)
    ensures TrimEnd(s) <= s && AllSpace(s[|TrimEnd(s)|..])
    ensures s == TrimEnd(s) + s[|TrimEnd(s)|..]
  {
    hide IsSpace, TrimEnd;
    TrimEndPrefix(s);
  }

  lemma {:induction false} HeldIsCaptured(line: string, prefix: string, gap: string, value: string, tail: string)
    requires HoldsAt(line, prefix, gap, value, tail)
    ensures Captured(TrimEnd(line), prefix) == Some(value) && TrimEnd(line) == prefix + (gap + value)
  {
    hide IsSpace, IsLineTerminator, TrimEnd;
    var front := prefix + (gap + value);
    assert line == front + tail && front[|front| - 1] == value[|value| - 1];
    TrimEndAppend(front, tail);
    TrimEndOfSpace(tail);
    assert front + [] == front && front[..|prefix|] == prefix && front[|prefix|..] == gap + value;
    TrimStartOf(gap, value);
  }

  lemma {:induction false} CapturedIsHeld(line: string, prefix: string)
    requires Captured(TrimEnd(line), prefix).Some?
    ensures Holds(line, prefix, Captured(TrimEnd(line), prefix).value)
  {
    hide IsSpace, IsLineTerminator, TrimEnd, TrimStart;
    var front := TrimEnd(line);
    var rest := front[|prefix|..];
    var value := Captured(front, prefix).value;
    TrimEndTail(line);
    TrimEndPrefix(line);
    TrimStartGap(rest);
    TrimStartSuffix(rest);
    var gap, tail := rest[..|rest| - |value|], line[|front|..];
    assert value[|value| - 1] == rest[|rest| - 1] == front[|front| - 1];
    assert front == prefix + rest && rest == gap + value;
    assert line == prefix + (gap + (value + tail));
    assert HoldsAt(line, prefix, gap, value, tail);
  }

  /** A pattern captures exactly the value that the line holds behind the prefix. */
  lemma {:induction false} CapturedMeaning(line: string, prefix: string, value: string)
    ensures Holds(line, prefix, value) <==> Captured(TrimEnd(line), prefix) == Some(value)
    ensures Captured(TrimEnd(line), prefix) == Some(value) ==> value != [] && Trimmed(value)
  {
    hide Captured, TrimEnd, IsSpace, IsLineTerminator;
    if Holds(line, prefix, value) {
      var gap, tail :| HoldsAt(line, prefix, gap, value, tail);
      HeldIsCaptured(line, prefix, gap, value, tail);
    }
    if Captured(TrimEnd(line), prefix) == Some(value) {
      CapturedIsHeld(line, prefix);
    }
  }

  // ----- Which pattern a line matches -----

  lemma {:induction false} CapturedPrefix(t: string, prefix: string)
    requires Captured(t, prefix).Some?
    ensures StartsWith(t, prefix) && |t| > |prefix|
    ensures forall i :: 0 <= i < |prefix| ==> t[i] == prefix[i]
  {
    var rest := t[|prefix|..];
    TrimStartSuffix(rest);
    assert forall i :: 0 <= i < |prefix| ==> t[..|prefix|][i] == prefix[i];
  }

  /** No two patterns match one line. */
  lemma {:induction false} OnePattern(t: string)
    ensures Captured(t, URL_PREFIX).Some? ==> Captured(t, SHA512_PREFIX) == None && Captured(t, SIZE_PREFIX) == None
    ensures Captured(t, SHA512_PREFIX).Some? ==> Captured(t, SIZE_PREFIX) == None
    ensures (t == [] || t == "files:" || ClassifyTopLevel(t).TopLevel?) ==>
              Captured(t, URL_PREFIX) == None && Captured(t, SHA512_PREFIX) == None && Captured(t, SIZE_PREFIX) == None
  {
    hide Captured, IsLetter;
    if Captured(t, URL_PREFIX).Some? {
      CapturedPrefix(t, URL_PREFIX);
      OtherPrefix(t, SHA512_PREFIX, 2);
      OtherPrefix(t, SIZE_PREFIX, 2);
      IndentedUnsupported(t);
    }
    if Captured(t, SHA512_PREFIX).Some? {
      CapturedPrefix(t, SHA512_PREFIX);
      OtherPrefix(t, SIZE_PREFIX, 5);
      IndentedUnsupported(t);
    }
    if Captured(t, SIZE_PREFIX).Some? {
      CapturedPrefix(t, SIZE_PREFIX);
      IndentedUnsupported(t);
    }
  }

  lemma {:induction false} HeaderIsNoEntry()
    ensures ClassifyTopLevel("files:") == Unsupported && ClassifyTopLevel("") == Unsupported
  {
    IdentifierPrefixOf("files", ":");
    assert "files" + ":" == "files:";
    assert "files:"[6..] == [];
  }

  lemma {:induction false} BlankMeaning(line: string)
    ensures AllSpace(line) <==> TrimEnd(line) == []
  {
    hide IsSpace, TrimEnd;
    TrimEndTail(line);
    if AllSpace(line) {
      TrimEndOfSpace(line);
    }
    if TrimEnd(line) == [] {
      assert line[0..] == line;
    }
  }

  lemma {:induction false} HeaderMeaning(line: string)
    ensures StartsWith(line, "files:") && AllSpace(line[6..]) <==> TrimEnd(line) == "files:"
  {
    hide IsSpace, TrimEnd;
    TrimEndTail(line);
    if StartsWith(line, "files:") && AllSpace(line[6..]) {
      assert line == "files:" + line[6..];
      assert !IsSpace(':') by {
        NoSpace();
      }
      TrimEndAppend("files:", line[6..]);
      TrimEndOfSpace(line[6..]);
    }
  }

  lemma {:induction false} NoSpace()
    ensures !IsSpace(':')
  {
  }

  lemma {:induction false} FieldLine(line: string, prefix: string, text: string)
    ensures HoldsField(line, prefix, text) <==>
            Captured(TrimEnd(line), prefix).Some? && FieldText(Captured(TrimEnd(line), prefix).value) == text
  {
    hide Holds, Captured, TrimEnd, Trimmed, FieldText, SpellsField;
    if HoldsField(line, prefix, text) {
      var value :| Holds(line, prefix, value) && SpellsField(value, text);
      CapturedMeaning(line, prefix, value);
      FieldMeaning(value, text);
    }
    if Captured(TrimEnd(line), prefix).Some? {
      var value := Captured(TrimEnd(line), prefix).value;
      CapturedMeaning(line, prefix, value);
      FieldMeaning(value, text);
    }
  }

  lemma {:induction false} SizeMeaning(line: string, size: nat)
    ensures SpellsKnown(line, SizeLine(size)) <==> ClassifySize(TrimEnd(line)) == Some(size)
  {
    hide Holds, Captured, TrimEnd, Trimmed, DigitsValue, AllDigits;
    if SpellsKnown(line, SizeLine(size)) {
      var value :| Holds(line, SIZE_PREFIX, value) && AllDigits(value) && DigitsValue(value) == size;
      CapturedMeaning(line, SIZE_PREFIX, value);
    }
    if Captured(TrimEnd(line), SIZE_PREFIX).Some? {
      CapturedMeaning(line, SIZE_PREFIX, Captured(TrimEnd(line), SIZE_PREFIX).value);
    }
  }

  lemma {:induction false} KeyOf(t: string, key: string)
    requires IsIdentifier(key) && Captured(t, key + ":").Some?
    ensures IdentifierPrefix(t) == key
  {
    hide Captured, TrimStart;
    CapturedPrefix(t, key + ":");
    var rest := t[|key|..];
    assert rest[0] == t[|key|] == (key + ":")[|key|] == ':';
    assert forall i :: 0 <= i < |key| ==> t[i] == (key + ":")[i];
    assert t == key + rest;
    IdentifierPrefixOf(key, rest);
  }

  lemma {:induction false} TopLevelMeaning(line: string, key: string, v: Scalar)
    ensures SpellsKnown(line, TopLevel(key, v)) <==> ClassifyTopLevel(TrimEnd(line)) == TopLevel(key, v)
  {
    hide Holds, Captured, TrimEnd, Trimmed, IsIdentifier, ParseScalarValue, SpellsScalar, IdentifierPrefix;
    var t := TrimEnd(line);
    if SpellsKnown(line, TopLevel(key, v)) {
      var value :| Holds(line, key + ":", value) && SpellsScalar(value, v);
      CapturedMeaning(line, key + ":", value);
      KeyOf(t, key);
      ScalarMeaning(value, v);
    }
    if ClassifyTopLevel(t) == TopLevel(key, v) {
      var value := Captured(t, key + ":").value;
      CapturedMeaning(line, key + ":", value);
      ScalarMeaning(value, v);
    }
  }

  lemma {:induction false} KnownLine(line: string, kind: Line)
    requires !kind.Unsupported?
    ensures SpellsKnown(line, kind) <==> Classify(line) == kind
  {
    hide Captured, TrimEnd, ClassifyTopLevel, ClassifySize, HoldsField, FieldText, AllSpace, SpellsKnown;
    var t := TrimEnd(line);
    OnePattern(t);
    HeaderIsNoEntry();
    SizeIsCaptured(t);
    TopLevelOrNot(t);
    match kind
    case Blank => BlankLine(line);
    case UrlLine(url) => UrlField(line, url);
    case Sha512Line(sha512) => Sha512Field(line, sha512);
    case SizeLine(size) => SizeMeaning(line, size);
    case FilesHeader => HeaderLine(line);
    case TopLevel(key, v) => TopLevelMeaning(line, key, v);
  }

  lemma {:induction false} BlankLine(line: string)
    ensures SpellsKnown(line, Blank) <==> TrimEnd(line) == []
  {
    BlankMeaning(line);
  }

  lemma {:induction false} HeaderLine(line: string)
    ensures SpellsKnown(line, FilesHeader) <==> TrimEnd(line) == "files:"
  {
    HeaderMeaning(line);
  }

  lemma {:induction false} UrlField(line: string, url: string)
    ensures SpellsKnown(line, UrlLine(url)) <==>
            Captured(TrimEnd(line), URL_PREFIX).Some? && FieldText(Captured(TrimEnd(line), URL_PREFIX).value) == url
  {
    hide HoldsField, Captured, FieldText;
    FieldLine(line, URL_PREFIX, url);
  }

  lemma {:induction false} Sha512Field(line: string, sha512: string)
    ensures SpellsKnown(line, Sha512Line(sha512)) <==>
            Captured(TrimEnd(line), SHA512_PREFIX).Some? &&
            FieldText(Captured(TrimEnd(line), SHA512_PREFIX).value) == sha512
  {
    hide HoldsField, Captured, FieldText;
    FieldLine(line, SHA512_PREFIX, sha512);
  }

  lemma {:induction false} SizeIsCaptured(t: string)
    ensures ClassifySize(t).Some? ==> Captured(t, SIZE_PREFIX).Some?
  {
    hide Captured;
  }

  lemma {:induction false} TopLevelOrNot(t: string)
    ensures ClassifyTopLevel(t).TopLevel? || ClassifyTopLevel(t).Unsupported?
  {
    hide Captured, IdentifierPrefix, IsIdentifier;
  }

  /** Every line says exactly one thing, and that is what it is taken for. */
  lemma {:induction false} LineMeaning(line: string, kind: Line)
    ensures SpellsLine(line, kind) <==> Classify(line) == kind
  {
    hide SpellsKnown, Classify;
    if kind.Unsupported? {
      forall other
        ensures SpellsKnown(line, other) ==> !other.Unsupported? && Classify(line) == other
      {
        if SpellsKnown(line, other) {
          KnownIsSupported(line, other);
          KnownLine(line, other);
        }
      }
      if !Classify(line).Unsupported? {
        KnownLine(line, Classify(line));
      }
    } else {
      KnownLine(line, kind);
    }
  }

  lemma {:induction false} KnownIsSupported(line: string, kind: Line)
    requires SpellsKnown(line, kind)
    ensures !kind.Unsupported?
  {
    hide HoldsField, Holds, AllSpace;
  }

  // ----- Breaking a text into lines -----

  predicate IsBreak(b: string) {
    b == "\n" || b == "\r\n"
  }

  /** The lines with their breaks, one after the other. */
  function Woven(lines: seq<string>, breaks: seq<string>): string
    requires |lines| == |breaks| + 1
  {
    if breaks == [] then lines[0] else lines[0] + (breaks[0] + Woven(lines[1..], breaks[1..]))
  }

  /** A carriage return before a line feed belongs to the break. */
  predicate FitTogether(lines: seq<string>, breaks: seq<string>) {
    && |lines| == |breaks| + 1
    && (forall i :: 0 <= i < |lines| ==> '\n' !in lines[i])
    && (forall i :: 0 <= i < |breaks| ==> IsBreak(breaks[i]))
    && (forall i :: 0 <= i < |breaks| && breaks[i] == "\n" ==> lines[i] == [] || lines[i][|lines[i]| - 1] != '\r')
  }

  ghost predicate BreaksInto(raw: string, lines: seq<string>) {
    exists breaks :: FitTogether(lines, breaks) && raw == Woven(lines, breaks)
  }

  lemma {:induction false} SplitLast(line: string)
    requires '\n' !in line
    ensures SplitLines(line) == [line]
  {
    if line != [] {
      SplitLast(line[1..]);
      assert line == [line[0]] + line[1..];
    }
  }

  lemma {:induction false} SplitChar(s: string)
    requires |s| >= 2 && s[0] != '\n' && !(s[0] == '\r' && s[1] == '\n')
    ensures var rest := SplitLines(s[1..]); SplitLines(s) == [[s[0]] + rest[0]] + rest[1..]
  {
  }

  lemma {:induction false} SplitFirst(line: string, b: string, rest: string)
    requires '\n' !in line && IsBreak(b) && (b == "\n" ==> line == [] || line[|line| - 1] != '\r')
    ensures SplitLines(line + (b + rest)) == [line] + SplitLines(rest)
  {
    var s := line + (b + rest);
    if line == [] {
      assert s == b + rest && s[|b|..] == rest;
    } else {
      SplitFirst(line[1..], b, rest);
      assert s[1..] == line[1..] + (b + rest);
      assert line == [line[0]] + line[1..];
      assert !(s[0] == '\r' && s[1] == '\n') by {
        if |line| == 1 {
          assert s[1] == b[0];
        }
      }
      SplitChar(s);
    }
  }

  lemma {:induction false} WovenSplits(lines: seq<string>, breaks: seq<string>)
    requires FitTogether(lines, breaks)
    ensures SplitLines(Woven(lines, breaks)) == lines
    decreases |breaks|
  {
    hide SplitLines;
    if breaks == [] {
      SplitLast(lines[0]);
      assert lines == [lines[0]];
    } else {
      assert FitTogether(lines[1..], breaks[1..]);
      WovenSplits(lines[1..], breaks[1..]);
      SplitFirst(lines[0], breaks[0], Woven(lines[1..], breaks[1..]));
    }
  }

  lemma {:induction false} SplitIsWoven(raw: string) returns (breaks: seq<string>)
    ensures FitTogether(SplitLines(raw), breaks) && raw == Woven(SplitLines(raw), breaks)
    decreases |raw|
  {
    var lines := SplitLines(raw);
    if raw == [] {
      breaks := [];
    } else if raw[0] == '\n' || (|raw| >= 2 && raw[0] == '\r' && raw[1] == '\n') {
      var n := if raw[0] == '\n' then 1 else 2;
      var rest := SplitIsWoven(raw[n..]);
      breaks := [raw[..n]] + rest;
      assert lines == [[]] + SplitLines(raw[n..]);
      assert lines[1..] == SplitLines(raw[n..]) && breaks[1..] == rest;
      assert raw == raw[..n] + raw[n..];
      assert IsBreak(raw[..n]);
    } else {
      var rest := SplitLines(raw[1..]);
      breaks := SplitIsWoven(raw[1..]);
      assert lines[1..] == rest[1..] && lines[0] == [raw[0]] + rest[0];
      OneMoreChar(raw[0], raw[1..], rest, breaks);
    }
  }

  lemma {:induction false} OneMoreChar(c: char, raw: string, rest: seq<string>, breaks: seq<string>)
    requires FitTogether(rest, breaks) && raw == Woven(rest, breaks)
    requires c != '\n' && (c == '\r' ==> raw == [] || raw[0] != '\n')
    ensures var lines := [[c] + rest[0]] + rest[1..];
            FitTogether(lines, breaks) && [c] + raw == Woven(lines, breaks)
  {
    var lines := [[c] + rest[0]] + rest[1..];
    assert lines[1..] == rest[1..] && lines[0] == [c] + rest[0];
    assert [c] + raw == Woven(lines, breaks);
    if breaks != [] && breaks[0] == "\n" && rest[0] == [] {
      FeedFirst(raw, Woven(rest[1..], breaks[1..]));
    }
    hide IsBreak, Woven;
  }

  lemma {:induction false} FeedFirst(raw: string, rest: string)
    requires raw == "" + ("\n" + rest)
    ensures raw != "" && raw[0] == '\n'
  {
  }

  lemma {:induction false} SplitMeaning(raw: string, lines: seq<string>)
    ensures BreaksInto(raw, lines) <==> SplitLines(raw) == lines
  {
    hide SplitLines, Woven, IsBreak;
    if BreaksInto(raw, lines) {
      var breaks :| FitTogether(lines, breaks) && raw == Woven(lines, breaks);
      WovenSplits(lines, breaks);
    }
    if SplitLines(raw) == lines {
      var breaks := SplitIsWoven(raw);
    }
  }

  // ----- Texts -----

  ghost predicate SpellsAll(lines: seq<string>, kinds: seq<Line>) {
    |lines| == |kinds| && forall i :: 0 <= i < |lines| ==> SpellsLine(lines[i], kinds[i])
  }

  /** The lines of the text say `kinds`. */
  ghost predicate Spells(raw: string, kinds: seq<Line>) {
    exists lines :: BreaksInto(raw, lines) && SpellsAll(lines, kinds)
  }

  lemma {:induction false} TextMeaning(raw: string, kinds: seq<Line>)
    ensures Spells(raw, kinds) <==> ClassifyAll(SplitLines(raw)) == kinds
  {
    hide BreaksInto, SplitLines, SpellsLine, Classify;
    forall lines
      ensures SpellsAll(lines, kinds) <==> ClassifyAll(lines) == kinds
    {
      forall i, kind | 0 <= i < |lines|
        ensures SpellsLine(lines[i], kind) <==> Classify(lines[i]) == kind
      {
        LineMeaning(lines[i], kind);
      }
    }
    SplitMeaning(raw, SplitLines(raw));
    forall lines | BreaksInto(raw, lines)
      ensures lines == SplitLines(raw)
    {
      SplitMeaning(raw, lines);
    }
  }

  /** A text parses to exactly the manifest that its lines denote. */
  lemma {:induction false} ParseMeaning(raw: string, m: Manifest)
    ensures Parse(raw) == Ok(m) <==> exists kinds :: Spells(raw, kinds) && Denotes(kinds, m)
  {
    hide Spells, Denotes, SplitLines, ClassifyAll, Run, Finish;
    var kinds := ClassifyAll(SplitLines(raw));
    LinesMeaning(kinds, m, MissingFiles);
    TextMeaning(raw, kinds);
    forall other | Spells(raw, other)
      ensures other == kinds
    {
      TextMeaning(raw, other);
    }
  }

  /** A text is refused for exactly the first thing wrong with its lines, with the number of that line. */
  lemma {:induction false} ParseFailure(raw: string, e: ParseError)
    ensures Parse(raw) == Err(e) <==> exists kinds :: Spells(raw, kinds) && Refused(kinds, e)
  {
    hide Spells, Refused, SplitLines, ClassifyAll, Run, Finish;
    var kinds := ClassifyAll(SplitLines(raw));
    LinesMeaning(kinds, Manifest("", "", [], map[]), e);
    TextMeaning(raw, kinds);
    forall other | Spells(raw, other)
      ensures other == kinds
    {
      TextMeaning(raw, other);
    }
  }
}
