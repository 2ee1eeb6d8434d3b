/**
 Parsing what `serializeUpdateManifest` prints gives the manifest back exactly
 when the manifest is well formed.
 */
module ManifestRoundTrip {
  import opened Outcomes
  import opened Text
  import opened UpdateManifest
  import opened ManifestText

  // ----- Well-formedness -----

  /** A url or hash is printed bare: it must survive trimming and quote stripping. */
  predicate BareText(s: string) {
    s != [] && OneLine(s) && Trimmed(s) && !StartsAndEndsWithQuote(s)
  }

  predicate ExtraKey(k: string) {
    IsIdentifier(k) && k != "version" && k != "releaseDate" && k != "path" && k != "sha512"
  }

  predicate GoodExtras(extras: map<string, Scalar>) {
    forall k :: k in extras ==> ExtraKey(k) && OneLineScalar(extras[k])
  }

  predicate GoodFiles(files: seq<File>) {
    forall i :: 0 <= i < |files| ==> BareText(files[i].url) && BareText(files[i].sha512)
  }

  /** No number among the values and sizes is so small or large that it prints with an exponent. */
  predicate PositionalNumbers(m: Manifest) {
    && (forall i :: 0 <= i < |m.files| ==> Positional(Decimal(m.files[i].size, 0)))
    && (forall k :: k in m.extras && m.extras[k].Num? ==> Positional(m.extras[k].value))
  }

  predicate WellFormed(m: Manifest) {
    && m.version != [] && OneLine(m.version)
    && m.releaseDate != [] && OneLine(m.releaseDate)
    && m.files != [] && GoodFiles(m.files)
    && GoodExtras(m.extras)
    && PositionalNumbers(m)
  }

  predicate OneLineFiles(files: seq<File>) {
    forall i :: 0 <= i < |files| ==> OneLine(files[i].url) && OneLine(files[i].sha512)
  }

  /** As `WellFormed`, but of the file fields only asks that they are one line each, and nothing of numbers. */
  predicate Printable(m: Manifest) {
    && m.version != [] && OneLine(m.version)
    && m.releaseDate != [] && OneLine(m.releaseDate)
    && m.files != [] && OneLineFiles(m.files)
    && GoodExtras(m.extras)
  }

  // ----- What the printed lines say -----

  function UrlKindOf(url: string): Line {
    if Trim(url) == [] then Unsupported else UrlLine(FieldText(url))
  }

  function Sha512KindOf(sha512: string): Line {
    if Trim(sha512) == [] then Unsupported else Sha512Line(FieldText(sha512))
  }

  function OneFileKinds(f: File): (kinds: seq<Line>)
    ensures |kinds| == 3
  {
    [UrlKindOf(f.url), Sha512KindOf(f.sha512), SizeKindOf(f.size)]
  }

  function FileKinds(files: seq<File>): seq<Line> {
    if files == [] then [] else OneFileKinds(files[0]) + FileKinds(files[1..])
  }

  function ExtraKinds(extras: map<string, Scalar>, keys: seq<string>): seq<Line>
    requires forall k :: k in keys ==> k in extras
  {
    if keys == [] then [] else [TopLevel(keys[0], extras[keys[0]])] + ExtraKinds(extras, keys[1..])
  }

  /** Each line has no line terminator and says the matching kind. */
  predicate Says(lines: seq<string>, kinds: seq<Line>) {
    |lines| == |kinds| && forall i :: 0 <= i < |lines| ==> OneLine(lines[i]) && Classify(lines[i]) == kinds[i]
  }

  lemma {:induction false} UrlLineSays(url: string)
    requires OneLine(url)
    ensures Classify(URL_PREFIX + " " + url) == UrlKindOf(url)
  {
    hide Classify;
    UrlKind(url);
  }

  lemma {:induction false} Sha512LineSays(sha512: string)
    requires OneLine(sha512)
    ensures Classify(SHA512_PREFIX + " " + sha512) == Sha512KindOf(sha512)
  {
    hide Classify;
    Sha512Kind(sha512);
  }

  lemma {:induction false} OneFileSays(f: File)
    requires OneLine(f.url) && OneLine(f.sha512)
    ensures Says(OneFileLines(f), OneFileKinds(f))
  {
    hide Classify, Trim, FieldText, SizeText, SizeKindOf, UrlKindOf, Sha512KindOf;
    UrlLineSays(f.url);
    Sha512LineSays(f.sha512);
    SizeKind(f.size);
    SizeTextMeaning(f.size);
    assert OneLine(URL_PREFIX + " " + f.url);
    assert OneLine(SHA512_PREFIX + " " + f.sha512);
    assert OneLine(SIZE_PREFIX + " " + SizeText(f.size));
  }

  lemma {:induction false} FileLinesSay(files: seq<File>)
    requires OneLineFiles(files)
    ensures Says(FileLines(files), FileKinds(files))
  {
    if files != [] {
      FileLinesSay(files[1..]);
      OneFileSays(files[0]);
      SaysAppend(OneFileLines(files[0]), OneFileKinds(files[0]), FileLines(files[1..]), FileKinds(files[1..]));
    }
  }

  lemma {:induction false} EntryLineSays(key: string, value: Scalar)
    requires IsIdentifier(key) && OneLineScalar(value)
    ensures OneLine(EntryLine(key, value)) && Classify(EntryLine(key, value)) == TopLevel(key, RereadScalar(value))
  {
    hide Classify, SerializeScalarValue, ParseScalarValue, RereadScalar;
    ScalarReadsBack(value);
    TopLevelKind(key, SerializeScalarValue(value));
  }

  /** The extras as they are after printing and reading. */
  function RereadExtras(extras: map<string, Scalar>): map<string, Scalar> {
    map k | k in extras :: RereadScalar(extras[k])
  }

  lemma {:induction false} ExtraLinesSay(extras: map<string, Scalar>, keys: seq<string>)
    requires GoodExtras(extras) && forall k :: k in keys ==> k in extras
    ensures Says(ExtraLines(extras, keys), ExtraKinds(RereadExtras(extras), keys))
  {
    hide EntryLine, Classify, RereadScalar;
    if keys != [] {
      EntryLineSays(keys[0], extras[keys[0]]);
      ExtraLinesSay(extras, keys[1..]);
    }
  }

  function ManifestKinds(m: Manifest): seq<Line> {
    [TopLevel("version", Str(m.version)), FilesHeader] +
    (FileKinds(m.files) +
     (ExtraKinds(RereadExtras(m.extras), SortedKeys(m.extras.Keys)) +
      [TopLevel("releaseDate", Str(m.releaseDate)), Blank]))
  }

  lemma {:induction false} SaysAppend(a: seq<string>, ka: seq<Line>, b: seq<string>, kb: seq<Line>)
    requires Says(a, ka) && Says(b, kb)
    ensures Says(a + b, ka + kb)
  {
  }

  /** A scalar entry followed by a line without values. */
  lemma {:induction false} PairSays(key: string, text: string, line: string, kind: Line)
    requires IsIdentifier(key) && OneLine(text) && OneLine(line) && Classify(line) == kind
    ensures Says([EntryLine(key, Str(text)), line], [TopLevel(key, Str(text)), kind])
  {
    hide EntryLine, Classify;
    EntryLineSays(key, Str(text));
  }

  lemma {:induction false} ManifestLinesSay(m: Manifest)
    requires Printable(m)
    ensures Says(ManifestLines(m), ManifestKinds(m))
  {
    hide Classify, EntryLine, FileLines, ExtraLines, FileKinds, ExtraKinds, SortedKeys;
    var keys := SortedKeys(m.extras.Keys);
    var head, headKinds := [EntryLine("version", Str(m.version)), "files:"],
        [TopLevel("version", Str(m.version)), FilesHeader];
    var tail, tailKinds := [EntryLine("releaseDate", Str(m.releaseDate)), ""],
        [TopLevel("releaseDate", Str(m.releaseDate)), Blank];
    assert Says(head, headKinds) && Says(tail, tailKinds) by {
      FilesHeaderKind();
      PairSays("version", m.version, "files:", FilesHeader);
      PairSays("releaseDate", m.releaseDate, "", Blank);
    }
    FileLinesSay(m.files);
    ExtraLinesSay(m.extras, keys);
    AppendAll(head, headKinds, FileLines(m.files), FileKinds(m.files),
              ExtraLines(m.extras, keys), ExtraKinds(RereadExtras(m.extras), keys), tail, tailKinds);
  }

  lemma {:induction false} AppendAll(
      a: seq<string>, ka: seq<Line>, b: seq<string>, kb: seq<Line>,
      c: seq<string>, kc: seq<Line>, d: seq<string>, kd: seq<Line>)
    requires Says(a, ka) && Says(b, kb) && Says(c, kc) && Says(d, kd)
    ensures Says(a + (b + (c + d)), ka + (kb + (kc + kd)))
  {
    SaysAppend(c, kc, d, kd);
    SaysAppend(b, kb, c + d, kc + kd);
    SaysAppend(a, ka, b + (c + d), kb + (kc + kd));
  }

  lemma {:induction false} PrintedLinesSay(m: Manifest)
    requires Printable(m)
    ensures SplitLines(Serialize(m)) == ManifestLines(m)
    ensures ClassifyAll(ManifestLines(m)) == ManifestKinds(m)
  {
    ManifestLinesSay(m);
    SplitLinesJoin(ManifestLines(m));
  }

  // ----- Running over the printed lines -----

  lemma {:induction false} RunAppend(s: ParseState, done: nat, a: seq<Line>, b: seq<Line>)
    ensures Run(s, done, a + b) ==
            match Run(s, done, a) { case Err(e) => Err(e) case Ok(t) => Run(t, done + |a|, b) }
    decreases |a|
  {
    if a == [] {
      assert a + b == b;
    } else {
      assert (a + b)[1..] == a[1..] + b;
      match Step(s, done + 1, a[0])
      case Err(_) =>
      case Ok(next) => RunAppend(next, done + 1, a[1..], b);
    }
  }

  /** What reading back the lines of a readable file gives. */
  function Reread(f: File): File {
    File(FieldText(f.url), FieldText(f.sha512), f.size)
  }

  function RereadAll(files: seq<File>): (r: seq<File>)
    ensures |r| == |files| && forall i :: 0 <= i < |r| ==> r[i] == Reread(files[i])
  {
    seq(|files|, i requires 0 <= i < |files| => Reread(files[i]))
  }

  /** No field is blank and the size is printed without an exponent. */
  predicate ReadableFile(f: File) {
    Trim(f.url) != [] && Trim(f.sha512) != [] && Positional(Decimal(f.size, 0))
  }

  /** Closing the open file entry, if any, leaves exactly `files`. */
  ghost predicate Closes(s: ParseState, files: seq<File>) {
    && (s.current.Some? ==> s.inFiles)
    && forall line {:trigger Finalize(s.files, s.current, line)} :: Finalize(s.files, s.current, line) == Ok(files)
  }

  function WithFile(s: ParseState, before: seq<File>, f: File): ParseState {
    s.(files := before, current := Some(Draft(f.url, Some(f.sha512), Some(f.size))), inFiles := true)
  }

  lemma {:induction false} RunOneFile(s: ParseState, done: nat, f: File, before: seq<File>)
    requires Closes(s, before)
    ensures Closes(WithFile(s, before, Reread(f)), before + [Reread(f)])
    ensures var r := Run(s, done, OneFileKinds(f));
            if ReadableFile(f) then r == Ok(WithFile(s, before, Reread(f))) else r.Err?
  {
    var url, sha512, size := UrlKindOf(f.url), Sha512KindOf(f.sha512), SizeKindOf(f.size);
    hide Positional, Trim, FieldText;
    assert Finalize(s.files, s.current, done + 1) == Ok(before);
    assert OneFileKinds(f)[1..] == [sha512, size] && [sha512, size][1..] == [size] && [size][1..] == [];
    if Step(s, done + 1, url).Ok? {
      var s1 := Step(s, done + 1, url).value;
      if Step(s1, done + 2, sha512).Ok? {
        var s2 := Step(s1, done + 2, sha512).value;
        var s3 := Step(s2, done + 3, size);
        assert Positional(Decimal(f.size, 0)) ==> s3 == Ok(WithFile(s, before, Reread(f)));
        assert Run(s2, done + 2, [size]) == s3;
        assert Run(s1, done + 1, [sha512, size]) == s3;
      } else {
        assert Run(s1, done + 1, [sha512, size]).Err?;
      }
    }
  }

  lemma {:induction false} RunNothing(s: ParseState, done: nat)
    ensures Run(s, done, []) == Ok(s) && ReadableFiles([])
  {
  }

  predicate ReadableFiles(files: seq<File>) {
    forall i :: 0 <= i < |files| ==> ReadableFile(files[i])
  }

  lemma {:induction false} ReadableFilesSplit(head: File, tail: seq<File>)
    ensures ReadableFiles([head] + tail) <==> ReadableFile(head) && ReadableFiles(tail)
  {
    if ReadableFiles([head] + tail) {
      assert ([head] + tail)[0] == head;
      assert forall i :: 0 <= i < |tail| ==> ([head] + tail)[i + 1] == tail[i];
    }
  }

  /** The file section: the last file is still open when it ends. */
  lemma {:induction false} RunFiles(s: ParseState, done: nat, files: seq<File>, before: seq<File>)
    requires Closes(s, before) && s.inFiles
    ensures var r := Run(s, done, FileKinds(files));
            && (r.Ok? <==> ReadableFiles(files))
            && (r.Ok? ==>
                  && Closes(r.value, before + RereadAll(files))
                  && r.value == s.(files := r.value.files, current := r.value.current))
    decreases |files|
  {
    hide Step, ReadableFile, ReadableFiles, OneFileKinds, FieldText, Closes, Run;
    if files == [] {
      assert before + RereadAll(files) == before;
      RunNothing(s, done);
    } else {
      var head, tail := files[0], files[1..];
      assert files == [head] + tail;
      ReadableFilesSplit(head, tail);
      RunOneFile(s, done, head, before);
      RunAppend(s, done, OneFileKinds(head), FileKinds(tail));
      if ReadableFile(head) {
        var after := before + [Reread(head)];
        var next := WithFile(s, before, Reread(head));
        RunFiles(next, done + 3, tail, after);
        assert after + RereadAll(tail) == before + RereadAll(files);
      }
    }
  }

  lemma {:induction false} StepCloses(s: ParseState, line: nat, key: string, value: Scalar, files: seq<File>)
    requires Closes(s, files)
    ensures Step(s, line, TopLevel(key, value)) ==
            StepTopLevel(s.(files := files, current := None, inFiles := false), line, key, value)
  {
    assert Finalize(s.files, s.current, line) == Ok(files);
  }

  lemma {:induction false} StepExtra(s: ParseState, line: nat, key: string, value: Scalar, files: seq<File>)
    requires Closes(s, files) && ExtraKey(key)
    ensures var next := s.(files := files, current := None, inFiles := false, extras := s.extras[key := value]);
            Step(s, line, TopLevel(key, value)) == Ok(next) && Closes(next, files)
  {
    StepCloses(s, line, key, value, files);
  }

  lemma {:induction false} RunCons(s: ParseState, done: nat, kind: Line, kinds: seq<Line>)
    ensures Run(s, done, [kind] + kinds) ==
            match Step(s, done + 1, kind) { case Err(e) => Err(e) case Ok(next) => Run(next, done + 1, kinds) }
  {
    assert ([kind] + kinds)[1..] == kinds;
  }

  lemma {:induction false} ExtraKindsCons(extras: map<string, Scalar>, keys: seq<string>)
    requires forall k :: k in keys ==> k in extras
    ensures keys == [] ==> ExtraKinds(extras, keys) == []
    ensures keys != [] ==>
              ExtraKinds(extras, keys) == [TopLevel(keys[0], extras[keys[0]])] + ExtraKinds(extras, keys[1..])
  {
  }

  lemma {:induction false} RunExtras(s: ParseState, done: nat, extras: map<string, Scalar>, keys: seq<string>,
      files: seq<File>)
    requires forall k :: k in keys ==> k in extras && ExtraKey(k)
    requires Closes(s, files)
    ensures var r := Run(s, done, ExtraKinds(extras, keys));
            && r.Ok? && Closes(r.value, files)
            && r.value.version == s.version && r.value.releaseDate == s.releaseDate
            && r.value.extras == s.extras + map k | k in keys :: extras[k]
    decreases |keys|
  {
    hide Closes, ExtraKey, Step, Run, ExtraKinds;
    var listed := map k | k in keys :: extras[k];
    ExtraKindsCons(extras, keys);
    if keys == [] {
      RunNothing(s, done);
      assert s.extras + listed == s.extras;
    } else {
      var key, tail := keys[0], keys[1..];
      StepExtra(s, done + 1, key, extras[key], files);
      var t := s.(files := files, current := None, inFiles := false, extras := s.extras[key := extras[key]]);
      RunCons(s, done, TopLevel(key, extras[key]), ExtraKinds(extras, tail));
      RunExtras(t, done + 1, extras, tail, files);
      assert t.extras + (map k | k in tail :: extras[k]) == s.extras + listed;
    }
  }

  lemma {:induction false} RunLast(s: ParseState, done: nat, date: string, files: seq<File>)
    requires Closes(s, files)
    ensures Run(s, done, [TopLevel("releaseDate", Str(date)), Blank]) ==
            Ok(s.(files := files, current := None, inFiles := false, releaseDate := Some(date)))
  {
    StepCloses(s, done + 1, "releaseDate", Str(date), files);
    assert [TopLevel("releaseDate", Str(date)), Blank][1..] == [Blank];
    assert [Blank][1..] == [];
  }

  lemma {:induction false} RunFirst(version: string)
    ensures Run(INITIAL_STATE, 0, [TopLevel("version", Str(version)), FilesHeader]) ==
            Ok(INITIAL_STATE.(version := Some(version), inFiles := true))
  {
    StepCloses(INITIAL_STATE, 1, "version", Str(version), []);
    assert [TopLevel("version", Str(version)), FilesHeader][1..] == [FilesHeader];
    assert [FilesHeader][1..] == [];
  }

  /** From the end of the file section to the end of the text. */
  lemma {:induction false} RunAfterFiles(s: ParseState, done: nat, m: Manifest, files: seq<File>)
    requires GoodExtras(m.extras) && Closes(s, files) && s.extras == map[] && s.version == Some(m.version)
    ensures Run(s, done, ExtraKinds(m.extras, SortedKeys(m.extras.Keys)) +
            [TopLevel("releaseDate", Str(m.releaseDate)), Blank]) ==
            Ok(ParseState(files, m.extras, Some(m.version), Some(m.releaseDate), false, None))
  {
    hide Run, Closes, ExtraKinds, SortedKeys;
    var keys := SortedKeys(m.extras.Keys);
    var extras := ExtraKinds(m.extras, keys);
    RunExtras(s, done, m.extras, keys, files);
    RunAppend(s, done, extras, [TopLevel("releaseDate", Str(m.releaseDate)), Blank]);
    var t := Run(s, done, extras).value;
    assert t.extras == m.extras;
    RunLast(t, done + |extras|, m.releaseDate, files);
  }

  lemma {:induction false} RereadExtrasGood(extras: map<string, Scalar>)
    requires GoodExtras(extras)
    ensures GoodExtras(RereadExtras(extras)) && RereadExtras(extras).Keys == extras.Keys
  {
    forall k | k in extras && extras[k].Num?
      ensures OneLine(NumberText(extras[k].value))
    {
      NumberTextShape(extras[k].value);
    }
    hide NumberText, ExtraKey, OneLine, Positional;
  }

  /** The kinds of the lines after the file section. */
  function RestKinds(m: Manifest): seq<Line> {
    ExtraKinds(m.extras, SortedKeys(m.extras.Keys)) + [TopLevel("releaseDate", Str(m.releaseDate)), Blank]
  }

  /** From the file section on. */
  lemma {:induction false} RunBody(s: ParseState, m: Manifest)
    requires GoodExtras(m.extras) && Closes(s, []) && s.inFiles && s.extras == map[] && s.version == Some(m.version)
    ensures var r := Run(s, 2, FileKinds(m.files) + RestKinds(m));
            && (r.Ok? <==> ReadableFiles(m.files))
            && (r.Ok? ==>
                  r.value ==
                      ParseState(RereadAll(m.files), m.extras, Some(m.version), Some(m.releaseDate), false, None))
  {
    hide Run, FileKinds, ExtraKinds, SortedKeys, RereadAll, ReadableFiles, GoodExtras, Closes;
    var files := FileKinds(m.files);
    RunFiles(s, 2, m.files, []);
    RunAppend(s, 2, files, RestKinds(m));
    if Run(s, 2, files).Ok? {
      assert [] + RereadAll(m.files) == RereadAll(m.files);
      RunAfterFiles(Run(s, 2, files).value, 2 + |files|, m, RereadAll(m.files));
    }
  }

  /** The whole run: it fails on an unreadable file entry and otherwise rereads every file and value. */
  lemma {:induction false} RunManifest(m: Manifest)
    requires GoodExtras(m.extras)
    ensures var r := Run(INITIAL_STATE, 0, ManifestKinds(m));
            && (r.Ok? <==> ReadableFiles(m.files))
            && (r.Ok? ==>
                  r.value == ParseState(RereadAll(m.files), RereadExtras(m.extras),
                                        Some(m.version), Some(m.releaseDate), false, None))
  {
    var again := m.(extras := RereadExtras(m.extras));
    RereadExtrasGood(m.extras);
    var s := INITIAL_STATE.(version := Some(m.version), inFiles := true);
    assert Closes(s, []);
    hide Run, FileKinds, ExtraKinds, SortedKeys, RereadAll, ReadableFiles, GoodExtras, RereadExtras, Closes;
    RunFirst(m.version);
    RunAppend(INITIAL_STATE, 0, [TopLevel("version", Str(m.version)), FilesHeader], FileKinds(m.files) +
        RestKinds(again));
    RunBody(s, again);
  }

  /**
   Reading a printable manifest back: a blank field or a size with an exponent
   fails; otherwise file fields lose their wrapping and numbers with an exponent
   become strings.
   */
  lemma {:induction false} ReadBack(m: Manifest)
    requires Printable(m)
    ensures Parse(Serialize(m)).Ok? <==> ReadableFiles(m.files)
    ensures Parse(Serialize(m)).Ok? ==>
            Parse(Serialize(m)).value == m.(files := RereadAll(m.files), extras := RereadExtras(m.extras))
  {
    hide Run, ManifestKinds, ManifestLines, ClassifyAll, SplitLines, Serialize, RereadAll, RereadExtras, ReadableFiles;
    hide GoodExtras, OneLineFiles, OneLine;
    PrintedLinesSay(m);
    RunManifest(m);
    var r := Run(INITIAL_STATE, 0, ManifestKinds(m));
    if r.Ok? {
      assert Finalize(r.value.files, r.value.current, |SplitLines(Serialize(m))|) == Ok(RereadAll(m.files));
    }
  }

  // ----- What a parse can yield -----

  predicate OneLineState(s: ParseState) {
    && OneLineFiles(s.files) && GoodExtras(s.extras)
    && (s.version.Some? ==> OneLine(s.version.value))
    && (s.releaseDate.Some? ==> OneLine(s.releaseDate.value))
    && (s.current.Some? ==>
          OneLine(s.current.value.url) && (s.current.value.sha512.Some? ==> OneLine(s.current.value.sha512.value)))
  }

  lemma {:induction false} StepKeepsOneLine(s: ParseState, line: nat, kind: Line)
    requires OneLineState(s) && OneLineKind(kind)
    ensures Step(s, line, kind).Ok? ==> OneLineState(Step(s, line, kind).value)
  {
    hide OneLine, IsIdentifier;
  }

  lemma {:induction false} RunKeepsOneLine(s: ParseState, done: nat, kinds: seq<Line>)
    requires OneLineState(s) && forall i :: 0 <= i < |kinds| ==> OneLineKind(kinds[i])
    ensures Run(s, done, kinds).Ok? ==> OneLineState(Run(s, done, kinds).value)
    decreases |kinds|
  {
    if kinds != [] {
      StepKeepsOneLine(s, done + 1, kinds[0]);
      match Step(s, done + 1, kinds[0])
      case Err(_) =>
      case Ok(next) => RunKeepsOneLine(next, done + 1, kinds[1..]);
    }
  }

  /** Every manifest any text parses to is printable. */
  lemma {:induction false} ParsedIsPrintable(raw: string)
    ensures Parse(raw).Ok? ==> Printable(Parse(raw).value)
  {
    hide Classify, SplitLines, Run, OneLine, IsIdentifier, OneLineKind, GoodExtras;
    var lines := SplitLines(raw);
    var kinds := ClassifyAll(lines);
    forall i | 0 <= i < |kinds|
      ensures OneLineKind(kinds[i])
    {
      KindsAreOneLine(lines[i]);
    }
    assert OneLineState(INITIAL_STATE) by {
      NoExtras();
    }
    RunKeepsOneLine(INITIAL_STATE, 0, kinds);
  }

  lemma {:induction false} NoExtras()
    ensures GoodExtras(map[])
  {
  }

  // ----- The round trip -----

  lemma {:induction false} RereadSame(s: string)
    requires OneLine(s)
    ensures (Trim(s) != [] && FieldText(s) == s) <==> BareText(s)
  {
    TrimFacts(s);
    StripFacts(Trim(s));
  }

  lemma {:induction false} RereadFilesSame(files: seq<File>)
    requires OneLineFiles(files)
    ensures ReadableFiles(files) && RereadAll(files) == files <==>
            GoodFiles(files) && forall i :: 0 <= i < |files| ==> Positional(Decimal(files[i].size, 0))
  {
    hide Positional, FieldText, Trim, BareText;
    forall i | 0 <= i < |files|
      ensures ReadableFile(files[i]) && Reread(files[i]) == files[i] <==>
              BareText(files[i].url) && BareText(files[i].sha512) && Positional(Decimal(files[i].size, 0))
    {
      RereadSame(files[i].url);
      RereadSame(files[i].sha512);
    }
    assert (forall i :: 0 <= i < |files| ==> Reread(files[i]) == files[i]) <==> RereadAll(files) == files;
  }

  lemma {:induction false} RereadExtrasSame(extras: map<string, Scalar>)
    ensures RereadExtras(extras) == extras <==>
            forall k :: k in extras && extras[k].Num? ==> Positional(extras[k].value)
  {
    hide Positional, NumberText;
    if RereadExtras(extras) == extras {
      forall k | k in extras && extras[k].Num?
        ensures Positional(extras[k].value)
      {
        assert RereadExtras(extras)[k] == extras[k];
      }
    }
  }

  /** Printing and parsing is the identity exactly on the well-formed manifests. */
  lemma {:induction false} RoundTrip(m: Manifest)
    ensures Parse(Serialize(m)) == Ok(m) <==> WellFormed(m)
  {
    hide Parse, Serialize, RereadAll, RereadExtras, ReadableFiles, GoodFiles, OneLineFiles, GoodExtras, Positional;
    if Parse(Serialize(m)) == Ok(m) {
      ParsedIsPrintable(Serialize(m));
    }
    if WellFormed(m) {
      GoodFilesAreOneLine(m.files);
    }
    if Printable(m) {
      ReadBack(m);
      RereadFilesSame(m.files);
      RereadExtrasSame(m.extras);
    }
  }

  lemma {:induction false} GoodFilesAreOneLine(files: seq<File>)
    requires GoodFiles(files)
    ensures OneLineFiles(files)
  {
  }
}
