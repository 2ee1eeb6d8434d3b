/**
 What the lines of an update manifest mean, said by where the lines stand and without
 reading them one after the other; and that `Parse` reads exactly that.
 */
module ManifestGrammar {
  import opened Outcomes
  import opened Sequences
  import opened UpdateManifest

  // ----- Where things stand -----

  predicate IsUrl(k: Line) {
    k.UrlLine?
  }

  predicate IsSha512(k: Line) {
    k.Sha512Line?
  }

  predicate IsSize(k: Line) {
    k.SizeLine?
  }

  /** A file entry lasts until the next url line or the next line outside the file list. */
  predicate EndsEntry(k: Line) {
    k.UrlLine? || k.TopLevel? || k.Unsupported?
  }

  function Gives(key: string): Line -> bool {
    (k: Line) => k.TopLevel? && k.key == key
  }

  /** The url line whose entry is still open where line `i` begins. */
  function OpenUrl(kinds: seq<Line>, i: nat): (r: Option<nat>)
    requires i <= |kinds|
    ensures r.Some? ==> r.value < i && kinds[r.value].UrlLine?
    ensures r.Some? ==> forall j :: r.value < j < i ==> !EndsEntry(kinds[j])
  {
    match LastIn(kinds, 0, i, EndsEntry)
    case Some(u) => if kinds[u].UrlLine? then Some(u) else None
    case None => None
  }

  function EntryEnd(kinds: seq<Line>, u: nat): (end: nat)
    requires u < |kinds|
    ensures u < end <= |kinds| && (end < |kinds| ==> EndsEntry(kinds[end]))
    ensures forall j :: u < j < end ==> !EndsEntry(kinds[j])
  {
    var rest := kinds[u + 1..];
    assert forall j :: u < j < |kinds| ==> kinds[j] == rest[j - u - 1];
    match FindIndex(rest, EndsEntry)
    case Some(i) => u + 1 + i
    case None => |kinds|
  }

  /** The last hash given from line `from` on and before line `to`. */
  function Sha512In(kinds: seq<Line>, from: nat, to: nat): Option<string>
    requires from <= to <= |kinds|
  {
    match LastIn(kinds, from, to, IsSha512) case Some(i) => Some(kinds[i].sha512) case None => None
  }

  function SizeIn(kinds: seq<Line>, from: nat, to: nat): Option<nat>
    requires from <= to <= |kinds|
  {
    match LastIn(kinds, from, to, IsSize) case Some(i) => Some(kinds[i].size) case None => None
  }

  /** The last value given to a key before line `n`. */
  function LastGiven(kinds: seq<Line>, n: nat, key: string): Option<Scalar>
    requires n <= |kinds|
  {
    match LastIn(kinds, 0, n, Gives(key)) case Some(i) => Some(kinds[i].value) case None => None
  }

  // ----- What is wrong with a text -----

  /** The entry that is open where line `i` begins lacks its hash or its size. */
  predicate Incomplete(kinds: seq<Line>, i: nat)
    requires i <= |kinds|
  {
    var u := OpenUrl(kinds, i);
    u.Some? && (Sha512In(kinds, u.value + 1, i).None? || SizeIn(kinds, u.value + 1, i).None?)
  }

  predicate NotText(k: Line, key: string) {
    k.TopLevel? && k.key == key && !k.value.Str?
  }

  /** `e` is what line `i`, counted from 0, has against it. */
  predicate IsFault(kinds: seq<Line>, i: nat, e: ParseError)
    requires i < |kinds|
  {
    match e
    case IncompleteFile(line) => line == i + 1 && EndsEntry(kinds[i]) && Incomplete(kinds, i)
    case Sha512WithoutFile(line) => line == i + 1 && kinds[i].Sha512Line? && OpenUrl(kinds, i).None?
    case SizeWithoutFile(line) => line == i + 1 && kinds[i].SizeLine? && OpenUrl(kinds, i).None?
    case UnsupportedLine(line) => line == i + 1 && kinds[i].Unsupported? && !Incomplete(kinds, i)
    case VersionNotString(line) => line == i + 1 && NotText(kinds[i], "version") && !Incomplete(kinds, i)
    case ReleaseDateNotString(line) => line == i + 1 && NotText(kinds[i], "releaseDate") && !Incomplete(kinds, i)
    case _ => false
  }

  predicate NoText(given: Option<Scalar>) {
    given == None || given == Some(Str(""))
  }

  /** `e` is what remains against a text whose lines are all right. */
  predicate IsEndFault(kinds: seq<Line>, e: ParseError) {
    var n := |kinds|;
    var noVersion, noDate := NoText(LastGiven(kinds, n, "version")), NoText(LastGiven(kinds, n, "releaseDate"));
    match e
    case IncompleteFile(line) => line == n && Incomplete(kinds, n)
    case MissingVersion => !Incomplete(kinds, n) && noVersion
    case MissingReleaseDate => !Incomplete(kinds, n) && !noVersion && noDate
    case MissingFiles => !Incomplete(kinds, n) && !noVersion && !noDate && forall i :: 0 <= i < n ==> !kinds[i].UrlLine?
    case _ => false
  }

  ghost predicate Faultless(kinds: seq<Line>, n: nat)
    requires n <= |kinds|
  {
    forall i, e :: 0 <= i < n ==> !IsFault(kinds, i, e)
  }

  /** The lines are refused with `e`: it is the first fault, or the one at the end if no line has any. */
  ghost predicate Refused(kinds: seq<Line>, e: ParseError) {
    || (exists i :: 0 <= i < |kinds| && Faultless(kinds, i) && IsFault(kinds, i, e))
    || (Faultless(kinds, |kinds|) && IsEndFault(kinds, e))
  }

  // ----- What a text means -----

  /** The file whose entry starts at the url line `u`; the last hash and the last size in it count. */
  predicate IsFileAt(kinds: seq<Line>, u: nat, f: File)
    requires u < |kinds|
  {
    && kinds[u] == UrlLine(f.url)
    && Sha512In(kinds, u + 1, EntryEnd(kinds, u)) == Some(f.sha512)
    && SizeIn(kinds, u + 1, EntryEnd(kinds, u)) == Some(f.size)
  }

  predicate AreFilesAt(kinds: seq<Line>, at: seq<nat>, files: seq<File>)
    requires forall j :: 0 <= j < |at| ==> at[j] < |kinds|
  {
    |files| == |at| && forall j :: 0 <= j < |at| ==> IsFileAt(kinds, at[j], files[j])
  }

  /** Keys that go to the extras. */
  predicate IsExtra(key: string) {
    key !in {"version", "releaseDate", "path", "sha512"}
  }

  ghost predicate AreExtras(kinds: seq<Line>, n: nat, extras: map<string, Scalar>)
    requires n <= |kinds|
  {
    forall k :: (if k in extras then Some(extras[k]) else None) == if IsExtra(k) then LastGiven(kinds, n, k) else None
  }

  /**
   The lines are those of the manifest `m`: nothing is wrong with them, the last
   version, date and extra of each name count, and each url line stands for a file.
   */
  ghost predicate Denotes(kinds: seq<Line>, m: Manifest) {
    var n := |kinds|;
    && Faultless(kinds, n)
    && (forall e :: !IsEndFault(kinds, e))
    && LastGiven(kinds, n, "version") == Some(Str(m.version))
    && LastGiven(kinds, n, "releaseDate") == Some(Str(m.releaseDate))
    && AreFilesAt(kinds, Positions(kinds, n, IsUrl), m.files)
    && AreExtras(kinds, n, m.extras)
  }

  // ----- The reader's state after `n` lines -----

  function Text(given: Option<Scalar>): Option<string> {
    if given.Some? && given.value.Str? then Some(given.value.text) else None
  }

  ghost predicate HasRead(kinds: seq<Line>, n: nat, s: ParseState)
    requires n <= |kinds|
  {
    && HasReadValues(kinds, n, s)
    && HasReadFiles(kinds, n, s)
  }

  ghost predicate HasReadValues(kinds: seq<Line>, n: nat, s: ParseState)
    requires n <= |kinds|
  {
    && HasReadText(kinds, n, "version", s.version)
    && HasReadText(kinds, n, "releaseDate", s.releaseDate)
    && AreExtras(kinds, n, s.extras)
  }

  predicate HasReadText(kinds: seq<Line>, n: nat, key: string, read: Option<string>)
    requires n <= |kinds|
  {
    LastGiven(kinds, n, key) == match read case Some(text) => Some(Str(text)) case None => None
  }

  /** The url lines whose entries have ended before line `n`. */
  function EndedUrls(kinds: seq<Line>, n: nat): (at: seq<nat>)
    requires n <= |kinds|
    ensures forall j :: 0 <= j < |at| ==> at[j] < n
  {
    var at := Positions(kinds, n, IsUrl);
    if OpenUrl(kinds, n).Some? && at != [] then at[..|at| - 1] else at
  }

  predicate HasReadFiles(kinds: seq<Line>, n: nat, s: ParseState)
    requires n <= |kinds|
  {
    && AreFilesAt(kinds, EndedUrls(kinds, n), s.files)
    && match OpenUrl(kinds, n)
       case None => s.current == None
       case Some(u) =>
         && s.inFiles
         && s.current == Some(Draft(kinds[u].url, Sha512In(kinds, u + 1, n), SizeIn(kinds, u + 1, n)))
  }

  // ----- One line -----

  lemma {:induction false} NothingRead(kinds: seq<Line>)
    ensures HasRead(kinds, 0, INITIAL_STATE) && Faultless(kinds, 0)
  {
  }

  lemma {:induction false} LastGivenStep(kinds: seq<Line>, n: nat, key: string)
    requires n < |kinds|
    ensures LastGiven(kinds, n + 1, key) ==
            if kinds[n].TopLevel? && kinds[n].key == key then Some(kinds[n].value) else LastGiven(kinds, n, key)
  {
  }

  lemma {:induction false} ValuesStay(kinds: seq<Line>, n: nat, s: ParseState, t: ParseState)
    requires n < |kinds| && !kinds[n].TopLevel? && HasReadValues(kinds, n, s)
    requires t.version == s.version && t.releaseDate == s.releaseDate && t.extras == s.extras
    ensures HasReadValues(kinds, n + 1, t)
  {
    forall k
      ensures LastGiven(kinds, n + 1, k) == LastGiven(kinds, n, k)
    {
      LastGivenStep(kinds, n, k);
    }
    hide LastGiven, IsExtra;
  }

  lemma {:induction false} OpenUrlStep(kinds: seq<Line>, n: nat)
    requires n < |kinds|
    ensures OpenUrl(kinds, n + 1) ==
            if kinds[n].UrlLine? then Some(n) else if EndsEntry(kinds[n]) then None else OpenUrl(kinds, n)
    ensures Positions(kinds, n + 1, IsUrl) == Positions(kinds, n, IsUrl) + if kinds[n].UrlLine? then [n] else []
  {
  }

  /** The entry that is open at `n` is the last one begun. */
  lemma {:induction false} OpenIsLast(kinds: seq<Line>, n: nat)
    requires n <= |kinds| && OpenUrl(kinds, n).Some?
    ensures var at := Positions(kinds, n, IsUrl);
            at != [] && at[|at| - 1] == OpenUrl(kinds, n).value && EndedUrls(kinds, n) == at[..|at| - 1]
  {
    var u, at := OpenUrl(kinds, n).value, Positions(kinds, n, IsUrl);
    assert u in at;
    var last := at[|at| - 1];
    assert last in at;
    assert IsUrl(kinds[last]);
    assert last <= u by {
      if last > u {
        assert EndsEntry(kinds[last]);
      }
    }
  }

  lemma {:induction false} EntryEndsHere(kinds: seq<Line>, n: nat)
    requires n <= |kinds| && OpenUrl(kinds, n).Some? && (n < |kinds| ==> EndsEntry(kinds[n]))
    ensures EntryEnd(kinds, OpenUrl(kinds, n).value) == n
  {
    hide OpenUrl;
    var u := OpenUrl(kinds, n).value;
    var end := EntryEnd(kinds, u);
    hide EntryEnd, EndsEntry;
    if end < n {
      assert false;
    }
  }

  /** Where an entry ends, the reader either has all of its file or refuses it. */
  lemma {:induction false} FinalizeReads(kinds: seq<Line>, n: nat, s: ParseState, line: nat)
    requires n <= |kinds| && HasReadFiles(kinds, n, s) && (n < |kinds| ==> EndsEntry(kinds[n]))
    ensures var r := Finalize(s.files, s.current, line);
            if Incomplete(kinds, n) then r == Err(IncompleteFile(line))
            else r.Ok? && AreFilesAt(kinds, Positions(kinds, n, IsUrl), r.value)
  {
    hide Sha512In, SizeIn, EndsEntry, OpenUrl, EntryEnd, AreFilesAt, Positions;
    if OpenUrl(kinds, n).Some? {
      OpenIsLast(kinds, n);
      EntryEndsHere(kinds, n);
      var at := Positions(kinds, n, IsUrl);
      var r := Finalize(s.files, s.current, line);
      if r.Ok? {
        OneMoreFile(kinds, at, s.files, r.value[|s.files|]);
      }
    }
  }

  lemma {:induction false} OneMoreFile(kinds: seq<Line>, at: seq<nat>, files: seq<File>, f: File)
    requires at != [] && forall j :: 0 <= j < |at| ==> at[j] < |kinds|
    requires AreFilesAt(kinds, at[..|at| - 1], files) && IsFileAt(kinds, at[|at| - 1], f)
    ensures AreFilesAt(kinds, at, files + [f])
  {
    hide IsFileAt;
  }

  lemma {:induction false} EntryGrows(kinds: seq<Line>, n: nat, u: nat)
    requires u < n < |kinds|
    ensures Sha512In(kinds, u + 1, n + 1) ==
            if kinds[n].Sha512Line? then Some(kinds[n].sha512) else Sha512In(kinds, u + 1, n)
    ensures SizeIn(kinds, u + 1, n + 1) == if kinds[n].SizeLine? then Some(kinds[n].size) else SizeIn(kinds, u + 1, n)
  {
  }

  lemma {:induction false} EntryStarts(kinds: seq<Line>, n: nat)
    requires n < |kinds|
    ensures Sha512In(kinds, n + 1, n + 1) == None && SizeIn(kinds, n + 1, n + 1) == None
  {
  }

  /** Lines inside the file list, or blank. */
  lemma {:induction false} LineInside(kinds: seq<Line>, n: nat, s: ParseState)
    requires n < |kinds| && !EndsEntry(kinds[n]) && HasRead(kinds, n, s)
    ensures match Step(s, n + 1, kinds[n])
            case Ok(t) => HasRead(kinds, n + 1, t) && forall e :: !IsFault(kinds, n, e)
            case Err(e) => IsFault(kinds, n, e)
  {
    hide Sha512In, SizeIn, OpenUrl, HasReadValues, Incomplete, AreFilesAt, EndedUrls;
    OpenUrlStep(kinds, n);
    EndedStay(kinds, n);
    if OpenUrl(kinds, n).Some? {
      EntryGrows(kinds, n, OpenUrl(kinds, n).value);
    }
    var r := Step(s, n + 1, kinds[n]);
    if r.Ok? {
      ValuesStay(kinds, n, s, r.value);
    }
  }

  lemma {:induction false} EndedStay(kinds: seq<Line>, n: nat)
    requires n < |kinds| && !EndsEntry(kinds[n])
    ensures EndedUrls(kinds, n + 1) == EndedUrls(kinds, n)
  {
    hide OpenUrl, Positions;
    OpenUrlStep(kinds, n);
  }

  lemma {:induction false} EndedAll(kinds: seq<Line>, n: nat)
    requires n < |kinds| && EndsEntry(kinds[n])
    ensures EndedUrls(kinds, n + 1) == Positions(kinds, n, IsUrl)
  {
    hide OpenUrl, Positions;
    OpenUrlStep(kinds, n);
  }

  lemma {:induction false} LineUrl(kinds: seq<Line>, n: nat, s: ParseState)
    requires n < |kinds| && kinds[n].UrlLine? && HasRead(kinds, n, s)
    ensures match Step(s, n + 1, kinds[n])
            case Ok(t) => HasRead(kinds, n + 1, t) && forall e :: !IsFault(kinds, n, e)
            case Err(e) => IsFault(kinds, n, e)
  {
    hide Sha512In, SizeIn, OpenUrl, HasReadValues, Incomplete, AreFilesAt, EndedUrls, Finalize;
    OpenUrlStep(kinds, n);
    EndedAll(kinds, n);
    EntryStarts(kinds, n);
    FinalizeReads(kinds, n, s, n + 1);
    var r := Step(s, n + 1, kinds[n]);
    if r.Ok? {
      ValuesStay(kinds, n, s, r.value);
    }
  }

  lemma {:induction false} CloseReads(kinds: seq<Line>, n: nat, s: ParseState)
    requires n < |kinds| && EndsEntry(kinds[n]) && !kinds[n].UrlLine? && HasReadFiles(kinds, n, s)
    ensures match CloseFiles(s, n + 1)
            case Ok(t) =>
              && !Incomplete(kinds, n) && HasReadFiles(kinds, n + 1, t)
              && t == s.(files := t.files, current := None, inFiles := false)
            case Err(e) => e == IncompleteFile(n + 1) && Incomplete(kinds, n)
  {
    hide Sha512In, SizeIn, OpenUrl, Incomplete, AreFilesAt, EndedUrls, Finalize;
    OpenUrlStep(kinds, n);
    EndedAll(kinds, n);
    FinalizeReads(kinds, n, s, n + 1);
    FinalizeNone(s.files, n + 1);
  }

  lemma {:induction false} FinalizeNone(files: seq<File>, line: nat)
    ensures Finalize(files, None, line) == Ok(files)
  {
  }

  lemma {:induction false} TopLevelReads(kinds: seq<Line>, n: nat, s: ParseState)
    requires n < |kinds| && kinds[n].TopLevel? && HasReadValues(kinds, n, s)
    ensures var (key, value) := (kinds[n].key, kinds[n].value);
            match StepTopLevel(s, n + 1, key, value)
            case Ok(t) =>
              && HasReadValues(kinds, n + 1, t) && !NotText(kinds[n], "version") && !NotText(kinds[n], "releaseDate")
              && t.files == s.files && t.current == s.current && t.inFiles == s.inFiles
            case Err(e) =>
              || (NotText(kinds[n], "version") && e == VersionNotString(n + 1))
              || (NotText(kinds[n], "releaseDate") && e == ReleaseDateNotString(n + 1))
  {
    hide LastGiven, AreExtras, IsExtra;
    var key := kinds[n].key;
    LastGivenStep(kinds, n, "version");
    LastGivenStep(kinds, n, "releaseDate");
    ExtrasRead(kinds, n, s.extras);
    FourKeys(key);
  }

  lemma {:induction false} FourKeys(key: string)
    ensures IsExtra(key) <==> key != "version" && key != "releaseDate" && key != "path" && key != "sha512"
  {
  }

  lemma {:induction false} ExtrasRead(kinds: seq<Line>, n: nat, extras: map<string, Scalar>)
    requires n < |kinds| && kinds[n].TopLevel? && AreExtras(kinds, n, extras)
    ensures AreExtras(kinds, n + 1,
                      if IsExtra(kinds[n].key) then extras[kinds[n].key := kinds[n].value] else extras)
  {
    forall k
      ensures LastGiven(kinds, n + 1, k) == if kinds[n].key == k then Some(kinds[n].value) else LastGiven(kinds, n, k)
    {
      LastGivenStep(kinds, n, k);
    }
    hide LastGiven, IsExtra;
  }

  lemma {:induction false} LineOutside(kinds: seq<Line>, n: nat, s: ParseState)
    requires n < |kinds| && EndsEntry(kinds[n]) && !kinds[n].UrlLine? && HasRead(kinds, n, s)
    ensures match Step(s, n + 1, kinds[n])
            case Ok(t) => HasRead(kinds, n + 1, t) && forall e :: !IsFault(kinds, n, e)
            case Err(e) => IsFault(kinds, n, e)
  {
    hide Sha512In, SizeIn, OpenUrl, Incomplete, AreFilesAt, EndedUrls, Finalize, StepTopLevel, CloseFiles;
    CloseReads(kinds, n, s);
    if CloseFiles(s, n + 1).Ok? && kinds[n].TopLevel? {
      TopLevelReads(kinds, n, CloseFiles(s, n + 1).value);
    }
    hide HasReadValues;
  }

  lemma {:induction false} LineReads(kinds: seq<Line>, n: nat, s: ParseState)
    requires n < |kinds| && HasRead(kinds, n, s)
    ensures match Step(s, n + 1, kinds[n])
            case Ok(t) => HasRead(kinds, n + 1, t) && forall e :: !IsFault(kinds, n, e)
            case Err(e) => IsFault(kinds, n, e)
  {
    hide HasRead, Step, IsFault;
    if kinds[n].UrlLine? {
      LineUrl(kinds, n, s);
    } else if EndsEntry(kinds[n]) {
      LineOutside(kinds, n, s);
    } else {
      LineInside(kinds, n, s);
    }
  }

  // ----- The whole text -----

  lemma {:induction false} FaultlessStep(kinds: seq<Line>, n: nat)
    requires n < |kinds| && Faultless(kinds, n) && forall e :: !IsFault(kinds, n, e)
    ensures Faultless(kinds, n + 1)
  {
    hide IsFault;
  }

  lemma {:induction false} RunReads(kinds: seq<Line>, n: nat, s: ParseState)
    requires n <= |kinds| && HasRead(kinds, n, s) && Faultless(kinds, n)
    ensures match Run(s, n, kinds[n..])
            case Ok(t) => HasRead(kinds, |kinds|, t) && Faultless(kinds, |kinds|)
            case Err(e) => exists i :: n <= i < |kinds| && Faultless(kinds, i) && IsFault(kinds, i, e)
    decreases |kinds| - n
  {
    hide HasRead, Step, IsFault, Faultless;
    if n < |kinds| {
      assert kinds[n..][0] == kinds[n] && kinds[n..][1..] == kinds[n + 1..];
      LineReads(kinds, n, s);
      var r := Step(s, n + 1, kinds[n]);
      if r.Ok? {
        FaultlessStep(kinds, n);
        RunReads(kinds, n + 1, r.value);
      }
    }
  }

  lemma {:induction false} NoUrl(kinds: seq<Line>)
    ensures Positions(kinds, |kinds|, IsUrl) == [] <==> forall i :: 0 <= i < |kinds| ==> !kinds[i].UrlLine?
  {
    var at := Positions(kinds, |kinds|, IsUrl);
    if at != [] {
      assert IsUrl(kinds[at[0]]);
    }
  }

  lemma {:induction false} FinishReads(kinds: seq<Line>, s: ParseState)
    requires HasRead(kinds, |kinds|, s) && Faultless(kinds, |kinds|)
    ensures match Finish(s, |kinds|)
            case Ok(m) => Denotes(kinds, m)
            case Err(e) => IsEndFault(kinds, e)
  {
    hide Sha512In, SizeIn, OpenUrl, Incomplete, Finalize, EndedUrls, IsFileAt, LastGiven, Faultless, Positions;
    hide AreExtras;
    FinalizeReads(kinds, |kinds|, s, |kinds|);
    NoUrl(kinds);
  }

  function ReadKinds(kinds: seq<Line>): Result<Manifest, ParseError> {
    match Run(INITIAL_STATE, 0, kinds)
    case Err(e) => Err(e)
    case Ok(s) => Finish(s, |kinds|)
  }

  lemma {:induction false} KindsRead(kinds: seq<Line>)
    ensures match ReadKinds(kinds) case Ok(m) => Denotes(kinds, m) case Err(e) => Refused(kinds, e)
  {
    hide HasRead, Denotes, IsFault, IsEndFault, Finish, Faultless, Run;
    NothingRead(kinds);
    assert kinds[0..] == kinds;
    RunReads(kinds, 0, INITIAL_STATE);
    match Run(INITIAL_STATE, 0, kinds)
    case Err(_) =>
    case Ok(s) => FinishReads(kinds, s);
  }

  lemma {:induction false} SameFiles(kinds: seq<Line>, at: seq<nat>, a: seq<File>, b: seq<File>)
    requires forall j :: 0 <= j < |at| ==> at[j] < |kinds|
    requires AreFilesAt(kinds, at, a) && AreFilesAt(kinds, at, b)
    ensures a == b
  {
    hide Sha512In, SizeIn, EntryEnd;
    assert forall j :: 0 <= j < |at| ==> IsFileAt(kinds, at[j], a[j]) && IsFileAt(kinds, at[j], b[j]);
  }

  lemma {:induction false} SameExtras(kinds: seq<Line>, n: nat, a: map<string, Scalar>, b: map<string, Scalar>)
    requires n <= |kinds| && AreExtras(kinds, n, a) && AreExtras(kinds, n, b)
    ensures a == b
  {
    hide LastGiven, IsExtra;
    assert forall k :: (if k in a then Some(a[k]) else None) == if k in b then Some(b[k]) else None;
    assert forall k :: k in a <==> k in b;
  }

  /** Lines denote at most one manifest, are refused for at most one reason, and never both. */
  lemma {:induction false} OneMeaning(kinds: seq<Line>)
    ensures forall a, b :: Denotes(kinds, a) && Denotes(kinds, b) ==> a == b
    ensures forall a, b :: Refused(kinds, a) && Refused(kinds, b) ==> a == b
    ensures forall m, e :: !(Denotes(kinds, m) && Refused(kinds, e))
  {
    hide LastGiven, AreExtras, AreFilesAt, Positions, IsFault, IsEndFault, Faultless;
    forall a, b | Denotes(kinds, a) && Denotes(kinds, b)
      ensures a == b
    {
      SameFiles(kinds, Positions(kinds, |kinds|, IsUrl), a.files, b.files);
      SameExtras(kinds, |kinds|, a.extras, b.extras);
    }
    forall a, b | Refused(kinds, a) && Refused(kinds, b)
      ensures a == b
    {
      OneReason(kinds, a, b);
    }
    forall m, e | Refused(kinds, e)
      ensures !Denotes(kinds, m)
    {
      FaultlessNotRefused(kinds, e);
    }
  }

  lemma {:induction false} OneFault(kinds: seq<Line>, i: nat, a: ParseError, b: ParseError)
    requires i < |kinds| && IsFault(kinds, i, a) && IsFault(kinds, i, b)
    ensures a == b
  {
    hide Incomplete, OpenUrl;
  }

  lemma {:induction false} OneEndFault(kinds: seq<Line>, a: ParseError, b: ParseError)
    requires IsEndFault(kinds, a) && IsEndFault(kinds, b)
    ensures a == b
  {
    hide Incomplete, LastGiven, NoText;
  }

  lemma {:induction false} FaultlessNotRefused(kinds: seq<Line>, e: ParseError)
    requires Refused(kinds, e)
    ensures Faultless(kinds, |kinds|) ==> IsEndFault(kinds, e)
  {
    hide IsFault, IsEndFault;
  }

  lemma {:induction false} OneReason(kinds: seq<Line>, a: ParseError, b: ParseError)
    requires Refused(kinds, a) && Refused(kinds, b)
    ensures a == b
  {
    hide IsFault, IsEndFault;
    if Faultless(kinds, |kinds|) {
      OneEndFault(kinds, a, b);
    } else {
      var i :| 0 <= i < |kinds| && Faultless(kinds, i) && IsFault(kinds, i, a);
      var j :| 0 <= j < |kinds| && Faultless(kinds, j) && IsFault(kinds, j, b);
      assert i == j;
      OneFault(kinds, i, a, b);
    }
  }

  /** Reading the lines one after the other gives exactly what they denote, or the reason to refuse them. */
  lemma {:induction false} LinesMeaning(kinds: seq<Line>, m: Manifest, e: ParseError)
    ensures ReadKinds(kinds) == Ok(m) <==> Denotes(kinds, m)
    ensures ReadKinds(kinds) == Err(e) <==> Refused(kinds, e)
  {
    hide Denotes, Refused, ReadKinds;
    KindsRead(kinds);
    OneMeaning(kinds);
  }
}
