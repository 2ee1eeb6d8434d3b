/**
 Data model of `ch3/scripts/lib/update-manifest.ts`, and the functions that
 parse, print and merge manifests step by step. The loops that compute them are
 in `ManifestLoops`, their properties in `ManifestRoundTrip` and `ManifestMerge`.
 */
module UpdateManifest {
  import opened Outcomes
  import opened Sequences
  import opened Text

  // ----- Data -----

  /**
   A decimal number `mantissa / 10^scale` in lowest terms. It stands for the
   JavaScript number whose shortest decimal text it is; 0 and -0 are one value.
   */
  datatype Decimal = Decimal(mantissa: int, scale: nat)

  predicate LowestTerms(d: Decimal) {
    d.scale > 0 ==> d.mantissa % 10 != 0
  }

  type Number = d: Decimal | LowestTerms(d) witness Decimal(0, 0)

  datatype Scalar = Str(text: string) | Num(value: Number) | Bool(truth: bool)

  datatype File = File(url: string, sha512: string, size: nat)

  datatype Manifest = Manifest(
    version: string,
    releaseDate: string,
    files: seq<File>,
    extras: map<string, Scalar>)

  datatype ParseError =
    | IncompleteFile(line: nat)
    | Sha512WithoutFile(line: nat)
    | SizeWithoutFile(line: nat)
    | UnsupportedLine(line: nat)
    | VersionNotString(line: nat)
    | ReleaseDateNotString(line: nat)
    | MissingVersion
    | MissingReleaseDate
    | MissingFiles

  datatype MergeError = DifferentVersions | ConflictingFile(url: string) | ConflictingExtra

  // ----- Scalars -----

  /** `replace(/''/g, "'")`. */
  function Undouble(s: string): string {
    if s == [] then []
    else if |s| >= 2 && s[0] == '\'' && s[1] == '\'' then ['\''] + Undouble(s[2..])
    else [s[0]] + Undouble(s[1..])
  }

  /** `replace(/'/g, "''")`. */
  function Double(s: string): string {
    if s == [] then []
    else (if s[0] == '\'' then "''" else [s[0]]) + Double(s[1..])
  }

  predicate StartsAndEndsWithQuote(s: string) {
    s != [] && s[0] == '\'' && s[|s| - 1] == '\''
  }

  /** `slice(1, -1)`: a lone quote mark leaves nothing. */
  function Inner(s: string): string
    requires s != []
  {
    if |s| == 1 then [] else s[1..|s| - 1]
  }

  function StripSingleQuotes(s: string): string {
    if StartsAndEndsWithQuote(s) then Undouble(Inner(s)) else s
  }

  function QuoteYamlString(s: string): string {
    ['\''] + Double(s) + ['\'']
  }

  function Reduce(mantissa: int, scale: nat): (n: Number)
    decreases scale
  {
    if scale > 0 && mantissa % 10 == 0 then Reduce(mantissa / 10, scale - 1)
    else Decimal(mantissa, scale)
  }

  /** `/^\d+(?:\.\d+)?$/`. */
  predicate IsUnsignedNumber(s: string) {
    var parts := Split(s, '.');
    |parts| <= 2 && forall i :: 0 <= i < |parts| ==> parts[i] != [] && AllDigits(parts[i])
  }

  /** `/^-?\d+(?:\.\d+)?$/`. */
  predicate IsNumberText(s: string) {
    IsUnsignedNumber(if s != [] && s[0] == '-' then s[1..] else s)
  }

  function NumberValue(s: string): Number
    requires IsNumberText(s)
  {
    var negative := s != [] && s[0] == '-';
    var parts := Split(if negative then s[1..] else s, '.');
    var fraction := if |parts| == 2 then parts[1] else [];
    var magnitude: int := DigitsValue(parts[0] + fraction);
    Reduce(if negative then -magnitude else magnitude, |fraction|)
  }

  function ParseScalarValue(rawValue: string): Scalar {
    var trimmed := Trim(rawValue);
    if StartsAndEndsWithQuote(trimmed) && |trimmed| >= 2 then Str(Undouble(Inner(trimmed)))
    else if trimmed == "true" then Bool(true)
    else if trimmed == "false" then Bool(false)
    else if IsNumberText(trimmed) then Num(NumberValue(trimmed))
    else Str(trimmed)
  }

  function Zeros(n: nat): (z: string)
    ensures |z| == n && AllDigits(z)
  {
    seq(n, _ => '0')
  }

  function Magnitude(m: int): nat {
    if m < 0 then -m else m
  }

  /** The digits of the mantissa, with zeros in front so that one stands before the point. */
  function PaddedDigits(n: Number): (s: string)
    ensures |s| > n.scale && AllDigits(s)
  {
    var digits := NatText(Magnitude(n.mantissa));
    if |digits| > n.scale then digits else Zeros(n.scale + 1 - |digits|) + digits
  }

  /** How many digits of the mantissa stand before the decimal point. */
  function PointPosition(n: Number): int {
    |NatText(Magnitude(n.mantissa))| - n.scale
  }

  /** `String` prints these without an exponent. */
  predicate Positional(n: Number) {
    -6 < PointPosition(n) <= 21
  }

  function PositionalText(n: Number): string {
    var digits := PaddedDigits(n);
    var point := |digits| - n.scale;
    (if n.mantissa < 0 then "-" else "") +
    digits[..point] + (if n.scale > 0 then "." + digits[point..] else "")
  }

  function DropZeros(digits: string): (r: string)
    requires digits != []
    ensures r != [] && r <= digits
  {
    if |digits| > 1 && digits[|digits| - 1] == '0' then DropZeros(digits[..|digits| - 1]) else digits
  }

  /** One digit before the point, the others behind it, and the exponent with its sign. */
  function ExponentText(n: Number): string {
    var digits := DropZeros(NatText(Magnitude(n.mantissa)));
    var exponent := PointPosition(n) - 1;
    (if n.mantissa < 0 then "-" else "") +
    digits[..1] + (if |digits| > 1 then "." + digits[1..] else "") +
    "e" + (if exponent < 0 then "-" else "+") + NatText(Magnitude(exponent))
  }

  /** `String(n)`. */
  function NumberText(n: Number): string {
    if Positional(n) then PositionalText(n) else ExponentText(n)
  }

  /** A file size in a template literal. */
  function SizeText(size: nat): string {
    NumberText(Decimal(size, 0))
  }

  function SerializeScalarValue(value: Scalar): string {
    match value
    case Str(s) => QuoteYamlString(s)
    case Num(n) => NumberText(n)
    case Bool(b) => if b then "true" else "false"
  }

  // ----- Lines -----

  /** `raw.split(/\r?\n/)`. */
  function SplitLines(raw: string): (lines: seq<string>)
    ensures |lines| >= 1
  {
    if raw == [] then [[]]
    else if raw[0] == '\n' then [[]] + SplitLines(raw[1..])
    else if |raw| >= 2 && raw[0] == '\r' && raw[1] == '\n' then [[]] + SplitLines(raw[2..])
    else
      var rest := SplitLines(raw[1..]);
      [[raw[0]] + rest[0]] + rest[1..]
  }

  const URL_PREFIX := "  - url:"
  const SHA512_PREFIX := "    sha512:"
  const SIZE_PREFIX := "    size:"

  /**
   What the group of `/^<prefix>\s*(.+)$/` captures in a line without trailing
   whitespace.
   */
  function Captured(line: string, prefix: string): Option<string> {
    if !StartsWith(line, prefix) then None
    else
      var value := TrimStart(line[|prefix|..]);
      if value != [] && OneLine(value) then Some(value) else None
  }

  predicate IsIdentifier(s: string) {
    s != [] && IsLetter(s[0]) && forall i :: 0 <= i < |s| ==> IsLetter(s[i]) || IsDigit(s[i])
  }

  function IdentifierPrefix(s: string): string {
    if s != [] && (IsLetter(s[0]) || IsDigit(s[0])) then [s[0]] + IdentifierPrefix(s[1..]) else []
  }

  /** What a line says, with its values already unquoted. */
  datatype Line =
    | Blank
    | UrlLine(url: string)
    | Sha512Line(sha512: string)
    | SizeLine(size: nat)
    | FilesHeader
    | TopLevel(key: string, value: Scalar)
    | Unsupported

  /** `/^([A-Za-z][A-Za-z0-9]*):\s*(.+)$/`. */
  function ClassifyTopLevel(line: string): Line {
    var key := IdentifierPrefix(line);
    if !IsIdentifier(key) then Unsupported
    else match Captured(line, key + ":")
      case Some(value) => TopLevel(key, ParseScalarValue(value))
      case None => Unsupported
  }

  function ClassifySize(line: string): Option<nat> {
    match Captured(line, SIZE_PREFIX)
    case Some(size) => if AllDigits(size) then Some(DigitsValue(size)) else None
    case None => None
  }

  function FieldText(captured: string): string {
    StripSingleQuotes(Trim(captured))
  }

  /** Which pattern a raw line matches first. */
  function Classify(rawLine: string): Line {
    var line := TrimEnd(rawLine);
    if line == [] then Blank
    else if Captured(line, URL_PREFIX).Some? then UrlLine(FieldText(Captured(line, URL_PREFIX).value))
    else if Captured(line, SHA512_PREFIX).Some? then Sha512Line(FieldText(Captured(line, SHA512_PREFIX).value))
    else if ClassifySize(line).Some? then SizeLine(ClassifySize(line).value)
    else if line == "files:" then FilesHeader
    else ClassifyTopLevel(line)
  }

  function ClassifyAll(lines: seq<string>): (kinds: seq<Line>)
    ensures |kinds| == |lines|
    ensures forall i :: 0 <= i < |lines| ==> kinds[i] == Classify(lines[i])
  {
    seq(|lines|, i requires 0 <= i < |lines| => Classify(lines[i]))
  }

  // ----- The parser as a state machine over lines -----

  /** A file entry being read. It is opened by its url line. */
  datatype Draft = Draft(url: string, sha512: Option<string>, size: Option<nat>)

  datatype ParseState = ParseState(
    files: seq<File>,
    extras: map<string, Scalar>,
    version: Option<string>,
    releaseDate: Option<string>,
    inFiles: bool,
    current: Option<Draft>)

  const INITIAL_STATE := ParseState([], map[], None, None, false, None)

  /** `parseFileRecord`, appended to the files read so far. */
  function Finalize(files: seq<File>, current: Option<Draft>, line: nat): Result<seq<File>, ParseError> {
    match current
    case None => Ok(files)
    case Some(Draft(url, Some(sha512), Some(size))) => Ok(files + [File(url, sha512, size)])
    case Some(_) => Err(IncompleteFile(line))
  }

  function StepTopLevel(s: ParseState, line: nat, key: string, value: Scalar): Result<ParseState, ParseError> {
    if key == "version" then
      if value.Str? then Ok(s.(version := Some(value.text))) else Err(VersionNotString(line))
    else if key == "releaseDate" then
      if value.Str? then Ok(s.(releaseDate := Some(value.text))) else Err(ReleaseDateNotString(line))
    else if key == "path" || key == "sha512" then Ok(s)
    else Ok(s.(extras := s.extras[key := value]))
  }

  function Step(s: ParseState, line: nat, kind: Line): Result<ParseState, ParseError> {
    match kind
    case Blank => Ok(s)
    case UrlLine(url) =>
      (match Finalize(s.files, s.current, line)
       case Err(e) => Err(e)
       case Ok(files) => Ok(s.(files := files, current := Some(Draft(url, None, None)), inFiles := true)))
    case Sha512Line(sha512) =>
      if s.current.None? then Err(Sha512WithoutFile(line))
      else Ok(s.(current := Some(s.current.value.(sha512 := Some(sha512)))))
    case SizeLine(size) =>
      if s.current.None? then Err(SizeWithoutFile(line))
      else Ok(s.(current := Some(s.current.value.(size := Some(size)))))
    case FilesHeader => Ok(s.(inFiles := true))
    case TopLevel(key, value) =>
      (match CloseFiles(s, line)
       case Err(e) => Err(e)
       case Ok(closed) => StepTopLevel(closed, line, key, value))
    case Unsupported =>
      (match CloseFiles(s, line)
       case Err(e) => Err(e)
       case Ok(_) => Err(UnsupportedLine(line)))
  }

  /** What every line outside the file list does first. */
  function CloseFiles(s: ParseState, line: nat): Result<ParseState, ParseError> {
    if s.inFiles && s.current.Some? then
      match Finalize(s.files, s.current, line)
      case Err(e) => Err(e)
      case Ok(files) => Ok(s.(files := files, current := None, inFiles := false))
    else Ok(s.(inFiles := false))
  }

  /** The line loop, `done` lines having been read before. */
  function Run(s: ParseState, done: nat, kinds: seq<Line>): Result<ParseState, ParseError>
    decreases |kinds|
  {
    if kinds == [] then Ok(s)
    else match Step(s, done + 1, kinds[0])
      case Err(e) => Err(e)
      case Ok(next) => Run(next, done + 1, kinds[1..])
  }

  function Finish(s: ParseState, lineCount: nat): Result<Manifest, ParseError> {
    match Finalize(s.files, s.current, lineCount)
    case Err(e) => Err(e)
    case Ok(files) =>
      if s.version.None? || s.version.value == [] then Err(MissingVersion)
      else if s.releaseDate.None? || s.releaseDate.value == [] then Err(MissingReleaseDate)
      else if files == [] then Err(MissingFiles)
      else Ok(Manifest(s.version.value, s.releaseDate.value, files, s.extras))
  }

  function Parse(raw: string): Result<Manifest, ParseError> {
    var lines := SplitLines(raw);
    match Run(INITIAL_STATE, 0, ClassifyAll(lines))
    case Err(e) => Err(e)
    case Ok(s) => Finish(s, |lines|)
  }

  // ----- The printer -----

  function OneFileLines(f: File): seq<string> {
    [URL_PREFIX + " " + f.url, SHA512_PREFIX + " " + f.sha512, SIZE_PREFIX + " " + SizeText(f.size)]
  }

  function FileLines(files: seq<File>): seq<string> {
    if files == [] then [] else OneFileLines(files[0]) + FileLines(files[1..])
  }

  /** `key: value`; the version and release date lines have this form too. */
  function EntryLine(key: string, value: Scalar): string {
    key + ": " + SerializeScalarValue(value)
  }

  function ExtraLines(extras: map<string, Scalar>, keys: seq<string>): seq<string>
    requires forall k :: k in keys ==> k in extras
  {
    if keys == [] then []
    else [EntryLine(keys[0], extras[keys[0]])] + ExtraLines(extras, keys[1..])
  }

  function ManifestLines(m: Manifest): seq<string> {
    [EntryLine("version", Str(m.version)), "files:"] +
    (FileLines(m.files) +
     (ExtraLines(m.extras, SortedKeys(m.extras.Keys)) +
          [EntryLine("releaseDate", Str(m.releaseDate)), ""]))
  }

  function Serialize(m: Manifest): string {
    Join(ManifestLines(m), "\n")
  }

  // ----- The merge -----

  function UrlIndex(files: seq<File>, url: string): (r: Option<nat>)
    ensures r.Some? ==> r.value < |files| && files[r.value].url == url
    ensures r.None? ==> forall i :: 0 <= i < |files| ==> files[i].url != url
  {
    FindIndex(files, (f: File) => f.url == url)
  }

  /** One round of the file loop; `merged` holds the map's entries in insertion order. */
  function AddFile(merged: seq<File>, file: File): Result<seq<File>, MergeError> {
    match UrlIndex(merged, file.url)
    case None => Ok(merged + [file])
    case Some(i) =>
      if merged[i].sha512 != file.sha512 || merged[i].size != file.size
      then Err(ConflictingFile(file.url))
      else Ok(merged[i := file])
  }

  function AddFiles(merged: seq<File>, files: seq<File>): Result<seq<File>, MergeError>
    decreases |files|
  {
    if files == [] then Ok(merged)
    else match AddFile(merged, files[0])
      case Err(e) => Err(e)
      case Ok(next) => AddFiles(next, files[1..])
  }

  predicate ExtrasAgree(a: map<string, Scalar>, b: map<string, Scalar>) {
    forall k :: k in a && k in b ==> a[k] == b[k]
  }

  function LaterDate(a: string, b: string): string {
    if LexLe(b, a) then a else b
  }

  function Merge(a: Manifest, b: Manifest): Result<Manifest, MergeError> {
    if a.version != b.version then Err(DifferentVersions)
    else match AddFiles([], a.files + b.files)
      case Err(e) => Err(e)
      case Ok(files) =>
        if ExtrasAgree(a.extras, b.extras)
        then Ok(Manifest(a.version, LaterDate(a.releaseDate, b.releaseDate), files, a.extras + b.extras))
        else Err(ConflictingExtra)
  }
}
