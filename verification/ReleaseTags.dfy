/**
 The tag parsers and the resolver of `ch3/scripts/resolve-previous-release-tag.ts`,
 and the nightly tag printer of `ch3/scripts/resolve-nightly-release.ts`.
 */
module ReleaseTags {
  import opened Outcomes
  import opened Text
  import opened ReleaseOrder

  // ----- Scanning -----

  function DigitPrefix(s: string): (p: string)
    ensures p <= s && AllDigits(p)
  {
    if s != [] && IsDigit(s[0]) then [s[0]] + DigitPrefix(s[1..]) else []
  }

  /** `(\d+)\.(\d+)\.(\d+)` at the front of a text, as texts, and what follows. */
  datatype Core = Core(major: string, minor: string, patch: string, rest: string)

  function DropPrefix(s: string, prefix: string): Option<string> {
    if StartsWith(s, prefix) then Some(s[|prefix|..]) else None
  }

  function ScanCore(s: string): (r: Option<Core>)
    ensures r.Some? ==> IsNumeric(r.value.major) && IsNumeric(r.value.minor) && IsNumeric(r.value.patch)
  {
    var major := DigitPrefix(s);
    var afterMajor := s[|major|..];
    if major == [] || afterMajor == [] || afterMajor[0] != '.' then None
    else
      var minor := DigitPrefix(afterMajor[1..]);
      var afterMinor := afterMajor[1..][|minor|..];
      if minor == [] || afterMinor == [] || afterMinor[0] != '.' then None
      else
        var patch := DigitPrefix(afterMinor[1..]);
        if patch == [] then None else Some(Core(major, minor, patch, afterMinor[1..][|patch|..]))
  }

  predicate IsTagChar(c: char) {
    IsDigit(c) || IsLetter(c) || c == '.' || c == '-'
  }

  predicate AllTagChars(s: string) {
    forall i :: 0 <= i < |s| ==> IsTagChar(s[i])
  }

  function TagCharPrefix(s: string): (p: string)
    ensures p <= s && AllTagChars(p)
  {
    if s != [] && IsTagChar(s[0]) then [s[0]] + TagCharPrefix(s[1..]) else []
  }

  /** `(?:\+[0-9A-Za-z.-]+)?$`. */
  predicate IsBuildSuffix(s: string) {
    s == [] || (|s| > 1 && s[0] == '+' && AllTagChars(s[1..]))
  }

  // ----- Parsing tags -----

  function ParseStableTag(tag: string): Option<StableVersion> {
    if tag == [] || tag[0] != 'v' then None
    else match ScanCore(tag[1..])
      case None => None
      case Some(core) =>
        var hasPrerelease := core.rest != [] && core.rest[0] == '-';
        var prerelease := if hasPrerelease then TagCharPrefix(core.rest[1..]) else [];
        var suffix := if hasPrerelease then core.rest[1..][|prerelease|..] else core.rest;
        var identifiers := if prerelease == [] then [] else Split(prerelease, '.');
        if hasPrerelease && prerelease == [] then None
        else if !IsBuildSuffix(suffix) then None
        else if identifiers != [] && identifiers[0] == "nightly" then None
        else Some(StableVersion(DigitsValue(core.major), DigitsValue(core.minor), DigitsValue(core.patch), identifiers))
  }

  const NIGHTLY_MARK := "-nightly."

  /** `(\d{8})\.(\d+)$`. */
  function ScanDateAndRun(s: string): Option<(string, string)> {
    if |s| >= 10 && AllDigits(s[..8]) && s[8] == '.' && AllDigits(s[9..]) then Some((s[..8], s[9..])) else None
  }

  /** `v(\d+)\.(\d+)\.(\d+)-nightly\.(\d{8})\.(\d+)$`. */
  function ParseCurrentNightlyTag(tag: string): Option<NightlyVersion> {
    if tag == [] || tag[0] != 'v' then None
    else match ScanCore(tag[1..])
      case None => None
      case Some(core) =>
        match DropPrefix(core.rest, NIGHTLY_MARK)
        case None => None
        case Some(rest) =>
          match ScanDateAndRun(rest)
          case None => None
          case Some((date, run)) =>
            Some(NightlyVersion(DigitsValue(core.major), DigitsValue(core.minor), DigitsValue(core.patch),
                                DigitsValue(date), DigitsValue(run)))
  }

  const LEGACY_PREFIX := "nightly-"

  /** Accepts the legacy `nightly-v` form too. */
  function ParseNightlyTag(tag: string): Option<NightlyVersion> {
    match DropPrefix(tag, LEGACY_PREFIX)
    case Some(rest) => ParseCurrentNightlyTag(rest)
    case None => ParseCurrentNightlyTag(tag)
  }

  // ----- Resolving the previous tag -----

  datatype Channel = Stable | Nightly

  datatype InvalidReleaseTag = InvalidReleaseTag(channel: Channel, currentTag: string)

  datatype Entry<V> = Entry(tag: string, parsed: V)

  /** The tags that parse and compare below `current`. */
  function Candidates<V>(parse: string -> Option<V>, compare: (V, V) -> int, current: V,
      tags: seq<string>): seq<Entry<V>> {
    if tags == [] then []
    else
      var rest := Candidates(parse, compare, current, tags[1..]);
      match parse(tags[0])
      case Some(version) => if compare(version, current) < 0 then [Entry(tags[0], version)] + rest else rest
      case None => rest
  }

  /** Stable insertion: in front of the first entry that does not sort before `e`. */
  function InsertDescending<V>(compare: (V, V) -> int, e: Entry<V>, sorted: seq<Entry<V>>): seq<Entry<V>> {
    if sorted == [] || compare(sorted[0].parsed, e.parsed) <= 0 then [e] + sorted
    else [sorted[0]] + InsertDescending(compare, e, sorted[1..])
  }

  /** `toSorted((left, right) => compare(right, left))`. */
  function SortDescending<V>(compare: (V, V) -> int, entries: seq<Entry<V>>): seq<Entry<V>> {
    if entries == [] then [] else InsertDescending(compare, entries[0], SortDescending(compare, entries[1..]))
  }

  function Previous<V>(parse: string -> Option<V>, compare: (V, V) -> int, current: V,
      tags: seq<string>): Option<string> {
    var sorted := SortDescending(compare, Candidates(parse, compare, current, tags));
    if sorted == [] then None else Some(sorted[0].tag)
  }

  /** `resolvePreviousReleaseTag`. */
  function ResolvePreviousReleaseTag(text: (string, string) -> int, channel: Channel, currentTag: string,
      tags: seq<string>)
    : Result<Option<string>, InvalidReleaseTag>
  {
    match channel
    case Stable =>
      (match ParseStableTag(currentTag)
       case None => Err(InvalidReleaseTag(channel, currentTag))
       case Some(current) => Ok(Previous(ParseStableTag, (x, y) => CompareStable(text, x, y), current, tags)))
    case Nightly =>
      (match ParseNightlyTag(currentTag)
       case None => Err(InvalidReleaseTag(channel, currentTag))
       case Some(current) => Ok(Previous(ParseNightlyTag, CompareNightly, current, tags)))
  }

  // ----- Printing nightly tags -----

  /** `version.replace(/[-+].*$/, "")`: cut at the first sign that nothing but its line follows. */
  function NightlyBaseVersion(version: string): string {
    if version == [] then []
    else if (version[0] == '-' || version[0] == '+') && OneLine(version[1..]) then []
    else [version[0]] + NightlyBaseVersion(version[1..])
  }

  datatype InvalidDesktopVersion = InvalidDesktopVersion(version: string)

  /** The next patch version; major and minor are copied as written. */
  function NightlyTargetVersion(version: string): Result<string, InvalidDesktopVersion> {
    match ScanCore(NightlyBaseVersion(version))
    case None => Err(InvalidDesktopVersion(version))
    case Some(core) =>
      if core.rest != [] then Err(InvalidDesktopVersion(version))
      else Ok(core.major + "." + core.minor + "." + NatText(DigitsValue(core.patch) + 1))
  }

  datatype NightlyMetadata = NightlyMetadata(baseVersion: string, version: string, tag: string, name: string,
      shortSha: string)

  /** `resolveNightlyReleaseMetadata`. */
  function NightlyReleaseMetadata(baseVersion: string, date: string, run: nat, sha: string): NightlyMetadata {
    var shortSha := if |sha| <= 12 then sha else sha[..12];
    var version := baseVersion + NIGHTLY_MARK + date + "." + NatText(run);
    NightlyMetadata(baseVersion, version, "v" + version, "CH3 Nightly " + version + " (" + shortSha + ")", shortSha)
  }
}
