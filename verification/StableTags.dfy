/** Which versions a stable tag of `ch3/scripts/resolve-previous-release-tag.ts` can hold. */
module StableTags {
  import opened Outcomes
  import opened Text
  import opened ReleaseOrder
  import opened ReleaseTags
  import N = NightlyTags

  /** Letters, digits and dashes; the pattern lets an identifier be empty. */
  predicate TagIdentifier(s: string) {
    AllTagChars(s) && '.' !in s
  }

  predicate TagVersion(v: StableVersion) {
    && (forall i :: 0 <= i < |v.prerelease| ==> TagIdentifier(v.prerelease[i]))
    && (v.prerelease != [] ==> v.prerelease[0] != "nightly" && v.prerelease != [""])
  }

  function StableTag(v: StableVersion): string {
    "v" + (NatText(v.major) + "." + NatText(v.minor) + "." + NatText(v.patch) +
           if v.prerelease == [] then "" else "-" + Join(v.prerelease, "."))
  }

  lemma {:induction false} JoinTagChars(parts: seq<string>)
    requires forall i :: 0 <= i < |parts| ==> TagIdentifier(parts[i])
    ensures AllTagChars(Join(parts, "."))
    ensures parts != [] && parts != [""] ==> Join(parts, ".") != ""
  {
    if |parts| > 1 {
      JoinTagChars(parts[1..]);
    }
  }

  /** Every such version is held by a tag. */
  lemma {:induction false} StableTagRoundTrip(v: StableVersion)
    requires TagVersion(v)
    ensures ParseStableTag(StableTag(v)) == Some(v)
  {
    hide NatText, DigitsValue, Split, Join, ScanCore, TagCharPrefix;
    var major, minor, patch := NatText(v.major), NatText(v.minor), NatText(v.patch);
    var joined := Join(v.prerelease, ".");
    var rest := if v.prerelease == [] then "" else "-" + joined;
    var tag := StableTag(v);
    assert tag[0] == 'v' && tag[1..] == major + "." + minor + "." + patch + rest;
    NatTextValue(v.major);
    NatTextValue(v.minor);
    NatTextValue(v.patch);
    N.ScanPrinted(major, minor, patch, rest);
    if v.prerelease != [] {
      JoinTagChars(v.prerelease);
      N.TagCharPrefixAll(joined);
      SplitJoin(v.prerelease, '.');
      assert rest[1..] == joined && joined[|joined|..] == "";
    }
  }

  lemma {:induction false} SplitPartChars(s: string, i: nat)
    requires AllTagChars(s) && i < |Split(s, '.')|
    ensures TagIdentifier(Split(s, '.')[i])
    decreases |s|
  {
    if s != [] {
      var rest := Split(s[1..], '.');
      assert s == [s[0]] + s[1..];
      if s[0] == '.' {
        assert Split(s, '.') == [[]] + rest;
        if i > 0 {
          SplitPartChars(s[1..], i - 1);
        }
      } else {
        SplitPartChars(s[1..], i);
        assert i > 0 ==> Split(s, '.')[i] == rest[i];
        assert i == 0 ==> Split(s, '.')[0] == [s[0]] + rest[0];
      }
    }
  }

  /** No other version is held by a tag. */
  lemma {:induction false} ParsedIsTagVersion(tag: string)
    ensures ParseStableTag(tag).Some? ==> TagVersion(ParseStableTag(tag).value)
  {
    hide ScanCore, Split, TagCharPrefix, DigitsValue, TagIdentifier, IsBuildSuffix;
    if ParseStableTag(tag).Some? {
      var core := ScanCore(tag[1..]).value;
      if core.rest != [] && core.rest[0] == '-' {
        var prerelease := TagCharPrefix(core.rest[1..]);
        forall i | 0 <= i < |Split(prerelease, '.')|
          ensures TagIdentifier(Split(prerelease, '.')[i])
        {
          SplitPartChars(prerelease, i);
        }
        SplitOfText(prerelease);
      }
    }
  }

  lemma {:induction false} SplitOfText(s: string)
    requires s != ""
    ensures Split(s, '.') != [""]
  {
    assert s[0] == '.' ==> |Split(s, '.')| > 1;
    assert s[0] != '.' ==> Split(s, '.')[0] != "";
  }
}
