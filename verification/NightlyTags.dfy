/** Printed nightly tags read back through the parsers of the other script. */
module NightlyTags {
  import opened Outcomes
  import opened Text
  import opened ReleaseOrder
  import opened ReleaseTags

  lemma {:induction false} DigitPrefixOf(digits: string, rest: string)
    requires AllDigits(digits) && (rest == [] || !IsDigit(rest[0]))
    ensures DigitPrefix(digits + rest) == digits
  {
    if digits == [] {
      assert digits + rest == rest;
    } else {
      DigitPrefixOf(digits[1..], rest);
      assert (digits + rest)[1..] == digits[1..] + rest;
      assert digits == [digits[0]] + digits[1..];
    }
  }

  lemma {:induction false} ScanPrinted(major: string, minor: string, patch: string, rest: string)
    requires IsNumeric(major) && IsNumeric(minor) && IsNumeric(patch)
    requires rest == [] || !IsDigit(rest[0])
    ensures ScanCore(major + "." + minor + "." + patch + rest) == Some(Core(major, minor, patch, rest))
  {
    var s := major + "." + minor + "." + patch + rest;
    var afterMinor := "." + (patch + rest);
    var afterMajor := "." + (minor + afterMinor);
    assert s == major + afterMajor;
    DigitPrefixOf(major, afterMajor);
    assert s[|major|..] == afterMajor && afterMajor[1..] == minor + afterMinor;
    DigitPrefixOf(minor, afterMinor);
    assert afterMajor[1..][|minor|..] == afterMinor && afterMinor[1..] == patch + rest;
    DigitPrefixOf(patch, rest);
    assert afterMinor[1..][|patch|..] == rest;
  }

  /** Whatever parses as a nightly tag is rejected by the stable parser. */
  lemma {:induction false} ChannelsDisjoint(tag: string)
    requires ParseNightlyTag(tag).Some?
    ensures ParseStableTag(tag) == None
  {
    if StartsWith(tag, LEGACY_PREFIX) {
      assert tag[0] == tag[..|LEGACY_PREFIX|][0] == 'n';
    } else {
      hide ScanCore;
      var core := ScanCore(tag[1..]).value;
      var rest := core.rest[|NIGHTLY_MARK|..];
      NightlyRestIsTagChars(core.rest, rest);
    }
  }

  lemma {:induction false} NightlyRestIsTagChars(coreRest: string, rest: string)
    requires DropPrefix(coreRest, NIGHTLY_MARK) == Some(rest) && ScanDateAndRun(rest).Some?
    ensures coreRest != [] && coreRest[0] == '-'
    ensures var prerelease := TagCharPrefix(coreRest[1..]);
            prerelease != [] && Split(prerelease, '.') != [] && Split(prerelease, '.')[0] == "nightly"
  {
    var mark := NIGHTLY_MARK;
    assert coreRest == mark + rest;
    assert coreRest[1..] == "nightly" + "." + rest;
    forall i | 0 <= i < |rest|
      ensures IsTagChar(rest[i])
    {
      if i < 8 {
        assert rest[..8][i] == rest[i];
      } else if i > 8 {
        assert rest[9..][i - 9] == rest[i];
      }
    }
    assert AllTagChars("nightly" + "." + rest);
    TagCharPrefixAll("nightly" + "." + rest);
    assert '.' !in "nightly";
    SplitAtSeparator("nightly", rest, '.');
  }

  lemma {:induction false} TagCharPrefixAll(s: string)
    requires AllTagChars(s)
    ensures TagCharPrefix(s) == s
  {
    if s != [] {
      TagCharPrefixAll(s[1..]);
      assert s == [s[0]] + s[1..];
    }
  }

  lemma {:induction false} DateAndRunPrinted(date: string, run: nat)
    requires |date| == 8 && AllDigits(date)
    ensures ScanDateAndRun(date + "." + NatText(run)) == Some((date, NatText(run)))
  {
    var s := date + "." + NatText(run);
    assert s[..8] == date && s[8] == '.' && s[9..] == NatText(run);
  }

  /** What the core of the desktop version says, with the patch number raised. */
  function TargetOf(version: string): Option<(nat, nat, nat)> {
    match ScanCore(NightlyBaseVersion(version))
    case Some(Core(major, minor, patch, rest)) =>
      if rest == [] then Some((DigitsValue(major), DigitsValue(minor), DigitsValue(patch) + 1)) else None
    case None => None
  }

  /**
   The tag made from any accepted desktop version, date and run number parses back
   to exactly these, and is never a stable tag.
   */
  lemma {:induction false} NightlyRoundTrip(desktopVersion: string, date: string, run: nat, sha: string)
    requires |date| == 8 && AllDigits(date)
    ensures NightlyTargetVersion(desktopVersion).Ok? <==> TargetOf(desktopVersion).Some?
    ensures NightlyTargetVersion(desktopVersion).Ok? ==>
              var tag := NightlyReleaseMetadata(NightlyTargetVersion(desktopVersion).value, date, run, sha).tag;
              var (major, minor, patch) := TargetOf(desktopVersion).value;
              && ParseNightlyTag(tag) == Some(NightlyVersion(major, minor, patch, DigitsValue(date), run))
              && ParseNightlyTag(LEGACY_PREFIX + tag) == ParseNightlyTag(tag)
              && ParseStableTag(tag) == None
  {
    if NightlyTargetVersion(desktopVersion).Ok? {
      var core := ScanCore(NightlyBaseVersion(desktopVersion)).value;
      PrintedTagParses(core.major, core.minor, DigitsValue(core.patch) + 1, date, run, sha);
    }
  }

  lemma {:induction false} PrintedTagParses(major: string, minor: string, patch: nat, date: string, run: nat,
      sha: string)
    requires IsNumeric(major) && IsNumeric(minor) && |date| == 8 && AllDigits(date)
    ensures var tag := NightlyReleaseMetadata(major + "." + minor + "." + NatText(patch), date, run, sha).tag;
            && ParseNightlyTag(tag) ==
               Some(NightlyVersion(DigitsValue(major), DigitsValue(minor), patch, DigitsValue(date), run))
            && ParseNightlyTag(LEGACY_PREFIX + tag) == ParseNightlyTag(tag)
            && ParseStableTag(tag) == None
  {
    hide ScanCore, ParseStableTag, ScanDateAndRun, Split;
    var base := major + "." + minor + "." + NatText(patch);
    var last := date + "." + NatText(run);
    var tag := NightlyReleaseMetadata(base, date, run, sha).tag;
    assert tag[1..] == base + (NIGHTLY_MARK + last);
    ScanPrinted(major, minor, NatText(patch), NIGHTLY_MARK + last);
    assert DropPrefix(NIGHTLY_MARK + last, NIGHTLY_MARK) == Some(last) by {
      assert (NIGHTLY_MARK + last)[..|NIGHTLY_MARK|] == NIGHTLY_MARK;
      assert (NIGHTLY_MARK + last)[|NIGHTLY_MARK|..] == last;
    }
    DateAndRunPrinted(date, run);
    NatTextValue(patch);
    NatTextValue(run);
    assert tag[0] == 'v';
    NotLegacy(tag);
    assert DropPrefix(LEGACY_PREFIX + tag, LEGACY_PREFIX) == Some(tag) by {
      assert (LEGACY_PREFIX + tag)[..|LEGACY_PREFIX|] == LEGACY_PREFIX;
      assert (LEGACY_PREFIX + tag)[|LEGACY_PREFIX|..] == tag;
    }
    ChannelsDisjoint(tag);
  }

  lemma {:induction false} NotLegacy(tag: string)
    requires tag != [] && tag[0] == 'v'
    ensures DropPrefix(tag, LEGACY_PREFIX) == None
  {
    if |tag| >= |LEGACY_PREFIX| {
      assert tag[..|LEGACY_PREFIX|][0] == tag[0];
    }
  }

  /** For one base version, a later date or a later run of the same day compares strictly higher. */
  lemma {:induction false} LaterNightlyIsHigher(desktopVersion: string, date: string, run: nat, earlierDate: string,
      earlierRun: nat, sha: string, earlierSha: string)
    requires NightlyTargetVersion(desktopVersion).Ok?
    requires |date| == 8 && AllDigits(date) && |earlierDate| == 8 && AllDigits(earlierDate)
    ensures var base := NightlyTargetVersion(desktopVersion).value;
            var later := ParseNightlyTag(NightlyReleaseMetadata(base, date, run, sha).tag);
            var earlier := ParseNightlyTag(NightlyReleaseMetadata(base, earlierDate, earlierRun, earlierSha).tag);
            && later.Some? && earlier.Some?
            && (CompareNightly(later.value, earlier.value) > 0 <==>
                  DigitsValue(date) > DigitsValue(earlierDate) ||
                  (DigitsValue(date) == DigitsValue(earlierDate) && run > earlierRun))
  {
    hide NightlyTargetVersion, NightlyReleaseMetadata, TargetOf, ParseNightlyTag, ParseStableTag;
    NightlyRoundTrip(desktopVersion, date, run, sha);
    NightlyRoundTrip(desktopVersion, earlierDate, earlierRun, earlierSha);
  }
}
