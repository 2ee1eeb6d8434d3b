/**
 Version comparison and the previous-release resolver of
 `ch3/scripts/resolve-previous-release-tag.ts`. The text comparison
 (`localeCompare`) is a parameter: any total preorder on strings.
 */
module ReleaseOrder {
  import opened Text

  datatype StableVersion = StableVersion(major: nat, minor: nat, patch: nat, prerelease: seq<string>)

  datatype NightlyVersion = NightlyVersion(major: nat, minor: nat, patch: nat, date: nat, run: nat)

  ghost predicate TotalPreorder<T(!new)>(compare: (T, T) -> int) {
    && (forall x :: compare(x, x) == 0)
    && (forall x, y :: compare(x, y) < 0 <==> compare(y, x) > 0)
    && (forall x, y, z :: compare(x, y) <= 0 && compare(y, z) <= 0 ==> compare(x, z) <= 0)
  }

  // ----- Comparing versions -----

  /** `/^\d+$/`. */
  predicate IsNumeric(identifier: string) {
    identifier != [] && AllDigits(identifier)
  }

  /** `comparePrereleaseIdentifiers`. */
  function CompareIdentifiers(text: (string, string) -> int, left: string, right: string): int {
    if IsNumeric(left) && IsNumeric(right) then DigitsValue(left) - DigitsValue(right)
    else if IsNumeric(left) then -1
    else if IsNumeric(right) then 1
    else text(left, right)
  }

  function ComparePrerelease(text: (string, string) -> int, left: seq<string>, right: seq<string>): int
    decreases |left|
  {
    if left == [] && right == [] then 0
    else if left == [] then -1
    else if right == [] then 1
    else
      var comparison := CompareIdentifiers(text, left[0], right[0]);
      if comparison != 0 then comparison else ComparePrerelease(text, left[1..], right[1..])
  }

  function CompareStable(text: (string, string) -> int, left: StableVersion, right: StableVersion): int {
    if left.major != right.major then left.major - right.major
    else if left.minor != right.minor then left.minor - right.minor
    else if left.patch != right.patch then left.patch - right.patch
    else if left.prerelease == [] && right.prerelease == [] then 0
    else if left.prerelease == [] then 1
    else if right.prerelease == [] then -1
    else ComparePrerelease(text, left.prerelease, right.prerelease)
  }

  /** `compareNightlyVersions`. */
  function CompareNightly(left: NightlyVersion, right: NightlyVersion): int {
    if left.major != right.major then left.major - right.major
    else if left.minor != right.minor then left.minor - right.minor
    else if left.patch != right.patch then left.patch - right.patch
    else if left.date != right.date then left.date - right.date
    else left.run - right.run
  }

  /** `compareStableVersions`, with its loop over identifier positions. */
  method CompareStableVersions(text: (string, string) -> int, left: StableVersion, right: StableVersion)
    returns (comparison: int)
    ensures comparison == CompareStable(text, left, right)
  {
    if left.major != right.major {
      return left.major - right.major;
    }
    if left.minor != right.minor {
      return left.minor - right.minor;
    }
    if left.patch != right.patch {
      return left.patch - right.patch;
    }
    var l, r := left.prerelease, right.prerelease;
    if l == [] && r == [] {
      return 0;
    }
    if l == [] {
      return 1;
    }
    if r == [] {
      return -1;
    }
    var maxLength := if |l| >= |r| then |l| else |r|;
    var index := 0;
    assert l[0..] == l && r[0..] == r;
    while index < maxLength
      invariant 0 <= index <= |l| && index <= |r|
      invariant ComparePrerelease(text, l, r) == ComparePrerelease(text, l[index..], r[index..])
    {
      if index == |l| {
        return -1;
      }
      if index == |r| {
        return 1;
      }
      comparison := CompareIdentifiers(text, l[index], r[index]);
      if comparison != 0 {
        return;
      }
      assert l[index..][1..] == l[index + 1..] && r[index..][1..] == r[index + 1..];
      index := index + 1;
    }
    return 0;
  }

  // ----- Total preorders -----

  lemma {:induction false} PrereleaseReflexive(text: (string, string) -> int, x: seq<string>)
    requires TotalPreorder(text)
    ensures ComparePrerelease(text, x, x) == 0
  {
    if x != [] {
      PrereleaseReflexive(text, x[1..]);
    }
  }

  lemma {:induction false} PrereleaseAntisymmetric(text: (string, string) -> int, x: seq<string>, y: seq<string>)
    requires TotalPreorder(text)
    ensures ComparePrerelease(text, x, y) < 0 <==> ComparePrerelease(text, y, x) > 0
    ensures ComparePrerelease(text, x, y) == 0 <==> ComparePrerelease(text, y, x) == 0
    decreases |x|
  {
    if x != [] && y != [] {
      IdentifierFacts(text, x[0], y[0], y[0]);
      hide CompareIdentifiers, TotalPreorder;
      PrereleaseAntisymmetric(text, x[1..], y[1..]);
    }
  }

  lemma {:induction false} IdentifierFacts(text: (string, string) -> int, x: string, y: string, z: string)
    requires TotalPreorder(text)
    ensures CompareIdentifiers(text, x, y) < 0 <==> CompareIdentifiers(text, y, x) > 0
    ensures CompareIdentifiers(text, x, y) == 0 <==> CompareIdentifiers(text, y, x) == 0
    ensures CompareIdentifiers(text, x, y) <= 0 && CompareIdentifiers(text, y, z) <= 0 ==>
            CompareIdentifiers(text, x, z) <= 0
    ensures CompareIdentifiers(text, x, y) <= 0 && CompareIdentifiers(text, y, z) <= 0 &&
            CompareIdentifiers(text, x, z) == 0 ==>
              CompareIdentifiers(text, x, y) == 0 && CompareIdentifiers(text, y, z) == 0
  {
    assert text(x, y) < 0 <==> text(y, x) > 0;
    assert text(y, x) < 0 <==> text(x, y) > 0;
    assert text(z, y) < 0 <==> text(y, z) > 0;
    assert text(y, z) < 0 <==> text(z, y) > 0;
    assert text(x, z) < 0 <==> text(z, x) > 0;
    assert text(z, x) < 0 <==> text(x, z) > 0;
    assert text(z, x) <= 0 && text(x, y) <= 0 ==> text(z, y) <= 0;
    assert text(y, z) <= 0 && text(z, x) <= 0 ==> text(y, x) <= 0;
  }

  lemma {:induction false} PrereleaseTransitive(text: (string, string) -> int, x: seq<string>, y: seq<string>,
      z: seq<string>)
    requires TotalPreorder(text)
    requires ComparePrerelease(text, x, y) <= 0 && ComparePrerelease(text, y, z) <= 0
    ensures ComparePrerelease(text, x, z) <= 0
    decreases |x|
  {
    if x != [] && y != [] && z != [] {
      IdentifierFacts(text, x[0], y[0], z[0]);
      hide CompareIdentifiers, TotalPreorder;
      if CompareIdentifiers(text, x[0], z[0]) == 0 {
        PrereleaseTransitive(text, x[1..], y[1..], z[1..]);
      }
    }
  }

  /** `compareStableVersions` is a total preorder whenever the text comparison is one. */
  lemma {:induction false} StablePreorder(text: (string, string) -> int)
    requires TotalPreorder(text)
    ensures TotalPreorder((x, y) => CompareStable(text, x, y))
  {
    hide ComparePrerelease, TotalPreorder;
    var compare := (x, y) => CompareStable(text, x, y);
    forall x
      ensures compare(x, x) == 0
    {
      PrereleaseReflexive(text, x.prerelease);
    }
    forall x, y
      ensures compare(x, y) < 0 <==> compare(y, x) > 0
    {
      PrereleaseAntisymmetric(text, x.prerelease, y.prerelease);
    }
    forall x, y, z | compare(x, y) <= 0 && compare(y, z) <= 0
      ensures compare(x, z) <= 0
    {
      if ComparePrerelease(text, x.prerelease, y.prerelease) <= 0 &&
          ComparePrerelease(text, y.prerelease, z.prerelease) <= 0 {
        PrereleaseTransitive(text, x.prerelease, y.prerelease, z.prerelease);
      }
    }
    assert TotalPreorder(compare) by {
      PreorderFromLaws(compare);
    }
  }

  lemma {:induction false} PreorderFromLaws<T(!new)>(compare: (T, T) -> int)
    requires forall x :: compare(x, x) == 0
    requires forall x, y :: compare(x, y) < 0 <==> compare(y, x) > 0
    requires forall x, y, z :: compare(x, y) <= 0 && compare(y, z) <= 0 ==> compare(x, z) <= 0
    ensures TotalPreorder(compare)
  {
  }

  /** `compareNightlyVersions` is a total order: only equal versions compare equal. */
  lemma {:induction false} NightlyOrder()
    ensures TotalPreorder(CompareNightly)
    ensures forall x, y :: CompareNightly(x, y) == 0 <==> x == y
  {
  }

  // ----- Section 11 of Semantic Versioning 2.0.0 -----

  predicate SameIdentifier(text: (string, string) -> int, l: string, r: string) {
    if IsNumeric(l) || IsNumeric(r)
    then IsNumeric(l) && IsNumeric(r) && DigitsValue(l) == DigitsValue(r)
    else text(l, r) == 0
  }

  /** 11.4.1 to 11.4.3: numerically, textually, and numbers below texts. */
  predicate LowerIdentifier(text: (string, string) -> int, l: string, r: string) {
    || (IsNumeric(l) && IsNumeric(r) && DigitsValue(l) < DigitsValue(r))
    || (IsNumeric(l) && !IsNumeric(r))
    || (!IsNumeric(l) && !IsNumeric(r) && text(l, r) < 0)
  }

  /** Position `k` decides: equal before it, and there the left is lower or ends first (11.4.4). */
  predicate DecidesAt(text: (string, string) -> int, l: seq<string>, r: seq<string>, k: nat) {
    && k <= |l| && k < |r|
    && (forall i :: 0 <= i < k ==> SameIdentifier(text, l[i], r[i]))
    && (k < |l| ==> LowerIdentifier(text, l[k], r[k]))
  }

  predicate LowerPrerelease(text: (string, string) -> int, l: seq<string>, r: seq<string>) {
    exists k: nat :: k <= |l| && DecidesAt(text, l, r, k)
  }

  /** 11.2 and 11.3: the core decides first, and a pre-release is below its release. */
  predicate LowerPrecedence(text: (string, string) -> int, l: StableVersion, r: StableVersion) {
    || l.major < r.major
    || (l.major == r.major && l.minor < r.minor)
    || (l.major == r.major && l.minor == r.minor && l.patch < r.patch)
    || (l.major == r.major && l.minor == r.minor && l.patch == r.patch && l.prerelease != [] &&
        (r.prerelease == [] || LowerPrerelease(text, l.prerelease, r.prerelease)))
  }

  lemma {:induction false} LowerPrereleaseStep(text: (string, string) -> int, l: seq<string>, r: seq<string>)
    ensures LowerPrerelease(text, l, r) <==>
            r != [] && (l == [] || LowerIdentifier(text, l[0], r[0]) ||
                        (SameIdentifier(text, l[0], r[0]) && LowerPrerelease(text, l[1..], r[1..])))
  {
    hide SameIdentifier, LowerIdentifier;
    if LowerPrerelease(text, l, r) {
      var k: nat :| k <= |l| && DecidesAt(text, l, r, k);
      if k > 0 {
        assert DecidesAt(text, l[1..], r[1..], k - 1);
      }
    }
    if r != [] && (l == [] || LowerIdentifier(text, l[0], r[0])) {
      assert DecidesAt(text, l, r, 0);
    } else if r != [] && SameIdentifier(text, l[0], r[0]) && LowerPrerelease(text, l[1..], r[1..]) {
      var k: nat :| k <= |l[1..]| && DecidesAt(text, l[1..], r[1..], k);
      forall i | 0 <= i < k + 1
        ensures SameIdentifier(text, l[i], r[i])
      {
        if i > 0 {
          assert l[1..][i - 1] == l[i] && r[1..][i - 1] == r[i];
        }
      }
      assert DecidesAt(text, l, r, k + 1);
    }
  }

  lemma {:induction false} PrereleaseMeaning(text: (string, string) -> int, l: seq<string>, r: seq<string>)
    ensures ComparePrerelease(text, l, r) < 0 <==> LowerPrerelease(text, l, r)
    decreases |l|
  {
    LowerPrereleaseStep(text, l, r);
    if l != [] && r != [] {
      PrereleaseMeaning(text, l[1..], r[1..]);
      assert CompareIdentifiers(text, l[0], r[0]) < 0 <==> LowerIdentifier(text, l[0], r[0]);
      assert CompareIdentifiers(text, l[0], r[0]) == 0 <==> SameIdentifier(text, l[0], r[0]);
    }
  }

  /** A negative comparison is exactly lower precedence. */
  lemma {:induction false} StableMeaning(text: (string, string) -> int, l: StableVersion, r: StableVersion)
    ensures CompareStable(text, l, r) < 0 <==> LowerPrecedence(text, l, r)
  {
    PrereleaseMeaning(text, l.prerelease, r.prerelease);
  }
}
