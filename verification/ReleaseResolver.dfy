/** What the previous-release resolver returns, alone and when repeated. */
module ReleaseResolver {
  import opened Outcomes
  import opened ReleaseOrder
  import opened ReleaseTags

  /** What a total preorder says about three values. */
  lemma {:induction false} Laws<V(!new)>(compare: (V, V) -> int, x: V, y: V, z: V)
    requires TotalPreorder(compare)
    ensures compare(x, x) == 0
    ensures compare(x, y) < 0 <==> compare(y, x) > 0
    ensures compare(y, x) < 0 <==> compare(x, y) > 0
    ensures compare(x, y) <= 0 && compare(y, z) <= 0 ==> compare(x, z) <= 0
    ensures compare(x, y) < 0 && compare(y, z) <= 0 ==> compare(x, z) < 0
    ensures compare(x, y) <= 0 && compare(y, z) < 0 ==> compare(x, z) < 0
  {
    assert compare(x, y) < 0 <==> compare(y, x) > 0;
    assert compare(y, x) < 0 <==> compare(x, y) > 0;
    assert compare(z, y) < 0 <==> compare(y, z) > 0;
    assert compare(x, z) < 0 <==> compare(z, x) > 0;
    assert compare(z, x) < 0 <==> compare(x, z) > 0;
    assert compare(y, z) <= 0 && compare(z, x) <= 0 ==> compare(y, x) <= 0;
    assert compare(z, x) <= 0 && compare(x, y) <= 0 ==> compare(z, y) <= 0;
  }

  // ----- Sorting -----

  /** `e` compares at least as high as every entry. */
  predicate AtLeast<V>(compare: (V, V) -> int, e: Entry<V>, entries: seq<Entry<V>>) {
    forall i :: 0 <= i < |entries| ==> compare(entries[i].parsed, e.parsed) <= 0
  }

  predicate Descending<V>(compare: (V, V) -> int, entries: seq<Entry<V>>) {
    entries != [] ==> AtLeast(compare, entries[0], entries[1..]) && Descending(compare, entries[1..])
  }

  lemma {:induction false} AtLeastInserted<V>(compare: (V, V) -> int, e: Entry<V>, x: Entry<V>, sorted: seq<Entry<V>>)
    requires AtLeast(compare, e, sorted) && compare(x.parsed, e.parsed) <= 0
    ensures AtLeast(compare, e, InsertDescending(compare, x, sorted))
  {
    if sorted != [] && compare(sorted[0].parsed, x.parsed) > 0 {
      AtLeastInserted(compare, e, x, sorted[1..]);
    }
  }

  lemma {:induction false} AtLeastAll<V(!new)>(compare: (V, V) -> int, e: Entry<V>, sorted: seq<Entry<V>>)
    requires TotalPreorder(compare) && Descending(compare, sorted)
    requires sorted != [] ==> compare(sorted[0].parsed, e.parsed) <= 0
    ensures AtLeast(compare, e, sorted)
  {
    hide TotalPreorder;
    forall i | 0 <= i < |sorted|
      ensures compare(sorted[i].parsed, e.parsed) <= 0
    {
      if i > 0 {
        assert sorted[1..][i - 1] == sorted[i];
        Laws(compare, sorted[i].parsed, sorted[0].parsed, e.parsed);
      }
    }
  }

  lemma {:induction false} InsertFacts<V(!new)>(compare: (V, V) -> int, e: Entry<V>, sorted: seq<Entry<V>>)
    requires TotalPreorder(compare) && Descending(compare, sorted)
    ensures Descending(compare, InsertDescending(compare, e, sorted))
    ensures multiset(InsertDescending(compare, e, sorted)) == multiset(sorted) + multiset{e}
    decreases |sorted|
  {
    hide TotalPreorder;
    if sorted == [] || compare(sorted[0].parsed, e.parsed) <= 0 {
      AtLeastAll(compare, e, sorted);
      assert ([e] + sorted)[1..] == sorted;
    } else {
      var tail := InsertDescending(compare, e, sorted[1..]);
      InsertFacts(compare, e, sorted[1..]);
      Laws(compare, sorted[0].parsed, e.parsed, e.parsed);
      AtLeastInserted(compare, sorted[0], e, sorted[1..]);
      assert ([sorted[0]] + tail)[1..] == tail;
      assert sorted == [sorted[0]] + sorted[1..];
    }
  }

  /** The sort orders from high to low and keeps every entry. */
  lemma {:induction false} SortFacts<V(!new)>(compare: (V, V) -> int, entries: seq<Entry<V>>)
    requires TotalPreorder(compare)
    ensures Descending(compare, SortDescending(compare, entries))
    ensures multiset(SortDescending(compare, entries)) == multiset(entries)
  {
    hide TotalPreorder, Descending, InsertDescending;
    if entries == [] {
      DescendingNone(compare);
    } else {
      SortFacts(compare, entries[1..]);
      InsertFacts(compare, entries[0], SortDescending(compare, entries[1..]));
      assert entries == [entries[0]] + entries[1..];
    }
  }

  lemma {:induction false} DescendingNone<V>(compare: (V, V) -> int)
    ensures Descending(compare, [])
  {
  }

  /** The first entry after sorting is a highest one. */
  lemma {:induction false} SortedHead<V(!new)>(compare: (V, V) -> int, entries: seq<Entry<V>>)
    requires TotalPreorder(compare) && entries != []
    ensures var sorted := SortDescending(compare, entries);
            && sorted != [] && sorted[0] in entries
            && forall e :: e in entries ==> compare(e.parsed, sorted[0].parsed) <= 0
  {
    var sorted := SortDescending(compare, entries);
    SortFacts(compare, entries);
    hide SortDescending, TotalPreorder;
    assert entries[0] in multiset(entries) && entries[0] in multiset(sorted);
    assert sorted[0] in multiset(sorted) && sorted[0] in multiset(entries);
    Laws(compare, sorted[0].parsed, sorted[0].parsed, sorted[0].parsed);
    AtLeastAll(compare, sorted[0], sorted);
    forall e | e in entries
      ensures compare(e.parsed, sorted[0].parsed) <= 0
    {
      assert e in multiset(entries) && e in multiset(sorted);
    }
  }

  // ----- One call -----

  /** A listed tag that parses and is below `current`. */
  predicate Lower<V>(parse: string -> Option<V>, compare: (V, V) -> int, current: V, tags: seq<string>, tag: string) {
    tag in tags && parse(tag).Some? && compare(parse(tag).value, current) < 0
  }

  lemma {:induction false} CandidatesMeaning<V>(parse: string -> Option<V>, compare: (V, V) -> int, current: V,
      tags: seq<string>)
    ensures forall e :: e in Candidates(parse, compare, current, tags) <==>
              parse(e.tag) == Some(e.parsed) && Lower(parse, compare, current, tags, e.tag)
  {
    if tags != [] {
      CandidatesMeaning(parse, compare, current, tags[1..]);
      assert tags == [tags[0]] + tags[1..];
    }
  }

  /**
   The result is a highest lower tag: nothing listed lies strictly between it and
   the current version. There is none exactly when no listed tag is lower.
   */
  lemma {:induction false} PreviousMeaning<V(!new)>(parse: string -> Option<V>, compare: (V, V) -> int, current: V,
      tags: seq<string>)
    requires TotalPreorder(compare)
    ensures match Previous(parse, compare, current, tags) {
              case None => forall tag :: !Lower(parse, compare, current, tags, tag)
              case Some(best) =>
                && Lower(parse, compare, current, tags, best)
                && forall tag :: Lower(parse, compare, current, tags, tag) ==>
                     compare(parse(tag).value, parse(best).value) <= 0
            }
  {
    hide TotalPreorder, SortDescending, Candidates;
    var candidates := Candidates(parse, compare, current, tags);
    CandidatesMeaning(parse, compare, current, tags);
    if candidates == [] {
      SortFacts(compare, candidates);
      assert |multiset(SortDescending(compare, candidates))| == 0;
      forall tag
        ensures !Lower(parse, compare, current, tags, tag)
      {
        assert parse(tag).Some? ==> Entry(tag, parse(tag).value) !in candidates;
      }
    } else {
      SortedHead(compare, candidates);
      var best := SortDescending(compare, candidates)[0];
      forall tag | Lower(parse, compare, current, tags, tag)
        ensures compare(parse(tag).value, best.parsed) <= 0
      {
        assert Entry(tag, parse(tag).value) in candidates;
      }
    }
  }

  /** Among equally high tags the one listed first is returned. */
  lemma {:induction false} PreviousIsFirstListed<V(!new)>(parse: string -> Option<V>, compare: (V, V) -> int,
      current: V, tags: seq<string>)
    returns (k: nat)
    requires TotalPreorder(compare) && Previous(parse, compare, current, tags).Some?
    ensures k < |tags| && Previous(parse, compare, current, tags) == Some(tags[k])
    ensures parse(tags[k]) == Some(SortDescending(compare, Candidates(parse, compare, current, tags))[0].parsed)
    ensures forall i :: 0 <= i < k && parse(tags[i]).Some? && compare(parse(tags[i]).value, current) < 0 ==>
              compare(parse(tags[i]).value, parse(tags[k]).value) < 0
  {
    hide TotalPreorder;
    var rest := Candidates(parse, compare, current, tags[1..]);
    var sorted := SortDescending(compare, rest);
    var first := parse(tags[0]);
    if first.Some? && compare(first.value, current) < 0 &&
        (sorted == [] || compare(sorted[0].parsed, first.value) <= 0) {
      k := 0;
    } else {
      var j := PreviousIsFirstListed(parse, compare, current, tags[1..]);
      k := j + 1;
      if first.Some? {
        Laws(compare, first.value, sorted[0].parsed, current);
      }
      assert forall i :: 0 < i < k ==> tags[i] == tags[1..][i - 1];
    }
  }

  /** The resolver on both channels. */
  lemma {:induction false} ResolverMeaning(text: (string, string) -> int, channel: Channel, currentTag: string,
      tags: seq<string>)
    requires TotalPreorder(text)
    ensures var r := ResolvePreviousReleaseTag(text, channel, currentTag, tags);
            && (r.Err? <==>
               if channel.Stable? then ParseStableTag(currentTag) == None else ParseNightlyTag(currentTag) == None)
            && (r.Ok? && channel.Stable? ==>
                  IsPrevious(ParseStableTag, (x, y) => CompareStable(text, x, y), ParseStableTag(currentTag).value,
                      tags, r.value))
            && (r.Ok? && channel.Nightly? ==>
                  IsPrevious(ParseNightlyTag, CompareNightly, ParseNightlyTag(currentTag).value, tags, r.value))
  {
    hide ParseStableTag, ParseNightlyTag, CompareStable, CompareNightly, Previous;
    StablePreorder(text);
    NightlyOrder();
    if channel.Stable? && ParseStableTag(currentTag).Some? {
      PreviousMeaning(ParseStableTag, (x, y) => CompareStable(text, x, y), ParseStableTag(currentTag).value, tags);
    }
    if channel.Nightly? && ParseNightlyTag(currentTag).Some? {
      PreviousMeaning(ParseNightlyTag, CompareNightly, ParseNightlyTag(currentTag).value, tags);
    }
  }

  /** A reference reading of "the previous release". */
  ghost predicate IsPrevious<V>(parse: string -> Option<V>, compare: (V, V) -> int, current: V, tags: seq<string>,
      r: Option<string>) {
    match r
    case None => forall tag :: !Lower(parse, compare, current, tags, tag)
    case Some(best) =>
      && Lower(parse, compare, current, tags, best)
      && forall tag :: Lower(parse, compare, current, tags, tag) ==> compare(parse(tag).value, parse(best).value) <= 0
  }

  // ----- Repeated calls -----

  function LowerSet<V>(parse: string -> Option<V>, compare: (V, V) -> int, current: V, tags: seq<string>): set<string> {
    set tag | tag in tags && Lower(parse, compare, current, tags, tag)
  }

  lemma {:induction false} LowerSetShrinks<V(!new)>(parse: string -> Option<V>, compare: (V, V) -> int, current: V,
      tags: seq<string>, tag: string)
    requires TotalPreorder(compare) && Lower(parse, compare, current, tags, tag)
    ensures LowerSet(parse, compare, parse(tag).value, tags) < LowerSet(parse, compare, current, tags)
  {
    hide TotalPreorder;
    var next := parse(tag).value;
    Laws(compare, next, next, next);
    assert tag in LowerSet(parse, compare, current, tags) && tag !in LowerSet(parse, compare, next, tags);
    forall u | Lower(parse, compare, next, tags, u)
      ensures Lower(parse, compare, current, tags, u)
    {
      Laws(compare, parse(u).value, next, current);
    }
  }

  /** The tags found by resolving again and again from `current`. */
  ghost function Trail<V(!new)>(parse: string -> Option<V>, compare: (V, V) -> int, current: V,
      tags: seq<string>): (trail: seq<string>)
    requires TotalPreorder(compare)
    ensures forall i :: 0 <= i < |trail| ==> parse(trail[i]).Some?
    decreases LowerSet(parse, compare, current, tags)
  {
    match Previous(parse, compare, current, tags)
    case None => []
    case Some(tag) =>
      PreviousMeaning(parse, compare, current, tags);
      LowerSetShrinks(parse, compare, current, tags, tag);
      [tag] + Trail(parse, compare, parse(tag).value, tags)
  }

  lemma {:induction false} TrailStep<V(!new)>(parse: string -> Option<V>, compare: (V, V) -> int, current: V,
      tags: seq<string>)
    requires TotalPreorder(compare)
    ensures match Previous(parse, compare, current, tags) {
              case None => Trail(parse, compare, current, tags) == []
              case Some(tag) =>
                && Lower(parse, compare, current, tags, tag)
                && Trail(parse, compare, current, tags) == [tag] + Trail(parse, compare, parse(tag).value, tags)
                && LowerSet(parse, compare, parse(tag).value, tags) < LowerSet(parse, compare, current, tags)
            }
  {
    hide TotalPreorder;
    PreviousMeaning(parse, compare, current, tags);
    match Previous(parse, compare, current, tags)
    case None =>
    case Some(tag) => LowerSetShrinks(parse, compare, current, tags, tag);
  }

  /** Every tag of the trail is listed and below this version. */
  predicate AllLower<V>(parse: string -> Option<V>, compare: (V, V) -> int, current: V, tags: seq<string>,
      trail: seq<string>) {
    forall i :: 0 <= i < |trail| ==> Lower(parse, compare, current, tags, trail[i])
  }

  /** Repetition goes strictly down through listed lower tags. */
  lemma {:induction false} TrailDescends<V(!new)>(parse: string -> Option<V>, compare: (V, V) -> int, current: V,
      tags: seq<string>)
    requires TotalPreorder(compare)
    ensures var trail := Trail(parse, compare, current, tags);
            && AllLower(parse, compare, current, tags, trail)
            && (forall i, j :: 0 <= i < j < |trail| ==> compare(parse(trail[j]).value, parse(trail[i]).value) < 0)
    decreases LowerSet(parse, compare, current, tags)
  {
    hide TotalPreorder, LowerSet, Trail;
    TrailStep(parse, compare, current, tags);
    match Previous(parse, compare, current, tags)
    case None =>
    case Some(tag) =>
      var next := parse(tag).value;
      var rest := Trail(parse, compare, next, tags);
      TrailDescends(parse, compare, next, tags);
      forall i | 0 <= i < |rest|
        ensures Lower(parse, compare, current, tags, rest[i]) && compare(parse(rest[i]).value, next) < 0
      {
        assert Lower(parse, compare, next, tags, rest[i]);
        Laws(compare, parse(rest[i]).value, next, current);
      }
      var trail := [tag] + rest;
      forall i, j | 0 <= i < j < |trail|
        ensures compare(parse(trail[j]).value, parse(trail[i]).value) < 0
      {
        assert trail[j] == rest[j - 1];
        if i > 0 {
          assert trail[i] == rest[i - 1];
        }
      }
  }

  /** Position `k` of the trail has a tag that compares equal to this version. */
  predicate Visits<V>(parse: string -> Option<V>, compare: (V, V) -> int, trail: seq<string>, k: nat, version: V) {
    k < |trail| && parse(trail[k]).Some? && compare(parse(trail[k]).value, version) == 0
  }

  /** Repetition reaches every version class below `current`. */
  lemma {:induction false} TrailReaches<V(!new)>(parse: string -> Option<V>, compare: (V, V) -> int, current: V,
      tags: seq<string>, tag: string)
    returns (k: nat)
    requires TotalPreorder(compare) && Lower(parse, compare, current, tags, tag)
    ensures Visits(parse, compare, Trail(parse, compare, current, tags), k, parse(tag).value)
    decreases LowerSet(parse, compare, current, tags)
  {
    PreviousMeaning(parse, compare, current, tags);
    TrailStep(parse, compare, current, tags);
    hide TotalPreorder, LowerSet, Trail, Previous;
    var best := Previous(parse, compare, current, tags).value;
    var next, version := parse(best).value, parse(tag).value;
    Laws(compare, version, next, next);
    if compare(version, next) == 0 {
      k := 0;
    } else {
      k := TrailReaches(parse, compare, next, tags, tag);
      k := k + 1;
    }
  }

  /** Each lower version class is visited exactly once. */
  lemma {:induction false} TrailVisitsOnce<V(!new)>(parse: string -> Option<V>, compare: (V, V) -> int, current: V,
      tags: seq<string>, tag: string)
    requires TotalPreorder(compare) && Lower(parse, compare, current, tags, tag)
    ensures var trail, version := Trail(parse, compare, current, tags), parse(tag).value;
            exists k: nat :: Visits(parse, compare, trail, k, version) &&
                             forall j: nat :: Visits(parse, compare, trail, j, version) ==> j == k
  {
    hide TotalPreorder, Trail;
    var trail, version := Trail(parse, compare, current, tags), parse(tag).value;
    var k := TrailReaches(parse, compare, current, tags, tag);
    TrailDescends(parse, compare, current, tags);
    forall j: nat | Visits(parse, compare, trail, j, version)
      ensures j == k
    {
      var x, y := parse(trail[j]).value, parse(trail[k]).value;
      Laws(compare, x, version, y);
      Laws(compare, y, version, x);
      Laws(compare, x, y, x);
    }
  }
}
