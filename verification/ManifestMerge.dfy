/** The algebra of `mergeUpdateManifests`: a partial, associative operation. */
module ManifestMerge {
  import opened Outcomes
  import opened Text
  import opened UpdateManifest
  import opened ManifestRoundTrip

  // ----- What merging file lists means -----

  /** No two entries share a url. */
  predicate DistinctUrls(files: seq<File>) {
    forall i, j :: 0 <= i < j < |files| ==> files[i].url != files[j].url
  }

  /** Entries with the same url are the same entry. */
  predicate Consistent(files: seq<File>) {
    forall x, y :: x in files && y in files && x.url == y.url ==> x == y
  }

  predicate HasUrl(files: seq<File>, url: string) {
    exists i :: 0 <= i < |files| && files[i].url == url
  }

  /** The list without the entries whose url occurred before. */
  function FirstOccurrences(files: seq<File>): seq<File> {
    if files == [] then []
    else
      var front, last := files[..|files| - 1], files[|files| - 1];
      if HasUrl(front, last.url) then FirstOccurrences(front) else FirstOccurrences(front) + [last]
  }

  lemma {:induction false} FirstOccurrencesFacts(files: seq<File>)
    ensures DistinctUrls(FirstOccurrences(files))
    ensures forall url :: HasUrl(FirstOccurrences(files), url) <==> HasUrl(files, url)
    ensures forall f :: f in FirstOccurrences(files) ==> f in files
  {
    if files != [] {
      var front, last := files[..|files| - 1], files[|files| - 1];
      FirstOccurrencesFacts(front);
      assert files == front + [last];
      var kept := FirstOccurrences(front);
      assert HasUrl(files, last.url);
      forall url
        ensures HasUrl(files, url) <==> HasUrl(front, url) || last.url == url
        ensures HasUrl(kept + [last], url) <==> HasUrl(kept, url) || last.url == url
      {
        UrlOfLast(front, last, url);
        UrlOfLast(kept, last, url);
      }
    }
  }

  lemma {:induction false} UrlOfLast(front: seq<File>, last: File, url: string)
    ensures HasUrl(front + [last], url) <==> HasUrl(front, url) || last.url == url
  {
    var all := front + [last];
    if HasUrl(front, url) {
      var i :| 0 <= i < |front| && front[i].url == url;
      assert all[i].url == url;
    }
    if last.url == url {
      assert all[|front|].url == url;
    }
  }

  lemma {:induction false} SameMembers(files: seq<File>)
    requires Consistent(files)
    ensures forall f :: f in FirstOccurrences(files) <==> f in files
  {
    FirstOccurrencesFacts(files);
    var kept := FirstOccurrences(files);
    forall f | f in files
      ensures f in kept
    {
      var i :| 0 <= i < |files| && files[i] == f;
      assert HasUrl(files, f.url);
      var j :| 0 <= j < |kept| && kept[j].url == f.url;
      assert kept[j] in files;
    }
  }

  lemma {:induction false} UrlOfAppend(a: seq<File>, b: seq<File>, url: string)
    ensures HasUrl(a + b, url) <==> HasUrl(a, url) || HasUrl(b, url)
  {
    var all := a + b;
    if HasUrl(a, url) {
      var i :| 0 <= i < |a| && a[i].url == url;
      assert all[i].url == url;
    }
    if HasUrl(b, url) {
      var i :| 0 <= i < |b| && b[i].url == url;
      assert all[|a| + i].url == url;
    }
  }

  lemma {:induction false} DistinctIsFixed(files: seq<File>)
    ensures FirstOccurrences(files) == files <==> DistinctUrls(files)
  {
    FirstOccurrencesFacts(files);
    if files != [] && DistinctUrls(files) {
      var front := files[..|files| - 1];
      DistinctIsFixed(front);
      assert files == front + [files[|files| - 1]];
    }
  }

  /** Replacing the left part by one with the same first occurrences. */
  lemma {:induction false} ReplaceLeft(a: seq<File>, a': seq<File>, b: seq<File>)
    requires FirstOccurrences(a) == FirstOccurrences(a')
    ensures FirstOccurrences(a + b) == FirstOccurrences(a' + b)
  {
    if b == [] {
      assert a + b == a && a' + b == a';
    } else {
      var front, last := b[..|b| - 1], b[|b| - 1];
      ReplaceLeft(a, a', front);
      assert (a + b)[..|a + b| - 1] == a + front && (a' + b)[..|a' + b| - 1] == a' + front;
      FirstOccurrencesFacts(a + front);
      FirstOccurrencesFacts(a' + front);
      assert HasUrl(a + front, last.url) <==> HasUrl(a' + front, last.url);
    }
  }

  /** Dropping repetitions from the right part first changes nothing. */
  lemma {:induction false} ReplaceRight(a: seq<File>, b: seq<File>)
    ensures FirstOccurrences(a + FirstOccurrences(b)) == FirstOccurrences(a + b)
  {
    hide HasUrl, FirstOccurrences, DistinctUrls;
    NoFiles();
    if b != [] {
      var front, last := b[..|b| - 1], b[|b| - 1];
      var kept := FirstOccurrences(front);
      ReplaceRight(a, front);
      FirstOccurrencesFacts(front);
      UrlOfAppend(a, front, last.url);
      UrlOfAppend(a, kept, last.url);
      FirstsAppend(front, last);
      FirstsAppend(a + front, last);
      FirstsAppend(a + kept, last);
      assert b == front + [last];
      assert a + (front + [last]) == (a + front) + [last] && a + (kept + [last]) == (a + kept) + [last];
    }
  }

  /** The file loop succeeds exactly on consistent lists, and then keeps first occurrences. */
  lemma {:induction false} AddFilesMeaning(merged: seq<File>, files: seq<File>)
    requires DistinctUrls(merged)
    ensures AddFiles(merged, files).Ok? <==> Consistent(merged + files)
    ensures AddFiles(merged, files).Ok? ==> AddFiles(merged, files).value == FirstOccurrences(merged + files)
    decreases |files|
  {
    if files == [] {
      assert merged + files == merged;
      DistinctIsFixed(merged);
    } else {
      var file, rest := files[0], files[1..];
      assert merged + files == merged + [file] + rest;
      match UrlIndex(merged, file.url) {
        case None => AddFilesMeaning(merged + [file], rest);
        case Some(i) =>
          assert merged[i] in merged + files && file in merged + files;
          if merged[i] == file {
            assert merged[i := file] == merged;
            AddFilesMeaning(merged, rest);
            assert forall f :: f in merged + files <==> f in merged + rest;
            assert HasUrl(merged, file.url);
            assert (merged + [file])[..|merged|] == merged;
            ReplaceLeft(merged + [file], merged, rest);
          }
      }
    }
  }

  /** When two manifests can be merged. */
  predicate Mergeable(a: Manifest, b: Manifest) {
    a.version == b.version && Consistent(a.files + b.files) && ExtrasAgree(a.extras, b.extras)
  }

  function Merged(a: Manifest, b: Manifest): Manifest {
    Manifest(a.version, LaterDate(a.releaseDate, b.releaseDate), FirstOccurrences(a.files + b.files),
             a.extras + b.extras)
  }

  lemma {:induction false} MergeMeaning(a: Manifest, b: Manifest)
    ensures Merge(a, b).Ok? <==> Mergeable(a, b)
    ensures Mergeable(a, b) ==> Merge(a, b) == Ok(Merged(a, b))
  {
    AddFilesMeaning([], a.files + b.files);
    assert [] + (a.files + b.files) == a.files + b.files;
  }

  // ----- What a merge gives, and why it fails -----

  /** No entry before position `i` has its url. */
  predicate IsFirst(files: seq<File>, i: nat)
    requires i < |files|
  {
    forall k :: 0 <= k < i ==> files[k].url != files[i].url
  }

  /** `kept` lists, in order, the entries of `files` whose url did not occur before. */
  predicate KeepsFirsts(files: seq<File>, at: seq<nat>, kept: seq<File>) {
    && |kept| == |at|
    && (forall j, k :: 0 <= j < k < |at| ==> at[j] < at[k])
    && (forall j :: 0 <= j < |at| ==> at[j] < |files| && kept[j] == files[at[j]] && IsFirst(files, at[j]))
    && (forall i :: 0 <= i < |files| && IsFirst(files, i) ==> i in at)
  }

  lemma {:induction false} FirstsInOrder(files: seq<File>) returns (at: seq<nat>)
    ensures KeepsFirsts(files, at, FirstOccurrences(files))
  {
    hide KeepsFirsts, HasUrl, FirstOccurrences;
    NoFiles();
    if files == [] {
      NoFirsts();
      at := [];
    } else {
      var front, last := files[..|files| - 1], files[|files| - 1];
      at := FirstsInOrder(front);
      OneMoreFirst(front, last, at, FirstOccurrences(front));
      assert files == front + [last];
      FirstsStep(files);
      if !HasUrl(front, last.url) {
        at := at + [|front|];
      }
    }
  }

  lemma {:induction false} NoFirsts()
    ensures KeepsFirsts([], [], [])
  {
  }

  lemma {:induction false} FirstsAppend(front: seq<File>, last: File)
    ensures FirstOccurrences(front + [last]) ==
            if HasUrl(front, last.url) then FirstOccurrences(front) else FirstOccurrences(front) + [last]
  {
    hide HasUrl, FirstOccurrences;
    assert (front + [last])[..|front|] == front;
    FirstsStep(front + [last]);
  }

  lemma {:induction false} FirstsStep(files: seq<File>)
    requires files != []
    ensures var front, last := files[..|files| - 1], files[|files| - 1];
            FirstOccurrences(files) ==
            if HasUrl(front, last.url) then FirstOccurrences(front) else FirstOccurrences(front) + [last]
  {
    hide HasUrl;
  }

  lemma {:induction false} FirstOfAppend(front: seq<File>, last: File)
    ensures forall i :: 0 <= i < |front| ==> (IsFirst(front + [last], i) <==> IsFirst(front, i))
    ensures IsFirst(front + [last], |front|) <==> !HasUrl(front, last.url)
  {
    var files := front + [last];
    assert forall i :: 0 <= i < |front| ==> files[i] == front[i];
  }

  lemma {:induction false} OneMoreFirst(front: seq<File>, last: File, at: seq<nat>, kept: seq<File>)
    requires KeepsFirsts(front, at, kept)
    ensures var seen := HasUrl(front, last.url);
            KeepsFirsts(front + [last], if seen then at else at + [|front|], if seen then kept else kept + [last])
  {
    FirstOfAppend(front, last);
    hide IsFirst, HasUrl;
  }

  /** Both manifests' entries: the values agree where both have the key. */
  predicate AreUnion(a: map<string, Scalar>, b: map<string, Scalar>, all: map<string, Scalar>) {
    && all.Keys == a.Keys + b.Keys
    && (forall k :: k in a ==> k in all && all[k] == a[k])
    && (forall k :: k in b ==> k in all && all[k] == b[k])
  }

  /**
   A merge keeps the version, has the later date, lists each url where it occurs first
   and has the extras of both.
   */
  lemma {:induction false} MergedValue(a: Manifest, b: Manifest)
    requires Merge(a, b).Ok?
    ensures var m := Merge(a, b).value;
            && m.version == a.version && m.version == b.version
            && (m.releaseDate == a.releaseDate || m.releaseDate == b.releaseDate)
            && LexLe(a.releaseDate, m.releaseDate) && LexLe(b.releaseDate, m.releaseDate)
            && (exists at :: KeepsFirsts(a.files + b.files, at, m.files))
            && AreUnion(a.extras, b.extras, m.extras)
  {
    MergeMeaning(a, b);
    LexTotal(a.releaseDate, b.releaseDate);
    LexTotal(a.releaseDate, a.releaseDate);
    LexTotal(b.releaseDate, b.releaseDate);
    var at := FirstsInOrder(a.files + b.files);
    hide LexLe, FirstOccurrences, Merge, KeepsFirsts;
  }

  /** An earlier entry has the same url and another hash or size. */
  predicate Conflicts(files: seq<File>, i: nat)
    requires i < |files|
  {
    exists k :: 0 <= k < i && files[k].url == files[i].url && files[k] != files[i]
  }

  predicate IsFirstConflict(files: seq<File>, i: nat) {
    i < |files| && Conflicts(files, i) && forall j :: 0 <= j < i ==> !Conflicts(files, j)
  }

  /** Why two manifests cannot be merged; the url is that of the first conflicting entry. */
  ghost predicate IsMergeFault(a: Manifest, b: Manifest, e: MergeError) {
    match e
    case DifferentVersions => a.version != b.version
    case ConflictingFile(url) =>
      a.version == b.version &&
      exists i: nat :: IsFirstConflict(a.files + b.files, i) && (a.files + b.files)[i].url == url
    case ConflictingExtra =>
      && a.version == b.version && (forall i :: 0 <= i < |a.files + b.files| ==> !Conflicts(a.files + b.files, i))
      && exists k :: k in a.extras && k in b.extras && a.extras[k] != b.extras[k]
  }

  lemma {:induction false} ConsistentMeaning(files: seq<File>)
    ensures Consistent(files) <==> forall i :: 0 <= i < |files| ==> !Conflicts(files, i)
  {
    if !Consistent(files) {
      var x, y :| x in files && y in files && x.url == y.url && x != y;
      var i :| 0 <= i < |files| && files[i] == x;
      var j :| 0 <= j < |files| && files[j] == y;
      assert Conflicts(files, if i < j then j else i);
    }
  }

  lemma {:induction false} FailsAtFirst(done: seq<File>, files: seq<File>)
    requires Consistent(done)
    ensures var r, all := AddFiles(FirstOccurrences(done), files), done + files;
            r.Err? ==>
              r.error.ConflictingFile? && exists i: nat :: IsFirstConflict(all, i) && all[i].url == r.error.url
    decreases |files|
  {
    if files != [] {
      var file, rest, kept := files[0], files[1..], FirstOccurrences(done);
      var next := done + [file];
      assert done + files == next + rest;
      assert next[..|next| - 1] == done;
      FirstOccurrencesFacts(done);
      var index := UrlIndex(kept, file.url);
      if index.Some? && kept[index.value] != file {
        var k :| 0 <= k < |done| && done[k] == kept[index.value];
        FirstConflictAt(done, files, k);
      } else {
        StaysConsistent(done, file);
        assert HasUrl(done, file.url) <==> HasUrl(kept, file.url);
        assert index.Some? ==> kept[index.value := file] == kept;
        FailsAtFirst(next, rest);
      }
    }
  }

  lemma {:induction false} FirstConflictAt(done: seq<File>, files: seq<File>, k: nat)
    requires Consistent(done) && files != [] && k < |done| && done[k].url == files[0].url && done[k] != files[0]
    ensures IsFirstConflict(done + files, |done|) && (done + files)[|done|] == files[0]
  {
    var all := done + files;
    assert all[k] == done[k] && all[|done|] == files[0];
    ConsistentMeaning(done);
    forall j | 0 <= j < |done|
      ensures !Conflicts(all, j)
    {
      assert !Conflicts(done, j);
    }
  }

  lemma {:induction false} StaysConsistent(done: seq<File>, file: File)
    requires Consistent(done)
    requires var index := UrlIndex(FirstOccurrences(done), file.url);
             index.Some? ==> FirstOccurrences(done)[index.value] == file
    ensures Consistent(done + [file])
  {
    FirstOccurrencesFacts(done);
    var kept := FirstOccurrences(done);
    var index := UrlIndex(kept, file.url);
    if index.Some? {
      assert kept[index.value] in done;
    } else {
      assert !HasUrl(kept, file.url);
      assert forall f :: f in done ==> f.url != file.url by {
        forall f | f in done
          ensures f.url != file.url
        {
          var i :| 0 <= i < |done| && done[i] == f;
        }
      }
    }
  }

  lemma {:induction false} OneMergeFault(a: Manifest, b: Manifest, e: MergeError, f: MergeError)
    requires IsMergeFault(a, b, e)
    ensures !Mergeable(a, b) && (IsMergeFault(a, b, f) ==> e == f)
  {
    var all := a.files + b.files;
    ConsistentMeaning(all);
    hide Conflicts, Consistent;
    if e.ConflictingFile? && f.ConflictingFile? && IsMergeFault(a, b, f) {
      var i: nat :| IsFirstConflict(all, i) && all[i].url == e.url;
      var j: nat :| IsFirstConflict(all, j) && all[j].url == f.url;
      assert i == j;
    }
  }

  lemma {:induction false} MergeFails(a: Manifest, b: Manifest)
    requires Merge(a, b).Err?
    ensures IsMergeFault(a, b, Merge(a, b).error)
  {
    hide Conflicts, AddFiles, Consistent, FirstOccurrences, IsFirstConflict;
    var all := a.files + b.files;
    assert [] + all == all;
    NoFiles();
    AddFilesMeaning([], all);
    FailsAtFirst([], all);
    ConsistentMeaning(all);
  }

  lemma {:induction false} NoFiles()
    ensures FirstOccurrences([]) == [] && Consistent([])
  {
  }

  /** A merge fails with exactly the fault that the manifests have. */
  lemma {:induction false} MergeErrors(a: Manifest, b: Manifest, e: MergeError)
    ensures Merge(a, b) == Err(e) <==> IsMergeFault(a, b, e)
  {
    hide Merge, IsMergeFault, Mergeable;
    MergeMeaning(a, b);
    if Merge(a, b).Err? {
      MergeFails(a, b);
      OneMergeFault(a, b, Merge(a, b).error, e);
    }
    if IsMergeFault(a, b, e) {
      OneMergeFault(a, b, e, e);
    }
  }

  // ----- Properties -----

  lemma {:induction false} LaterDateAssociative(a: string, b: string, c: string)
    ensures LaterDate(LaterDate(a, b), c) == LaterDate(a, LaterDate(b, c))
  {
    LexTotal(a, b);
    LexTotal(b, c);
    LexTotal(a, c);
    if LexLe(b, a) && LexLe(c, b) {
      LexTransitive(c, b, a);
    }
    if LexLe(a, b) && LexLe(b, c) {
      LexTransitive(a, b, c);
    }
  }

  lemma {:induction false} FilesAssociative(a: seq<File>, b: seq<File>, c: seq<File>)
    ensures Consistent(a + b) && Consistent(FirstOccurrences(a + b) + c) <==> Consistent(a + b + c)
    ensures Consistent(b + c) && Consistent(a + FirstOccurrences(b + c)) <==> Consistent(a + b + c)
    ensures FirstOccurrences(FirstOccurrences(a + b) + c) == FirstOccurrences(a + b + c)
    ensures FirstOccurrences(a + FirstOccurrences(b + c)) == FirstOccurrences(a + b + c)
  {
    assert a + b + c == a + (b + c);
    assert forall f :: f in a + b + c <==> f in a + b || f in c;
    assert forall f :: f in a + b + c <==> f in a || f in b + c;
    if Consistent(a + b) {
      SameMembers(a + b);
      assert forall f :: f in FirstOccurrences(a + b) + c <==> f in a + b + c;
    }
    if Consistent(b + c) {
      SameMembers(b + c);
      assert forall f :: f in a + FirstOccurrences(b + c) <==> f in a + b + c;
    }
    FirstOccurrencesFacts(a + b);
    DistinctIsFixed(FirstOccurrences(a + b));
    ReplaceLeft(FirstOccurrences(a + b), a + b, c);
    ReplaceRight(a, b + c);
  }

  function MergeLeft(a: Manifest, b: Manifest, c: Manifest): Result<Manifest, MergeError> {
    match Merge(a, b) case Ok(ab) => Merge(ab, c) case Err(e) => Err(e)
  }

  function MergeRight(a: Manifest, b: Manifest, c: Manifest): Result<Manifest, MergeError> {
    match Merge(b, c) case Ok(bc) => Merge(a, bc) case Err(e) => Err(e)
  }

  /** Both groupings of three manifests fail together or give the same manifest. */
  lemma {:induction false} MergeAssociative(a: Manifest, b: Manifest, c: Manifest)
    ensures MergeLeft(a, b, c).Ok? <==> MergeRight(a, b, c).Ok?
    ensures MergeLeft(a, b, c).Ok? ==> MergeLeft(a, b, c) == MergeRight(a, b, c)
  {
    MergeMeaning(a, b);
    MergeMeaning(b, c);
    MergeMeaning(Merged(a, b), c);
    MergeMeaning(a, Merged(b, c));
    FilesAssociative(a.files, b.files, c.files);
    LaterDateAssociative(a.releaseDate, b.releaseDate, c.releaseDate);
    ExtrasAssociative(a.extras, b.extras, c.extras);
  }

  lemma {:induction false} ExtrasAssociative(a: map<string, Scalar>, b: map<string, Scalar>, c: map<string, Scalar>)
    ensures ExtrasAgree(a, b) && ExtrasAgree(a + b, c) <==> ExtrasAgree(b, c) && ExtrasAgree(a, b + c)
    ensures a + b + c == a + (b + c)
  {
    if ExtrasAgree(a, b) && ExtrasAgree(a + b, c) {
      assert forall k :: k in b && k in c ==> (a + b)[k] == b[k];
      assert forall k :: k in a && k in b + c ==> k in a + b;
    }
    if ExtrasAgree(b, c) && ExtrasAgree(a, b + c) {
      assert forall k :: k in a && k in b ==> k in b + c;
    }
  }

  lemma {:induction false} SameFilesEitherOrder(a: seq<File>, b: seq<File>)
    requires Consistent(a + b)
    ensures multiset(FirstOccurrences(a + b)) == multiset(FirstOccurrences(b + a))
  {
    assert forall f :: f in a + b <==> f in b + a;
    var x, y := FirstOccurrences(a + b), FirstOccurrences(b + a);
    SameMembers(a + b);
    SameMembers(b + a);
    FirstOccurrencesFacts(a + b);
    FirstOccurrencesFacts(b + a);
    DistinctMultiset(x);
    DistinctMultiset(y);
    assert forall f :: f in x <==> f in y;
  }

  lemma {:induction false} DistinctMultiset(files: seq<File>)
    requires DistinctUrls(files)
    ensures forall f :: multiset(files)[f] == if f in files then 1 else 0
  {
    if files != [] {
      var front, last := files[..|files| - 1], files[|files| - 1];
      DistinctMultiset(front);
      assert files == front + [last];
    }
  }

  /** Swapping the arguments fails together and changes nothing but the file order. */
  lemma {:induction false} MergeCommutative(a: Manifest, b: Manifest)
    ensures Merge(a, b).Ok? <==> Merge(b, a).Ok?
    ensures Merge(a, b).Ok? ==>
              var ab, ba := Merge(a, b).value, Merge(b, a).value;
              ab.(files := ba.files) == ba && multiset(ab.files) == multiset(ba.files)
  {
    MergeMeaning(a, b);
    MergeMeaning(b, a);
    assert forall f :: f in a.files + b.files <==> f in b.files + a.files;
    if Mergeable(a, b) {
      SameFilesEitherOrder(a.files, b.files);
      LexTotal(a.releaseDate, b.releaseDate);
      assert a.extras + b.extras == b.extras + a.extras;
    }
  }

  /** Merging a manifest with itself gives it back exactly when no url is repeated. */
  lemma {:induction false} MergeIdempotent(m: Manifest)
    ensures Merge(m, m) == Ok(m) <==> DistinctUrls(m.files)
  {
    MergeMeaning(m, m);
    LexTotal(m.releaseDate, m.releaseDate);
    assert m.extras + m.extras == m.extras;
    FirstOccurrencesFacts(m.files + m.files);
    if DistinctUrls(m.files) {
      DistinctIsFixed(m.files);
      AllRepeated(m.files, m.files);
    }
  }

  lemma {:induction false} AllRepeated(a: seq<File>, b: seq<File>)
    requires forall f :: f in b ==> f in a
    ensures FirstOccurrences(a + b) == FirstOccurrences(a)
  {
    if b == [] {
      assert a + b == a;
    } else {
      var front, last := b[..|b| - 1], b[|b| - 1];
      AllRepeated(a, front);
      assert (a + b)[..|a + b| - 1] == a + front;
      assert last in b;
      var i :| 0 <= i < |a| && a[i] == last;
      assert (a + front)[i].url == last.url;
    }
  }

  /** A merge has each url of its inputs once, every entry coming from an input. */
  lemma {:induction false} MergedFiles(a: Manifest, b: Manifest)
    requires Merge(a, b).Ok?
    ensures var files := Merge(a, b).value.files;
            && DistinctUrls(files)
            && forall f :: f in files <==> f in a.files || f in b.files
  {
    MergeMeaning(a, b);
    FirstOccurrencesFacts(a.files + b.files);
    SameMembers(a.files + b.files);
  }

  /** What two well-formed manifests merge to can be printed and parsed back. */
  lemma {:induction false} MergedRoundTrip(a: Manifest, b: Manifest)
    requires WellFormed(a) && WellFormed(b) && Merge(a, b).Ok?
    ensures Parse(Serialize(Merge(a, b).value)) == Ok(Merge(a, b).value)
  {
    hide BareText, Positional, ExtraKey, Parse, Serialize;
    var m := Merge(a, b).value;
    MergeMeaning(a, b);
    MergedFiles(a, b);
    hide Merge, Mergeable, FirstOccurrences;
    assert a.files[0] in m.files;
    forall i | 0 <= i < |m.files|
      ensures BareText(m.files[i].url) && BareText(m.files[i].sha512) && Positional(Decimal(m.files[i].size, 0))
    {
      assert m.files[i] in m.files;
    }
    RoundTrip(m);
  }
}
