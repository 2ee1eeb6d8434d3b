/** The loops of `ch3/scripts/lib/update-manifest.ts`, proved against the functions of `UpdateManifest`. */
module ManifestLoops {
  import opened Outcomes
  import opened Text
  import opened UpdateManifest

  /** `parseUpdateManifest`: one pass over the lines, updating the reader's variables. */
  method ParseUpdateManifest(raw: string) returns (r: Result<Manifest, ParseError>)
    ensures r == Parse(raw)
  {
    var lines := SplitLines(raw);
    ghost var kinds := ClassifyAll(lines);
    var files: seq<File> := [];
    var extras: map<string, Scalar> := map[];
    var version: Option<string>, releaseDate: Option<string> := None, None;
    var inFiles := false;
    var current: Option<Draft> := None;
    var index := 0;
    while index < |lines|
      decreases |lines| - index
      invariant 0 <= index <= |lines|
      invariant Run(INITIAL_STATE, 0, kinds) ==
                Run(ParseState(files, extras, version, releaseDate, inFiles, current), index, kinds[index..])
    {
      assert kinds[index..][0] == kinds[index] && kinds[index..][1..] == kinds[index + 1..];
      var kind := Classify(lines[index]);
      index := index + 1;
      if kind.Blank? {
        continue;
      }
      if kind.UrlLine? {
        var finalized := Finalize(files, current, index);
        if finalized.Err? {
          return Err(finalized.error);
        }
        files, current, inFiles := finalized.value, Some(Draft(kind.url, None, None)), true;
        continue;
      }
      if kind.Sha512Line? {
        if current.None? {
          return Err(Sha512WithoutFile(index));
        }
        current := Some(current.value.(sha512 := Some(kind.sha512)));
        continue;
      }
      if kind.SizeLine? {
        if current.None? {
          return Err(SizeWithoutFile(index));
        }
        current := Some(current.value.(size := Some(kind.size)));
        continue;
      }
      if kind.FilesHeader? {
        inFiles := true;
        continue;
      }
      if inFiles && current.Some? {
        var finalized := Finalize(files, current, index);
        if finalized.Err? {
          return Err(finalized.error);
        }
        files, current := finalized.value, None;
      }
      inFiles := false;
      if kind.Unsupported? {
        return Err(UnsupportedLine(index));
      }
      if kind.key == "version" {
        if !kind.value.Str? {
          return Err(VersionNotString(index));
        }
        version := Some(kind.value.text);
      } else if kind.key == "releaseDate" {
        if !kind.value.Str? {
          return Err(ReleaseDateNotString(index));
        }
        releaseDate := Some(kind.value.text);
      } else if kind.key != "path" && kind.key != "sha512" {
        extras := extras[kind.key := kind.value];
      }
    }
    assert kinds[index..] == [];
    r := Finish(ParseState(files, extras, version, releaseDate, inFiles, current), |lines|);
  }

  /** `mergeExtras`: the entries of `secondary` are added one by one, in any order. */
  method MergeExtras(primary: map<string, Scalar>, secondary: map<string, Scalar>)
    returns (r: Result<map<string, Scalar>, MergeError>)
    ensures r == if ExtrasAgree(primary, secondary) then Ok(primary + secondary) else Err(ConflictingExtra)
  {
    var merged := primary;
    var left := secondary.Keys;
    while left != {}
      invariant left <= secondary.Keys
      invariant forall k :: k in secondary && k !in left && k in primary ==> primary[k] == secondary[k]
      invariant merged.Keys == primary.Keys + (secondary.Keys - left)
      invariant forall k :: k in merged ==>
                  merged[k] == if k in secondary && k !in left then secondary[k] else primary[k]
      decreases |left|
    {
      var key :| key in left;
      if key in merged && merged[key] != secondary[key] {
        return Err(ConflictingExtra);
      }
      merged := merged[key := secondary[key]];
      left := left - {key};
    }
    assert merged == primary + secondary;
    r := Ok(merged);
  }

  /** `mergeUpdateManifests`: the file map keeps insertion order. */
  method MergeUpdateManifests(primary: Manifest, secondary: Manifest) returns (r: Result<Manifest, MergeError>)
    ensures r == Merge(primary, secondary)
  {
    if primary.version != secondary.version {
      return Err(DifferentVersions);
    }
    var all := primary.files + secondary.files;
    var filesByUrl: seq<File> := [];
    var index := 0;
    while index < |all|
      invariant 0 <= index <= |all|
      invariant AddFiles([], all) == AddFiles(filesByUrl, all[index..])
    {
      var file := all[index];
      assert all[index..][0] == file && all[index..][1..] == all[index + 1..];
      var existing := UrlIndex(filesByUrl, file.url);
      if existing.None? {
        filesByUrl := filesByUrl + [file];
      } else {
        var found := filesByUrl[existing.value];
        if found.sha512 != file.sha512 || found.size != file.size {
          return Err(ConflictingFile(file.url));
        }
        filesByUrl := filesByUrl[existing.value := file];
      }
      index := index + 1;
    }
    assert all[index..] == [];
    var extras := MergeExtras(primary.extras, secondary.extras);
    if extras.Err? {
      return Err(extras.error);
    }
    r := Ok(Manifest(primary.version, LaterDate(primary.releaseDate, secondary.releaseDate), filesByUrl, extras.value));
  }

  lemma {:induction false} FileLinesStep(files: seq<File>, i: nat)
    requires i < |files|
    ensures FileLines(files[i..]) == OneFileLines(files[i]) + FileLines(files[i + 1..])
  {
    assert files[i..][1..] == files[i + 1..];
  }

  lemma {:induction false} NoFileLines()
    ensures FileLines([]) == []
  {
  }

  method PushFileLines(lines: seq<string>, files: seq<File>) returns (pushed: seq<string>)
    ensures pushed == lines + FileLines(files)
  {
    hide FileLines, OneFileLines;
    pushed := lines;
    assert files[0..] == files;
    var i := 0;
    while i < |files|
      invariant 0 <= i <= |files|
      invariant pushed + FileLines(files[i..]) == lines + FileLines(files)
    {
      FileLinesStep(files, i);
      pushed := pushed + OneFileLines(files[i]);
      i := i + 1;
    }
    assert files[i..] == [] && pushed + [] == pushed;
    NoFileLines();
  }

  lemma {:induction false} ExtraLinesStep(extras: map<string, Scalar>, keys: seq<string>, i: nat)
    requires i < |keys| && forall k :: k in keys ==> k in extras
    ensures ExtraLines(extras, keys[i..]) == [EntryLine(keys[i], extras[keys[i]])] + ExtraLines(extras, keys[i + 1..])
  {
    hide EntryLine;
    assert keys[i..][1..] == keys[i + 1..];
  }

  lemma {:induction false} NoExtraLines(extras: map<string, Scalar>)
    ensures ExtraLines(extras, []) == []
  {
  }

  method PushExtraLines(lines: seq<string>, extras: map<string, Scalar>) returns (pushed: seq<string>)
    ensures pushed == lines + ExtraLines(extras, SortedKeys(extras.Keys))
  {
    hide EntryLine, ExtraLines, SortedKeys;
    pushed := lines;
    var keys := SortedKeys(extras.Keys);
    assert keys[0..] == keys;
    var i := 0;
    while i < |keys|
      invariant 0 <= i <= |keys|
      invariant pushed + ExtraLines(extras, keys[i..]) == lines + ExtraLines(extras, keys)
    {
      ExtraLinesStep(extras, keys, i);
      pushed := pushed + [EntryLine(keys[i], extras[keys[i]])];
      i := i + 1;
    }
    NoExtraLines(extras);
  }

  /** `serializeUpdateManifest`: the lines are pushed one by one. */
  method SerializeUpdateManifest(m: Manifest) returns (text: string)
    ensures text == Serialize(m)
  {
    hide EntryLine, FileLines, ExtraLines, SortedKeys, Join;
    var head := [EntryLine("version", Str(m.version)), "files:"];
    var withFiles := PushFileLines(head, m.files);
    var withExtras := PushExtraLines(withFiles, m.extras);
    var lines := withExtras + [EntryLine("releaseDate", Str(m.releaseDate)), ""];
    assert lines == ManifestLines(m);
    text := Join(lines, "\n");
  }
}
