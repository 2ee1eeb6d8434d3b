/** What `serializeUpdateManifest` prints, line by line. */
module ManifestPrinting {
  import opened Text
  import opened UpdateManifest

  /** Version, file list, extras in ascending order of their keys, release date and an empty line. */
  predicate IsListing(m: Manifest, keys: seq<string>, lines: seq<string>) {
    var files, extras := |m.files|, |keys|;
    && |lines| == 4 + 3 * files + extras
    && lines[0] == "version: " + QuoteYamlString(m.version) && lines[1] == "files:"
    && HasFileLines(m.files, 2, lines)
    && Ascending(keys) && (set k | k in keys) == m.extras.Keys && HasExtraLines(m.extras, keys, 2 + 3 * files, lines)
    && lines[2 + 3 * files + extras] == "releaseDate: " + QuoteYamlString(m.releaseDate)
    && lines[3 + 3 * files + extras] == ""
  }

  lemma {:induction false} FileLinesAt(files: seq<File>)
    ensures |FileLines(files)| == 3 * |files|
    ensures forall i :: 0 <= i < |files| ==>
              && FileLines(files)[3 * i] == "  - url: " + files[i].url
              && FileLines(files)[3 * i + 1] == "    sha512: " + files[i].sha512
              && FileLines(files)[3 * i + 2] == "    size: " + SizeText(files[i].size)
  {
    hide SizeText;
    if files != [] {
      FileLinesAt(files[1..]);
      OneFileText(files[0]);
      hide FileLines, OneFileLines;
      var one, rest := OneFileLines(files[0]), FileLines(files[1..]);
      FileLinesCons(files);
      forall i | 0 <= i < |files|
        ensures FileLines(files)[3 * i] == "  - url: " + files[i].url
        ensures FileLines(files)[3 * i + 1] == "    sha512: " + files[i].sha512
        ensures FileLines(files)[3 * i + 2] == "    size: " + SizeText(files[i].size)
      {
        if i > 0 {
          assert files[i] == files[1..][i - 1];
          assert (one + rest)[3 * i] == rest[3 * (i - 1)];
          assert (one + rest)[3 * i + 1] == rest[3 * (i - 1) + 1];
          assert (one + rest)[3 * i + 2] == rest[3 * (i - 1) + 2];
        }
      }
    }
  }

  lemma {:induction false} FileLinesCons(files: seq<File>)
    requires files != []
    ensures FileLines(files) == OneFileLines(files[0]) + FileLines(files[1..])
  {
  }

  lemma {:induction false} OneFileText(f: File)
    ensures OneFileLines(f) == ["  - url: " + f.url, "    sha512: " + f.sha512, "    size: " + SizeText(f.size)]
  {
    assert URL_PREFIX + " " == "  - url: " && SHA512_PREFIX + " " == "    sha512: ";
    assert SIZE_PREFIX + " " == "    size: ";
  }

  lemma {:induction false} ExtraLinesAt(extras: map<string, Scalar>, keys: seq<string>)
    requires forall k :: k in keys ==> k in extras
    ensures |ExtraLines(extras, keys)| == |keys|
    ensures forall j :: 0 <= j < |keys| ==>
              ExtraLines(extras, keys)[j] == keys[j] + ": " + SerializeScalarValue(extras[keys[j]])
  {
    hide SerializeScalarValue;
    if keys != [] {
      ExtraLinesAt(extras, keys[1..]);
    }
  }

  /** The three lines of each file, from position `at` on. */
  predicate HasFileLines(files: seq<File>, at: nat, lines: seq<string>) {
    && at + 3 * |files| <= |lines|
    && forall i :: 0 <= i < |files| ==>
         && lines[at + 3 * i] == "  - url: " + files[i].url
         && lines[at + 3 * i + 1] == "    sha512: " + files[i].sha512
         && lines[at + 3 * i + 2] == "    size: " + SizeText(files[i].size)
  }

  lemma {:induction false} FileLinesWithin(files: seq<File>, head: seq<string>, rest: seq<string>)
    ensures HasFileLines(files, |head|, head + FileLines(files) + rest)
  {
    hide SizeText, FileLines;
    FileLinesAt(files);
    var all := head + FileLines(files) + rest;
    forall i | 0 <= i < |files|
      ensures all[|head| + 3 * i] == FileLines(files)[3 * i]
      ensures all[|head| + 3 * i + 1] == FileLines(files)[3 * i + 1]
      ensures all[|head| + 3 * i + 2] == FileLines(files)[3 * i + 2]
    {
    }
  }

  /** One line for each key, from position `at` on. */
  predicate HasExtraLines(extras: map<string, Scalar>, keys: seq<string>, at: nat, lines: seq<string>) {
    && at + |keys| <= |lines|
    && forall j :: 0 <= j < |keys| ==>
         keys[j] in extras && lines[at + j] == keys[j] + ": " + SerializeScalarValue(extras[keys[j]])
  }

  lemma {:induction false} ExtraLinesWithin(extras: map<string, Scalar>, keys: seq<string>, head: seq<string>,
      rest: seq<string>)
    requires forall k :: k in keys ==> k in extras
    ensures HasExtraLines(extras, keys, |head|, head + ExtraLines(extras, keys) + rest)
  {
    hide SerializeScalarValue, ExtraLines;
    ExtraLinesAt(extras, keys);
  }

  lemma {:induction false} LineCount(m: Manifest)
    ensures var keys := SortedKeys(m.extras.Keys);
            |FileLines(m.files)| == 3 * |m.files| && |ExtraLines(m.extras, keys)| == |keys|
  {
    FileLinesAt(m.files);
    ExtraLinesAt(m.extras, SortedKeys(m.extras.Keys));
  }

  lemma {:induction false} ListingOf(m: Manifest, keys: seq<string>)
    requires keys == SortedKeys(m.extras.Keys)
    ensures IsListing(m, keys, ManifestLines(m))
  {
    hide FileLines, ExtraLines, SortedKeys, HasFileLines, HasExtraLines, Ascending, EntryLine, QuoteYamlString;
    var files, extras := FileLines(m.files), ExtraLines(m.extras, keys);
    LineCount(m);
    SortedKeysAscend(m.extras.Keys);
    TextLine("version", m.version);
    TextLine("releaseDate", m.releaseDate);
    var head := [EntryLine("version", Str(m.version)), "files:"];
    var tail := [EntryLine("releaseDate", Str(m.releaseDate)), ""];
    FileLinesWithin(m.files, head, extras + tail);
    ExtraLinesWithin(m.extras, keys, head + files, tail);
    var lines := ManifestLines(m);
    assert lines == head + files + (extras + tail) && lines == head + files + extras + tail;
  }

  /** What is printed, line by line. */
  lemma {:induction false} PrintedInOrder(m: Manifest)
    ensures exists keys, lines :: IsListing(m, keys, lines) && Serialize(m) == Join(lines, "\n")
  {
    hide IsListing, ManifestLines, Join;
    ListingOf(m, SortedKeys(m.extras.Keys));
  }

  lemma {:induction false} TextLine(key: string, text: string)
    ensures EntryLine(key, Str(text)) == key + ": " + QuoteYamlString(text)
  {
  }
}
