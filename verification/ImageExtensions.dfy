/** The file-extension choice of `ch3/apps/server/src/imageMime.ts`. */
module ImageExtensions {
  import opened Outcomes
  import opened Text

  const EXTENSION_BY_MIME_TYPE: map<string, string> := map[
    "image/avif" := ".avif",
    "image/bmp" := ".bmp",
    "image/gif" := ".gif",
    "image/heic" := ".heic",
    "image/heif" := ".heif",
    "image/jpeg" := ".jpg",
    "image/jpg" := ".jpg",
    "image/png" := ".png",
    "image/svg+xml" := ".svg",
    "image/tiff" := ".tiff",
    "image/webp" := ".webp"
  ]

  const SAFE_EXTENSIONS: set<string> := {
    ".avif", ".bmp", ".gif", ".heic", ".heif", ".ico", ".jpeg", ".jpg", ".png", ".svg", ".tiff", ".webp"
  }

  predicate IsAlphanumeric(c: char) {
    IsLetter(c) || IsDigit(c)
  }

  predicate IsExtension(tail: string) {
    1 <= |tail| <= 8 && forall i :: 0 <= i < |tail| ==> IsAlphanumeric(tail[i])
  }

  /** A final dot with one to eight letters or digits after it, in lower case. */
  function FileNameExtension(fileName: string): string {
    match LastIndexOf(fileName, '.')
    case None => ""
    case Some(dot) =>
      if IsExtension(fileName[dot + 1..]) then Lower(fileName[dot..]) else ""
  }

  lemma {:induction false} LowerDot(tail: string)
    ensures Lower("." + tail) == "." + Lower(tail)
  {
    assert forall i :: 0 <= i < |tail| ==> ("." + tail)[i + 1] == tail[i];
  }

  /** The part after the last dot decides, whatever precedes it. */
  lemma {:induction false} FileNameExtensionMeaning(stem: string, tail: string)
    requires '.' !in tail
    ensures FileNameExtension(stem + "." + tail) ==
            if IsExtension(tail) then "." + Lower(tail) else ""
    ensures FileNameExtension(tail) == ""
  {
    hide Lower, LastIndexOf, IsExtension;
    var name := stem + "." + tail;
    assert name[|stem| + 1..] == tail;
    assert name[|stem|..] == "." + tail;
    LastIndexIs(name, '.', |stem|);
    LowerDot(tail);
  }

  /** The extension of an attachment, where `fromMime` is what the MIME library answers for the type. */
  function InferImageExtension(mimeType: string, fromMime: Option<string>,
      fileName: Option<string>): (extension: string)
    ensures extension in SAFE_EXTENSIONS || extension == ".bin"
  {
    var key := Lower(mimeType);
    if key in EXTENSION_BY_MIME_TYPE then EXTENSION_BY_MIME_TYPE[key]
    else if fromMime.Some? && fromMime.value in SAFE_EXTENSIONS then fromMime.value
    else
      var fromName := FileNameExtension(Trim(if fileName.Some? then fileName.value else ""));
      if fromName in SAFE_EXTENSIONS then fromName else ".bin"
  }

  /** Types whose subtype is also the extension. */
  const PLAIN_SUBTYPES: set<string> := {"avif", "bmp", "gif", "heic", "heif", "jpg", "png", "tiff", "webp"}

  /** The extension that a type stands for, in any letter case. */
  predicate StandsFor(mimeType: string, extension: string) {
    var key := Lower(mimeType);
    || (StartsWith(key, "image/") && key[6..] in PLAIN_SUBTYPES && extension == "." + key[6..])
    || (key == "image/jpeg" && extension == ".jpg")
    || (key == "image/svg+xml" && extension == ".svg")
  }

  /** The name, without whitespace around it, ends in a dot and this extension, in any letter case. */
  predicate NameEndsIn(fileName: string, extension: string) {
    var name, n := Trim(fileName), |extension|;
    && 2 <= n <= 9 && n <= |name| && name[|name| - n] == '.' && Lower(name[|name| - n..]) == extension
    && forall i :: |name| - n < i < |name| ==> IsAlphanumeric(name[i])
  }

  lemma {:induction false} TypeKeys(key: string)
    ensures StartsWith(key, "image/") && key[6..] in PLAIN_SUBTYPES ==>
              key in EXTENSION_BY_MIME_TYPE && EXTENSION_BY_MIME_TYPE[key] == "." + key[6..]
    ensures key in EXTENSION_BY_MIME_TYPE && key != "image/jpeg" && key != "image/svg+xml" ==>
              StartsWith(key, "image/") && key[6..] in PLAIN_SUBTYPES
  {
    if StartsWith(key, "image/") {
      assert key == "image/" + key[6..];
      assert "image/" + "avif" == "image/avif" && "image/" + "bmp" == "image/bmp" && "image/" + "gif" == "image/gif";
      assert "image/" + "heic" == "image/heic" && "image/" + "heif" == "image/heif" && "image/" + "jpg" == "image/jpg";
      assert "image/" + "png" == "image/png" && "image/" + "tiff" == "image/tiff" && "image/" + "webp" == "image/webp";
    }
  }

  /** The table holds exactly what the types stand for. */
  lemma {:induction false} KnownTypes(mimeType: string, extension: string)
    ensures StandsFor(mimeType, extension) <==>
            Lower(mimeType) in EXTENSION_BY_MIME_TYPE && EXTENSION_BY_MIME_TYPE[Lower(mimeType)] == extension
  {
    hide Lower, StartsWith;
    var key := Lower(mimeType);
    TypeKeys(key);
    if key == "image/jpeg" || key == "image/svg+xml" {
      assert key[6..] == "jpeg" || key[6..] == "svg+xml";
    }
  }

  lemma {:induction false} EndGives(name: string, dot: nat)
    requires dot < |name| && name[dot] == '.' && 2 <= |name| - dot <= 9
    requires forall i :: dot < i < |name| ==> IsAlphanumeric(name[i])
    ensures FileNameExtension(name) == Lower(name[dot..])
  {
    hide IsAlphanumeric, Lower;
    var tail := name[dot + 1..];
    assert IsExtension(tail);
    DotIsNone();
    assert name == name[..dot] + "." + tail && name[dot..] == "." + tail;
    FileNameExtensionMeaning(name[..dot], tail);
    LowerDot(tail);
  }

  lemma {:induction false} DotIsNone()
    ensures !IsAlphanumeric('.')
  {
  }

  lemma {:induction false} GivesEnd(name: string) returns (dot: nat)
    requires FileNameExtension(name) != ""
    ensures dot < |name| && name[dot] == '.' && 2 <= |name| - dot <= 9 && FileNameExtension(name) == Lower(name[dot..])
    ensures forall i :: dot < i < |name| ==> IsAlphanumeric(name[i])
  {
    hide IsAlphanumeric, Lower;
    dot := LastIndexOf(name, '.').value;
    var tail := name[dot + 1..];
    forall i | dot < i < |name|
      ensures IsAlphanumeric(name[i])
    {
      assert tail[i - dot - 1] == name[i];
    }
  }

  lemma {:induction false} NamesEnd(fileName: string, extension: string)
    requires extension != ""
    ensures NameEndsIn(fileName, extension) <==> FileNameExtension(Trim(fileName)) == extension
  {
    hide Trim, FileNameExtension, IsAlphanumeric;
    var name := Trim(fileName);
    if NameEndsIn(fileName, extension) {
      EndGives(name, |name| - |extension|);
    }
    if FileNameExtension(name) == extension {
      var dot := GivesEnd(name);
      assert |name| - |extension| == dot;
    }
  }

  /** The extensions of the known types, and three more. */
  predicate IsSafe(extension: string) {
    StartsWith(extension, ".") &&
    (extension[1..] in PLAIN_SUBTYPES || extension == ".ico" || extension == ".jpeg" || extension == ".svg")
  }

  lemma {:induction false} SafeMeaning(extension: string)
    ensures IsSafe(extension) <==> extension in SAFE_EXTENSIONS
  {
    if StartsWith(extension, ".") {
      assert extension == "." + extension[1..];
      assert "." + "avif" == ".avif" && "." + "bmp" == ".bmp" && "." + "gif" == ".gif" && "." + "heic" == ".heic";
      assert "." + "heif" == ".heif" && "." + "jpg" == ".jpg" && "." + "png" == ".png" && "." + "tiff" == ".tiff";
      assert "." + "webp" == ".webp";
    }
    if extension in SAFE_EXTENSIONS {
      assert extension[1..] in PLAIN_SUBTYPES + {"ico", "jpeg", "svg"};
    }
  }

  /** What the file name gives, if it is a safe extension. */
  ghost predicate NameGives(fileName: Option<string>, extension: string) {
    fileName.Some? && NameEndsIn(fileName.value, extension) && IsSafe(extension)
  }

  lemma {:induction false} NothingUnnamed(extension: string)
    requires extension in SAFE_EXTENSIONS
    ensures extension != "" && FileNameExtension(Trim("")) != extension
  {
  }

  /** The type decides first, then the library's answer, then the file name, and `.bin` is left for the rest. */
  lemma {:induction false} InferenceMeaning(mimeType: string, fromMime: Option<string>, fileName: Option<string>)
    ensures var extension := InferImageExtension(mimeType, fromMime, fileName);
            if exists x :: StandsFor(mimeType, x) then StandsFor(mimeType, extension)
            else if fromMime.Some? && IsSafe(fromMime.value) then extension == fromMime.value
            else if exists x :: NameGives(fileName, x) then NameGives(fileName, extension)
            else extension == ".bin"
  {
    hide Lower, Trim, FileNameExtension, NameEndsIn, StandsFor, IsSafe;
    forall x
      ensures IsSafe(x) <==> x in SAFE_EXTENSIONS
    {
      SafeMeaning(x);
    }
    forall x
      ensures StandsFor(mimeType, x) <==>
              Lower(mimeType) in EXTENSION_BY_MIME_TYPE && EXTENSION_BY_MIME_TYPE[Lower(mimeType)] == x
    {
      KnownTypes(mimeType, x);
    }
    var name := if fileName.Some? then fileName.value else "";
    forall x | x in SAFE_EXTENSIONS
      ensures NameGives(fileName, x) <==> FileNameExtension(Trim(name)) == x
    {
      NothingUnnamed(x);
      NamesEnd(name, x);
    }
  }
}
