/** The path normalisation of `ch3/apps/server/src/attachmentPaths.ts`, on a POSIX system. */
module AttachmentPaths {
  import opened Outcomes
  import opened Text

  /** One component of a path: `.` and empty ones vanish, `..` takes back the component before. */
  function Enter(done: seq<string>, part: string, allowAboveRoot: bool): seq<string> {
    if part == "" || part == "." then done
    else if part != ".." then done + [part]
    else if done != [] && done[|done| - 1] != ".." then done[..|done| - 1]
    else if allowAboveRoot then done + [part]
    else done
  }

  function EnterAll(parts: seq<string>, allowAboveRoot: bool): seq<string> {
    if parts == [] then []
    else Enter(EnterAll(parts[..|parts| - 1], allowAboveRoot), parts[|parts| - 1], allowAboveRoot)
  }

  function NormalizePosix(path: string): string {
    if path == "" then "."
    else
      var absolute, trailing := path[0] == '/', path[|path| - 1] == '/';
      var inner := Join(EnterAll(Split(path, '/'), !absolute), "/");
      if inner == "" then if absolute then "/" else if trailing then "./" else "."
      else (if absolute then "/" else "") + inner + (if trailing then "/" else "")
  }

  function StripSlashes(s: string): string {
    if s != [] && (s[0] == '/' || s[0] == '\\') then StripSlashes(s[1..]) else s
  }

  function ForwardSlashes(s: string): (r: string)
    ensures |r| == |s| && '\\' !in r
    ensures forall i :: 0 <= i < |s| && s[i] != '\\' ==> r[i] == s[i]
    ensures forall i :: 0 <= i < |s| && s[i] == '\\' ==> r[i] == '/'
  {
    seq(|s|, i requires 0 <= i < |s| => if s[i] == '\\' then '/' else s[i])
  }

  function NormalizeAttachmentRelativePath(raw: string): Option<string> {
    var normalized := StripSlashes(NormalizePosix(raw));
    if normalized == "" || StartsWith(normalized, "..") || '\0' in normalized then None
    else Some(ForwardSlashes(normalized))
  }

  /** A file name of one component. */
  predicate PlainName(s: string) {
    s != "" && !StartsWith(s, "..") && '/' !in s && '\\' !in s && '\0' !in s
  }

  lemma {:induction false} OneComponent(s: string)
    requires s != "" && s != ".." && '/' !in s
    ensures NormalizePosix(s) == s
  {
    hide Split;
    SplitNoSeparator(s, '/');
    assert [s][..0] == [] && [s][0] == s;
    assert EnterAll([s], true) == Enter([], s, true);
    assert s[0] != '/' && s[|s| - 1] != '/';
  }

  /** Plain names pass unchanged. */
  lemma {:induction false} PlainNameKept(s: string)
    requires PlainName(s)
    ensures NormalizeAttachmentRelativePath(s) == Some(s)
  {
    OneComponent(s);
    assert s != "..";
    assert ForwardSlashes(s) == s;
    hide NormalizePosix, ForwardSlashes;
  }

  lemma {:induction false} OneComponentPrefixed(s: string)
    requires PlainName(s) && s != "."
    ensures NormalizePosix("./" + s) == s && NormalizePosix("/" + s) == "/" + s
  {
    hide Split;
    SplitNoSeparator(s, '/');
    SplitAtSeparator(".", s, '/');
    SplitAtSeparator("", s, '/');
    assert "." + ['/'] + s == "./" + s && "" + ['/'] + s == "/" + s;
    TwoParts(".", s, true);
    TwoParts("", s, false);
    assert s[|s| - 1] != '/' && s != "..";
    assert ("./" + s)[|s| + 1] == s[|s| - 1] && ("/" + s)[|s|] == s[|s| - 1];
  }

  lemma {:induction false} TwoParts(first: string, second: string, above: bool)
    requires (first == "." || first == "") && second != "" && second != "." && second != ".."
    ensures EnterAll([first] + [second], above) == [second]
  {
    var parts := [first] + [second];
    assert parts[..1] == [first] && [first][..0] == [];
    assert EnterAll([first], above) == Enter([], first, above);
  }

  /** `./` or `/` in front of a plain name is dropped. */
  lemma {:induction false} PlainNamePrefixed(s: string)
    requires PlainName(s) && s != "."
    ensures NormalizeAttachmentRelativePath("./" + s) == Some(s)
    ensures NormalizeAttachmentRelativePath("/" + s) == Some(s)
  {
    OneComponentPrefixed(s);
    hide NormalizePosix;
    assert ("/" + s)[1..] == s;
    assert StripSlashes("/" + s) == StripSlashes(s) == s;
    assert ForwardSlashes(s) == s;
  }

  /** What the normalisation lets through has neither a backslash nor a NUL. */
  lemma {:induction false} NormalizedClean(raw: string)
    ensures var r := NormalizeAttachmentRelativePath(raw);
            r.Some? ==> r.value != "" && '\\' !in r.value && '\0' !in r.value
  {
    var normalized := StripSlashes(NormalizePosix(raw));
    var r := NormalizeAttachmentRelativePath(raw);
    if r.Some? {
      assert forall i :: 0 <= i < |r.value| ==> r.value[i] == normalized[i] || r.value[i] == '/';
    }
  }
}
