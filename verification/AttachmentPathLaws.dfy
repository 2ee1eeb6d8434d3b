/** Normalising a path changes how it is written and not where it leads. */
module AttachmentPathLaws {
  import opened Outcomes
  import opened Text
  import opened AttachmentPaths

  /** A place is the list of directories from the root to it. */
  function Move(place: seq<string>, part: string): seq<string> {
    if part == "" || part == "." then place
    else if part == ".." then (if place == [] then [] else place[..|place| - 1])
    else place + [part]
  }

  function Walk(place: seq<string>, parts: seq<string>): seq<string> {
    if parts == [] then place else Move(Walk(place, parts[..|parts| - 1]), parts[|parts| - 1])
  }

  /** Where a path leads, seen from a place. */
  function Place(from: seq<string>, path: string): seq<string> {
    Walk(if path != "" && path[0] == '/' then [] else from, Split(path, '/'))
  }

  /** No empty components or dots, and `..` only at the start, if at all. */
  predicate NormalParts(parts: seq<string>, allowAboveRoot: bool) {
    && (forall i :: 0 <= i < |parts| ==> parts[i] != "" && parts[i] != "." && '/' !in parts[i])
    && (forall i :: 0 <= i < |parts| && parts[i] == ".." ==>
          allowAboveRoot && forall j :: 0 <= j < i ==> parts[j] == "..")
  }

  lemma {:induction false} WalkStep(place: seq<string>, parts: seq<string>, part: string)
    ensures Walk(place, parts + [part]) == Move(Walk(place, parts), part)
  {
    assert (parts + [part])[..|parts|] == parts;
  }

  lemma {:induction false} EnterMoves(place: seq<string>, done: seq<string>, part: string, above: bool)
    requires NormalParts(done, above) && '/' !in part && (above || place == [])
    ensures NormalParts(Enter(done, part, above), above)
    ensures Walk(place, Enter(done, part, above)) == Move(Walk(place, done), part)
  {
    WalkStep(place, done, part);
    if part == ".." && done != [] && done[|done| - 1] != ".." {
      var front, last := done[..|done| - 1], done[|done| - 1];
      assert done == front + [last];
      WalkStep(place, front, last);
      var there := Walk(place, front);
      assert (there + [last])[..|there|] == there;
    }
  }

  /** Taking the components one by one leads where they lead, and leaves a normal form. */
  lemma {:induction false} EnterAllMeaning(place: seq<string>, parts: seq<string>, above: bool)
    requires (forall i :: 0 <= i < |parts| ==> '/' !in parts[i]) && (above || place == [])
    ensures NormalParts(EnterAll(parts, above), above)
    ensures Walk(place, EnterAll(parts, above)) == Walk(place, parts)
    decreases |parts|
  {
    hide NormalParts, Enter, Move;
    if parts == [] {
      NothingEntered(above);
    } else {
      var front := parts[..|parts| - 1];
      EnterAllMeaning(place, front, above);
      EnterMoves(place, EnterAll(front, above), parts[|parts| - 1], above);
    }
  }

  lemma {:induction false} NothingEntered(above: bool)
    ensures NormalParts([], above) && EnterAll([], above) == []
  {
  }

  /** Empty components at either end make no difference. */
  lemma {:induction false} WalkEnds(place: seq<string>, parts: seq<string>)
    ensures Walk(place, parts + [""]) == Walk(place, parts) && Walk(place, [""] + parts) == Walk(place, parts)
    decreases |parts|
  {
    WalkStep(place, parts, "");
    if parts == [] {
      assert [""] + parts == [] + [""];
      WalkStep(place, [], "");
    } else {
      var front, last := parts[..|parts| - 1], parts[|parts| - 1];
      WalkEnds(place, front);
      assert [""] + parts == ([""] + front) + [last] && parts == front + [last];
      WalkStep(place, [""] + front, last);
      WalkStep(place, front, last);
    }
  }

  lemma {:induction false} SplitEnds(s: string)
    requires s != ""
    ensures Split(s + "/", '/') == Split(s, '/') + [""]
    ensures Split("/" + s, '/') == [""] + Split(s, '/')
  {
    SplitAtSeparator("", s, '/');
    assert "" + ['/'] + s == "/" + s;
    SplitAppended(s);
  }

  lemma {:induction false} SplitAppended(s: string)
    ensures Split(s + "/", '/') == Split(s, '/') + [""]
  {
    if s == "" {
      assert "/"[1..] == "" && s + "/" == "/";
      assert Split("/", '/') == [""] + Split("", '/');
    } else {
      SplitAppended(s[1..]);
      assert (s + "/")[1..] == s[1..] + "/";
      var rest := Split(s[1..], '/');
      assert (rest + [""])[1..] == rest[1..] + [""];
    }
  }

  lemma {:induction false} SplitOfParts(parts: seq<string>)
    requires parts != [] && forall i :: 0 <= i < |parts| ==> '/' !in parts[i]
    ensures Split(Join(parts, "/"), '/') == parts
  {
    SplitJoin(parts, '/');
  }

  lemma {:induction false} JoinedStart(parts: seq<string>, above: bool)
    requires NormalParts(parts, above)
    ensures Join(parts, "/") == "" <==> parts == []
    ensures parts != [] ==> Join(parts, "/") != "" && Join(parts, "/")[0] == parts[0][0] != '/'
  {
    if |parts| > 1 {
      assert parts[0] != "";
    }
  }

  /** From any place, the normalised path leads where the path leads. */
  lemma {:induction false} NormalizeMeaning(from: seq<string>, path: string)
    ensures Place(from, NormalizePosix(path)) == Place(from, path)
  {
    hide Split, Walk, EnterAll, NormalParts;
    if path == "" {
      EmptyAndDot(from);
    } else {
      var absolute, trailing := path[0] == '/', path[|path| - 1] == '/';
      var place := if absolute then [] else from;
      var parts := Split(path, '/');
      JoinSplit(path, '/');
      EnterAllMeaning(place, parts, !absolute);
      var done := EnterAll(parts, !absolute);
      JoinedStart(done, !absolute);
      if done == [] {
        EmptyAndDot(from);
        EmptyAndDot(place);
      } else {
        WrittenPlace(place, done, absolute, trailing);
      }
    }
  }

  /** The normal components joined by slashes, with a slash in front and behind where the path has one. */
  predicate IsWritten(path: string, parts: seq<string>, normal: string) {
    var absolute, trailing := path != "" && path[0] == '/', path != "" && path[|path| - 1] == '/';
    && NormalParts(parts, !absolute)
    && normal == if parts == [] then if absolute then "/" else if trailing then "./" else "."
                 else (if absolute then "/" else "") + Join(parts, "/") + (if trailing then "/" else "")
  }

  /** What normalising writes has no empty component and no dot, and goes up only at the start. */
  lemma {:induction false} NormalizeShape(path: string)
    ensures exists parts :: IsWritten(path, parts, NormalizePosix(path))
  {
    hide Split, Walk, EnterAll, NormalParts, Join;
    if path == "" {
      NothingEntered(true);
      assert IsWritten(path, [], NormalizePosix(path));
    } else {
      var absolute := path[0] == '/';
      JoinSplit(path, '/');
      EnterAllMeaning([], Split(path, '/'), !absolute);
      var parts := EnterAll(Split(path, '/'), !absolute);
      JoinedStart(parts, !absolute);
      assert IsWritten(path, parts, NormalizePosix(path));
    }
  }

  lemma {:induction false} EmptyAndDot(from: seq<string>)
    ensures Place(from, "") == from && Place(from, ".") == from && Place(from, "./") == from && Place(from, "/") == []
    ensures Walk(from, []) == from
  {
    hide Walk, Split, Move;
    WalkFew(from);
    SplitNoSeparator("", '/');
    SplitNoSeparator(".", '/');
    SplitEnds(".");
    SplitAppended("");
    assert "." + "/" == "./" && "" + "/" == "/" && ["."] + [""] == [".", ""] && [""] + [""] == ["", ""];
    WalkFew([]);
  }

  lemma {:induction false} WalkFew(from: seq<string>)
    ensures Walk(from, []) == from && Walk(from, [""]) == from && Walk(from, ["."]) == from
    ensures Walk(from, [".", ""]) == from && Walk(from, ["", ""]) == from
  {
    WalkStep(from, [], "");
    WalkStep(from, [], ".");
    WalkStep(from, ["."], "");
    WalkStep(from, [""], "");
    assert [] + [""] == [""] && [] + ["."] == ["."] && ["."] + [""] == [".", ""] && [""] + [""] == ["", ""];
  }

  lemma {:induction false} WrittenPlace(place: seq<string>, parts: seq<string>, absolute: bool, trailing: bool)
    requires parts != [] && NormalParts(parts, !absolute) && (absolute ==> place == [])
    ensures var path := (if absolute then "/" else "") + Join(parts, "/") + (if trailing then "/" else "");
            Place(place, path) == Walk(place, parts)
  {
    hide Split, Walk, Join;
    var inner := Join(parts, "/");
    var front := (if absolute then "/" else "") + inner;
    JoinedStart(parts, !absolute);
    SplitOfParts(parts);
    SplitEnds(inner);
    SplitEnds(front);
    WalkEnds(place, parts);
    WalkEnds(place, [""] + parts);
    assert "" + inner == inner && front + "" == front;
    hide NormalParts;
    var split := if absolute then [""] + parts else parts;
    assert Split(front, '/') == split;
  }

  // ----- Which paths are let through -----

  predicate AllSlashes(s: string) {
    forall i :: 0 <= i < |s| ==> s[i] == '/' || s[i] == '\\'
  }

  /** `core` is `s` without the slashes and backslashes in front. */
  predicate IsStripped(s: string, lead: string, core: string) {
    s == lead + core && AllSlashes(lead) && (core != "" ==> core[0] != '/' && core[0] != '\\')
  }

  lemma {:induction false} StripMeaning(s: string, lead: string, core: string)
    requires IsStripped(s, lead, core)
    ensures StripSlashes(s) == core
  {
    if lead == [] {
      assert s == core;
    } else {
      StripMeaning(s[1..], lead[1..], core);
    }
  }

  lemma {:induction false} StripSplits(s: string) returns (lead: string)
    ensures IsStripped(s, lead, StripSlashes(s))
  {
    if s != [] && (s[0] == '/' || s[0] == '\\') {
      var rest := StripSplits(s[1..]);
      lead := [s[0]] + rest;
      assert s == [s[0]] + s[1..];
    } else {
      lead := [];
    }
  }

  /** Let through is what is left of the normal form, if anything, unless it goes up or holds a NUL. */
  predicate LetsThrough(raw: string, lead: string, core: string, r: string) {
    && IsStripped(NormalizePosix(raw), lead, core)
    && core != "" && !StartsWith(core, "..") && '\0' !in core
    && |r| == |core| && forall i :: 0 <= i < |r| ==> r[i] == if core[i] == '\\' then '/' else core[i]
  }

  lemma {:induction false} AcceptedPaths(raw: string, r: string)
    ensures NormalizeAttachmentRelativePath(raw) == Some(r) <==> exists lead, core :: LetsThrough(raw, lead, core, r)
  {
    hide NormalizePosix, StripSlashes, IsStripped, StartsWith;
    var normal := NormalizePosix(raw);
    var start := StripSplits(normal);
    var stripped := StripSlashes(normal);
    if NormalizeAttachmentRelativePath(raw) == Some(r) {
      assert LetsThrough(raw, start, stripped, r);
    }
    if lead, core :| LetsThrough(raw, lead, core, r) {
      StripMeaning(normal, lead, core);
      assert r == ForwardSlashes(core);
    }
  }
}
