/** The base64 data-URL parser of `ch3/apps/server/src/imageMime.ts`. */
module DataUrl {
  import opened Outcomes
  import opened Sequences
  import opened Text

  predicate IsBase64Char(c: char) {
    'a' <= c <= 'z' || 'A' <= c <= 'Z' || '0' <= c <= '9' || c == '+' || c == '/' || c == '='
  }

  predicate IsBase64Whitespace(c: char) {
    c == '\r' || c == '\n' || c == ' '
  }

  datatype Parsed = Parsed(mimeType: string, base64: string)

  // ----- The simple form -----

  predicate AllAllowed(payload: string) {
    forall i :: 0 <= i < |payload| ==> IsBase64Char(payload[i]) || IsBase64Whitespace(payload[i])
  }

  predicate AllWhitespace(s: string) {
    forall i :: 0 <= i < |s| ==> IsBase64Whitespace(s[i])
  }

  /** The payload without carriage returns, line feeds and spaces. */
  function Filtered(payload: string): string {
    if payload == [] then []
    else
      var front, last := payload[..|payload| - 1], payload[|payload| - 1];
      Filtered(front) + if IsBase64Whitespace(last) then [] else [last]
  }

  /** The last `n` characters, and only they, are padding. */
  predicate PaddedBy(s: string, n: nat) {
    && n <= |s|
    && (forall i :: 0 <= i < |s| - n ==> s[i] != '=')
    && (forall i :: |s| - n <= i < |s| ==> s[i] == '=')
  }

  /** Whole groups of four, with at most two padding characters, at the end. */
  predicate WellPadded(s: string) {
    s != [] && |s| % 4 == 0 && (PaddedBy(s, 0) || PaddedBy(s, 1) || PaddedBy(s, 2))
  }

  function NonEmptyTrimmed(parts: seq<string>): seq<string> {
    if parts == [] then []
    else (if Trim(parts[0]) == [] then [] else [Trim(parts[0])]) + NonEmptyTrimmed(parts[1..])
  }

  function IndexOf(s: string, c: char): (r: Option<nat>)
    ensures r.Some? ==> r.value < |s| && s[r.value] == c && c !in s[..r.value]
    ensures r.None? ==> c !in s
  {
    var r := FindIndex(s, x => x == c);
    assert r.Some? ==> forall i :: 0 <= i < r.value ==> s[..r.value][i] != c;
    r
  }

  const SCHEME := "data:"

  /** The mime type that the part between the scheme and the comma declares. */
  function MimeType(header: string): Option<string> {
    var parts := NonEmptyTrimmed(Split(header, ';'));
    if |parts| < 2 || Lower(parts[|parts| - 1]) != "base64" then None else Some(Lower(parts[0]))
  }

  function ParseTrimmed(trimmed: string): Option<Parsed> {
    var comma := IndexOf(trimmed, ',');
    if Lower(First(trimmed, 5)) != SCHEME || comma.None? || comma.value <= 5 then None
    else
      var mimeType := MimeType(trimmed[5..comma.value]);
      var payload := trimmed[comma.value + 1..];
      if mimeType.None? || !AllAllowed(payload) || !WellPadded(Filtered(payload)) then None
      else Some(Parsed(mimeType.value, Filtered(payload)))
  }

  function Parse(dataUrl: string): Option<Parsed> {
    ParseTrimmed(Trim(dataUrl))
  }

  // ----- The code's loops -----

  function Concat(runs: seq<string>): string {
    if runs == [] then [] else Concat(runs[..|runs| - 1]) + runs[|runs| - 1]
  }

  lemma {:induction false} FilteredAppend(a: string, b: string)
    ensures Filtered(a + b) == Filtered(a) + Filtered(b)
  {
    if b == [] {
      assert a + b == a;
    } else {
      assert (a + b)[..|a + b| - 1] == a + b[..|b| - 1];
      FilteredAppend(a, b[..|b| - 1]);
    }
  }

  lemma {:induction false} JoinNothing(runs: seq<string>)
    ensures Join(runs, "") == Concat(runs)
    ensures |runs| == 1 ==> Concat(runs) == runs[0]
  {
    if |runs| == 1 {
      assert runs[..0] == [];
    } else if |runs| > 1 {
      JoinNothing(runs[1..]);
      ConcatFront(runs);
    }
  }

  lemma {:induction false} ConcatFront(runs: seq<string>)
    requires runs != []
    ensures Concat(runs) == runs[0] + Concat(runs[1..])
  {
    if |runs| > 1 {
      ConcatFront(runs[..|runs| - 1]);
      assert runs[..|runs| - 1][1..] == runs[1..][..|runs[1..]| - 1];
    } else {
      assert runs[..0] == [] && runs[1..] == [];
    }
  }

  /** The header loop: trimmed, non-empty parts. */
  method HeaderParts(header: string) returns (headerParts: seq<string>)
    ensures headerParts == NonEmptyTrimmed(Split(header, ';'))
  {
    var parts := Split(header, ';');
    hide Trim, Split, NonEmptyTrimmed;
    headerParts := [];
    var i := 0;
    assert parts[0..] == parts;
    while i < |parts|
      invariant 0 <= i <= |parts|
      invariant NonEmptyTrimmed(parts) == headerParts + NonEmptyTrimmed(parts[i..])
    {
      PartStep(parts, i);
      var partTrimmed := Trim(parts[i]);
      if |partTrimmed| > 0 {
        headerParts := headerParts + [partTrimmed];
      }
      i := i + 1;
    }
    PartStep(parts, i);
  }

  lemma {:induction false} PartStep(parts: seq<string>, i: nat)
    requires i <= |parts|
    ensures i == |parts| ==> NonEmptyTrimmed(parts[i..]) == []
    ensures i < |parts| ==>
              NonEmptyTrimmed(parts[i..]) ==
              (if Trim(parts[i]) == [] then [] else [Trim(parts[i])]) + NonEmptyTrimmed(parts[i + 1..])
  {
    hide Trim;
    if i < |parts| {
      assert parts[i..][1..] == parts[i + 1..];
    }
  }

  /** The payload scan: maximal runs of base64 characters, cut out and joined. */
  method CollectRuns(payload: string) returns (r: Option<string>)
    ensures r == if AllAllowed(payload) then Some(Filtered(payload)) else None
  {
    hide IsBase64Char, IsBase64Whitespace, Filtered, Concat, AllAllowed;
    ScanNothing();
    var runs: seq<string> := [];
    var runStart := -1;
    var index := 0;
    while index < |payload|
      invariant 0 <= index <= |payload|
      invariant -1 <= runStart < index || runStart == -1
      invariant AllAllowed(payload[..index])
      invariant Filtered(payload[..index]) == Concat(runs) + if runStart == -1 then [] else payload[runStart..index]
    {
      var code := payload[index];
      ScanStep(payload, index);
      if IsBase64Char(code) {
        if runStart == -1 {
          runStart := index;
        }
        assert payload[runStart..index + 1] == payload[runStart..index] + [code];
        index := index + 1;
        continue;
      }
      if !IsBase64Whitespace(code) {
        return None;
      }
      if runStart != -1 {
        ConcatPush(runs, payload[runStart..index]);
        runs := runs + [payload[runStart..index]];
        runStart := -1;
      }
      index := index + 1;
    }
    assert payload[..index] == payload;
    assert runStart != -1 ==> payload[runStart..index] == payload[runStart..];
    assert Concat(runs) + [] == Concat(runs);
    if runStart != -1 {
      ConcatPush(runs, payload[runStart..]);
      runs := runs + [payload[runStart..]];
    }
    JoinNothing(runs);
    var base64 := if |runs| == 1 then runs[0] else Join(runs, "");
    return Some(base64);
  }

  lemma {:induction false} ScanNothing()
    ensures Filtered([]) == [] && Concat([]) == [] && AllAllowed([])
  {
  }

  lemma {:induction false} ScanStep(payload: string, index: nat)
    requires index < |payload|
    ensures var c := payload[index];
            && Filtered(payload[..index + 1]) ==
               Filtered(payload[..index]) + (if IsBase64Whitespace(c) then [] else [c])
            && (AllAllowed(payload[..index + 1]) <==>
               AllAllowed(payload[..index]) && (IsBase64Char(c) || IsBase64Whitespace(c)))
            && (AllAllowed(payload) ==> IsBase64Char(c) || IsBase64Whitespace(c))
            && !(IsBase64Char(c) && IsBase64Whitespace(c))
  {
    assert payload[..index + 1][..index] == payload[..index];
    assert payload[..index + 1] == payload[..index] + [payload[index]];
  }

  lemma {:induction false} ConcatPush(runs: seq<string>, run: string)
    ensures Concat(runs + [run]) == Concat(runs) + run
  {
    assert (runs + [run])[..|runs|] == runs;
  }

  /** The padding check: everything from the first `=` on must be `=`, and at most two characters. */
  method CheckPadding(base64: string) returns (ok: bool)
    ensures ok == WellPadded(base64)
  {
    if |base64| == 0 || |base64| % 4 != 0 {
      return false;
    }
    var firstPad := IndexOf(base64, '=');
    if firstPad.None? {
      return true;
    }
    var p := firstPad.value;
    assert forall i :: 0 <= i < p ==> base64[i] == base64[..p][i];
    if |base64| - p > 2 {
      return false;
    }
    var index := p;
    while index < |base64|
      invariant p <= index <= |base64|
      invariant forall i :: p <= i < index ==> base64[i] == '='
    {
      if base64[index] != '=' {
        return false;
      }
      index := index + 1;
    }
    assert PaddedBy(base64, |base64| - p);
    return true;
  }

  method ParseBase64DataUrl(dataUrl: string) returns (r: Option<Parsed>)
    ensures r == Parse(dataUrl)
  {
    hide Lower, Trim, AllAllowed, WellPadded, Filtered;
    var trimmed := Trim(dataUrl);
    if Lower(First(trimmed, 5)) != SCHEME {
      return None;
    }
    var commaIndex := IndexOf(trimmed, ',');
    if commaIndex.None? || commaIndex.value <= 5 {
      return None;
    }
    var headerParts := HeaderParts(trimmed[5..commaIndex.value]);
    if |headerParts| < 2 {
      return None;
    }
    if Lower(headerParts[|headerParts| - 1]) != "base64" {
      return None;
    }
    var payload := trimmed[commaIndex.value + 1..];
    var base64 := CollectRuns(payload);
    if base64.None? {
      return None;
    }
    var padded := CheckPadding(base64.value);
    if !padded {
      return None;
    }
    return Some(Parsed(Lower(headerParts[0]), base64.value));
  }

  // ----- Whitespace in the payload does not matter -----

  predicate AllSpace(s: string) {
    forall i :: 0 <= i < |s| ==> IsSpace(s[i])
  }

  lemma {:induction false} TrimStartOf(u: string, x: string)
    requires !AllSpace(u)
    ensures TrimStart(u + x) == TrimStart(u) + x
    ensures !AllSpace(TrimStart(u))
  {
    assert (u + x)[0] == u[0];
    if IsSpace(u[0]) {
      assert (u + x)[1..] == u[1..] + x;
      assert !AllSpace(u[1..]) by {
        var i :| 0 <= i < |u| && !IsSpace(u[i]);
        assert u[1..][i - 1] == u[i];
      }
      TrimStartOf(u[1..], x);
    }
  }

  lemma {:induction false} TrimEndOf(t: string, x: string)
    ensures AllSpace(x) ==> TrimEnd(t + x) == TrimEnd(t)
    ensures !AllSpace(x) ==> TrimEnd(t + x) == t + TrimEnd(x)
  {
    if x == [] {
      assert t + x == t;
    } else {
      var front := x[..|x| - 1];
      assert (t + x)[..|t + x| - 1] == t + front;
      assert x == front + [x[|x| - 1]];
      TrimEndOf(t, front);
    }
  }

  lemma {:induction false} WhitespaceIsSpace(w: string, v: string)
    requires AllWhitespace(w)
    ensures AllSpace(w + v) <==> AllSpace(v)
    ensures AllSpace(w)
  {
    if AllSpace(w + v) {
      assert forall i :: 0 <= i < |v| ==> v[i] == (w + v)[|w| + i];
    }
  }

  lemma {:induction false} TrimInserted(u: string, w: string, v: string)
    requires !AllSpace(u) && AllWhitespace(w)
    ensures var t := TrimStart(u);
            if AllSpace(v) then Trim(u + w + v) == TrimEnd(t) && Trim(u + v) == TrimEnd(t)
            else Trim(u + w + v) == t + w + TrimEnd(v) && Trim(u + v) == t + TrimEnd(v)
  {
    var t := TrimStart(u);
    assert u + w + v == u + (w + v);
    TrimStartOf(u, w + v);
    TrimStartOf(u, v);
    WhitespaceIsSpace(w, v);
    TrimEndOf(t, w + v);
    TrimEndOf(t, v);
    TrimEndOf(w, v);
    if !AllSpace(v) {
      assert t + (w + TrimEnd(v)) == t + w + TrimEnd(v);
    }
  }

  lemma {:induction false} NotBefore(s: string, c: char, i: nat, j: nat)
    requires i < |s| && j <= |s| && s[i] == c && c !in s[..j]
    ensures i >= j
  {
    var front := s[..j];
    assert forall k :: 0 <= k < |front| ==> front[k] != c;
    assert forall k :: 0 <= k < j ==> s[k] == front[k];
  }

  lemma {:induction false} IndexOfPrefix(t: string, x: string, c: char)
    requires c in t
    ensures IndexOf(t + x, c) == IndexOf(t, c)
  {
    var i, j := IndexOf(t, c).value, IndexOf(t + x, c).value;
    assert (t + x)[i] == c && (t + x)[..i] == t[..i];
    NotBefore(t + x, c, i, j);
    NotBefore(t + x, c, j, i);
  }

  lemma {:induction false} FilteredWhitespace(w: string)
    requires AllWhitespace(w)
    ensures Filtered(w) == []
  {
    if w != [] {
      FilteredWhitespace(w[..|w| - 1]);
    }
  }

  lemma {:induction false} PayloadInserted(a: string, w: string, b: string)
    requires AllWhitespace(w)
    ensures Filtered(a + w + b) == Filtered(a + b)
    ensures AllAllowed(a + w + b) <==> AllAllowed(a + b)
  {
    FilteredWhitespace(w);
    FilteredAppend(a, w);
    FilteredAppend(a + w, b);
    FilteredAppend(a, b);
    assert Filtered(a) + [] == Filtered(a);
    if AllAllowed(a + w + b) {
      assert forall i :: 0 <= i < |a| ==> (a + b)[i] == (a + w + b)[i];
      assert forall i :: |a| <= i < |a + b| ==> (a + b)[i] == (a + w + b)[i + |w|];
    }
    if AllAllowed(a + b) {
      forall i | 0 <= i < |a + w + b|
        ensures IsBase64Char((a + w + b)[i]) || IsBase64Whitespace((a + w + b)[i])
      {
        if i < |a| {
          assert (a + b)[i] == (a + w + b)[i];
        } else if i >= |a + w| {
          assert (a + b)[i - |w|] == (a + w + b)[i];
        }
      }
    }
  }

  lemma {:induction false} SchemeOf(t: string, x: string, comma: nat)
    requires IndexOf(t, ',') == Some(comma) && comma > 5
    ensures First(t + x, 5) == First(t, 5) && (t + x)[5..comma] == t[5..comma]
  {
  }

  /** Carriage returns, line feeds and spaces put anywhere after the comma change nothing. */
  lemma {:induction false} WhitespaceIgnored(u: string, w: string, v: string)
    requires ',' in u && AllWhitespace(w)
    ensures Parse(u + w + v) == Parse(u + v)
  {
    var k :| 0 <= k < |u| && u[k] == ',';
    assert !IsSpace(',') && !AllSpace(u);
    TrimInserted(u, w, v);
    if !AllSpace(v) {
      CommaSurvives(u);
      InsertedAfterComma(TrimStart(u), w, TrimEnd(v));
    }
  }

  lemma {:induction false} InsertedAfterComma(t: string, w: string, rest: string)
    requires ',' in t && AllWhitespace(w)
    ensures ParseTrimmed(t + w + rest) == ParseTrimmed(t + rest)
  {
    hide Lower, MimeType, AllAllowed, WellPadded, Filtered, AllWhitespace, First;
    var comma := IndexOf(t, ',').value;
    assert t + w + rest == t + (w + rest);
    IndexOfPrefix(t, w + rest, ',');
    IndexOfPrefix(t, rest, ',');
    if comma > 5 {
      SchemeOf(t, w + rest, comma);
      SchemeOf(t, rest, comma);
      var a := t[comma + 1..];
      assert (t + (w + rest))[comma + 1..] == a + w + rest;
      assert (t + rest)[comma + 1..] == a + rest;
      PayloadInserted(a, w, rest);
    }
  }

  lemma {:induction false} CommaSurvives(u: string)
    requires ',' in u
    ensures ',' in TrimStart(u)
  {
    if IsSpace(u[0]) {
      assert u == [u[0]] + u[1..];
      assert !IsSpace(',');
      CommaSurvives(u[1..]);
    }
  }
}
