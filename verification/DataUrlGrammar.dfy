/** Which data URLs the parser accepts and what they hold, said by their parts. */
module DataUrlGrammar {
  import opened Outcomes
  import opened Sequences
  import opened Text
  import opened DataUrl

  predicate IsPayload(c: char) {
    !IsBase64Whitespace(c)
  }

  lemma {:induction false} FilteredPrefix(payload: string, n: nat)
    requires n <= |payload|
    ensures var at, kept := Positions(payload, n, IsPayload), Filtered(payload[..n]);
            |kept| == |at| && forall j :: 0 <= j < |at| ==> kept[j] == payload[at[j]]
  {
    hide IsBase64Whitespace, Positions;
    NoPositions(payload, IsPayload);
    if n > 0 {
      FilteredPrefix(payload, n - 1);
      assert payload[..n][..n - 1] == payload[..n - 1] && payload[..n][n - 1] == payload[n - 1];
      PositionsStep(payload, n - 1, IsPayload);
      hide Filtered;
    }
  }

  /** The payload is kept in order but for carriage returns, line feeds and spaces. */
  lemma {:induction false} FilteredPicks(payload: string)
    ensures Picks(payload, IsPayload, Filtered(payload))
  {
    FilteredPrefix(payload, |payload|);
    assert payload[..|payload|] == payload;
    hide Filtered, Positions;
  }

  lemma {:induction false} PicksOnce(payload: string, a: string, b: string)
    requires Picks(payload, IsPayload, a) && Picks(payload, IsPayload, b)
    ensures a == b
  {
  }

  predicate IsFilled(part: string) {
    Trim(part) != ""
  }

  /** The parts of the header that are not blank, trimmed. */
  predicate AreParts(header: string, parts: seq<string>) {
    var all := Split(header, ';');
    var at := Positions(all, |all|, IsFilled);
    |parts| == |at| && forall j :: 0 <= j < |at| ==> parts[j] == Trim(all[at[j]])
  }

  lemma {:induction false} PartsAppend(parts: seq<string>, last: string)
    ensures NonEmptyTrimmed(parts + [last]) ==
            NonEmptyTrimmed(parts) + if Trim(last) == "" then [] else [Trim(last)]
  {
    hide Trim;
    if parts == [] {
      assert parts + [last] == [last] && [last][1..] == [];
    } else {
      PartsAppend(parts[1..], last);
      assert (parts + [last])[1..] == parts[1..] + [last];
    }
  }

  lemma {:induction false} PartsPrefix(all: seq<string>, n: nat)
    requires n <= |all|
    ensures var at, parts := Positions(all, n, IsFilled), NonEmptyTrimmed(all[..n]);
            |parts| == |at| && forall j :: 0 <= j < |at| ==> parts[j] == Trim(all[at[j]])
  {
    hide Trim, NonEmptyTrimmed;
    if n == 0 {
      NoParts();
    } else {
      PartsPrefix(all, n - 1);
      assert all[..n] == all[..n - 1] + [all[n - 1]];
      PartsAppend(all[..n - 1], all[n - 1]);
    }
  }

  lemma {:induction false} NoParts()
    ensures NonEmptyTrimmed([]) == []
  {
  }

  lemma {:induction false} PartsMeaning(header: string, parts: seq<string>)
    ensures AreParts(header, parts) <==> parts == NonEmptyTrimmed(Split(header, ';'))
  {
    hide Trim, Split, NonEmptyTrimmed;
    var all := Split(header, ';');
    PartsPrefix(all, |all|);
    assert all[..|all|] == all;
    hide Positions;
  }

  /** Groups of four: characters other than `=`, and at most two of those behind them. */
  predicate IsPadded(s: string, data: string, pad: string) {
    s == data + pad && s != "" && |s| % 4 == 0 && '=' !in data && (pad == "" || pad == "=" || pad == "==")
  }

  lemma {:induction false} PaddingMeaning(s: string)
    ensures WellPadded(s) <==> exists data, pad :: IsPadded(s, data, pad)
  {
    if WellPadded(s) {
      var n := if PaddedBy(s, 0) then 0 else if PaddedBy(s, 1) then 1 else 2;
      var pad := s[|s| - n..];
      assert s[..|s| - n] + pad == s;
      assert forall i :: 0 <= i < |pad| ==> pad[i] == '=';
      assert IsPadded(s, s[..|s| - n], s[|s| - n..]);
    }
    if data, pad :| IsPadded(s, data, pad) {
      assert PaddedBy(s, |pad|);
    }
  }

  /**
   The trimmed text is the scheme, the header, a comma and the payload. The first part of
   the header is the type and the last says `base64`.
   */
  ghost predicate IsDataUrl(text: string, scheme: string, header: string, parts: seq<string>, payload: string,
      r: Parsed) {
    && Trim(text) == scheme + (header + ("," + payload))
    && |scheme| == 5 && Lower(scheme) == "data:" && ',' !in scheme && header != "" && ',' !in header
    && AreParts(header, parts) && |parts| >= 2 && Lower(parts[|parts| - 1]) == "base64"
    && AllAllowed(payload) && Picks(payload, IsPayload, r.base64)
    && (exists data, pad :: IsPadded(r.base64, data, pad))
    && r.mimeType == Lower(parts[0])
  }

  lemma {:induction false} CommaAt(scheme: string, header: string, payload: string)
    requires ',' !in scheme && ',' !in header
    ensures IndexOf(scheme + (header + ("," + payload)), ',') == Some(|scheme| + |header|)
  {
    var s := scheme + (header + ("," + payload));
    var k := |scheme| + |header|;
    assert s[k] == ',' && s[..k] == scheme + header;
    var i := IndexOf(s, ',').value;
    NotBefore(s, ',', i, k);
    NotBefore(s, ',', k, i);
  }

  lemma {:induction false} AcceptedUrl(text: string, scheme: string, header: string, parts: seq<string>,
      payload: string, r: Parsed)
    requires IsDataUrl(text, scheme, header, parts, payload, r)
    ensures Parse(text) == Some(r)
  {
    hide Trim, Lower, AllAllowed, WellPadded, Filtered, Picks, AreParts, NonEmptyTrimmed, Split;
    var s := Trim(text);
    CommaAt(scheme, header, payload);
    PartsMeaning(header, parts);
    FilteredPicks(payload);
    PicksOnce(payload, Filtered(payload), r.base64);
    PaddingMeaning(r.base64);
    hide IsPadded;
    var k := 5 + |header|;
    assert First(s, 5) == scheme && s[5..k] == header && s[k + 1..] == payload;
  }

  lemma {:induction false} NoCommaInside(s: string, k: nat)
    requires 5 <= k <= |s| && ',' !in s[..k]
    ensures ',' !in s[..5] && ',' !in s[5..k]
  {
    forall i | 0 <= i < k
      ensures s[i] != ','
    {
      assert s[..k][i] == s[i];
    }
  }

  lemma {:induction false} UrlIsSplit(text: string)
    requires Parse(text).Some?
    ensures exists scheme, header, parts, payload ::
              IsDataUrl(text, scheme, header, parts, payload, Parse(text).value)
  {
    hide Trim, Lower, AllAllowed, WellPadded, Filtered, Picks, AreParts, NonEmptyTrimmed, Split;
    var s := Trim(text);
    var comma := IndexOf(s, ',').value;
    var scheme, header, payload := s[..5], s[5..comma], s[comma + 1..];
    var parts := NonEmptyTrimmed(Split(header, ';'));
    NoCommaInside(s, comma);
    PartsMeaning(header, parts);
    FilteredPicks(payload);
    assert s == scheme + (header + ("," + payload));
    assert First(s, 5) == scheme;
    PaddingMeaning(Filtered(payload));
    assert IsDataUrl(text, scheme, header, parts, payload, Parse(text).value);
  }

  /** A text is accepted, with this type and this payload, exactly when it can be put together so. */
  lemma {:induction false} DataUrlMeaning(text: string, r: Parsed)
    ensures Parse(text) == Some(r) <==>
            exists scheme, header, parts, payload :: IsDataUrl(text, scheme, header, parts, payload, r)
  {
    hide Parse, IsDataUrl;
    if Parse(text).Some? {
      UrlIsSplit(text);
    }
    if scheme, header, parts, payload :| IsDataUrl(text, scheme, header, parts, payload, r) {
      AcceptedUrl(text, scheme, header, parts, payload, r);
    }
  }
}
