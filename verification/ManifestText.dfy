/** Character-level facts about the manifest format: quoting, numerals and single lines. */
module ManifestText {
  import opened Outcomes
  import opened Text
  import opened UpdateManifest

  predicate OneLineScalar(v: Scalar) {
    v.Str? ==> OneLine(v.text)
  }

  // ----- Quoting -----

  lemma {:induction false} UndoubleDouble(s: string)
    ensures Undouble(Double(s)) == s
    ensures OneLine(s) ==> OneLine(Double(s))
  {
    if s != [] {
      UndoubleDouble(s[1..]);
      var head := if s[0] == '\'' then "''" else [s[0]];
      assert Double(s) == head + Double(s[1..]);
      assert (head + Double(s[1..]))[|head|..] == Double(s[1..]);
      assert s == [s[0]] + s[1..];
      if OneLine(s) {
        assert forall i :: 0 <= i < |s[1..]| ==> s[1..][i] == s[i + 1];
        assert OneLine(s[1..]);
        assert OneLine(head);
      }
    }
  }

  lemma {:induction false} UndoubleShrinks(s: string)
    ensures |Undouble(s)| <= |s|
    ensures OneLine(s) ==> OneLine(Undouble(s))
  {
    if s != [] {
      var step := if |s| >= 2 && s[0] == '\'' && s[1] == '\'' then 2 else 1;
      UndoubleShrinks(s[step..]);
      assert OneLine(s) ==> OneLine(s[step..]);
    }
  }

  lemma {:induction false} QuotedScalar(s: string)
    requires OneLine(s)
    ensures var q := QuoteYamlString(s);
            && q != [] && Trimmed(q) && OneLine(q)
            && ParseScalarValue(q) == Str(s)
  {
    var q := QuoteYamlString(s);
    UndoubleDouble(s);
    TrimFacts(q);
    assert Inner(q) == Double(s);
  }

  /** Stripping quotes changes exactly the texts wrapped in them. */
  lemma {:induction false} StripFacts(s: string)
    ensures |StripSingleQuotes(s)| <= |s|
    ensures StripSingleQuotes(s) == s <==> !StartsAndEndsWithQuote(s)
    ensures OneLine(s) ==> OneLine(StripSingleQuotes(s))
  {
    if StartsAndEndsWithQuote(s) {
      UndoubleShrinks(Inner(s));
    }
  }

  // ----- Numerals -----

  lemma {:induction false} LeadingZeros(n: nat, digits: string)
    requires AllDigits(digits)
    ensures AllDigits(Zeros(n) + digits) && DigitsValue(Zeros(n) + digits) == DigitsValue(digits)
  {
    var s := Zeros(n) + digits;
    if digits == [] {
      assert s == Zeros(n);
      ZerosValue(n);
    } else {
      LeadingZeros(n, digits[..|digits| - 1]);
      assert s[..|s| - 1] == Zeros(n) + digits[..|digits| - 1];
    }
  }

  lemma {:induction false} ZerosValue(n: nat)
    ensures DigitsValue(Zeros(n)) == 0
  {
    if n > 0 {
      assert Zeros(n)[..n - 1] == Zeros(n - 1);
      ZerosValue(n - 1);
    }
  }

  lemma {:induction false} PaddedDigitsValue(n: Number)
    ensures DigitsValue(PaddedDigits(n)) == Magnitude(n.mantissa)
  {
    var digits := NatText(Magnitude(n.mantissa));
    NatTextValue(Magnitude(n.mantissa));
    if |digits| <= n.scale {
      LeadingZeros(n.scale + 1 - |digits|, digits);
    }
  }

  /** The unsigned part of a printed number, and what its two sides are. */
  lemma {:induction false} UnsignedRoundTrip(whole: string, fraction: string, scale: nat)
    requires whole != [] && AllDigits(whole) && AllDigits(fraction) && |fraction| == scale
    ensures var unsigned := whole + (if scale > 0 then "." + fraction else "");
            && unsigned[0] == whole[0] && IsUnsignedNumber(unsigned)
            && Split(unsigned, '.') == if scale > 0 then [whole, fraction] else [whole]
  {
    assert '.' !in whole && '.' !in fraction by {
      assert !IsDigit('.');
    }
    if scale > 0 {
      SplitNoSeparator(fraction, '.');
      SplitAtSeparator(whole, fraction, '.');
      assert whole + "." + fraction == whole + ("." + fraction);
    } else {
      SplitNoSeparator(whole, '.');
      assert whole + "" == whole;
    }
  }

  /** Reading a number whose unsigned part splits into `whole` and, with a point, `fraction`. */
  lemma {:induction false} ReadNumber(text: string, whole: string, fraction: string)
    requires IsNumberText(text) && AllDigits(whole) && AllDigits(fraction)
    requires Split(if text != [] && text[0] == '-' then text[1..] else text, '.') ==
             if fraction == [] then [whole] else [whole, fraction]
    ensures var magnitude: int := DigitsValue(whole + fraction);
            NumberValue(text) == Reduce(if text != [] && text[0] == '-' then -magnitude else magnitude, |fraction|)
  {
    if fraction == [] {
      assert whole + [] == whole;
    }
  }

  lemma {:induction false} PositionalReadsBack(n: Number)
    ensures IsNumberText(PositionalText(n)) && NumberValue(PositionalText(n)) == n
  {
    hide DigitsValue, NatText, Split, PaddedDigits;
    var digits := PaddedDigits(n);
    var point := |digits| - n.scale;
    var whole, fraction := digits[..point], digits[point..];
    var text := PositionalText(n);
    UnsignedRoundTrip(whole, fraction, n.scale);
    PaddedDigitsValue(n);
    var unsigned := whole + (if n.scale > 0 then "." + fraction else "");
    assert whole + fraction == digits;
    assert IsDigit(whole[0]) && !IsDigit('-');
    if n.mantissa < 0 {
      assert text == "-" + unsigned;
      assert text[1..] == unsigned;
    } else {
      assert text == unsigned;
    }
    ReadNumber(text, whole, fraction);
  }

  lemma {:induction false} SplitKeepsChars(s: string, sep: char, i: nat)
    requires i < |s| && s[i] != sep
    ensures exists j :: 0 <= j < |Split(s, sep)| && s[i] in Split(s, sep)[j]
  {
    var parts, rest := Split(s, sep), Split(s[1..], sep);
    if i == 0 {
      assert parts[0][0] == s[0];
      assert s[0] in parts[0];
    } else {
      SplitKeepsChars(s[1..], sep, i - 1);
      var j :| 0 <= j < |rest| && s[1..][i - 1] in rest[j];
      if s[0] == sep {
        assert parts[j + 1] == rest[j];
      } else if j == 0 {
        assert parts[0] == [s[0]] + rest[0];
      } else {
        assert parts[j] == rest[j];
      }
    }
  }

  lemma {:induction false} NumberChars(s: string)
    requires IsUnsignedNumber(s)
    ensures forall i :: 0 <= i < |s| ==> s[i] == '.' || IsDigit(s[i])
  {
    hide Split;
    forall i | 0 <= i < |s|
      ensures s[i] == '.' || IsDigit(s[i])
    {
      if s[i] != '.' {
        SplitKeepsChars(s, '.', i);
      }
    }
  }

  /** A text with an exponent is no number to the reader. */
  lemma {:induction false} ExponentIsNoNumber(n: Number)
    ensures !IsNumberText(ExponentText(n)) && 'e' in ExponentText(n)
  {
    hide IsUnsignedNumber, NatText, DropZeros;
    var text := ExponentText(n);
    var digits := DropZeros(NatText(Magnitude(n.mantissa)));
    var front := (if n.mantissa < 0 then "-" else "") + digits[..1] + (if |digits| > 1 then "." + digits[1..] else "");
    var k := |front|;
    assert text[k] == 'e';
    assert IsDigit(digits[0]);
    var unsigned := if text[0] == '-' then text[1..] else text;
    assert !IsDigit('e') && !IsDigit('-');
    assert text[0] == '-' ==> unsigned[k - 1] == 'e';
    assert 'e' in unsigned;
    if IsUnsignedNumber(unsigned) {
      NumberChars(unsigned);
      assert false;
    }
  }

  lemma {:induction false} PositionalShape(n: Number)
    ensures var t := PositionalText(n);
            t != [] && OneLine(t) && Trimmed(t) && t != "true" && t != "false" && t[0] != '\''
  {
    var t := PositionalText(n);
    assert forall i :: 0 <= i < |t| ==> IsDigit(t[i]) || t[i] == '-' || t[i] == '.';
    assert !IsDigit('t') && !IsDigit('f') && !IsDigit('\'');
    assert t[0] != 't' && t[0] != 'f';
  }

  lemma {:induction false} ExponentShape(n: Number)
    ensures var t := ExponentText(n);
            t != [] && OneLine(t) && Trimmed(t) && t != "true" && t != "false" && t[0] != '\''
  {
    hide NatText, DropZeros;
    var t := ExponentText(n);
    var digits := DropZeros(NatText(Magnitude(n.mantissa)));
    assert forall i :: 0 <= i < |digits| ==> IsDigit(digits[i]);
    assert forall i :: 0 <= i < |t| ==> IsDigit(t[i]) || t[i] == '-' || t[i] == '+' || t[i] == '.' || t[i] == 'e';
    assert !IsDigit('t') && !IsDigit('f') && !IsDigit('\'');
    assert IsDigit(t[0]) || t[0] == '-';
  }

  lemma {:induction false} NumberTextShape(n: Number)
    ensures var t := NumberText(n);
            t != [] && OneLine(t) && Trimmed(t) && t != "true" && t != "false" && t[0] != '\''
  {
    hide PositionalText, ExponentText;
    PositionalShape(n);
    ExponentShape(n);
  }

  /** A printed number reads back as that number exactly when it is printed without an exponent. */
  lemma {:induction false} NumberRoundTrip(n: Number)
    ensures IsNumberText(NumberText(n)) <==> Positional(n)
    ensures Positional(n) ==> NumberValue(NumberText(n)) == n
  {
    hide IsNumberText, NumberValue, PositionalText, ExponentText, Positional;
    PositionalReadsBack(n);
    ExponentIsNoNumber(n);
  }

  /** What a printed scalar reads back as: a number with an exponent has become a string. */
  function RereadScalar(v: Scalar): Scalar {
    if v.Num? && !Positional(v.value) then Str(NumberText(v.value)) else v
  }

  lemma {:induction false} ScalarReadsBack(v: Scalar)
    requires OneLineScalar(v)
    ensures var t := SerializeScalarValue(v);
            t != [] && Trimmed(t) && OneLine(t) && ParseScalarValue(t) == RereadScalar(v)
  {
    hide NumberText, Positional, IsNumberText, NumberValue, QuoteYamlString;
    var t := SerializeScalarValue(v);
    match v
    case Str(s) => QuotedScalar(s);
    case Num(n) =>
      NumberRoundTrip(n);
      NumberTextShape(n);
      TrimFacts(t);
    case Bool(b) => TrimFacts(t);
  }

  /** A scalar survives printing exactly when it is no number that prints with an exponent. */
  lemma {:induction false} ScalarRoundTrip(v: Scalar)
    requires OneLineScalar(v)
    ensures ParseScalarValue(SerializeScalarValue(v)) == v <==> (v.Num? ==> Positional(v.value))
  {
    hide ParseScalarValue, SerializeScalarValue, Positional, NumberText;
    ScalarReadsBack(v);
  }

  lemma {:induction false} SmallTexts()
    ensures PositionalText(Decimal(1, 7)) == "0.0000001"
    ensures NumberText(Decimal(1, 7)) == "1e-7" && !Positional(Decimal(1, 7))
  {
    assert NatText(1) == "1" && NatText(7) == "7";
    hide NatText;
    assert PaddedDigits(Decimal(1, 7)) == "00000001";
    assert DropZeros("1") == "1";
  }

  /** The text `0.0000001` is read as a number whose own text `1e-7` is read as a string. */
  lemma {:induction false} SmallNumberBecomesText()
    ensures ParseScalarValue("0.0000001") == Num(Decimal(1, 7))
    ensures SerializeScalarValue(Num(Decimal(1, 7))) == "1e-7"
    ensures ParseScalarValue("1e-7") == Str("1e-7")
  {
    var small: Number := Decimal(1, 7);
    SmallTexts();
    PositionalReadsBack(small);
    PositionalShape(small);
    TrimFacts(PositionalText(small));
    ScalarReadsBack(Num(small));
    hide PositionalText, NumberText, IsNumberText, NumberValue, Trim, Positional;
  }

  // ----- Lines -----

  /** Trimming both ends gives the same text in either order. */
  lemma {:induction false} TrimOrder(s: string)
    ensures TrimStart(TrimEnd(s)) == TrimEnd(TrimStart(s))
  {
    TrimEndPrefix(s);
    if s != [] && IsSpace(s[0]) {
      TrimOrder(s[1..]);
      TrimEndDropFirst(s);
    } else if s != [] && TrimEnd(s) != [] {
      assert TrimEnd(s)[0] == s[0];
    }
  }

  lemma {:induction false} TrimEndDropFirst(s: string)
    requires s != [] && IsSpace(s[0])
    ensures if TrimEnd(s) == [] then TrimEnd(s[1..]) == [] else TrimEnd(s[1..]) == TrimEnd(s)[1..]
  {
    if |s| > 1 && IsSpace(s[|s| - 1]) {
      TrimEndDropFirst(s[..|s| - 1]);
      assert s[..|s| - 1][1..] == s[1..][..|s[1..]| - 1];
    } else if |s| == 1 {
      assert s[..0] == [];
    }
  }

  /** A field printed after its prefix and one space is captured trimmed, unless it is blank. */
  lemma {:induction false} CapturedField(prefix: string, value: string)
    requires prefix != [] && !IsSpace(prefix[|prefix| - 1]) && OneLine(value)
    ensures var line := TrimEnd(prefix + " " + value);
            && StartsWith(line, prefix) && (Trim(value) == [] ==> line == prefix)
            && Captured(line, prefix) == (if Trim(value) == [] then None else Some(Trim(value)))
  {
    var rest := " " + value;
    assert prefix + " " + value == prefix + rest;
    TrimEndAppend(prefix, rest);
    var line := prefix + TrimEnd(rest);
    assert line[|prefix|..] == TrimEnd(rest) && line[..|prefix|] == prefix;
    TrimOrder(rest);
    assert TrimStart(rest) == TrimStart(value) by {
      assert rest[1..] == value;
    }
    TrimFacts(value);
    TrimEndPrefix(rest);
    if Trim(value) == [] && TrimEnd(rest) != [] {
      TrimStartKeepsLast(TrimEnd(rest));
    }
  }

  lemma {:induction false} TrimStartKeepsLast(s: string)
    requires s != [] && !IsSpace(s[|s| - 1])
    ensures TrimStart(s) != []
  {
    if IsSpace(s[0]) {
      TrimStartKeepsLast(s[1..]);
    }
  }

  lemma {:induction false} OtherPrefix(line: string, prefix: string, i: nat)
    requires i < |prefix| && (i < |line| ==> line[i] != prefix[i])
    ensures Captured(line, prefix) == None
  {
    if |prefix| <= |line| {
      assert line[..|prefix|][i] == line[i];
    }
  }

  /** A line that begins with a space and matches no indented pattern. */
  lemma {:induction false} IndentedUnsupported(line: string)
    requires line != [] && line[0] == ' '
    ensures ClassifyTopLevel(line) == Unsupported
  {
    assert IdentifierPrefix(line) == [];
  }

  lemma {:induction false} UrlKind(url: string)
    requires OneLine(url)
    ensures Classify(URL_PREFIX + " " + url) == if Trim(url) == [] then Unsupported else UrlLine(FieldText(url))
  {
    var line := TrimEnd(URL_PREFIX + " " + url);
    CapturedField(URL_PREFIX, url);
    assert line[0] == line[..8][0] == ' ' && line[2] == line[..8][2] == '-';
    OtherPrefix(line, SHA512_PREFIX, 2);
    OtherPrefix(line, SIZE_PREFIX, 2);
    IndentedUnsupported(line);
    TrimFacts(url);
    TrimFacts(Trim(url));
  }

  lemma {:induction false} Sha512Kind(sha512: string)
    requires OneLine(sha512)
    ensures Classify(SHA512_PREFIX + " " + sha512) ==
            if Trim(sha512) == [] then Unsupported else Sha512Line(FieldText(sha512))
  {
    var line := TrimEnd(SHA512_PREFIX + " " + sha512);
    CapturedField(SHA512_PREFIX, sha512);
    assert line[0] == line[..11][0] == ' ' && line[2] == line[..11][2] == ' ' && line[5] == line[..11][5] == 'h';
    OtherPrefix(line, URL_PREFIX, 2);
    OtherPrefix(line, SIZE_PREFIX, 5);
    IndentedUnsupported(line);
    TrimFacts(sha512);
    TrimFacts(Trim(sha512));
  }

  lemma {:induction false} SizeTextMeaning(size: nat)
    ensures var t := SizeText(size);
            && t != [] && Trimmed(t) && OneLine(t)
            && (AllDigits(t) <==> Positional(Decimal(size, 0)))
            && (AllDigits(t) ==> DigitsValue(t) == size)
  {
    hide PositionalText, ExponentText, DigitsValue;
    NumberTextShape(Decimal(size, 0));
    if Positional(Decimal(size, 0)) {
      WholeText(size);
      NatTextValue(size);
    } else {
      ExponentIsNoNumber(Decimal(size, 0));
      assert !IsDigit('e');
    }
  }

  lemma {:induction false} WholeText(size: nat)
    ensures PositionalText(Decimal(size, 0)) == NatText(size)
  {
    hide NatText;
    assert PaddedDigits(Decimal(size, 0)) == NatText(size);
  }

  function SizeKindOf(size: nat): Line {
    if Positional(Decimal(size, 0)) then SizeLine(size) else Unsupported
  }

  /** A printed size is read back, or its line is not understood when it has an exponent. */
  lemma {:induction false} SizeKind(size: nat)
    ensures Classify(SIZE_PREFIX + " " + SizeText(size)) == SizeKindOf(size)
  {
    hide SizeText, Positional, DigitsValue, TrimEnd, Trim, TrimStart, OneLine, Trimmed, ClassifyTopLevel;
    var text := SizeText(size);
    var line := TrimEnd(SIZE_PREFIX + " " + text);
    SizeTextMeaning(size);
    TrimFacts(text);
    CapturedField(SIZE_PREFIX, text);
    assert line[0] == line[..9][0] == ' ' && line[2] == line[..9][2] == ' ' && line[5] == line[..9][5] == 'i';
    OtherPrefix(line, URL_PREFIX, 2);
    OtherPrefix(line, SHA512_PREFIX, 5);
    IndentedUnsupported(line);
    hide Captured;
    assert line != "files:";
  }

  lemma {:induction false} IdentifierPrefixOf(key: string, rest: string)
    requires forall i :: 0 <= i < |key| ==> IsLetter(key[i]) || IsDigit(key[i])
    requires rest != [] && !IsLetter(rest[0]) && !IsDigit(rest[0])
    ensures IdentifierPrefix(key + rest) == key
  {
    if key == [] {
      assert key + rest == rest;
    } else {
      IdentifierPrefixOf(key[1..], rest);
      assert (key + rest)[1..] == key[1..] + rest;
      assert key == [key[0]] + key[1..];
    }
  }

  /** A line that begins with a letter is a top-level line, whatever its value. */
  lemma {:induction false} LetterLine(line: string)
    requires TrimEnd(line) == line && line != [] && IsLetter(line[0]) && line != "files:"
    ensures Classify(line) == ClassifyTopLevel(line)
  {
    OtherPrefix(line, URL_PREFIX, 0);
    OtherPrefix(line, SHA512_PREFIX, 0);
    OtherPrefix(line, SIZE_PREFIX, 0);
    hide TrimEnd, ClassifyTopLevel, Captured;
  }

  lemma {:induction false} EntryLineTrimmed(key: string, value: string)
    requires value != [] && Trimmed(value)
    ensures TrimEnd(key + ": " + value) == key + ": " + value
  {
    hide IsSpace;
    var line := key + ": " + value;
    assert line[|line| - 1] == value[|value| - 1];
  }

  lemma {:induction false} TopLevelKind(key: string, value: string)
    requires IsIdentifier(key) && value != [] && Trimmed(value) && OneLine(value)
    ensures Classify(key + ": " + value) == TopLevel(key, ParseScalarValue(value))
  {
    var prefix, line := key + ":", key + ": " + value;
    assert prefix + " " + value == line == key + (": " + value);
    CapturedField(prefix, value);
    TrimFacts(value);
    EntryLineTrimmed(key, value);
    IdentifierPrefixOf(key, ": " + value);
    hide Captured, TrimEnd, Trim, ParseScalarValue, IdentifierPrefix, Trimmed, OneLine, Classify;
    assert line[0] == key[0] && IsLetter(key[0]);
    assert line[|key|] == ':' && |line| >= |key| + 3;
    LetterLine(line);
  }

  lemma {:induction false} FilesHeaderKind()
    ensures Classify("files:") == FilesHeader && Classify("") == Blank
  {
    OtherPrefix("files:", URL_PREFIX, 0);
    OtherPrefix("files:", SHA512_PREFIX, 0);
    OtherPrefix("files:", SIZE_PREFIX, 0);
  }

  /** The values a line carries contain no line terminator. */
  predicate OneLineKind(kind: Line) {
    match kind
    case UrlLine(url) => OneLine(url)
    case Sha512Line(sha512) => OneLine(sha512)
    case TopLevel(key, value) => IsIdentifier(key) && OneLineScalar(value)
    case _ => true
  }

  lemma {:induction false} FieldTextOneLine(captured: string)
    requires OneLine(captured)
    ensures OneLine(FieldText(captured))
  {
    TrimFacts(captured);
    StripFacts(Trim(captured));
  }

  lemma {:induction false} ParsedScalarOneLine(raw: string)
    requires OneLine(raw)
    ensures OneLineScalar(ParseScalarValue(raw))
  {
    TrimFacts(raw);
    if Trim(raw) != [] {
      UndoubleShrinks(Inner(Trim(raw)));
    }
  }

  lemma {:induction false} KindsAreOneLine(raw: string)
    ensures OneLineKind(Classify(raw))
  {
    var line := TrimEnd(raw);
    var key := IdentifierPrefix(line);
    if Captured(line, URL_PREFIX).Some? {
      FieldTextOneLine(Captured(line, URL_PREFIX).value);
    } else if Captured(line, SHA512_PREFIX).Some? {
      FieldTextOneLine(Captured(line, SHA512_PREFIX).value);
    } else if Captured(line, key + ":").Some? {
      ParsedScalarOneLine(Captured(line, key + ":").value);
    }
  }

  // ----- Splitting the printed text into its lines -----

  lemma {:induction false} SplitLinesAt(a: string, b: string)
    requires OneLine(a)
    ensures SplitLines(a + "\n" + b) == [a] + SplitLines(b)
  {
    var s := a + "\n" + b;
    if a == [] {
      assert s[1..] == b;
    } else {
      assert s[1..] == a[1..] + "\n" + b;
      assert s[0] == a[0];
      SplitLinesAt(a[1..], b);
      assert a == [a[0]] + a[1..];
    }
  }

  lemma {:induction false} SplitLinesJoin(lines: seq<string>)
    requires lines != [] && lines[|lines| - 1] == []
    requires forall i :: 0 <= i < |lines| ==> OneLine(lines[i])
    ensures SplitLines(Join(lines, "\n")) == lines
  {
    if |lines| > 1 {
      SplitLinesJoin(lines[1..]);
      SplitLinesAt(lines[0], Join(lines[1..], "\n"));
    }
  }
}
