/** How the values in an update manifest are spelled, said without reading them. */
module ManifestScalars {
  import opened Text
  import opened UpdateManifest
  import opened ManifestText

  // ----- Numbers -----

  function Power10(n: nat): (p: nat)
    ensures p > 0
  {
    if n == 0 then 1 else 10 * Power10(n - 1)
  }

  /** `n` is `mantissa / 10^scale`. */
  predicate IsFraction(n: Number, mantissa: int, scale: nat) {
    n.scale <= scale && n.mantissa * Power10(scale - n.scale) == mantissa
  }

  predicate SpelledNumber(text: string, n: Number, negative: bool, whole: string, fraction: string) {
    && whole != [] && AllDigits(whole) && AllDigits(fraction) && AllDigits(whole + fraction)
    && text == (if negative then "-" else "") + (whole + if fraction == [] then "" else "." + fraction)
    && var magnitude: int := DigitsValue(whole + fraction);
       IsFraction(n, if negative then -magnitude else magnitude, |fraction|)
  }

  /** An optional minus sign, digits, and perhaps a point and more digits. */
  ghost predicate SpellsNumber(text: string, n: Number) {
    exists negative, whole, fraction :: SpelledNumber(text, n, negative, whole, fraction)
  }

  lemma {:induction false} ReduceMeaning(mantissa: int, scale: nat, n: Number)
    ensures Reduce(mantissa, scale) == n <==> IsFraction(n, mantissa, scale)
    decreases scale
  {
    if scale > 0 && mantissa % 10 == 0 {
      ReduceMeaning(mantissa / 10, scale - 1, n);
      if n.scale <= scale - 1 {
        TenTimes(n.mantissa, Power10(scale - 1 - n.scale), mantissa);
      }
    } else if n.scale < scale {
      TenTimes(n.mantissa, Power10(scale - 1 - n.scale), mantissa);
    }
  }

  lemma {:induction false} TenTimes(a: int, p: nat, m: int)
    ensures a * (10 * p) == 10 * (a * p)
    ensures m % 10 == 0 ==> (a * p == m / 10 <==> 10 * (a * p) == m)
    ensures m % 10 != 0 ==> 10 * (a * p) != m
  {
  }

  lemma {:induction false} UnsignedParts(s: string) returns (whole: string, fraction: string)
    requires IsUnsignedNumber(s)
    ensures whole != [] && AllDigits(whole) && AllDigits(fraction)
    ensures s == whole + if fraction == [] then "" else "." + fraction
    ensures Split(s, '.') == if fraction == [] then [whole] else [whole, fraction]
  {
    JoinSplit(s, '.');
    var parts := Split(s, '.');
    whole, fraction := parts[0], if |parts| == 2 then parts[1] else [];
    assert parts == if |parts| == 2 then [parts[0], parts[1]] else [parts[0]];
  }

  lemma {:induction false} DigitsAppend(a: string, b: string)
    requires AllDigits(a) && AllDigits(b)
    ensures AllDigits(a + b)
  {
  }

  /** A spelled number is read as its value. */
  lemma {:induction false} SpelledIsRead(text: string, n: Number, negative: bool, whole: string, fraction: string)
    requires SpelledNumber(text, n, negative, whole, fraction)
    ensures IsNumberText(text) && NumberValue(text) == n
  {
    hide DigitsValue, Split, IsUnsignedNumber, IsFraction;
    var unsigned := whole + if fraction == [] then "" else "." + fraction;
    UnsignedRoundTrip(whole, fraction, |fraction|);
    assert IsDigit(whole[0]) && !IsDigit('-');
    if negative {
      assert text[0] == '-' && text[1..] == unsigned;
    } else {
      assert text == unsigned;
    }
    ReadNumber(text, whole, fraction);
    var magnitude: int := DigitsValue(whole + fraction);
    ReduceMeaning(if negative then -magnitude else magnitude, |fraction|, n);
  }

  /** A number that is read is spelled. */
  lemma {:induction false} ReadIsSpelled(text: string)
    requires IsNumberText(text)
    ensures SpellsNumber(text, NumberValue(text))
  {
    hide DigitsValue, Split, IsUnsignedNumber, IsFraction, NumberValue;
    var negative := text != [] && text[0] == '-';
    var whole, fraction := UnsignedParts(if negative then text[1..] else text);
    ReadNumber(text, whole, fraction);
    DigitsAppend(whole, fraction);
    var magnitude: int := DigitsValue(whole + fraction);
    ReduceMeaning(if negative then -magnitude else magnitude, |fraction|, NumberValue(text));
    if negative {
      assert text == "-" + text[1..];
    } else {
      assert text == "" + text;
    }
    assert SpelledNumber(text, NumberValue(text), negative, whole, fraction);
  }

  lemma {:induction false} NumberSpelling(text: string, n: Number)
    ensures SpellsNumber(text, n) <==> IsNumberText(text) && NumberValue(text) == n
  {
    hide IsNumberText, NumberValue;
    if SpellsNumber(text, n) {
      var negative, whole, fraction :| SpelledNumber(text, n, negative, whole, fraction);
      SpelledIsRead(text, n, negative, whole, fraction);
    }
    if IsNumberText(text) {
      ReadIsSpelled(text);
    }
  }

  // ----- How a number is printed -----

  lemma {:induction false} PowerAdd(a: nat, b: nat)
    ensures Power10(a + b) == Power10(a) * Power10(b)
  {
    if a > 0 {
      PowerAdd(a - 1, b);
    }
  }

  lemma {:induction false} PowerMonotone(a: nat, b: nat)
    requires a <= b
    ensures Power10(a) <= Power10(b)
  {
    if a < b {
      PowerMonotone(a, b - 1);
    }
  }

  lemma {:induction false} NatTextBounds(n: nat)
    requires n > 0
    ensures |NatText(n)| >= 1 && Power10(|NatText(n)| - 1) <= n < Power10(|NatText(n)|)
  {
    if n >= 10 {
      NatTextBounds(n / 10);
    }
  }

  lemma {:induction false} DigitCount(n: nat, k: nat)
    requires n > 0
    ensures n < Power10(k) <==> |NatText(n)| <= k
  {
    hide NatText;
    NatTextBounds(n);
    if |NatText(n)| <= k {
      PowerMonotone(|NatText(n)|, k);
    } else {
      PowerMonotone(k, |NatText(n)| - 1);
    }
  }

  lemma {:induction false} DigitCountScaled(n: nat, scale: nat)
    requires n > 0
    ensures Power10(scale) <= n * Power10(6) <==> scale <= |NatText(n)| + 5
  {
    hide NatText, Power10;
    NatTextBounds(n);
    var count := |NatText(n)|;
    PowerAdd(count - 1, 6);
    PowerAdd(count, 6);
    if scale <= count + 5 {
      PowerMonotone(scale, count + 5);
      Times(Power10(count - 1), n, Power10(6));
    } else {
      PowerMonotone(count + 6, scale);
      Times(n + 1, Power10(count), Power10(6));
      assert (n + 1) * Power10(6) == n * Power10(6) + Power10(6);
    }
  }

  lemma {:induction false} Times(a: nat, b: nat, p: nat)
    requires a <= b
    ensures a * p <= b * p
  {
  }

  /** Numbers from 10^-6 on and below 10^21, and 0, are printed without an exponent. */
  lemma {:induction false} PositionalMeaning(n: Number)
    ensures Positional(n) <==>
            n.mantissa == 0 ||
            (Power10(n.scale) <= Magnitude(n.mantissa) * Power10(6) &&
             Magnitude(n.mantissa) < Power10(21 + n.scale))
  {
    hide NatText, Power10;
    if n.mantissa == 0 {
      NatTextStart(0);
    } else {
      DigitCount(Magnitude(n.mantissa), 21 + n.scale);
      DigitCountScaled(Magnitude(n.mantissa), n.scale);
    }
  }

  lemma {:induction false} DropZerosValue(digits: string)
    requires digits != [] && AllDigits(digits)
    ensures var kept := DropZeros(digits);
            && AllDigits(kept) && (|kept| > 1 ==> kept[|kept| - 1] != '0') && kept[0] == digits[0]
            && DigitsValue(digits) == DigitsValue(kept) * Power10(|digits| - |kept|)
  {
    if |digits| > 1 && digits[|digits| - 1] == '0' {
      var front := digits[..|digits| - 1];
      DropZerosValue(front);
      assert DigitsValue(digits) == 10 * DigitsValue(front);
      var kept := DropZeros(digits);
      TenTimes(DigitsValue(kept), Power10(|front| - |kept|), 0);
    }
  }

  /** One digit other than 0, perhaps a point and digits that do not end in 0, and a power of ten with its sign. */
  predicate IsScientific(n: Number, text: string, first: string, others: string, exponent: int) {
    && |first| == 1 && AllDigits(first + others) && first != "0" && (others != [] ==> others[|others| - 1] != '0')
    && text == (if n.mantissa < 0 then "-" else "") + first + (if others == [] then "" else "." + others) + "e" +
               (if exponent < 0 then "-" else "+") + NatText(Magnitude(exponent))
    && exponent - |others| + n.scale >= 0
    && Magnitude(n.mantissa) == DigitsValue(first + others) * Power10(exponent - |others| + n.scale)
  }

  /** How any other number is printed. */
  lemma {:induction false} ScientificMeaning(n: Number)
    requires !Positional(n)
    ensures exists first, others, exponent :: IsScientific(n, NumberText(n), first, others, exponent)
  {
    hide NatText, Power10, DropZeros, DigitsValue;
    var all := NatText(Magnitude(n.mantissa));
    var digits := DropZeros(all);
    var first, others := digits[..1], digits[1..];
    NatTextStart(Magnitude(n.mantissa));
    NatTextValue(Magnitude(n.mantissa));
    DropZerosValue(all);
    assert first + others == digits;
    assert n.mantissa == 0 ==> Positional(n);
    assert first[0] != '0';
    assert IsScientific(n, NumberText(n), first, others, PointPosition(n) - 1);
  }

  // ----- Quoted texts -----

  /** A pair of quote marks, or one character; a lone quote mark has no other behind it. */
  predicate IsPiece(pieces: seq<string>, i: nat)
    requires i < |pieces|
  {
    || pieces[i] == "''"
    || (|pieces[i]| == 1 && (pieces[i] == "'" && i + 1 < |pieces| ==> !StartsWith(pieces[i + 1], "'")))
  }

  predicate ArePieces(pieces: seq<string>) {
    forall i :: 0 <= i < |pieces| ==> IsPiece(pieces, i)
  }

  /** What the pieces stand for: a pair stands for one quote mark. */
  function Unpaired(pieces: seq<string>): (r: seq<string>)
    ensures |r| == |pieces| && forall i :: 0 <= i < |r| ==> r[i] == if pieces[i] == "''" then "'" else pieces[i]
  {
    seq(|pieces|, i requires 0 <= i < |pieces| => if pieces[i] == "''" then "'" else pieces[i])
  }

  /** `text` is `escaped` with each pair of quote marks, from the left, made one. */
  ghost predicate Unescaped(escaped: string, text: string) {
    exists pieces :: ArePieces(pieces) && escaped == Join(pieces, "") && text == Join(Unpaired(pieces), "")
  }

  lemma {:induction false} JoinCons(piece: string, rest: seq<string>)
    ensures Join([piece] + rest, "") == piece + Join(rest, "")
  {
    assert ([piece] + rest)[1..] == rest;
    if rest == [] {
      assert piece + [] == piece;
    }
  }

  lemma {:induction false} UndoubleStep(s: string, piece: string)
    requires piece == "''" || (|piece| == 1 && (piece == "'" ==> !StartsWith(s, "'")))
    ensures Undouble(piece + s) == (if piece == "''" then "'" else piece) + Undouble(s)
  {
    assert (piece + s)[|piece|..] == s;
    if s != [] && s[0] == '\'' {
      assert s[..1] == "'";
    }
  }

  lemma {:induction false} PiecesFront(pieces: seq<string>)
    requires ArePieces(pieces) && pieces != []
    ensures ArePieces(pieces[1..]) && (pieces[0] == "''" || |pieces[0]| == 1)
    ensures pieces[0] == "'" ==> !StartsWith(Join(pieces[1..], ""), "'")
  {
    var rest := pieces[1..];
    assert IsPiece(pieces, 0);
    forall i | 0 <= i < |rest|
      ensures IsPiece(rest, i)
    {
      assert IsPiece(pieces, i + 1);
    }
    if pieces[0] == "'" && rest != [] {
      assert IsPiece(pieces, 1);
      assert rest == [rest[0]] + rest[1..];
      JoinCons(rest[0], rest[1..]);
      var all := Join(rest, "");
      assert all[..1] == rest[0][..1];
    }
  }

  lemma {:induction false} PiecesUndouble(pieces: seq<string>)
    requires ArePieces(pieces)
    ensures Undouble(Join(pieces, "")) == Join(Unpaired(pieces), "")
    decreases |pieces|
  {
    hide StartsWith, Undouble, Join, ArePieces, Unpaired;
    NoPieces();
    if pieces != [] {
      var piece, rest := pieces[0], pieces[1..];
      PiecesFront(pieces);
      PiecesUndouble(rest);
      assert pieces == [piece] + rest;
      UnpairedCons(piece, rest);
      JoinCons(piece, rest);
      JoinCons(if piece == "''" then "'" else piece, Unpaired(rest));
      UndoubleStep(Join(rest, ""), piece);
    }
  }

  lemma {:induction false} NoPieces()
    ensures Undouble("") == "" && Join([], "") == "" && Unpaired([]) == []
  {
  }

  lemma {:induction false} UnpairedCons(piece: string, rest: seq<string>)
    ensures Unpaired([piece] + rest) == [if piece == "''" then "'" else piece] + Unpaired(rest)
  {
  }

  lemma {:induction false} PiecesOf(s: string) returns (pieces: seq<string>)
    ensures ArePieces(pieces) && Join(pieces, "") == s
    ensures s != [] && s[0] != '\'' ==> pieces != [] && !StartsWith(pieces[0], "'")
  {
    if s == [] {
      pieces := [];
    } else {
      var n := if |s| >= 2 && s[0] == '\'' && s[1] == '\'' then 2 else 1;
      var rest := PiecesOf(s[n..]);
      pieces := [s[..n]] + rest;
      JoinCons(s[..n], rest);
      assert s == s[..n] + s[n..];
      if n == 1 && |s| >= 2 {
        assert s[0] == '\'' ==> s[1..][0] != '\'';
      }
      forall i | 0 <= i < |pieces|
        ensures IsPiece(pieces, i)
      {
        if i > 0 {
          assert IsPiece(rest, i - 1);
        }
      }
    }
  }

  lemma {:induction false} UndoubleMeaning(escaped: string, text: string)
    ensures Unescaped(escaped, text) <==> text == Undouble(escaped)
  {
    hide Undouble, ArePieces, Join, Unpaired;
    if Unescaped(escaped, text) {
      var pieces :| ArePieces(pieces) && escaped == Join(pieces, "") && text == Join(Unpaired(pieces), "");
      PiecesUndouble(pieces);
    }
    var pieces := PiecesOf(escaped);
    PiecesUndouble(pieces);
  }

  // ----- Values -----

  /** Text in quote marks, the marks themselves being two. */
  predicate IsQuoted(text: string) {
    StartsAndEndsWithQuote(text) && |text| >= 2
  }

  /** What a url or hash line holds; a lone quote mark holds nothing. */
  ghost predicate SpellsField(value: string, text: string) {
    if IsQuoted(value) then Unescaped(value[1..|value| - 1], text)
    else text == if value == "'" then "" else value
  }

  /** A quoted text, `true` or `false`, a number, or any other text as it stands. */
  ghost predicate SpellsScalar(value: string, v: Scalar) {
    match v
    case Bool(truth) => value == if truth then "true" else "false"
    case Num(n) => SpellsNumber(value, n)
    case Str(text) =>
      if IsQuoted(value) then Unescaped(value[1..|value| - 1], text)
      else text == value && value != "true" && value != "false" && forall n :: !SpellsNumber(value, n)
  }

  lemma {:induction false} FieldMeaning(value: string, text: string)
    requires Trimmed(value)
    ensures SpellsField(value, text) <==> FieldText(value) == text
  {
    hide Undouble, Unescaped, Trim;
    TrimFacts(value);
    if IsQuoted(value) {
      UndoubleMeaning(value[1..|value| - 1], text);
    } else if StartsAndEndsWithQuote(value) {
      assert value == "'";
      NoPieces();
    }
  }

  lemma {:induction false} NumberStart(text: string)
    requires text != [] && (IsNumberText(text) || text == "true" || text == "false")
    ensures text[0] != '\'' && (IsNumberText(text) ==> text != "true" && text != "false")
  {
    if IsNumberText(text) {
      var whole, fraction := UnsignedParts(if text[0] == '-' then text[1..] else text);
      assert IsDigit(whole[0]) && !IsDigit('\'') && !IsDigit('t') && !IsDigit('f');
    }
  }

  lemma {:induction false} ScalarMeaning(value: string, v: Scalar)
    requires value != [] && Trimmed(value)
    ensures SpellsScalar(value, v) <==> ParseScalarValue(value) == v
  {
    hide Undouble, Unescaped, Trim, SpellsNumber, IsNumberText, NumberValue;
    TrimFacts(value);
    if IsNumberText(value) || value == "true" || value == "false" {
      NumberStart(value);
    }
    if v.Num? {
      NumberSpelling(value, v.value);
    }
    if IsNumberText(value) {
      NumberSpelling(value, NumberValue(value));
    }
    forall n | SpellsNumber(value, n)
      ensures IsNumberText(value)
    {
      NumberSpelling(value, n);
    }
    if v.Str? && IsQuoted(value) {
      UndoubleMeaning(value[1..|value| - 1], v.text);
    }
  }
}
