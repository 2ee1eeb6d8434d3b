/**
 What texts the tokenizer of when-expressions accepts, said without it: whitespace and
 token spellings in any order, where no name runs on into the next piece.
 */
module WhenLexis {
  import opened Outcomes
  import opened Text
  import opened WhenSyntax
  import opened WhenRoundTrip
  import opened WhenGrammar

  datatype Piece = Blank(c: char) | Lexeme(token: Token)

  function Spelling(p: Piece): string {
    match p
    case Blank(c) => [c]
    case Lexeme(Name(name)) => name
    case Lexeme(Bang) => "!"
    case Lexeme(AndAnd) => "&&"
    case Lexeme(OrOr) => "||"
    case Lexeme(LParen) => "("
    case Lexeme(RParen) => ")"
  }

  function Spelled(pieces: seq<Piece>): string {
    if pieces == [] then [] else Spelling(pieces[0]) + Spelled(pieces[1..])
  }

  function TokensOf(pieces: seq<Piece>): seq<Token> {
    if pieces == [] then []
    else (if pieces[0].Lexeme? then [pieces[0].token] else []) + TokensOf(pieces[1..])
  }

  /** Whitespace, or a token; a name is one and ends where `rest` begins. */
  predicate FitsBefore(p: Piece, rest: string) {
    match p
    case Blank(c) => IsSpace(c)
    case Lexeme(token) => token.Name? ==> IsName(token.value) && NameEnds(rest)
  }

  predicate WellSpelled(pieces: seq<Piece>) {
    pieces == [] || (FitsBefore(pieces[0], Spelled(pieces[1..])) && WellSpelled(pieces[1..]))
  }

  /** `s` is a well-spelled text of these tokens. */
  ghost predicate Spells(s: string, ts: seq<Token>) {
    exists pieces :: WellSpelled(pieces) && Spelled(pieces) == s && TokensOf(pieces) == ts
  }

  // ----- Well-spelled texts tokenize -----

  lemma {:induction false} TokenizeBlank(c: char, rest: string)
    requires IsSpace(c)
    ensures Tokenize([c] + rest) == Prepend([], Tokenize(rest))
  {
    hide FirstToken;
    assert ([c] + rest)[1..] == rest;
    PrependTwice([], [], Tokenize(rest));
  }

  lemma {:induction false} TokenizePiece(p: Piece, rest: string)
    requires FitsBefore(p, rest)
    ensures Tokenize(Spelling(p) + rest) == Prepend(TokensOf([p]), Tokenize(rest))
  {
    hide Tokenize, Prepend, IsName, IsSpace, NameEnds;
    assert TokensOf([p]) == if p.Lexeme? then [p.token] else [];
    match p
    case Blank(c) => TokenizeBlank(c, rest);
    case Lexeme(Name(name)) => TokenizeName(name, rest);
    case Lexeme(Bang) => TokenizePunctuation("!", Bang, rest);
    case Lexeme(AndAnd) => TokenizePair("&&", AndAnd, rest);
    case Lexeme(OrOr) => TokenizePair("||", OrOr, rest);
    case Lexeme(LParen) => TokenizePunctuation("(", LParen, rest);
    case Lexeme(RParen) => TokenizePunctuation(")", RParen, rest);
  }

  lemma {:induction false} SpelledTokenizes(pieces: seq<Piece>)
    requires WellSpelled(pieces)
    ensures Tokenize(Spelled(pieces)) == Some(TokensOf(pieces))
    decreases |pieces|
  {
    hide FitsBefore, Spelling;
    if pieces == [] {
      TokenizeNothing();
    } else {
      hide Tokenize;
      SpelledTokenizes(pieces[1..]);
      TokenizePiece(pieces[0], Spelled(pieces[1..]));
      TokensOfOne(pieces[0]);
    }
  }

  lemma {:induction false} TokensOfOne(p: Piece)
    ensures TokensOf([p]) == if p.Lexeme? then [p.token] else []
  {
  }

  lemma {:induction false} TokenizeNothing()
    ensures Tokenize([]) == Some([])
  {
  }

  // ----- Texts that tokenize are well-spelled -----

  lemma {:induction false} NamePrefixEnds(s: string)
    ensures NameEnds(s[|NamePrefix(s)|..])
  {
    hide IsNameChar;
    if s != [] && IsNameChar(s[0]) {
      NamePrefixEnds(s[1..]);
      assert s[|NamePrefix(s)|..] == s[1..][|NamePrefix(s[1..])|..];
    }
  }

  /** The first token is spelled at the front of the text. */
  lemma {:induction false} FirstPiece(s: string)
    requires s != [] && FirstToken(s).Some?
    ensures var (token, length) := FirstToken(s).value;
            Spelling(Lexeme(token)) == s[..length] && FitsBefore(Lexeme(token), s[length..])
  {
    hide IsNameChar;
    NamePrefixEnds(s);
    hide NameEnds, IsName;
  }

  lemma {:induction false} TokenizedIsSpelled(s: string) returns (pieces: seq<Piece>)
    requires Tokenize(s).Some?
    ensures WellSpelled(pieces) && Spelled(pieces) == s && TokensOf(pieces) == Tokenize(s).value
    decreases |s|
  {
    hide FirstToken, IsSpace, FitsBefore;
    if s == [] {
      pieces := [];
    } else if IsSpace(s[0]) {
      var rest := TokenizedIsSpelled(s[1..]);
      BlankFits(s[0], s[1..]);
      pieces := [Blank(s[0])] + rest;
      assert pieces[1..] == rest;
    } else {
      var (token, length) := FirstToken(s).value;
      FirstPiece(s);
      var rest := TokenizedIsSpelled(s[length..]);
      pieces := [Lexeme(token)] + rest;
      assert pieces[1..] == rest;
      assert s == s[..length] + s[length..];
    }
  }

  lemma {:induction false} BlankFits(c: char, rest: string)
    requires IsSpace(c)
    ensures FitsBefore(Blank(c), rest) && Spelling(Blank(c)) == [c]
  {
  }

  // ----- The tokenizer and the parser on texts -----

  /** The tokenizer accepts exactly the well-spelled texts, with their tokens. */
  lemma {:induction false} TokenizerIsSpelling(s: string, ts: seq<Token>)
    ensures Tokenize(s) == Some(ts) <==> Spells(s, ts)
  {
    hide Tokenize, WellSpelled, Spelled, TokensOf;
    if Tokenize(s) == Some(ts) {
      var pieces := TokenizedIsSpelled(s);
      assert Spells(s, ts);
    }
    if Spells(s, ts) {
      var pieces :| WellSpelled(pieces) && Spelled(pieces) == s && TokensOf(pieces) == ts;
      SpelledTokenizes(pieces);
    }
  }

  /** The parser accepts exactly the well-spelled texts of expressions, with the tree each of them means. */
  lemma {:induction false} ParserIsGrammarOfTexts(s: string, n: Node)
    ensures Parse(s) == Some(n) <==> exists ts :: Spells(s, ts) && Says(ts, n)
  {
    hide Parse, Tokenize, Spells, Says;
    ParserIsGrammar(s, n);
    if Parse(s) == Some(n) {
      TokenizerIsSpelling(s, Tokenize(s).value);
    }
    if ts :| Spells(s, ts) && Says(ts, n) {
      TokenizerIsSpelling(s, ts);
    }
  }
}
