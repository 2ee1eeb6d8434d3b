/** Reading encoded when-expressions back. */
module WhenRoundTrip {
  import opened Outcomes
  import opened Text
  import opened WhenSyntax
  import G = WhenGrammar

  // ----- Unique readability -----

  /** Identifier names free of the encoder's own punctuation. */
  predicate PlainName(s: string) {
    s != [] && s[0] != '!' && s[0] != '(' && ' ' !in s && ')' !in s
  }

  predicate PlainNames(n: Node) {
    match n
    case Identifier(name) => PlainName(name)
    case Not(x) => PlainNames(x)
    case And(l, r) => PlainNames(l) && PlainNames(r)
    case Or(l, r) => PlainNames(l) && PlainNames(r)
  }

  predicate Delimited(rest: string) {
    rest == [] || rest[0] == ' ' || rest[0] == ')'
  }

  function FirstDelimiter(s: string): nat {
    if s == [] || s[0] == ' ' || s[0] == ')' then 0 else 1 + FirstDelimiter(s[1..])
  }

  lemma {:induction false} NameStopsAtDelimiter(a: string, x: string)
    requires ' ' !in a && ')' !in a && Delimited(x)
    ensures FirstDelimiter(a + x) == |a|
  {
    if a == [] {
      assert a + x == x;
    } else {
      assert (a + x)[1..] == a[1..] + x;
      NameStopsAtDelimiter(a[1..], x);
    }
  }

  lemma {:induction false} NamesReadOnce(a: string, b: string, x: string, y: string)
    requires PlainName(a) && PlainName(b) && Delimited(x) && Delimited(y)
    requires a + x == b + y
    ensures a == b && x == y
  {
    NameStopsAtDelimiter(a, x);
    NameStopsAtDelimiter(b, y);
    assert (a + x)[..|a|] == a && (a + x)[|a|..] == x;
    assert (b + y)[..|b|] == b && (b + y)[|b|..] == y;
  }

  function Infix(n: Node): string
    requires n.And? || n.Or?
  {
    if n.And? then " && " else " || "
  }

  lemma {:induction false} PeelNot(x: Node, rest: string)
    ensures (Encode(Not(x)) + rest)[2..] == Encode(x) + (")" + rest)
    ensures Delimited(")" + rest) && (")" + rest)[1..] == rest
  {
  }

  /** What follows the left operand. */
  function AfterLeft(n: Node, rest: string): string
    requires n.And? || n.Or?
  {
    Infix(n) + (Encode(n.right) + (")" + rest))
  }

  lemma {:induction false} PeelBinary(n: Node, rest: string)
    requires n.And? || n.Or?
    ensures |Encode(n)| >= 1 && (Encode(n) + rest)[1..] == Encode(n.left) + AfterLeft(n, rest)
    ensures var after := AfterLeft(n, rest);
            && Delimited(after) && |after| >= 4 && (after[1] == '&' <==> n.And?)
            && after[4..] == Encode(n.right) + (")" + rest)
    ensures Delimited(")" + rest) && (")" + rest)[1..] == rest
  {
    var after := AfterLeft(n, rest);
    assert Encode(n) + rest == "(" + (Encode(n.left) + after);
    assert after[1] == Infix(n)[1];
  }

  /** Two encodings followed by a delimiter or nothing can only be equal if the trees are. */
  lemma {:induction false} UniqueReadability(a: Node, b: Node, x: string, y: string)
    requires PlainNames(a) && PlainNames(b) && Delimited(x) && Delimited(y)
    requires Encode(a) + x == Encode(b) + y
    ensures a == b && x == y
    decreases a
  {
    hide Delimited, PlainName;
    FirstChar(a, x);
    FirstChar(b, y);
    if a.Identifier? {
      NamesReadOnce(a.name, b.name, x, y);
    } else {
      hide Encode, AfterLeft;
      if a.Not? {
        PeelNot(a.node, x);
        PeelNot(b.node, y);
        UniqueReadability(a.node, b.node, ")" + x, ")" + y);
      } else {
        PeelBinary(a, x);
        PeelBinary(b, y);
        UniqueReadability(a.left, b.left, AfterLeft(a, x), AfterLeft(b, y));
        UniqueReadability(a.right, b.right, ")" + x, ")" + y);
      }
    }
  }

  lemma {:induction false} FirstChar(n: Node, x: string)
    requires PlainNames(n)
    ensures var s := Encode(n) + x;
            && s != []
            && (n.Not? <==> s[0] == '!')
            && (n.And? || n.Or? <==> s[0] == '(')
  {
  }

  /** `encodeWhenAst` is injective on trees with plain names. */
  lemma {:induction false} EncodeInjective(a: Node, b: Node)
    requires PlainNames(a) && PlainNames(b) && Encode(a) == Encode(b)
    ensures a == b
  {
    assert Encode(a) + [] == Encode(a) && Encode(b) + [] == Encode(b);
    UniqueReadability(a, b, [], []);
  }

  // ----- Tokens of an encoding -----

  function Tokens(n: Node): (ts: seq<Token>)
    ensures ts != []
  {
    match n
    case Identifier(name) => [Name(name)]
    case Not(x) => [Bang, LParen] + Tokens(x) + [RParen]
    case And(l, r) => [LParen] + Tokens(l) + [AndAnd] + Tokens(r) + [RParen]
    case Or(l, r) => [LParen] + Tokens(l) + [OrOr] + Tokens(r) + [RParen]
  }

  predicate NameEnds(rest: string) {
    rest == [] || !IsNameChar(rest[0])
  }

  lemma {:induction false} NamePrefixOf(name: string, rest: string)
    requires (forall i :: 0 <= i < |name| ==> IsNameChar(name[i])) && NameEnds(rest)
    ensures NamePrefix(name + rest) == name
  {
    if name == [] {
      assert name + rest == rest;
    } else {
      NamePrefixOf(name[1..], rest);
      assert (name + rest)[1..] == name[1..] + rest;
      assert name == [name[0]] + name[1..];
    }
  }

  lemma {:induction false} FirstTokenName(s: string)
    requires s != [] && IsNameStart(s[0])
    ensures FirstToken(s) == Some((Name(NamePrefix(s)), |NamePrefix(s)|))
  {
    if |s| >= 2 {
      assert s[..2][0] == s[0];
    }
  }

  lemma {:induction false} TokenizeName(name: string, rest: string)
    requires IsName(name) && NameEnds(rest)
    ensures Tokenize(name + rest) == Prepend([Name(name)], Tokenize(rest))
  {
    var s := name + rest;
    NamePrefixOf(name, rest);
    assert s[0] == name[0] && !IsSpace(s[0]);
    FirstTokenName(s);
    assert s[|name|..] == rest;
    hide FirstToken, NamePrefix;
  }

  /** A text that starts with the punctuation of `token`. */
  lemma {:induction false} TokenizePunctuation(text: string, token: Token, rest: string)
    requires (text == "!" && token == Bang) || (text == "(" && token == LParen) || (text == ")" && token == RParen)
    ensures Tokenize(text + rest) == Prepend([token], Tokenize(rest))
  {
    var s := text + rest;
    assert s[0] == text[0] && s[1..] == rest;
    assert FirstToken(s) == Some((token, 1)) && !IsSpace(s[0]);
    hide FirstToken, IsSpace;
  }

  lemma {:induction false} TokenizeInfix(text: string, token: Token, rest: string)
    requires (text == " && " && token == AndAnd) || (text == " || " && token == OrOr)
    ensures Tokenize(text + rest) == Prepend([token], Tokenize(rest))
  {
    hide Tokenize;
    var middle := text[1..3];
    var after := " " + rest;
    assert text + rest == " " + (middle + after);
    TokenizeSpace(middle + after);
    TokenizeSpace(rest);
    TokenizePair(middle, token, after);
  }

  lemma {:induction false} TokenizeSpace(rest: string)
    ensures Tokenize(" " + rest) == Tokenize(rest)
  {
    assert (" " + rest)[1..] == rest && IsSpace(' ');
  }

  lemma {:induction false} TokenizePair(text: string, token: Token, rest: string)
    requires (text == "&&" && token == AndAnd) || (text == "||" && token == OrOr)
    ensures Tokenize(text + rest) == Prepend([token], Tokenize(rest))
  {
    var s := text + rest;
    assert s[..2] == text && s[2..] == rest && s[0] == text[0];
    assert FirstToken(s) == Some((token, 2));
    hide FirstToken;
    assert !IsSpace(s[0]);
  }

  lemma {:induction false} TokenizeAndAnd(rest: string)
    ensures Tokenize("&&" + rest) == Prepend([AndAnd], Tokenize(rest))
  {
    TokenizePair("&&", AndAnd, rest);
  }

  /** Encoding and then tokenizing yields the tree's tokens. */
  lemma {:induction false} TokenizeEncoding(n: Node, rest: string)
    requires ValidNames(n) && NameEnds(rest)
    ensures Tokenize(Encode(n) + rest) == Prepend(Tokens(n), Tokenize(rest))
    decreases n
  {
    hide Tokenize, FirstToken, Prepend, IsName, IsNameChar;
    match n
    case Identifier(name) => TokenizeName(name, rest);
    case Not(x) =>
      PunctuationEndsNames(rest);
      assert Encode(n) + rest == "!" + ("(" + (Encode(x) + (")" + rest)));
      TokenizePunctuation("!", Bang, "(" + (Encode(x) + (")" + rest)));
      TokenizePunctuation("(", LParen, Encode(x) + (")" + rest));
      TokenizeEncoding(x, ")" + rest);
      TokenizePunctuation(")", RParen, rest);
      PrependFive([Bang], [LParen], Tokens(x), [RParen], [], Tokenize(rest));
      PrependTwice([], [], Tokenize(rest));
      assert [Bang] + [LParen] + Tokens(x) + [RParen] + [] == Tokens(n);
    case _ =>
      TokenizeBinary(n, rest);
  }

  lemma {:induction false} PrependFive(a: seq<Token>, b: seq<Token>, c: seq<Token>, d: seq<Token>, e: seq<Token>,
      rest: Option<seq<Token>>)
    ensures Prepend(a, Prepend(b, Prepend(c, Prepend(d, Prepend(e, rest))))) == Prepend(a + b + c + d + e, rest)
  {
    if rest.Some? {
      assert a + (b + (c + (d + (e + rest.value)))) == a + b + c + d + e + rest.value;
    }
  }

  lemma {:induction false} PunctuationEndsNames(rest: string)
    ensures NameEnds(")" + rest) && NameEnds(" && " + rest) && NameEnds(" || " + rest)
  {
  }

  lemma {:induction false} TokenizeBinary(n: Node, rest: string)
    requires ValidNames(n) && NameEnds(rest) && (n.And? || n.Or?)
    ensures Tokenize(Encode(n) + rest) == Prepend(Tokens(n), Tokenize(rest))
    decreases n, 0
  {
    hide Tokenize, FirstToken, Prepend, IsName, IsNameChar;
    var infix, token := Infix(n), if n.And? then AndAnd else OrOr;
    var last := ")" + rest;
    var right := Encode(n.right) + last;
    PunctuationEndsNames(rest);
    PunctuationEndsNames(right);
    assert Encode(n) + rest == "(" + (Encode(n.left) + (infix + right));
    TokenizePunctuation("(", LParen, Encode(n.left) + (infix + right));
    TokenizeEncoding(n.left, infix + right);
    TokenizeInfix(infix, token, right);
    TokenizeEncoding(n.right, last);
    TokenizePunctuation(")", RParen, rest);
    PrependFive([LParen], Tokens(n.left), [token], Tokens(n.right), [RParen], Tokenize(rest));
  }

  // ----- Parsing an encoding -----

  /** How many parentheses the encoding opens around its deepest identifier. */
  function Nesting(n: Node): nat {
    match n
    case Identifier(_) => 0
    case Not(x) => 1 + Nesting(x)
    case And(l, r) => 1 + if Nesting(l) >= Nesting(r) then Nesting(l) else Nesting(r)
    case Or(l, r) => 1 + if Nesting(l) >= Nesting(r) then Nesting(l) else Nesting(r)
  }

  /** What reading a tree's tokens at some depth gives: the tree, unless it nests too deep. */
  function Reading(n: Node, rest: seq<Token>, depth: nat): Parsed {
    if depth + Nesting(n) <= MAX_DEPTH then Some((n, rest)) else None
  }

  predicate StopsExpression(rest: seq<Token>) {
    rest == [] || rest[0].RParen?
  }

  lemma {:induction false} PrimaryName(name: string, rest: seq<Token>, depth: nat)
    ensures ParsePrimary([Name(name)] + rest, depth) == Reading(Identifier(name), rest, depth)
  {
    assert ([Name(name)] + rest)[1..] == rest;
  }

  /** A parenthesised group whose inside reads as `Reading` says. */
  lemma {:induction false} PrimaryGroup(inner: seq<Token>, n: Node, rest: seq<Token>, depth: nat, nesting: nat)
    requires ParseOr(inner + ([RParen] + rest), depth + 1) ==
             if depth + 1 + nesting <= MAX_DEPTH then Some((n, [RParen] + rest)) else None
    ensures ParsePrimary([LParen] + (inner + ([RParen] + rest)), depth) ==
            if depth + 1 + nesting <= MAX_DEPTH then Some((n, rest)) else None
  {
    var ts := [LParen] + (inner + ([RParen] + rest));
    assert ts[1..] == inner + ([RParen] + rest);
    assert ([RParen] + rest)[1..] == rest;
  }

  lemma {:induction false} UnaryWithoutBang(ts: seq<Token>, depth: nat)
    requires ts != [] && !ts[0].Bang?
    ensures ParseUnary(ts, depth) == ParsePrimary(ts, depth)
  {
    assert ts[0..] == ts;
  }

  lemma {:induction false} UnaryWithBang(ts: seq<Token>, depth: nat)
    requires ts != [] && !ts[0].Bang?
    ensures ParseUnary([Bang] + ts, depth) ==
            match ParsePrimary(ts, depth) { case Some((n, rest)) => Some((Not(n), rest)) case None => None }
  {
    var all := [Bang] + ts;
    assert all[1..] == ts;
    assert NotCount(ts) == 0 && NotCount(all) == 1;
    match ParsePrimary(ts, depth)
    case None =>
    case Some((n, rest)) => assert WrapNot(n, 1) == Not(n);
  }

  /** The unary parser reads an encoding, whatever follows it. */
  lemma {:induction false} UnaryReads(n: Node, rest: seq<Token>, depth: nat)
    ensures ParseUnary(Tokens(n) + rest, depth) == Reading(n, rest, depth)
    decreases n, 2
  {
    hide ParseUnary, ParsePrimary, ParseAnd, ParseOr, AndTail, OrTail;
    match n
    case Identifier(name) =>
      UnaryWithoutBang([Name(name)] + rest, depth);
      PrimaryName(name, rest, depth);
    case Not(x) => UnaryReadsNot(x, rest, depth);
    case And(_, _) => UnaryReadsBinary(n, rest, depth);
    case Or(_, _) => UnaryReadsBinary(n, rest, depth);
  }

  lemma {:induction false} UnaryReadsNot(x: Node, rest: seq<Token>, depth: nat)
    ensures ParseUnary(Tokens(Not(x)) + rest, depth) == Reading(Not(x), rest, depth)
    decreases x, 4
  {
    hide ParseUnary, ParsePrimary, ParseAnd, ParseOr, AndTail, OrTail;
    var inner, after := Tokens(x), [RParen] + rest;
    var group := [LParen] + (inner + after);
    assert Tokens(Not(x)) + rest == [Bang] + group;
    OrReads(x, after, depth + 1);
    hide Tokens;
    PrimaryGroup(inner, x, rest, depth, Nesting(x));
    UnaryWithBang(group, depth);
  }

  lemma {:induction false} UnaryReadsBinary(n: Node, rest: seq<Token>, depth: nat)
    requires n.And? || n.Or?
    ensures ParseUnary(Tokens(n) + rest, depth) == Reading(n, rest, depth)
    decreases n, 1
  {
    hide ParseUnary, ParsePrimary, ParseAnd, ParseOr, AndTail, OrTail;
    var token := if n.And? then AndAnd else OrOr;
    var after := [RParen] + rest;
    var inner := Tokens(n.left) + ([token] + Tokens(n.right));
    assert Tokens(n) + rest == [LParen] + (inner + after);
    hide Tokens;
    assert inner + after == Tokens(n.left) + ([token] + (Tokens(n.right) + after));
    BinaryReads(n, after, depth + 1);
    PrimaryGroup(inner, n, rest, depth, Nesting(n) - 1);
    UnaryWithoutBang([LParen] + (inner + after), depth);
  }

  /** A whole expression read up to its closing parenthesis or the end. */
  lemma {:induction false} OrReads(n: Node, rest: seq<Token>, depth: nat)
    requires StopsExpression(rest)
    ensures ParseOr(Tokens(n) + rest, depth) == Reading(n, rest, depth)
    decreases n, 3
  {
    hide ParseUnary, ParsePrimary, Tokens, Nesting;
    UnaryReads(n, rest, depth);
    assert ParseAnd(Tokens(n) + rest, depth) == Reading(n, rest, depth);
  }

  lemma {:induction false} AndParses(ts: seq<Token>, l: Node, ts2: seq<Token>, r: Node, rest: seq<Token>, depth: nat,
      okLeft: bool, okRight: bool)
    requires ParseUnary(ts, depth) == if okLeft then Some((l, [AndAnd] + ts2)) else None
    requires ParseUnary(ts2, depth) == if okRight then Some((r, rest)) else None
    requires StopsExpression(rest)
    ensures ParseOr(ts, depth) == if okLeft && okRight then Some((And(l, r), rest)) else None
  {
    hide ParseUnary;
    assert ([AndAnd] + ts2)[1..] == ts2;
    assert AndTail(And(l, r), rest, depth) == Some((And(l, r), rest));
    assert AndTail(l, [AndAnd] + ts2, depth) == if okRight then Some((And(l, r), rest)) else None;
    assert ParseAnd(ts, depth) == if okLeft && okRight then Some((And(l, r), rest)) else None;
  }

  lemma {:induction false} OrParses(ts: seq<Token>, l: Node, ts2: seq<Token>, r: Node, rest: seq<Token>, depth: nat,
      okLeft: bool, okRight: bool)
    requires ParseUnary(ts, depth) == if okLeft then Some((l, [OrOr] + ts2)) else None
    requires ParseUnary(ts2, depth) == if okRight then Some((r, rest)) else None
    requires StopsExpression(rest)
    ensures ParseOr(ts, depth) == if okLeft && okRight then Some((Or(l, r), rest)) else None
  {
    hide ParseUnary;
    assert ([OrOr] + ts2)[1..] == ts2;
    assert ParseAnd(ts2, depth) == if okRight then Some((r, rest)) else None;
    assert ParseAnd(ts, depth) == if okLeft then Some((l, [OrOr] + ts2)) else None;
    assert OrTail(Or(l, r), rest, depth) == Some((Or(l, r), rest));
    assert OrTail(l, [OrOr] + ts2, depth) == if okRight then Some((Or(l, r), rest)) else None;
  }

  /** The inside of a parenthesised `and` or `or`. */
  lemma {:induction false} BinaryReads(n: Node, rest: seq<Token>, depth: nat)
    requires (n.And? || n.Or?) && StopsExpression(rest)
    ensures var token := if n.And? then AndAnd else OrOr;
            ParseOr(Tokens(n.left) + ([token] + (Tokens(n.right) + rest)), depth) ==
            if depth + Nesting(n) - 1 <= MAX_DEPTH then Some((n, rest)) else None
    decreases n, 0
  {
    hide ParseUnary, ParseOr, ParseAnd, Tokens, Nesting;
    var token := if n.And? then AndAnd else OrOr;
    var right := Tokens(n.right) + rest;
    var left := Tokens(n.left) + ([token] + right);
    var okLeft, okRight := depth + Nesting(n.left) <= MAX_DEPTH, depth + Nesting(n.right) <= MAX_DEPTH;
    UnaryReads(n.left, [token] + right, depth);
    UnaryReads(n.right, rest, depth);
    NestingOfBinary(n);
    if n.And? {
      AndParses(left, n.left, right, n.right, rest, depth, okLeft, okRight);
    } else {
      OrParses(left, n.left, right, n.right, rest, depth, okLeft, okRight);
    }
  }

  lemma {:induction false} NestingOfBinary(n: Node)
    requires n.And? || n.Or?
    ensures Nesting(n) - 1 == if Nesting(n.left) >= Nesting(n.right) then Nesting(n.left) else Nesting(n.right)
  {
  }

  /** Parsing an encoding gives the tree back exactly when it nests at most 64 deep, and fails otherwise. */
  lemma {:induction false} ParseEncoding(n: Node)
    requires ValidNames(n)
    ensures Parse(Encode(n)) == if Nesting(n) <= MAX_DEPTH then Some(n) else None
  {
    TokenizeEncoding(n, []);
    assert Encode(n) + [] == Encode(n);
    assert Tokens(n) + [] == Tokens(n);
    OrReads(n, [], 0);
  }

  /** The condition a tree is stored as: its encoding, unless the rule's schema refuses it for its length. */
  function Stored(n: Node): Option<string> {
    if |Encode(n)| <= MAX_LENGTH then Some(Encode(n)) else None
  }

  /** An accepted expression can be stored and read back exactly when its tree is neither too deep nor too long. */
  lemma {:induction false} CanonicalForm(s: string)
    requires Parse(s).Some?
    ensures var n := Parse(s).value;
            (Stored(n).Some? && Parse(Stored(n).value) == Some(n)) <==>
                Nesting(n) <= MAX_DEPTH && |Encode(n)| <= MAX_LENGTH
  {
    ParseEncoding(Parse(s).value);
  }

  // ----- Accepted expressions whose canonical form is not accepted -----

  /** `a&&a&&...&&a` with `k` operators. */
  function ChainText(k: nat): string {
    "a" + ChainTail(k)
  }

  function ChainTail(k: nat): string {
    if k == 0 then [] else "&&" + ("a" + ChainTail(k - 1))
  }

  function ChainNode(left: Node, k: nat): Node
    decreases k
  {
    if k == 0 then left else ChainNode(And(left, Identifier("a")), k - 1)
  }

  function ChainTokens(k: nat): seq<Token> {
    if k == 0 then [] else [AndAnd] + ([Name("a")] + ChainTokens(k - 1))
  }

  lemma {:induction false} ChainShape(k: nat)
    ensures NameEnds(ChainTail(k)) && |ChainTail(k)| == 3 * k
  {
    if k > 0 {
      ChainShape(k - 1);
    }
  }

  lemma {:induction false} TokenizeLink(rest: string, ts: seq<Token>)
    requires NameEnds(rest) && Tokenize(rest) == Some(ts)
    ensures Tokenize("&&" + ("a" + rest)) == Some([AndAnd] + ([Name("a")] + ts))
  {
    hide Tokenize, NameEnds;
    TokenizeLetter(rest);
    TokenizeAndAnd("a" + rest);
  }

  lemma {:induction false} TokenizeChain(k: nat)
    ensures Tokenize(ChainTail(k)) == Some(ChainTokens(k))
  {
    if k > 0 {
      TokenizeLonger(k);
    }
  }

  lemma {:induction false} TokenizeLonger(k: nat)
    requires k > 0
    ensures Tokenize(ChainTail(k)) == Some(ChainTokens(k))
    decreases k, 0
  {
    hide Tokenize, NameEnds;
    TokenizeChain(k - 1);
    ChainShape(k - 1);
    TokenizeLink(ChainTail(k - 1), ChainTokens(k - 1));
  }

  lemma {:induction false} TokenizeLetter(rest: string)
    requires NameEnds(rest)
    ensures Tokenize("a" + rest) == Prepend([Name("a")], Tokenize(rest))
  {
    TokenizeName("a", rest);
  }

  lemma {:induction false} LetterParses(rest: seq<Token>)
    ensures ParseUnary([Name("a")] + rest, 0) == Some((Identifier("a"), rest))
  {
    UnaryWithoutBang([Name("a")] + rest, 0);
    PrimaryName("a", rest, 0);
  }

  lemma {:induction false} ParseChain(left: Node, k: nat)
    ensures AndTail(left, ChainTokens(k), 0) == Some((ChainNode(left, k), []))
    decreases k
  {
    if k > 0 {
      hide AndTail, ChainTokens, ChainNode;
      ParseChain(And(left, Identifier("a")), k - 1);
      ChainStep(left, k);
    }
  }

  lemma {:induction false} ChainStep(left: Node, k: nat)
    requires k > 0
    ensures AndTail(left, ChainTokens(k), 0) == AndTail(And(left, Identifier("a")), ChainTokens(k - 1), 0)
    ensures ChainNode(left, k) == ChainNode(And(left, Identifier("a")), k - 1)
  {
    hide ParseUnary;
    assert ChainTokens(k)[1..] == [Name("a")] + ChainTokens(k - 1);
    LetterParses(ChainTokens(k - 1));
  }

  lemma {:induction false} ChainNesting(left: Node, k: nat)
    ensures Nesting(ChainNode(left, k)) == Nesting(left) + k
    decreases k
  {
    if k > 0 {
      ChainNesting(And(left, Identifier("a")), k - 1);
    }
  }

  lemma {:induction false} ChainLength(left: Node, k: nat)
    ensures |Encode(ChainNode(left, k))| == |Encode(left)| + 7 * k
    decreases k
  {
    if k > 0 {
      ChainLength(And(left, Identifier("a")), k - 1);
    }
  }

  lemma {:induction false} ChainParses(k: nat)
    ensures |ChainText(k)| == 3 * k + 1 && Parse(ChainText(k)) == Some(ChainNode(Identifier("a"), k))
  {
    TokenizeChain(k);
    ChainShape(k);
    TokenizeLetter(ChainTail(k));
    var ts := [Name("a")] + ChainTokens(k);
    LetterParses(ChainTokens(k));
    ParseChain(Identifier("a"), k);
    assert ParseOr(ts, 0) == Some((ChainNode(Identifier("a"), k), []));
  }

  /** 37 chained operators fit the length limit and parse, but their canonical form is too long, at no great depth. */
  lemma {:induction false} LongChain()
    ensures var s := ChainText(37);
            |s| <= MAX_LENGTH && Parse(s).Some? &&
            Nesting(Parse(s).value) <= MAX_DEPTH && Stored(Parse(s).value) == None
  {
    hide Parse, Encode, Nesting;
    ChainParses(37);
    ChainNesting(Identifier("a"), 37);
    ChainLength(Identifier("a"), 37);
    LetterFacts();
  }

  /** 65 chained operators fit the length limit and parse, but their encoding nests too deep to parse. */
  lemma {:induction false} DeepChain()
    ensures var s := ChainText(65);
            |s| <= MAX_LENGTH && Parse(s).Some? && Parse(Encode(Parse(s).value)) == None
  {
    hide Parse, Encode, Nesting;
    ChainParses(65);
    ChainNesting(Identifier("a"), 65);
    LetterFacts();
    ParseEncoding(ChainNode(Identifier("a"), 65));
  }

  lemma {:induction false} LetterFacts()
    ensures Nesting(Identifier("a")) == 0 && |Encode(Identifier("a"))| == 1
  {
  }

  // ----- Depth alone -----

  /** `!!...!(!!...!a)` with 33 and 32 negations. */
  function DeepText(): string {
    Marks(33) + ("(" + (Marks(32) + ("a" + ")")))
  }

  function Marks(count: nat): (s: string)
    ensures |s| == count
  {
    if count == 0 then "" else "!" + Marks(count - 1)
  }

  const DEEP := G.Negation(33, G.Group(G.Negation(32, G.Word("a"))))

  lemma {:induction false} TokenizeMarks(count: nat, rest: string)
    ensures Tokenize(Marks(count) + rest) == Prepend(G.Bangs(count), Tokenize(rest))
  {
    hide Tokenize;
    if count == 0 {
      assert Marks(0) + rest == rest && G.Bangs(0) == [];
      PrependTwice([], [], Tokenize(rest));
    } else {
      assert Marks(count) + rest == "!" + (Marks(count - 1) + rest);
      TokenizePunctuation("!", Bang, Marks(count - 1) + rest);
      TokenizeMarks(count - 1, rest);
      PrependTwice([Bang], G.Bangs(count - 1), Tokenize(rest));
      assert G.Bangs(count) == [Bang] + G.Bangs(count - 1);
    }
  }

  lemma {:induction false} DeepTokens()
    ensures Tokenize(DeepText()) == Some(G.Written(DEEP))
  {
    hide Tokenize, Marks, G.Bangs;
    var inner := "a" + ")";
    PunctuationEndsNames("");
    TokenizeNothing();
    assert ")" + "" == ")";
    TokenizePunctuation(")", RParen, "");
    TokenizeLetter(")");
    TokenizeMarks(32, inner);
    TokenizePunctuation("(", LParen, Marks(32) + inner);
    TokenizeMarks(33, "(" + (Marks(32) + inner));
    var inside := G.Written(G.Negation(32, G.Word("a")));
    assert G.Bangs(32) + ([Name("a")] + ([RParen] + [])) == inside + [RParen];
  }

  lemma {:induction false} TokenizeNothing()
    ensures Tokenize("") == Some([])
  {
  }

  lemma {:induction false} WrapNotFacts(n: Node, count: nat)
    ensures Nesting(WrapNot(n, count)) == Nesting(n) + count
    ensures |Encode(WrapNot(n, count))| == |Encode(n)| + 3 * count
    decreases count
  {
    if count > 0 {
      WrapNotFacts(Not(n), count - 1);
    }
  }

  /** 65 negations, 32 of them in parentheses, parse; their canonical form is short enough but too deep to parse. */
  lemma {:induction false} DeepNegation()
    ensures var s := DeepText();
            |s| <= MAX_LENGTH && Parse(s).Some? &&
            |Encode(Parse(s).value)| <= MAX_LENGTH && Parse(Encode(Parse(s).value)) == None
  {
    hide Parse, Encode, Tokenize, Nesting, WrapNot;
    var n := G.Meaning(DEEP);
    DeepTokens();
    assert G.IsExpression(DEEP) && G.Depth(DEEP) == 1;
    assert G.Explains(DEEP, G.Written(DEEP), n, [], 0);
    G.ParserIsGrammar(DeepText(), n);
    var inner := WrapNot(Identifier("a"), 32);
    WrapNotFacts(Identifier("a"), 32);
    WrapNotFacts(inner, 33);
    LetterFacts();
    assert n == WrapNot(inner, 33);
    ParseEncoding(n);
  }
}
