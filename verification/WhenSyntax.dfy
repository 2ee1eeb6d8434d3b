/**
 When-expressions of keybinding rules: the encoder of
 `ch3/apps/server/src/keybindings.ts` and the tokenizer and parser of
 `ch3/packages/shared/src/keybindings.ts`.
 */
module WhenSyntax {
  import opened Outcomes
  import opened Text

  /** `MAX_KEYBINDING_WHEN_LENGTH`. */
  const MAX_LENGTH: nat := 256

  /** `MAX_WHEN_EXPRESSION_DEPTH`. */
  const MAX_DEPTH: nat := 64

  datatype Node =
    | Identifier(name: string)
    | Not(node: Node)
    | And(left: Node, right: Node)
    | Or(left: Node, right: Node)

  datatype Token = Name(value: string) | Bang | AndAnd | OrOr | LParen | RParen

  // ----- Encoding -----

  /** `encodeWhenAst`. */
  function Encode(n: Node): string {
    match n
    case Identifier(name) => name
    case Not(x) => "!(" + Encode(x) + ")"
    case And(l, r) => "(" + Encode(l) + " && " + Encode(r) + ")"
    case Or(l, r) => "(" + Encode(l) + " || " + Encode(r) + ")"
  }

  // ----- Tokenizing -----

  predicate IsNameStart(c: char) {
    IsLetter(c) || c == '_'
  }

  predicate IsNameChar(c: char) {
    IsLetter(c) || IsDigit(c) || c == '_' || c == '.' || c == '-'
  }

  /** What `[A-Za-z_][A-Za-z0-9_.-]*` matches in full. */
  predicate IsName(s: string) {
    s != [] && IsNameStart(s[0]) && forall i :: 0 <= i < |s| ==> IsNameChar(s[i])
  }

  function NamePrefix(s: string): (p: string)
    ensures p <= s
    ensures forall i :: 0 <= i < |p| ==> IsNameChar(p[i])
    ensures s != [] && IsNameChar(s[0]) ==> p != []
  {
    if s != [] && IsNameChar(s[0]) then [s[0]] + NamePrefix(s[1..]) else []
  }

  /** The token at the front of a text that does not start with whitespace, and its length. */
  function FirstToken(s: string): (r: Option<(Token, nat)>)
    requires s != []
    ensures r.Some? ==> 0 < r.value.1 <= |s| && (r.value.0.Name? ==> IsName(r.value.0.value))
  {
    if StartsWith(s, "&&") then Some((AndAnd, 2))
    else if StartsWith(s, "||") then Some((OrOr, 2))
    else if s[0] == '!' then Some((Bang, 1))
    else if s[0] == '(' then Some((LParen, 1))
    else if s[0] == ')' then Some((RParen, 1))
    else if IsNameStart(s[0]) then Some((Name(NamePrefix(s)), |NamePrefix(s)|))
    else None
  }

  predicate ValidTokens(ts: seq<Token>) {
    forall i :: 0 <= i < |ts| ==> ts[i].Name? ==> IsName(ts[i].value)
  }

  /** `tokenizeWhenExpression`. */
  function Tokenize(s: string): (r: Option<seq<Token>>)
    ensures r.Some? ==> ValidTokens(r.value)
  {
    if s == [] then Some([])
    else if IsSpace(s[0]) then Tokenize(s[1..])
    else match FirstToken(s)
      case None => None
      case Some((token, length)) =>
        match Tokenize(s[length..])
        case None => None
        case Some(rest) => Some([token] + rest)
  }

  /** The tokens of a text that continues after `ts`. */
  function Prepend(ts: seq<Token>, rest: Option<seq<Token>>): Option<seq<Token>> {
    match rest case None => None case Some(more) => Some(ts + more)
  }

  lemma {:induction false} PrependTwice(a: seq<Token>, b: seq<Token>, rest: Option<seq<Token>>)
    ensures Prepend(a, Prepend(b, rest)) == Prepend(a + b, rest)
    ensures Prepend([], rest) == rest
  {
    if rest.Some? {
      assert a + (b + rest.value) == a + b + rest.value;
      assert [] + rest.value == rest.value;
    }
  }

  // ----- Parsing -----

  predicate ValidNames(n: Node) {
    match n
    case Identifier(name) => IsName(name)
    case Not(x) => ValidNames(x)
    case And(l, r) => ValidNames(l) && ValidNames(r)
    case Or(l, r) => ValidNames(l) && ValidNames(r)
  }

  /** A parsed node and the tokens left. */
  type Parsed = Option<(Node, seq<Token>)>

  predicate Consumes(r: Parsed, ts: seq<Token>) {
    r.Some? ==> |r.value.1| < |ts| && (ValidTokens(ts) ==> ValidNames(r.value.0) && ValidTokens(r.value.1))
  }

  function NotCount(ts: seq<Token>): (n: nat)
    ensures n <= |ts|
  {
    if ts != [] && ts[0].Bang? then 1 + NotCount(ts[1..]) else 0
  }

  function WrapNot(n: Node, count: nat): (r: Node)
    ensures ValidNames(n) ==> ValidNames(r)
    decreases count
  {
    if count == 0 then n else WrapNot(Not(n), count - 1)
  }

  function ParsePrimary(ts: seq<Token>, depth: nat): (r: Parsed)
    ensures Consumes(r, ts)
    decreases |ts|, 0
  {
    if depth > MAX_DEPTH || ts == [] then None
    else if ts[0].Name? then Some((Identifier(ts[0].value), ts[1..]))
    else if ts[0].LParen? then
      match ParseOr(ts[1..], depth + 1)
      case Some((n, rest)) => if rest != [] && rest[0].RParen? then Some((n, rest[1..])) else None
      case None => None
    else None
  }

  function ParseUnary(ts: seq<Token>, depth: nat): (r: Parsed)
    ensures Consumes(r, ts)
    decreases |ts|, 1
  {
    var count := NotCount(ts);
    if count > MAX_DEPTH then None
    else match ParsePrimary(ts[count..], depth)
      case Some((n, rest)) => Some((WrapNot(n, count), rest))
      case None => None
  }

  function AndTail(left: Node, ts: seq<Token>, depth: nat): (r: Parsed)
    ensures r.Some? ==> |r.value.1| <= |ts| &&
                        (ValidNames(left) && ValidTokens(ts) ==> ValidNames(r.value.0) && ValidTokens(r.value.1))
    decreases |ts|, 2
  {
    if ts != [] && ts[0].AndAnd? then
      match ParseUnary(ts[1..], depth)
      case Some((right, rest)) => AndTail(And(left, right), rest, depth)
      case None => None
    else Some((left, ts))
  }

  function ParseAnd(ts: seq<Token>, depth: nat): (r: Parsed)
    ensures Consumes(r, ts)
    decreases |ts|, 3
  {
    match ParseUnary(ts, depth)
    case Some((left, rest)) => AndTail(left, rest, depth)
    case None => None
  }

  function OrTail(left: Node, ts: seq<Token>, depth: nat): (r: Parsed)
    ensures r.Some? ==> |r.value.1| <= |ts| &&
                        (ValidNames(left) && ValidTokens(ts) ==> ValidNames(r.value.0) && ValidTokens(r.value.1))
    decreases |ts|, 4
  {
    if ts != [] && ts[0].OrOr? then
      match ParseAnd(ts[1..], depth)
      case Some((right, rest)) => OrTail(Or(left, right), rest, depth)
      case None => None
    else Some((left, ts))
  }

  function ParseOr(ts: seq<Token>, depth: nat): (r: Parsed)
    ensures Consumes(r, ts)
    decreases |ts|, 5
  {
    match ParseAnd(ts, depth)
    case Some((left, rest)) => OrTail(left, rest, depth)
    case None => None
  }

  /** `parseKeybindingWhenExpression`: an expression that uses up all tokens. */
  function Parse(s: string): (r: Option<Node>)
    ensures r.Some? ==> ValidNames(r.value)
  {
    match Tokenize(s)
    case None => None
    case Some(ts) =>
      match ParseOr(ts, 0)
      case Some((n, rest)) => if rest == [] then Some(n) else None
      case None => None
  }
}

/** The tokenizer's loop and the parser's closures over one shared index. */
module WhenParser {
  import opened Outcomes
  import opened Text
  import opened WhenSyntax

  method TokenizeWhenExpression(expression: string) returns (r: Option<seq<Token>>)
    ensures r == Tokenize(expression)
  {
    hide FirstToken, IsName, ValidTokens;
    var tokens: seq<Token> := [];
    var index := 0;
    assert expression[0..] == expression;
    PrependTwice([], [], Tokenize(expression));
    while index < |expression|
      invariant 0 <= index <= |expression|
      invariant Tokenize(expression) == Prepend(tokens, Tokenize(expression[index..]))
    {
      var suffix := expression[index..];
      if IsSpace(suffix[0]) {
        assert suffix[1..] == expression[index + 1..];
        index := index + 1;
        continue;
      }
      var first := FirstToken(suffix);
      if first.None? {
        return None;
      }
      var (token, length) := first.value;
      assert suffix[length..] == expression[index + length..];
      PrependTwice(tokens, [token], Tokenize(suffix[length..]));
      tokens := tokens + [token];
      index := index + length;
    }
    assert expression[index..] == [];
    assert tokens + [] == tokens;
    r := Some(tokens);
  }

  class Reader {
    const tokens: seq<Token>
    var index: nat

    constructor (tokens: seq<Token>)
      ensures this.tokens == tokens && index == 0
    {
      this.tokens, index := tokens, 0;
    }

    ghost predicate Valid()
      reads this
    {
      index <= |tokens|
    }

    ghost function Rest(): seq<Token>
      reads this
      requires Valid()
    {
      tokens[index..]
    }

    /** The call returned what the function says and moved past what it consumed. */
    ghost predicate Did(r: Option<Node>, parsed: Parsed)
      reads this
    {
      Valid() &&
      match parsed
      case Some((n, rest)) => r == Some(n) && Rest() == rest
      case None => r == None
    }

    method ParsePrimary(depth: nat) returns (r: Option<Node>)
      requires Valid()
      modifies this
      ensures Did(r, WhenSyntax.ParsePrimary(old(Rest()), depth))
      decreases |tokens| - index, 0
    {
      hide ValidNames, ValidTokens, WhenSyntax.ParseAnd, WhenSyntax.OrTail, WhenSyntax.AndTail, WhenSyntax.ParseUnary;
      if depth > MAX_DEPTH || index == |tokens| {
        return None;
      }
      var token := tokens[index];
      if token.Name? {
        index := index + 1;
        return Some(Identifier(token.value));
      }
      if token.LParen? {
        index := index + 1;
        assert Rest() == old(Rest())[1..];
        var inner := ParseOr(depth + 1);
        if inner.None? || index == |tokens| || !tokens[index].RParen? {
          return None;
        }
        index := index + 1;
        return inner;
      }
      return None;
    }

    method ParseUnary(depth: nat) returns (r: Option<Node>)
      requires Valid()
      modifies this
      ensures Did(r, WhenSyntax.ParseUnary(old(Rest()), depth))
      decreases |tokens| - index, 1
    {
      hide ValidNames, ValidTokens, WhenSyntax.ParsePrimary, WhenSyntax.ParseOr, WhenSyntax.ParseAnd,
           WhenSyntax.AndTail, WhenSyntax.OrTail;
      var notCount := 0;
      while index < |tokens| && tokens[index].Bang?
        invariant Valid() && old(index) <= index && notCount == index - old(index) <= MAX_DEPTH
        invariant NotCount(old(Rest())) == notCount + NotCount(Rest())
        decreases |tokens| - index
      {
        assert Rest()[1..] == tokens[index + 1..];
        index := index + 1;
        notCount := notCount + 1;
        if notCount > MAX_DEPTH {
          return None;
        }
      }
      assert Rest() == old(Rest())[notCount..];
      var node := ParsePrimary(depth);
      if node.None? {
        return None;
      }
      var n := node.value;
      while notCount > 0
        invariant WrapNot(n, notCount) == WrapNot(node.value, NotCount(old(Rest())))
        decreases notCount
      {
        n := Not(n);
        notCount := notCount - 1;
      }
      return Some(n);
    }

    method ParseAnd(depth: nat) returns (r: Option<Node>)
      requires Valid()
      modifies this
      ensures Did(r, WhenSyntax.ParseAnd(old(Rest()), depth))
      decreases |tokens| - index, 3
    {
      hide ValidNames, ValidTokens, WhenSyntax.ParsePrimary, WhenSyntax.ParseUnary, WhenSyntax.ParseOr,
           WhenSyntax.OrTail;
      var left := ParseUnary(depth);
      if left.None? {
        return None;
      }
      while index < |tokens| && tokens[index].AndAnd?
        invariant Valid() && left.Some? && old(index) < index
        invariant WhenSyntax.ParseAnd(old(Rest()), depth) == AndTail(left.value, Rest(), depth)
        decreases |tokens| - index
      {
        assert Rest()[1..] == tokens[index + 1..];
        index := index + 1;
        var right := ParseUnary(depth);
        if right.None? {
          return None;
        }
        left := Some(And(left.value, right.value));
      }
      return left;
    }

    method ParseOr(depth: nat) returns (r: Option<Node>)
      requires Valid()
      modifies this
      ensures Did(r, WhenSyntax.ParseOr(old(Rest()), depth))
      decreases |tokens| - index, 5
    {
      hide ValidNames, ValidTokens, WhenSyntax.ParsePrimary, WhenSyntax.ParseUnary, WhenSyntax.ParseAnd,
           WhenSyntax.AndTail;
      var left := ParseAnd(depth);
      if left.None? {
        return None;
      }
      while index < |tokens| && tokens[index].OrOr?
        invariant Valid() && left.Some? && old(index) < index
        invariant WhenSyntax.ParseOr(old(Rest()), depth) == OrTail(left.value, Rest(), depth)
        decreases |tokens| - index
      {
        assert Rest()[1..] == tokens[index + 1..];
        index := index + 1;
        var right := ParseAnd(depth);
        if right.None? {
          return None;
        }
        left := Some(Or(left.value, right.value));
      }
      return left;
    }
  }

  method ParseKeybindingWhenExpression(expression: string) returns (r: Option<Node>)
    ensures r == Parse(expression)
  {
    var tokens := TokenizeWhenExpression(expression);
    if tokens.None? || tokens.value == [] {
      return None;
    }
    var reader := new Reader(tokens.value);
    assert reader.Rest() == tokens.value;
    var ast := reader.ParseOr(0);
    if ast.None? || reader.index != |tokens.value| {
      return None;
    }
    return ast;
  }
}
