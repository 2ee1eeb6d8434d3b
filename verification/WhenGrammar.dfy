/**
 The grammar of when-expressions, said without a parser: which token lists are
 expressions, and which tree each of them means.
 */
module WhenGrammar {
  import opened Outcomes
  import opened WhenSyntax

  /** An expression as it is written. */
  datatype Syntax =
    | Word(name: string)
    | Group(inner: Syntax)
    | Negation(count: nat, operand: Syntax)
    | Conjunction(left: Syntax, right: Syntax)
    | Disjunction(left: Syntax, right: Syntax)

  // ----- Precedence and association -----

  /** A name or a parenthesised expression. */
  predicate IsPrimary(c: Syntax)
    decreases c, 0
  {
    c.Word? || (c.Group? && IsExpression(c.inner))
  }

  /** A primary behind at most 64 negations. */
  predicate IsUnary(c: Syntax)
    decreases c, 1
  {
    IsPrimary(c) || (c.Negation? && 0 < c.count <= 64 && IsPrimary(c.operand))
  }

  /** Conjunctions of unaries, associated to the left. */
  predicate IsConjunction(c: Syntax)
    decreases c, 2
  {
    IsUnary(c) || (c.Conjunction? && IsConjunction(c.left) && IsUnary(c.right))
  }

  /** Disjunctions of conjunctions, associated to the left. */
  predicate IsExpression(c: Syntax)
    decreases c, 3
  {
    IsConjunction(c) || (c.Disjunction? && IsExpression(c.left) && IsConjunction(c.right))
  }

  function Bangs(count: nat): (ts: seq<Token>)
    ensures |ts| == count
  {
    seq(count, _ => Bang)
  }

  /** The tokens of an expression, in order. */
  function Written(c: Syntax): (ts: seq<Token>)
    ensures ts != [] || (c.Negation? && c.count == 0)
  {
    match c
    case Word(name) => [Name(name)]
    case Group(inner) => [LParen] + (Written(inner) + [RParen])
    case Negation(count, operand) => Bangs(count) + Written(operand)
    case Conjunction(left, right) => Written(left) + ([AndAnd] + Written(right))
    case Disjunction(left, right) => Written(left) + ([OrOr] + Written(right))
  }

  /** The tree an expression means; parentheses leave no trace. */
  function Meaning(c: Syntax): Node {
    match c
    case Word(name) => Identifier(name)
    case Group(inner) => Meaning(inner)
    case Negation(count, operand) => WrapNot(Meaning(operand), count)
    case Conjunction(left, right) => And(Meaning(left), Meaning(right))
    case Disjunction(left, right) => Or(Meaning(left), Meaning(right))
  }

  /** How deep parentheses are nested. */
  function Depth(c: Syntax): nat {
    match c
    case Word(_) => 0
    case Group(inner) => 1 + Depth(inner)
    case Negation(_, operand) => Depth(operand)
    case Conjunction(left, right) => if Depth(left) >= Depth(right) then Depth(left) else Depth(right)
    case Disjunction(left, right) => if Depth(left) >= Depth(right) then Depth(left) else Depth(right)
  }

  // ----- Every expression is accepted -----

  lemma {:induction false} BangsCounted(count: nat, ts: seq<Token>)
    requires ts == [] || !ts[0].Bang?
    ensures NotCount(Bangs(count) + ts) == count && (Bangs(count) + ts)[count..] == ts
  {
    var all := Bangs(count) + ts;
    if count == 0 {
      assert all == ts;
    } else {
      BangsCounted(count - 1, ts);
      assert all[1..] == Bangs(count - 1) + ts;
    }
  }

  lemma {:induction false} PrimaryStarts(c: Syntax, rest: seq<Token>)
    requires IsPrimary(c)
    ensures var ts := Written(c) + rest; ts != [] && !ts[0].Bang?
  {
  }

  lemma {:induction false} PrimaryAccepted(c: Syntax, rest: seq<Token>, depth: nat)
    requires IsPrimary(c) && depth + Depth(c) <= MAX_DEPTH
    ensures ParsePrimary(Written(c) + rest, depth) == Some((Meaning(c), rest))
    decreases c, 0
  {
    hide ParseOr, IsExpression;
    var ts := Written(c) + rest;
    if c.Word? {
      assert ts[1..] == rest;
    } else {
      var after := [RParen] + rest;
      assert ts[1..] == Written(c.inner) + after && after[1..] == rest;
      ExpressionAccepted(c.inner, after, depth + 1);
    }
  }

  lemma {:induction false} UnaryAccepted(c: Syntax, rest: seq<Token>, depth: nat)
    requires IsUnary(c) && depth + Depth(c) <= MAX_DEPTH
    ensures ParseUnary(Written(c) + rest, depth) == Some((Meaning(c), rest))
    decreases c, 1
  {
    hide ParsePrimary, IsPrimary;
    if IsPrimary(c) {
      var ts := Written(c) + rest;
      PrimaryStarts(c, rest);
      PrimaryAccepted(c, rest, depth);
      assert ts[0..] == ts;
    } else {
      var ts := Written(c.operand) + rest;
      PrimaryStarts(c.operand, rest);
      BangsCounted(c.count, ts);
      PrimaryAccepted(c.operand, rest, depth);
      assert Written(c) + rest == Bangs(c.count) + ts;
    }
  }

  /** Reading a conjunction leaves the parser where its loop goes on with what follows. */
  lemma {:induction false} ConjunctionRead(c: Syntax, rest: seq<Token>, depth: nat)
    requires IsConjunction(c) && depth + Depth(c) <= MAX_DEPTH
    ensures ParseAnd(Written(c) + rest, depth) == AndTail(Meaning(c), rest, depth)
    decreases c, 2
  {
    hide ParseUnary, IsUnary;
    if IsUnary(c) {
      UnaryAccepted(c, rest, depth);
    } else {
      var after := [AndAnd] + (Written(c.right) + rest);
      assert Written(c) + rest == Written(c.left) + after && after[1..] == Written(c.right) + rest;
      ConjunctionRead(c.left, after, depth);
      UnaryAccepted(c.right, rest, depth);
    }
  }

  lemma {:induction false} ExpressionRead(c: Syntax, rest: seq<Token>, depth: nat)
    requires IsExpression(c) && depth + Depth(c) <= MAX_DEPTH
    requires rest == [] || !rest[0].AndAnd?
    ensures ParseOr(Written(c) + rest, depth) == OrTail(Meaning(c), rest, depth)
    decreases c, 3
  {
    hide ParseAnd, IsConjunction;
    if IsConjunction(c) {
      ConjunctionRead(c, rest, depth);
    } else {
      var after := [OrOr] + (Written(c.right) + rest);
      assert Written(c) + rest == Written(c.left) + after && after[1..] == Written(c.right) + rest;
      ExpressionRead(c.left, after, depth);
      ConjunctionRead(c.right, rest, depth);
    }
  }

  /** Every expression within the depth limit is read up to its end. */
  lemma {:induction false} ExpressionAccepted(c: Syntax, rest: seq<Token>, depth: nat)
    requires IsExpression(c) && depth + Depth(c) <= MAX_DEPTH
    requires rest == [] || rest[0].RParen?
    ensures ParseOr(Written(c) + rest, depth) == Some((Meaning(c), rest))
    decreases c, 4
  {
    hide ParseOr, IsExpression;
    ExpressionRead(c, rest, depth);
  }

  // ----- Everything accepted is an expression -----

  /** `c` is how the tokens in front of `rest` are written, and means `n`. */
  predicate Explains(c: Syntax, ts: seq<Token>, n: Node, rest: seq<Token>, depth: nat) {
    Written(c) + rest == ts && Meaning(c) == n && depth + Depth(c) <= 64
  }

  lemma {:induction false} PrimaryExplained(ts: seq<Token>, depth: nat) returns (c: Syntax)
    requires ParsePrimary(ts, depth).Some?
    ensures var (n, rest) := ParsePrimary(ts, depth).value; IsPrimary(c) && Explains(c, ts, n, rest, depth)
    decreases |ts|, 0
  {
    hide ParseOr, IsExpression;
    if ts[0].Name? {
      c := Word(ts[0].value);
      assert ts == [ts[0]] + ts[1..];
    } else {
      var inner := ExpressionExplained(ts[1..], depth + 1);
      var after := ParseOr(ts[1..], depth + 1).value.1;
      c := Group(inner);
      assert after == [RParen] + after[1..];
      assert Written(c) + after[1..] == [LParen] + (Written(inner) + after) == ts;
    }
  }

  lemma {:induction false} UnaryExplained(ts: seq<Token>, depth: nat) returns (c: Syntax)
    requires ParseUnary(ts, depth).Some?
    ensures var (n, rest) := ParseUnary(ts, depth).value; IsUnary(c) && Explains(c, ts, n, rest, depth)
    decreases |ts|, 1
  {
    hide ParsePrimary, IsPrimary;
    var count := NotCount(ts);
    var operand := PrimaryExplained(ts[count..], depth);
    if count == 0 {
      c := operand;
      assert ts[0..] == ts;
    } else {
      c := Negation(count, operand);
      BangsInFront(ts);
      var rest := ParsePrimary(ts[count..], depth).value.1;
      assert Written(c) + rest == Bangs(count) + (Written(operand) + rest);
    }
  }

  lemma {:induction false} BangsInFront(ts: seq<Token>)
    ensures Bangs(NotCount(ts)) + ts[NotCount(ts)..] == ts
  {
    if ts != [] && ts[0].Bang? {
      BangsInFront(ts[1..]);
      assert forall i :: 0 <= i < NotCount(ts[1..]) ==>
             ts[1..][i] == (Bangs(NotCount(ts[1..])) + ts[1..][NotCount(ts[1..])..])[i];
      assert ts == [ts[0]] + ts[1..];
    }
  }

  lemma {:induction false} AndTailExplained(left: Syntax, ts: seq<Token>, depth: nat) returns (c: Syntax)
    requires IsConjunction(left) && depth + Depth(left) <= MAX_DEPTH && AndTail(Meaning(left), ts, depth).Some?
    ensures var (n, rest) := AndTail(Meaning(left), ts, depth).value;
            IsConjunction(c) && Explains(c, Written(left) + ts, n, rest, depth)
    decreases |ts|, 2
  {
    hide ParseUnary, IsUnary;
    if ts != [] && ts[0].AndAnd? {
      var right := UnaryExplained(ts[1..], depth);
      var after := ParseUnary(ts[1..], depth).value.1;
      var joined := Conjunction(left, right);
      assert ts == [AndAnd] + ts[1..];
      assert Written(joined) + after == Written(left) + ts;
      c := AndTailExplained(joined, after, depth);
    } else {
      c := left;
    }
  }

  lemma {:induction false} ConjunctionExplained(ts: seq<Token>, depth: nat) returns (c: Syntax)
    requires ParseAnd(ts, depth).Some?
    ensures var (n, rest) := ParseAnd(ts, depth).value; IsConjunction(c) && Explains(c, ts, n, rest, depth)
    decreases |ts|, 3
  {
    hide ParseUnary, IsUnary, AndTail;
    var first := UnaryExplained(ts, depth);
    c := AndTailExplained(first, ParseUnary(ts, depth).value.1, depth);
  }

  lemma {:induction false} OrTailExplained(left: Syntax, ts: seq<Token>, depth: nat) returns (c: Syntax)
    requires IsExpression(left) && depth + Depth(left) <= MAX_DEPTH && OrTail(Meaning(left), ts, depth).Some?
    ensures var (n, rest) := OrTail(Meaning(left), ts, depth).value;
            IsExpression(c) && Explains(c, Written(left) + ts, n, rest, depth)
    decreases |ts|, 4
  {
    hide ParseAnd, IsConjunction;
    if ts != [] && ts[0].OrOr? {
      var right := ConjunctionExplained(ts[1..], depth);
      var after := ParseAnd(ts[1..], depth).value.1;
      var joined := Disjunction(left, right);
      assert ts == [OrOr] + ts[1..];
      assert Written(joined) + after == Written(left) + ts;
      c := OrTailExplained(joined, after, depth);
    } else {
      c := left;
    }
  }

  lemma {:induction false} ExpressionExplained(ts: seq<Token>, depth: nat) returns (c: Syntax)
    requires ParseOr(ts, depth).Some?
    ensures var (n, rest) := ParseOr(ts, depth).value; IsExpression(c) && Explains(c, ts, n, rest, depth)
    decreases |ts|, 5
  {
    hide ParseAnd, IsConjunction, OrTail;
    var first := ConjunctionExplained(ts, depth);
    c := OrTailExplained(first, ParseAnd(ts, depth).value.1, depth);
  }

  // ----- The parser is the grammar -----

  /** The tokens are an expression, at most 64 parentheses deep, that means `n`. */
  ghost predicate Says(ts: seq<Token>, n: Node) {
    exists c :: IsExpression(c) && Explains(c, ts, n, [], 0)
  }

  /** The parser accepts exactly the texts whose tokens are an expression, with the tree it means. */
  lemma {:induction false} ParserIsGrammar(s: string, n: Node)
    ensures Parse(s) == Some(n) <==> Tokenize(s).Some? && Says(Tokenize(s).value, n)
  {
    hide ParseOr, IsExpression, Tokenize;
    if Tokenize(s).Some? {
      var ts := Tokenize(s).value;
      if Parse(s) == Some(n) {
        var c := ExpressionExplained(ts, 0);
        assert Explains(c, ts, n, [], 0);
      }
      if Says(ts, n) {
        var c :| IsExpression(c) && Explains(c, ts, n, [], 0);
        ExpressionAccepted(c, [], 0);
        assert Written(c) + [] == ts;
      }
    }
  }

  /** No token list means two trees. */
  lemma {:induction false} Unambiguous(c: Syntax, d: Syntax)
    requires IsExpression(c) && IsExpression(d) && Depth(c) <= MAX_DEPTH && Depth(d) <= MAX_DEPTH
    requires Written(c) == Written(d)
    ensures Meaning(c) == Meaning(d)
  {
    hide ParseOr, IsExpression;
    ExpressionAccepted(c, [], 0);
    ExpressionAccepted(d, [], 0);
  }
}
