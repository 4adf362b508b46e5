/**
 The infix formula compiler's front end: four mutually recursive parsers that pop a
 shared token queue, the tree they build and its postfix text.
 */
module InfixToRpn {
  import opened Outcomes
  import opened Lexer

  /** `Null` is the null pointer the parsers return when the tokens run out. */
  datatype Ast = Null | Node(value: string, left: Ast, right: Ast)

  /** Postfix text: both children, then the node's own value and a blank. */
  function ToRpn(a: Ast): string {
    match a
    case Null => ""
    case Node(v, l, r) => ToRpn(l) + ToRpn(r) + v + " "
  }

  // ----- the parsers as functions from a token list to a tree and the unread tokens -----

  datatype Parsed = Parsed(tree: Ast, rest: seq<string>)

  function OrExpr(ts: seq<string>): (r: Result<Parsed>)
    ensures r.Ok? ==> |r.value.rest| <= |ts|
    decreases |ts|, 5
  {
    match AndExpr(ts)
    case Throw(m) => Throw(m)
    case Ok(p) => OrTail(p.tree, p.rest)
  }

  function OrTail(left: Ast, ts: seq<string>): (r: Result<Parsed>)
    ensures r.Ok? ==> |r.value.rest| <= |ts|
    decreases |ts|, 4
  {
    if left.Node? && ts != [] && ts[0] == "|" then
      match AndExpr(ts[1..])
      case Throw(m) => Throw(m)
      case Ok(p) => OrTail(Node("|", left, p.tree), p.rest)
    else Ok(Parsed(left, ts))
  }

  function AndExpr(ts: seq<string>): (r: Result<Parsed>)
    ensures r.Ok? ==> |r.value.rest| <= |ts|
    decreases |ts|, 3
  {
    match NotExpr(ts)
    case Throw(m) => Throw(m)
    case Ok(p) => AndTail(p.tree, p.rest)
  }

  function AndTail(left: Ast, ts: seq<string>): (r: Result<Parsed>)
    ensures r.Ok? ==> |r.value.rest| <= |ts|
    decreases |ts|, 2
  {
    if left.Node? && ts != [] && ts[0] == "&" then
      match NotExpr(ts[1..])
      case Throw(m) => Throw(m)
      case Ok(p) => AndTail(Node("&", left, p.tree), p.rest)
    else Ok(Parsed(left, ts))
  }

  function NotExpr(ts: seq<string>): (r: Result<Parsed>)
    ensures r.Ok? ==> |r.value.rest| <= |ts|
    decreases |ts|, 1
  {
    if ts != [] && ts[0] == "!" then
      match NotExpr(ts[1..])
      case Throw(m) => Throw(m)
      case Ok(p) => Ok(Parsed(Node("!", p.tree, Null), p.rest))
    else ValueExpr(ts)
  }

  predicate StartsWithDigit(t: string) {
    t != "" && IsDigit(t[0])
  }

  function ValueExpr(ts: seq<string>): (r: Result<Parsed>)
    ensures r.Ok? ==> |r.value.rest| <= |ts|
    decreases |ts|, 0
  {
    if ts == [] then Ok(Parsed(Null, []))
    else if ts[0] == "(" then
      match OrExpr(ts[1..])
      case Throw(m) => Throw(m)
      case Ok(p) =>
        if p.rest == [] || p.rest[0] != ")" then Throw("unmatched '('")
        else Ok(Parsed(p.tree, p.rest[1..]))
    else if StartsWithDigit(ts[0]) then Ok(Parsed(Node(ts[0], Null, Null), ts[1..]))
    else Throw("invalid char: " + ts[0])
  }

  /** The tree of a whole token list: nothing may be left over. */
  function ParseTokens(ts: seq<string>): Result<Ast> {
    match OrExpr(ts)
    case Throw(m) => Throw(m)
    case Ok(p) => if p.rest != [] then Throw("invalid char: " + p.rest[0]) else Ok(p.tree)
  }

  function Parse(input: string): Result<Ast> {
    match Lex(input)
    case Throw(m) => Throw(m)
    case Ok(ts) => ParseTokens(ts)
  }

  // ----- the parsers as the source has them: methods that pop one shared queue -----

  /** `spec` is what a parser should do with a queue holding `before`. */
  ghost predicate Follows(spec: Result<Parsed>, r: Result<Ast>, after: seq<string>) {
    match spec
    case Throw(m) => r == Throw(m)
    case Ok(p) => r == Ok(p.tree) && after == p.rest
  }

  class TokenQueue {
    var tokens: seq<string>

    constructor (ts: seq<string>)
      ensures tokens == ts
    {
      tokens := ts;
    }

    method PopFront() returns (t: string)
      requires tokens != []
      modifies this
      ensures t == old(tokens)[0] && tokens == old(tokens)[1..]
    {
      t := tokens[0];
      tokens := tokens[1..];
    }

    method ParseOr() returns (r: Result<Ast>)
      modifies this
      ensures Follows(OrExpr(old(tokens)), r, tokens)
      decreases |tokens|, 3
    {
      r := ParseAnd();
      if r.Throw? { return; }
      var left := r.value;
      while left.Node? && tokens != [] && tokens[0] == "|"
        invariant |tokens| <= |old(tokens)|
        invariant OrExpr(old(tokens)) == OrTail(left, tokens)
        decreases |tokens|
      {
        var op := PopFront();
        var right := ParseAnd();
        if right.Throw? { return right; }
        left := Node(op, left, right.value);
      }
      r := Ok(left);
    }

    method ParseAnd() returns (r: Result<Ast>)
      modifies this
      ensures Follows(AndExpr(old(tokens)), r, tokens)
      decreases |tokens|, 2
    {
      r := ParseNot();
      if r.Throw? { return; }
      var left := r.value;
      while left.Node? && tokens != [] && tokens[0] == "&"
        invariant |tokens| <= |old(tokens)|
        invariant AndExpr(old(tokens)) == AndTail(left, tokens)
        decreases |tokens|
      {
        var op := PopFront();
        var right := ParseNot();
        if right.Throw? { return right; }
        left := Node(op, left, right.value);
      }
      r := Ok(left);
    }

    method ParseNot() returns (r: Result<Ast>)
      modifies this
      ensures Follows(NotExpr(old(tokens)), r, tokens)
      decreases |tokens|, 1
    {
      if tokens != [] && tokens[0] == "!" {
        var op := PopFront();
        r := ParseNot();
        if r.Throw? { return; }
        r := Ok(Node(op, r.value, Null));
      } else {
        r := ParseValue();
      }
    }

    method ParseValue() returns (r: Result<Ast>)
      modifies this
      ensures Follows(ValueExpr(old(tokens)), r, tokens)
      decreases |tokens|, 0
    {
      if tokens == [] {
        return Ok(Null);
      }
      if tokens[0] == "(" {
        var open := PopFront();
        r := ParseOr();
        if r.Throw? { return; }
        if tokens == [] || tokens[0] != ")" {
          return Throw("unmatched '('");
        }
        var close := PopFront();
      } else if StartsWithDigit(tokens[0]) {
        var number := PopFront();
        r := Ok(Node(number, Null, Null));
      } else {
        r := Throw("invalid char: " + tokens[0]);
      }
    }
  }

  method InfixToAst(input: string) returns (r: Result<Ast>)
    ensures r == Parse(input)
  {
    var ts := Tokenize(input);
    if ts.Throw? { return Throw(ts.message); }
    var queue := new TokenQueue(ts.value);
    r := queue.ParseOr();
    if r.Ok? && queue.tokens != [] {
      r := Throw("invalid char: " + queue.tokens[0]);
    }
  }
}
