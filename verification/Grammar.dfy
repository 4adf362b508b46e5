/**
 What the four parsers accept. The grammar is given by concrete syntax trees, in which
 `!` binds tighter than `&`, `&` tighter than `|`, and both binary operators associate
 to the left. A token list without a missing operand parses to a tree exactly when it
 is the token list of a concrete tree of that shape.
 */
module Grammar {
  import opened Outcomes
  import opened Lexer
  import opened InfixToRpn

  datatype Cst =
    | Num(digits: string)
    | Paren(inner: Cst)
    | Not(arg: Cst)
    | And(left: Cst, right: Cst)
    | Or(left: Cst, right: Cst)

  predicate AtOr(c: Cst) {
    if c.Or? then AtOr(c.left) && AtAnd(c.right) else AtAnd(c)
  }

  predicate AtAnd(c: Cst)
    decreases c, 2
  {
    if c.And? then AtAnd(c.left) && AtNot(c.right) else AtNot(c)
  }

  predicate AtNot(c: Cst)
    decreases c, 1
  {
    if c.Not? then AtNot(c.arg) else AtValue(c)
  }

  predicate AtValue(c: Cst)
    decreases c, 0
  {
    match c
    case Num(d) => IsNumber(d)
    case Paren(inner) => AtOr(inner)
    case _ => false
  }

  /** The tokens of a concrete tree, left to right. */
  function Toks(c: Cst): seq<string> {
    match c
    case Num(d) => [d]
    case Paren(inner) => ["("] + Toks(inner) + [")"]
    case Not(a) => ["!"] + Toks(a)
    case And(l, r) => Toks(l) + ["&"] + Toks(r)
    case Or(l, r) => Toks(l) + ["|"] + Toks(r)
  }

  /** The abstract tree: parentheses forgotten. */
  function Tree(c: Cst): (a: Ast)
    ensures a.Node?
  {
    match c
    case Num(d) => Node(d, Null, Null)
    case Paren(inner) => Tree(inner)
    case Not(a) => Node("!", Tree(a), Null)
    case And(l, r) => Node("&", Tree(l), Tree(r))
    case Or(l, r) => Node("|", Tree(l), Tree(r))
  }

  /** Every operator has its operands and every leaf is a number. */
  predicate Complete(a: Ast) {
    match a
    case Null => false
    case Node(v, l, r) =>
      if v == "|" || v == "&" then Complete(l) && Complete(r)
      else if v == "!" then Complete(l) && r.Null?
      else IsNumber(v) && l.Null? && r.Null?
  }

  predicate IsOperator(t: string) {
    t == "|" || t == "&" || t == "!"
  }

  predicate AllTokens(ts: seq<string>) {
    forall k | 0 <= k < |ts| :: IsToken(ts[k])
  }

  predicate StartsWith(ts: seq<string>, t: string) {
    ts != [] && ts[0] == t
  }

  // ----- every token list of the grammar is parsed to its tree -----

  lemma {:induction false} OrReads(c: Cst, k: seq<string>)
    requires AtOr(c) && !StartsWith(k, "&")
    ensures OrExpr(Toks(c) + k) == OrTail(Tree(c), k)
    decreases c, 3
  {
    if c.Or? {
      var rest := ["|"] + Toks(c.right) + k;
      OrReads(c.left, rest);
      AndReads(c.right, k);
      assert Toks(c) + k == Toks(c.left) + rest;
      assert rest[1..] == Toks(c.right) + k;
    } else {
      AndReads(c, k);
    }
  }

  lemma {:induction false} AndReads(c: Cst, k: seq<string>)
    requires AtAnd(c)
    ensures AndExpr(Toks(c) + k) == AndTail(Tree(c), k)
    decreases c, 2
  {
    if c.And? {
      var rest := ["&"] + Toks(c.right) + k;
      AndReads(c.left, rest);
      NotReads(c.right, k);
      assert Toks(c) + k == Toks(c.left) + rest;
      assert rest[1..] == Toks(c.right) + k;
    } else {
      NotReads(c, k);
    }
  }

  lemma {:induction false} NotReads(c: Cst, k: seq<string>)
    requires AtNot(c)
    ensures NotExpr(Toks(c) + k) == Ok(Parsed(Tree(c), k))
    decreases c, 1
  {
    var ts := Toks(c) + k;
    match c
    case Not(arg) =>
      NotReads(arg, k);
      assert ts[1..] == Toks(arg) + k;
    case Num(d) =>
      assert ts[1..] == k && ts[0] == d;
      assert IsDigit(d[0]);
    case Paren(inner) =>
      OrReads(inner, [")"] + k);
      assert ts[1..] == Toks(inner) + ([")"] + k);
      assert ([")"] + k)[1..] == k;
  }

  /** Completeness of the parser. */
  lemma ParseReads(c: Cst)
    requires AtOr(c)
    ensures ParseTokens(Toks(c)) == Ok(Tree(c))
    ensures Complete(Tree(c))
  {
    OrReads(c, []);
    assert Toks(c) + [] == Toks(c);
    TreeComplete(c);
  }

  /** A tighter level is also a looser one. */
  lemma Levels(c: Cst)
    ensures AtNot(c) ==> AtAnd(c)
    ensures AtAnd(c) ==> AtOr(c)
  {
    if c.And? || c.Or? {
      assert !AtValue(c);
      assert !AtNot(c);
    }
  }

  /** The parts of a concrete tree are concrete trees of the loosest level. */
  lemma Parts(c: Cst)
    requires AtOr(c)
    ensures c.Num? ==> IsNumber(c.digits)
    ensures c.Paren? ==> AtOr(c.inner)
    ensures c.Not? ==> AtOr(c.arg)
    ensures c.And? ==> AtOr(c.left) && AtOr(c.right)
    ensures c.Or? ==> AtOr(c.left) && AtOr(c.right)
  {
    if c.Or? {
      Levels(c.right);
    } else {
      assert AtAnd(c);
      if c.And? {
        Levels(c.left); Levels(c.right);
      } else {
        assert AtNot(c);
        if c.Not? { Levels(c.arg); } else { assert AtValue(c); }
      }
    }
  }

  lemma {:induction false} TreeComplete(c: Cst)
    requires AtOr(c)
    ensures Complete(Tree(c))
  {
    Parts(c);
    match c
    case Num(d) =>
      assert IsDigit(d[0]);
    case Paren(inner) => TreeComplete(inner);
    case Not(a) => TreeComplete(a);
    case And(l, r) => TreeComplete(l); TreeComplete(r);
    case Or(l, r) => TreeComplete(l); TreeComplete(r);
  }

  // ----- printing a tree with as few parentheses as precedence allows -----

  function OrForm(a: Ast): (c: Cst)
    requires Complete(a)
    ensures AtOr(c) && Tree(c) == a
    decreases a, 3
  {
    if a.value == "|" then Or(OrForm(a.left), AndForm(a.right)) else AndForm(a)
  }

  function AndForm(a: Ast): (c: Cst)
    requires Complete(a)
    ensures AtAnd(c) && Tree(c) == a
    decreases a, if a.value == "|" then 6 else 2
  {
    if a.value == "&" then And(AndForm(a.left), NotForm(a.right)) else NotForm(a)
  }

  function NotForm(a: Ast): (c: Cst)
    requires Complete(a)
    ensures AtNot(c) && Tree(c) == a
    decreases a, if a.value == "|" || a.value == "&" then 5 else 1
  {
    if a.value == "!" then Not(NotForm(a.left)) else ValueForm(a)
  }

  function ValueForm(a: Ast): (c: Cst)
    requires Complete(a)
    ensures AtValue(c) && Tree(c) == a
    decreases a, if IsOperator(a.value) then 4 else 0
  {
    if IsOperator(a.value) then Paren(OrForm(a)) else Num(a.value)
  }

  /** Printer and parser undo each other, down to the characters of the formula. */
  lemma PrintedFormulaParses(a: Ast, gaps: seq<string>)
    requires Complete(a)
    requires |gaps| == |Toks(OrForm(a))| + 1 && Spaced(Toks(OrForm(a)), gaps)
    ensures Parse(Spell(Toks(OrForm(a)), gaps)) == Ok(a)
  {
    var c := OrForm(a);
    ToksAreTokens(c);
    LexSpell(Toks(c), gaps);
    ParseReads(c);
  }

  lemma {:induction false} ToksAreTokens(c: Cst)
    requires AtOr(c)
    ensures AllTokens(Toks(c))
  {
    Parts(c);
    match c
    case Num(d) =>
    case Paren(inner) => ToksAreTokens(inner);
    case Not(a) => ToksAreTokens(a);
    case And(l, r) => ToksAreTokens(l); ToksAreTokens(r);
    case Or(l, r) => ToksAreTokens(l); ToksAreTokens(r);
  }

  // ----- what the parsers do with every token list -----

  predicate Dangling(ts: seq<string>) {
    ts == [] || IsOperator(ts[|ts| - 1])
  }

  /** `rest` is what remains at the end of `ts`. */
  predicate Suffix(rest: seq<string>, ts: seq<string>) {
    |rest| <= |ts| && rest == ts[|ts| - |rest|..]
  }

  /**
   What a parser that started at `ts` leaves: a null tree only for no tokens, a complete
   tree whenever tokens remain, and otherwise a complete tree unless `ts` dangles.
   */
  predicate WellParsed(p: Parsed, ts: seq<string>) {
    && Suffix(p.rest, ts)
    && (p.tree.Null? <==> ts == [])
    && (p.rest != [] ==> Complete(p.tree))
    && (p.rest == [] ==> (Complete(p.tree) <==> !Dangling(ts)))
  }

  /** A suffix ends like the whole; dropping a consumed front keeps it a suffix. */
  lemma SuffixFacts(rest: seq<string>, mid: seq<string>, ts: seq<string>)
    requires Suffix(rest, mid) && Suffix(mid, ts)
    ensures Suffix(rest, ts)
    ensures mid != [] ==> Dangling(mid) == Dangling(ts)
  {
    assert rest == ts[|ts| - |rest|..];
  }

  lemma {:induction false} OrShape(ts: seq<string>)
    requires AllTokens(ts) && OrExpr(ts).Ok?
    ensures WellParsed(OrExpr(ts).value, ts)
    decreases |ts|, 5
  {
    AndShape(ts);
    var p := AndExpr(ts).value;
    OrTailShape(p.tree, p.rest, ts);
  }

  /** One more operand behind a binary operator. */
  lemma OperandShape(op: string, left: Ast, rest: seq<string>, p: Parsed, ts: seq<string>)
    requires (op == "|" || op == "&") && left.Node? && rest != [] && rest[0] == op
    requires WellParsed(Parsed(left, rest), ts) && WellParsed(p, rest[1..])
    ensures WellParsed(Parsed(Node(op, left, p.tree), p.rest), ts)
  {
    var after := rest[1..];
    SuffixFacts(rest, rest, ts);
    SuffixFacts(after, rest, ts);
    SuffixFacts(p.rest, after, ts);
    assert Complete(left);
    assert Complete(Node(op, left, p.tree)) == Complete(p.tree);
    assert after == [] ==> rest[|rest| - 1] == op && Dangling(ts);
  }

  lemma {:induction false} OrTailShape(left: Ast, rest: seq<string>, ts: seq<string>)
    requires AllTokens(rest) && WellParsed(Parsed(left, rest), ts) && OrTail(left, rest).Ok?
    ensures WellParsed(OrTail(left, rest).value, ts)
    decreases |rest|, 4
  {
    if left.Node? && rest != [] && rest[0] == "|" {
      AndShape(rest[1..]);
      var p := AndExpr(rest[1..]).value;
      OperandShape("|", left, rest, p, ts);
      OrTailShape(Node("|", left, p.tree), p.rest, ts);
    }
  }

  lemma {:induction false} AndShape(ts: seq<string>)
    requires AllTokens(ts) && AndExpr(ts).Ok?
    ensures WellParsed(AndExpr(ts).value, ts)
    decreases |ts|, 3
  {
    NotShape(ts);
    var p := NotExpr(ts).value;
    AndTailShape(p.tree, p.rest, ts);
  }

  lemma {:induction false} AndTailShape(left: Ast, rest: seq<string>, ts: seq<string>)
    requires AllTokens(rest) && WellParsed(Parsed(left, rest), ts) && AndTail(left, rest).Ok?
    ensures WellParsed(AndTail(left, rest).value, ts)
    decreases |rest|, 2
  {
    if left.Node? && rest != [] && rest[0] == "&" {
      NotShape(rest[1..]);
      var p := NotExpr(rest[1..]).value;
      OperandShape("&", left, rest, p, ts);
      AndTailShape(Node("&", left, p.tree), p.rest, ts);
    }
  }

  lemma {:induction false} NotShape(ts: seq<string>)
    requires AllTokens(ts) && NotExpr(ts).Ok?
    ensures WellParsed(NotExpr(ts).value, ts)
    decreases |ts|, 1
  {
    if ts != [] && ts[0] == "!" {
      var after := ts[1..];
      var p := NotExpr(after).value;
      NotShape(after);
      SuffixFacts(p.rest, after, ts);
      var q := Parsed(Node("!", p.tree, Null), p.rest);
      assert Complete(q.tree) == Complete(p.tree);
      assert after == [] ==> Dangling(ts);
      assert WellParsed(q, ts);
      assert NotExpr(ts) == Ok(q);
    } else {
      ValueShape(ts);
    }
  }

  lemma {:induction false} ValueShape(ts: seq<string>)
    requires AllTokens(ts) && ValueExpr(ts).Ok?
    ensures WellParsed(ValueExpr(ts).value, ts)
    decreases |ts|, 0
  {
    if ts != [] {
      if ts[0] == "(" {
        var p := OrExpr(ts[1..]).value;
        OrShape(ts[1..]);
        SuffixFacts(p.rest, ts[1..], ts);
        SuffixFacts(p.rest[1..], p.rest, ts);
        assert |p.rest| == 1 ==> ts[|ts| - 1] == ")";
      } else {
        assert IsToken(ts[0]) && IsNumber(ts[0]);
        assert |ts| == 1 ==> ts[|ts| - 1] == ts[0];
      }
    }
  }

  /** Whatever follows, the operand inside a pair of parentheses is there, with all of its own. */
  lemma ParenthesesAreComplete(ts: seq<string>)
    requires AllTokens(ts) && ts != [] && ts[0] == "(" && ValueExpr(ts).Ok?
    ensures Complete(ValueExpr(ts).value.tree)
  {
    OrShape(ts[1..]);
  }

  /**
   An accepted token list yields a tree with every operand present exactly when it is not
   empty and does not end in an operator.
   */
  lemma AcceptedIsComplete(ts: seq<string>)
    requires AllTokens(ts) && ParseTokens(ts).Ok?
    ensures Complete(ParseTokens(ts).value) <==> ts != [] && !IsOperator(ts[|ts| - 1])
    ensures ParseTokens(ts).value.Null? <==> ts == []
  {
    OrShape(ts);
  }

  // ----- every complete parse comes from the grammar -----

  lemma {:induction false} OrSound(ts: seq<string>) returns (c: Cst)
    requires AllTokens(ts) && OrExpr(ts).Ok? && Complete(OrExpr(ts).value.tree)
    ensures AtOr(c) && Tree(c) == OrExpr(ts).value.tree && ts == Toks(c) + OrExpr(ts).value.rest
    decreases |ts|, 5
  {
    var p := AndExpr(ts).value;
    AndShape(ts);
    OrTailShape(p.tree, p.rest, ts);
    OrTailComplete(p.tree, p.rest);
    var first := AndSound(ts);
    Levels(first);
    c := OrTailSound(first, p.rest);
  }

  /** A tail never repairs a tree with a missing operand. */
  lemma {:induction false} OrTailComplete(left: Ast, rest: seq<string>)
    requires OrTail(left, rest).Ok? && Complete(OrTail(left, rest).value.tree)
    ensures Complete(left)
    decreases |rest|
  {
    if left.Node? && rest != [] && rest[0] == "|" {
      var p := AndExpr(rest[1..]).value;
      OrTailComplete(Node("|", left, p.tree), p.rest);
    }
  }

  lemma JoinToks(x: seq<string>, op: string, y: seq<string>, k: seq<string>, rest: seq<string>)
    requires rest != [] && rest[0] == op && rest[1..] == y + k
    ensures x + rest == x + [op] + y + k
  {
    assert rest == [op] + rest[1..];
  }

  lemma {:induction false} OrTailSound(left: Cst, rest: seq<string>) returns (c: Cst)
    requires AtOr(left) && AllTokens(rest)
    requires OrTail(Tree(left), rest).Ok? && Complete(OrTail(Tree(left), rest).value.tree)
    ensures AtOr(c) && Tree(c) == OrTail(Tree(left), rest).value.tree
    ensures Toks(left) + rest == Toks(c) + OrTail(Tree(left), rest).value.rest
    decreases |rest|, 4
  {
    if rest != [] && rest[0] == "|" {
      var after := rest[1..];
      var p := AndExpr(after).value;
      AndShape(after);
      assert OrTail(Tree(left), rest) == OrTail(Node("|", Tree(left), p.tree), p.rest);
      OrTailComplete(Node("|", Tree(left), p.tree), p.rest);
      var right := AndSound(after);
      var both := Or(left, right);
      JoinToks(Toks(left), "|", Toks(right), p.rest, rest);
      c := OrTailSound(both, p.rest);
    } else {
      c := left;
    }
  }

  lemma {:induction false} AndSound(ts: seq<string>) returns (c: Cst)
    requires AllTokens(ts) && AndExpr(ts).Ok? && Complete(AndExpr(ts).value.tree)
    ensures AtAnd(c) && Tree(c) == AndExpr(ts).value.tree && ts == Toks(c) + AndExpr(ts).value.rest
    decreases |ts|, 3
  {
    var p := NotExpr(ts).value;
    NotShape(ts);
    AndTailComplete(p.tree, p.rest);
    var first := NotSound(ts);
    Levels(first);
    c := AndTailSound(first, p.rest);
  }

  lemma {:induction false} AndTailComplete(left: Ast, rest: seq<string>)
    requires AndTail(left, rest).Ok? && Complete(AndTail(left, rest).value.tree)
    ensures Complete(left)
    decreases |rest|
  {
    if left.Node? && rest != [] && rest[0] == "&" {
      var p := NotExpr(rest[1..]).value;
      AndTailComplete(Node("&", left, p.tree), p.rest);
    }
  }

  lemma {:induction false} AndTailSound(left: Cst, rest: seq<string>) returns (c: Cst)
    requires AtAnd(left) && AllTokens(rest)
    requires AndTail(Tree(left), rest).Ok? && Complete(AndTail(Tree(left), rest).value.tree)
    ensures AtAnd(c) && Tree(c) == AndTail(Tree(left), rest).value.tree
    ensures Toks(left) + rest == Toks(c) + AndTail(Tree(left), rest).value.rest
    decreases |rest|, 2
  {
    if rest != [] && rest[0] == "&" {
      var after := rest[1..];
      var p := NotExpr(after).value;
      NotShape(after);
      assert AndTail(Tree(left), rest) == AndTail(Node("&", Tree(left), p.tree), p.rest);
      AndTailComplete(Node("&", Tree(left), p.tree), p.rest);
      var right := NotSound(after);
      var both := And(left, right);
      JoinToks(Toks(left), "&", Toks(right), p.rest, rest);
      c := AndTailSound(both, p.rest);
    } else {
      c := left;
    }
  }

  lemma {:induction false} NotSound(ts: seq<string>) returns (c: Cst)
    requires AllTokens(ts) && NotExpr(ts).Ok? && Complete(NotExpr(ts).value.tree)
    ensures AtNot(c) && Tree(c) == NotExpr(ts).value.tree && ts == Toks(c) + NotExpr(ts).value.rest
    decreases |ts|, 1
  {
    if ts != [] && ts[0] == "!" {
      var arg := NotSound(ts[1..]);
      c := Not(arg);
      assert ts == ["!"] + ts[1..];
    } else {
      c := ValueSound(ts);
    }
  }

  lemma {:induction false} ValueSound(ts: seq<string>) returns (c: Cst)
    requires AllTokens(ts) && ValueExpr(ts).Ok? && Complete(ValueExpr(ts).value.tree)
    ensures AtValue(c) && AtNot(c)
    ensures Tree(c) == ValueExpr(ts).value.tree && ts == Toks(c) + ValueExpr(ts).value.rest
    decreases |ts|, 0
  {
    assert ts == [ts[0]] + ts[1..];
    if ts[0] == "(" {
      var p := OrExpr(ts[1..]).value;
      var inner := OrSound(ts[1..]);
      c := Paren(inner);
      assert p.rest == [")"] + p.rest[1..];
    } else {
      assert IsToken(ts[0]);
      c := Num(ts[0]);
    }
  }

  /** The accepted token lists with all operands, and their trees, are exactly those of the grammar. */
  lemma ParseIffGrammar(ts: seq<string>, a: Ast)
    requires AllTokens(ts)
    ensures ParseTokens(ts) == Ok(a) && Complete(a)
       <==> exists c :: AtOr(c) && Toks(c) == ts && Tree(c) == a
  {
    if ParseTokens(ts) == Ok(a) && Complete(a) {
      var c := OrSound(ts);
      assert Toks(c) + [] == Toks(c);
      assert AtOr(c) && Toks(c) == ts && Tree(c) == a;
    }
    forall c | AtOr(c) && Toks(c) == ts && Tree(c) == a
      ensures ParseTokens(ts) == Ok(a) && Complete(a)
    {
      ParseReads(c);
    }
  }
}
