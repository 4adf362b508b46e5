/**
 Exactly which token lists the parsers accept. A list that ends in an operator is accepted, with
 the missing operand left out of the tree, when one more number would make it a formula.
 */
module Acceptance {
  import opened Outcomes
  import opened Lexer
  import opened InfixToRpn
  import opened Grammar

  const ZERO := ["0"]

  /** The operand at the very end is missing. */
  predicate Ends(ts: seq<string>) {
    ts != [] && IsOperator(ts[|ts| - 1])
  }

  /** What a parser makes of a list, and of the list with one number more. */
  predicate Related(r: Result<Parsed>, more: Result<Parsed>) {
    match r
    case Throw(_) => more.Throw?
    case Ok(p) =>
      more.Ok? &&
      if p.rest == [] then more.value.rest == [] && more.value.tree.Node?
      else Ends(p.rest) && more.value == Parsed(p.tree, p.rest + ZERO)
  }

  lemma ZeroIsToken(ts: seq<string>)
    requires AllTokens(ts)
    ensures AllTokens(ts + ZERO) && IsDigit("0"[0])
    ensures ts != [] ==> (ts + ZERO)[0] == ts[0] && (ts + ZERO)[1..] == ts[1..] + ZERO
  {
    assert IsNumber("0");
    forall k | 0 <= k < |ts + ZERO| ensures IsToken((ts + ZERO)[k]) {
      if k < |ts| { assert (ts + ZERO)[k] == ts[k]; }
    }
  }

  lemma EndsLater(ts: seq<string>)
    requires AllTokens(ts) && Ends(ts)
    ensures AllTokens(ts[1..]) && (ts[1..] == [] || Ends(ts[1..]))
    ensures ts[1..] == [] ==> IsOperator(ts[0])
  {
  }

  lemma {:induction false} OrRelated(ts: seq<string>)
    requires AllTokens(ts) && (ts == [] || Ends(ts))
    ensures Related(OrExpr(ts), OrExpr(ts + ZERO))
    decreases |ts|, 5
  {
    AndRelated(ts);
    var r, m := AndExpr(ts), AndExpr(ts + ZERO);
    if r.Ok? && r.value.rest != [] {
      AndShape(ts);
      OrTailRelated(r.value.tree, r.value.rest);
    } else if r.Ok? {
      assert OrTail(r.value.tree, []) == Ok(r.value) && OrTail(m.value.tree, []) == Ok(m.value);
    }
  }

  lemma {:induction false} OrTailRelated(left: Ast, ts: seq<string>)
    requires AllTokens(ts) && Ends(ts)
    ensures Related(OrTail(left, ts), OrTail(left, ts + ZERO))
    decreases |ts|, 4
  {
    ZeroIsToken(ts);
    if left.Node? && ts[0] == "|" {
      EndsLater(ts);
      AndRelated(ts[1..]);
      var r, m := AndExpr(ts[1..]), AndExpr(ts[1..] + ZERO);
      if r.Ok? && r.value.rest != [] {
        AndShape(ts[1..]);
        OrTailRelated(Node("|", left, r.value.tree), r.value.rest);
      } else if r.Ok? {
        var x, y := Node("|", left, r.value.tree), Node("|", left, m.value.tree);
        assert OrTail(x, []) == Ok(Parsed(x, [])) && OrTail(y, []) == Ok(Parsed(y, []));
      }
    }
  }

  lemma {:induction false} AndRelated(ts: seq<string>)
    requires AllTokens(ts) && (ts == [] || Ends(ts))
    ensures Related(AndExpr(ts), AndExpr(ts + ZERO))
    decreases |ts|, 3
  {
    NotRelated(ts);
    var r, m := NotExpr(ts), NotExpr(ts + ZERO);
    if r.Ok? && r.value.rest != [] {
      NotShape(ts);
      AndTailRelated(r.value.tree, r.value.rest);
    } else if r.Ok? {
      assert AndTail(r.value.tree, []) == Ok(r.value) && AndTail(m.value.tree, []) == Ok(m.value);
    }
  }

  lemma {:induction false} AndTailRelated(left: Ast, ts: seq<string>)
    requires AllTokens(ts) && Ends(ts)
    ensures Related(AndTail(left, ts), AndTail(left, ts + ZERO))
    decreases |ts|, 2
  {
    ZeroIsToken(ts);
    if left.Node? && ts[0] == "&" {
      EndsLater(ts);
      NotRelated(ts[1..]);
      var r, m := NotExpr(ts[1..]), NotExpr(ts[1..] + ZERO);
      if r.Ok? && r.value.rest != [] {
        NotShape(ts[1..]);
        AndTailRelated(Node("&", left, r.value.tree), r.value.rest);
      } else if r.Ok? {
        var x, y := Node("&", left, r.value.tree), Node("&", left, m.value.tree);
        assert AndTail(x, []) == Ok(Parsed(x, [])) && AndTail(y, []) == Ok(Parsed(y, []));
      }
    }
  }

  lemma {:induction false} NotRelated(ts: seq<string>)
    requires AllTokens(ts) && (ts == [] || Ends(ts))
    ensures Related(NotExpr(ts), NotExpr(ts + ZERO))
    decreases |ts|, 1
  {
    ZeroIsToken(ts);
    if ts != [] && ts[0] == "!" {
      EndsLater(ts);
      NotRelated(ts[1..]);
    } else {
      ValueRelated(ts);
    }
  }

  lemma {:induction false} ValueRelated(ts: seq<string>)
    requires AllTokens(ts) && (ts == [] || Ends(ts)) && (ts != [] ==> ts[0] != "!")
    ensures Related(ValueExpr(ts), ValueExpr(ts + ZERO))
    decreases |ts|, 0
  {
    ZeroIsToken(ts);
    if ts == [] {
      assert ts + ZERO == ZERO && ZERO[1..] == [];
    } else {
      EndsLater(ts);
      if ts[0] == "(" {
        OrRelated(ts[1..]);
        match OrExpr(ts[1..])
        case Throw(_) =>
        case Ok(p) =>
          if p.rest != [] && p.rest[0] == ")" {
            assert (p.rest + ZERO)[1..] == p.rest[1..] + ZERO;
          }
      }
    }
  }

  /** The list is the text of some concrete tree. */
  ghost predicate IsFormula(ts: seq<string>) {
    exists c :: AtOr(c) && Toks(c) == ts
  }

  lemma CompleteIff(ts: seq<string>)
    requires AllTokens(ts) && ts != [] && !Ends(ts)
    ensures ParseTokens(ts).Ok? <==> IsFormula(ts)
  {
    if ParseTokens(ts).Ok? {
      AcceptedIsComplete(ts);
      ParseIffGrammar(ts, ParseTokens(ts).value);
    }
    if IsFormula(ts) {
      var c :| AtOr(c) && Toks(c) == ts;
      ParseReads(c);
    }
  }

  /** A list that ends in an operator is accepted exactly when one number more makes it a formula. */
  lemma DanglingIsAccepted(ts: seq<string>)
    requires AllTokens(ts) && Ends(ts)
    ensures ParseTokens(ts).Ok? <==> IsFormula(ts + ZERO)
  {
    OrRelated(ts);
    ZeroIsToken(ts);
    assert ParseTokens(ts).Ok? <==> ParseTokens(ts + ZERO).Ok?;
    assert !Ends(ts + ZERO) by { assert !IsOperator("0"); }
    CompleteIff(ts + ZERO);
  }

  /** The accepted lists: none at all, a formula, or a formula whose last number is missing behind an operator. */
  lemma AcceptedIff(ts: seq<string>)
    requires AllTokens(ts)
    ensures ParseTokens(ts).Ok? <==> ts == [] || IsFormula(if Ends(ts) then ts + ZERO else ts)
  {
    if Ends(ts) {
      DanglingIsAccepted(ts);
    } else if ts != [] {
      CompleteIff(ts);
    } else {
      assert NotExpr(ts) == Ok(Parsed(Null, []));
      assert AndExpr(ts) == Ok(Parsed(Null, []));
    }
  }
}
