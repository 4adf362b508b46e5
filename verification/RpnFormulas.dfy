/**
 Formulas written in postfix notation: what swap and drop do to the values below them, and what
 becomes of commands with too few operands.
 */
module RpnFormulas {
  import opened Outcomes
  import opened Bits
  import opened Lexer
  import opened InfixToRpn
  import opened Grammar
  import opened Commands
  import opened Calculator

  /** Behind either prefix the text is taken word by word. */
  lemma PrefixIsNotation(text: string)
    ensures CommandsOf("RPN" + text) == Ok(Accepted(Words(text))) == CommandsOf("rpn" + text)
  {
    assert ("RPN" + text)[..3] == "RPN" && ("RPN" + text)[3..] == text;
    assert ("rpn" + text)[..3] == "rpn" && ("rpn" + text)[3..] == text;
  }

  lemma SwapStep(k: seq<string>, v: uint32, st: seq<bool>, a: bool, b: bool)
    ensures Run(["x"] + k, v, st + [a] + [b]) == Run(k, v, st + [b] + [a])
  {
    var s := st + [a] + [b];
    assert "x"[0] == 'x' && !AllDigits("x");
    TopTwo(st, a, b);
    assert s[..|s| - 2] + [b, a] == st + [b] + [a];
    assert (["x"] + k)[1..] == k;
  }

  lemma DropStep(k: seq<string>, v: uint32, st: seq<bool>, a: bool)
    ensures Run(["d"] + k, v, st + [a]) == Run(k, v, st)
    ensures Run(["d"] + k, v, []) == Run(k, v, [])
  {
    assert "d"[0] == 'd' && !AllDigits("d");
    assert (st + [a])[..|st + [a]| - 1] == st && (["d"] + k)[1..] == k;
  }

  /** With fewer than two values a binary operator and a swap do nothing. */
  lemma TooFewOperands(cmd: string, k: seq<string>, v: uint32, st: seq<bool>)
    requires cmd == "&" || cmd == "|" || cmd == "x"
    requires |st| <= 1
    ensures Run([cmd] + k, v, st) == Run(k, v, st)
  {
    assert cmd[0] == '&' || cmd[0] == '|' || cmd[0] == 'x';
    assert !AllDigits(cmd);
    assert ([cmd] + k)[1..] == k;
  }

  /** The commands of two trees, one after the other, with `tail` behind them. */
  lemma TwoTrees(a: Ast, b: Ast, tail: seq<string>, v: uint32)
    requires Complete(a) && Complete(b)
    ensures Run(Postfix(a) + Postfix(b) + tail, v, []) == Run(tail, v, [] + [Eval(a, BitsOf(v))] + [Eval(b, BitsOf(v))])
  {
    assert Postfix(a) + Postfix(b) + tail == Postfix(a) + (Postfix(b) + tail);
    PostfixComputes(a, Postfix(b) + tail, v, []);
    PostfixComputes(b, tail, v, [] + [Eval(a, BitsOf(v))]);
  }

  /** The text of two trees and two one-letter words. */
  lemma TwoTreesText(a: Ast, b: Ast, x: string, y: string)
    requires Complete(a) && LiteralsBelow(a, SIGNALS) && Complete(b) && LiteralsBelow(b, SIGNALS)
    requires (x == "x" || x == "d") && (y == "x" || y == "d")
    ensures Accepted(Words(ToRpn(a) + (ToRpn(b) + (x + " " + (y + " "))))) == Postfix(a) + Postfix(b) + [x, y]
  {
    TwoTreesWords(a, b, x, y);
    TwoTreesAccepted(a, b, [x, y]);
    Letters(x, y);
  }

  lemma TwoTreesWords(a: Ast, b: Ast, x: string, y: string)
    requires Complete(a) && Complete(b)
    requires (x == "x" || x == "d") && (y == "x" || y == "d")
    ensures Words(ToRpn(a) + (ToRpn(b) + (x + " " + (y + " ")))) == Postfix(a) + (Postfix(b) + [x, y])
  {
    CompletePrintable(a);
    CompletePrintable(b);
    WordsOfRpn(a, ToRpn(b) + (x + " " + (y + " ")));
    WordsOfRpn(b, x + " " + (y + " "));
    LetterWords(x, y);
  }

  lemma LetterWords(x: string, y: string)
    requires (x == "x" || x == "d") && (y == "x" || y == "d")
    ensures Words(x + " " + (y + " ")) == [x, y]
  {
    assert y + " " + "" == y + " ";
    WordThenMore(x, y + " ");
    WordThenMore(y, "");
    assert Words("") == [] && [x] + ([y] + []) == [x, y];
  }

  lemma TwoTreesAccepted(a: Ast, b: Ast, tail: seq<string>)
    requires Complete(a) && LiteralsBelow(a, SIGNALS) && Complete(b) && LiteralsBelow(b, SIGNALS)
    ensures Accepted(Postfix(a) + (Postfix(b) + tail)) == Postfix(a) + Postfix(b) + Accepted(tail)
  {
    AcceptedAppend(Postfix(a), Postfix(b) + tail);
    AcceptedAppend(Postfix(b), tail);
    AcceptedPostfix(a);
    AcceptedPostfix(b);
    CommandsAssoc(Postfix(a), Postfix(b), Accepted(tail));
  }

  lemma Letters(x: string, y: string)
    requires (x == "x" || x == "d") && (y == "x" || y == "d")
    ensures Accepted([x, y]) == [x, y]
  {
    assert (x[0] == 'x' || x[0] == 'd') && (y[0] == 'x' || y[0] == 'd');
    assert !AllDigits(x) && !AllDigits(y) && IsAccepted(x) && IsAccepted(y);
    assert [y][1..] == [] && Accepted([y]) == [y] + [];
    assert [x, y][1..] == [y] && Accepted([x, y]) == [x] + [y];
  }

  /** `a b x d` computes b: swapped, a is on top and dropped. */
  lemma SwapDropKeepsSecond(a: Ast, b: Ast, v: uint32)
    requires Complete(a) && LiteralsBelow(a, SIGNALS) && Complete(b) && LiteralsBelow(b, SIGNALS)
    ensures var r := CommandsOf("RPN" + (ToRpn(a) + (ToRpn(b) + ("x" + " " + ("d" + " ")))));
      r.Ok? && Value(r.value, v) == Eval(b, BitsOf(v))
  {
    PrefixIsNotation(ToRpn(a) + (ToRpn(b) + ("x" + " " + ("d" + " "))));
    TwoTreesText(a, b, "x", "d");
    SwapDropKeepsSecondValue(a, b, v);
  }

  lemma SwapDropKeepsSecondValue(a: Ast, b: Ast, v: uint32)
    requires Complete(a) && Complete(b)
    ensures Value(Postfix(a) + Postfix(b) + ["x", "d"], v) == Eval(b, BitsOf(v))
  {
    var p, q := Eval(a, BitsOf(v)), Eval(b, BitsOf(v));
    TwoTrees(a, b, ["x", "d"], v);
    assert ["x", "d"] == ["x"] + ["d"] && ["d"] == ["d"] + [];
    SwapStep(["d"], v, [], p, q);
    DropStep([], v, [] + [q], p);
  }

  /** `a b d d` leaves nothing, and the answer on an empty stack is false. */
  lemma DropsLeaveFalse(a: Ast, b: Ast, v: uint32)
    requires Complete(a) && LiteralsBelow(a, SIGNALS) && Complete(b) && LiteralsBelow(b, SIGNALS)
    ensures var r := CommandsOf("RPN" + (ToRpn(a) + (ToRpn(b) + ("d" + " " + ("d" + " ")))));
      r.Ok? && !Value(r.value, v)
  {
    PrefixIsNotation(ToRpn(a) + (ToRpn(b) + ("d" + " " + ("d" + " "))));
    TwoTreesText(a, b, "d", "d");
    DropsLeaveFalseValue(a, b, v);
  }

  lemma DropsLeaveFalseValue(a: Ast, b: Ast, v: uint32)
    requires Complete(a) && Complete(b)
    ensures Value(Postfix(a) + Postfix(b) + ["d", "d"], v) == false
  {
    var p, q := Eval(a, BitsOf(v)), Eval(b, BitsOf(v));
    TwoTrees(a, b, ["d", "d"], v);
    assert ["d", "d"] == ["d"] + ["d"] && ["d"] == ["d"] + [];
    DropStep(["d"], v, [] + [p], q);
    DropStep([], v, [], p);
  }

  /** `a b d x` computes a: the swap finds one value only and does nothing. */
  lemma DropKeepsFirst(a: Ast, b: Ast, v: uint32)
    requires Complete(a) && LiteralsBelow(a, SIGNALS) && Complete(b) && LiteralsBelow(b, SIGNALS)
    ensures var r := CommandsOf("RPN" + (ToRpn(a) + (ToRpn(b) + ("d" + " " + ("x" + " ")))));
      r.Ok? && Value(r.value, v) == Eval(a, BitsOf(v))
  {
    PrefixIsNotation(ToRpn(a) + (ToRpn(b) + ("d" + " " + ("x" + " "))));
    TwoTreesText(a, b, "d", "x");
    DropKeepsFirstValue(a, b, v);
  }

  lemma DropKeepsFirstValue(a: Ast, b: Ast, v: uint32)
    requires Complete(a) && Complete(b)
    ensures Value(Postfix(a) + Postfix(b) + ["d", "x"], v) == Eval(a, BitsOf(v))
  {
    var p, q := Eval(a, BitsOf(v)), Eval(b, BitsOf(v));
    TwoTrees(a, b, ["d", "x"], v);
    assert ["d", "x"] == ["d"] + ["x"] && ["x"] == ["x"] + [];
    DropStep(["x"], v, [] + [p], q);
    TooFewOperands("x", [], v, [] + [p]);
  }

  /** The words that become commands: the signals 0 to 31 and five letters and signs. */
  lemma AcceptedIff(word: string)
    ensures Accepted([word]) == [word] <==>
      || (word != "" && AllDigits(word) && AtoI(word) < 32)
      || word == "&" || word == "|" || word == "!" || word == "x" || word == "d"
    ensures Accepted([word]) != [word] ==> Accepted([word]) == []
  {
    assert [word][1..] == [];
    if word == "&" || word == "|" || word == "!" || word == "x" || word == "d" {
      assert !IsDigit(word[0]);
    }
  }
}
