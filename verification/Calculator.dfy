/**
 The logic calculator: postfix text is split into commands, and a stack machine
 evaluates them on the bits of a 32-bit word.
 */
module Calculator {
  import opened Outcomes
  import opened Bits
  import opened Lexer
  import opened InfixToRpn
  import opened Grammar
  import opened Commands

  function ExtractBit(val: uint32, digit: nat): bool {
    if digit < 32 then BitAnd(Shr(val, digit), 1) > 0 else false
  }

  /** The largest signal number among commands, 0 when there is none. */
  function MaxSignal(cs: seq<string>): nat {
    if cs == [] then 0
    else
      var m := MaxSignal(cs[..|cs| - 1]);
      var c := cs[|cs| - 1];
      if AllDigits(c) && AtoI(c) > m then AtoI(c) else m
  }

  predicate IsRpnText(formula: string) {
    |formula| >= 3 && (formula[..3] == "RPN" || formula[..3] == "rpn")
  }

  /** The postfix text of a formula given in either notation. */
  function RpnText(formula: string): Result<string> {
    if IsRpnText(formula) then Ok(formula[3..])
    else
      match Parse(formula)
      case Throw(m) => Throw(m)
      case Ok(a) => Ok(ToRpn(a))
  }

  function CommandsOf(formula: string): Result<seq<string>> {
    match RpnText(formula)
    case Throw(m) => Throw(m)
    case Ok(text) => Ok(Accepted(Words(text)))
  }

  /** The source dereferences a null tree for a formula without tokens. */
  predicate Present(formula: string) {
    !IsRpnText(formula) ==> Parse(formula) != Ok(Null)
  }

  // ----- the stack machine as a function; the top of the stack is the last element -----

  lemma Distinct(cmd: string)
    ensures cmd == "&" || cmd == "*" ==> cmd != "|" && cmd != "+" && cmd != "x"
    ensures cmd == "|" || cmd == "+" ==> cmd != "x"
  {
    if cmd == "&" || cmd == "*" {
      assert cmd[0] == '&' || cmd[0] == '*';
    } else if cmd == "|" || cmd == "+" {
      assert cmd[0] == '|' || cmd[0] == '+';
    }
  }

  predicate IsBinary(cmd: string) {
    cmd == "&" || cmd == "*" || cmd == "|" || cmd == "+" || cmd == "x"
  }

  /** What a binary command puts in place of `below` and `top`. */
  function Binary(cmd: string, below: bool, top: bool): seq<bool> {
    if cmd == "&" || cmd == "*" then [top && below]
    else if cmd == "|" || cmd == "+" then [top || below]
    else [top, below]
  }

  /** One command. `None`: the top of an empty stack is taken, which C++ leaves undefined. */
  function Step(cmd: string, val: uint32, st: seq<bool>): Option<seq<bool>> {
    var n := |st|;
    if AllDigits(cmd) then Some(st + [ExtractBit(val, AtoI(cmd))])
    else if cmd == "!" || cmd == "^" then
      if n == 0 then None else Some(st[..n - 1] + [!st[n - 1]])
    else if cmd == "d" || cmd == "p" then
      Some(if n == 0 then st else st[..n - 1])
    else if n > 1 && IsBinary(cmd) then Some(st[..n - 2] + Binary(cmd, st[n - 2], st[n - 1]))
    else Some(st)
  }

  function Run(cs: seq<string>, val: uint32, st: seq<bool>): Option<seq<bool>> {
    if cs == [] then Some(st)
    else
      match Step(cs[0], val, st)
      case None => None
      case Some(st') => Run(cs[1..], val, st')
  }

  function StepDepth(cmd: string, d: nat): Option<nat> {
    if AllDigits(cmd) then Some(d + 1)
    else if cmd == "!" || cmd == "^" then if d == 0 then None else Some(d)
    else if cmd == "d" || cmd == "p" then Some(if d == 0 then 0 else d - 1)
    else if d > 1 && (cmd == "&" || cmd == "*" || cmd == "|" || cmd == "+") then Some(d - 1)
    else Some(d)
  }

  function Depth(cs: seq<string>, d: nat): Option<nat> {
    if cs == [] then Some(d)
    else
      match StepDepth(cs[0], d)
      case None => None
      case Some(e) => Depth(cs[1..], e)
  }

  /** No command ever looks at the top of an empty stack. */
  predicate Defined(cs: seq<string>) {
    Depth(cs, 0).Some?
  }

  function Top(r: Option<seq<bool>>): bool {
    r.Some? && r.value != [] && r.value[|r.value| - 1]
  }

  /** The value the calculator returns for `val`. */
  function Value(cs: seq<string>, val: uint32): bool {
    Top(Run(cs, val, []))
  }

  // ----- the calculator object -----

  class LogiCalc {
    var fCommands: seq<string>
    var fStack: seq<bool>
    var fSigMax: nat

    constructor ()
      ensures fCommands == [] && fSigMax == 0
    {
      fCommands, fStack, fSigMax := [], [], 0;
    }

    method ComPushBack(word: string) returns (size: nat)
      modifies this
      ensures fCommands == old(fCommands) + Accepted([word]) && size == |fCommands|
      ensures old(fSigMax) == MaxSignal(old(fCommands)) ==> fSigMax == MaxSignal(fCommands)
      ensures fStack == old(fStack)
    {
      ghost var before := fCommands;
      if |word| > 0 {
        if AllDigits(word) {
          var sig := AtoI(word);
          if sig >= 0 && sig < SIGNALS {
            fCommands := fCommands + [word];
            if sig > fSigMax { fSigMax := sig; }
          }
        } else if IsFunction(word) {
          fCommands := fCommands + [word];
        }
      }
      size := |fCommands|;
      assert Accepted([word]) == if IsAccepted(word) then [word] else [] by {
        assert [word][1..] == [];
      }
      assert (before + [word])[..|before|] == before;
    }

    /** The commands of a formula; a formula that does not parse leaves the object as it was. */
    method SetFormula(sparam: string) returns (r: Result<seq<string>>)
      requires Present(sparam)
      modifies this
      ensures r == CommandsOf(sparam)
      ensures r.Ok? ==> fCommands == r.value && fSigMax == MaxSignal(fCommands)
      ensures r.Throw? ==> fCommands == old(fCommands) && fSigMax == old(fSigMax)
      ensures fStack == old(fStack)
    {
      var sform: string;
      if IsRpnText(sparam) {
        sform := sparam[3..];
      } else {
        var tree := InfixToAst(sparam);
        if tree.Throw? { return Throw(tree.message); }
        sform := ToRpn(tree.value);
      }

      fCommands, fSigMax := [], 0;
      PushWords(sform);
      r := Ok(fCommands);
    }

    /** The splitting loop. */
    method PushWords(sform: string)
      requires fCommands == [] && fSigMax == 0
      modifies this
      ensures fCommands == Accepted(Words(sform)) && fSigMax == MaxSignal(fCommands)
      ensures fStack == old(fStack)
    {
      var offset := 0;
      ghost var all := AcceptedFrom(sform, 0);
      while true
        invariant 0 <= offset <= |sform|
        invariant fCommands + AcceptedFrom(sform, offset) == all
        invariant fSigMax == MaxSignal(fCommands)
        invariant fStack == old(fStack)
        decreases |sform| - offset
      {
        var pos := PushNext(sform, offset);
        if pos.None? { break; }
        offset := pos.value + 1;
      }
      WholeText(sform);
    }

    /** One round: the text up to the next blank, unless empty, is a command word. */
    method PushNext(sform: string, offset: nat) returns (pos: Option<nat>)
      requires offset <= |sform| && fSigMax == MaxSignal(fCommands)
      modifies this
      ensures pos.Some? ==> offset <= pos.value < |sform|
      ensures pos.None? ==> old(fCommands) + AcceptedFrom(sform, offset) == fCommands
      ensures pos.Some? ==>
                old(fCommands) + AcceptedFrom(sform, offset) == fCommands + AcceptedFrom(sform, pos.value + 1)
      ensures fSigMax == MaxSignal(fCommands) && fStack == old(fStack)
    {
      ghost var done := fCommands;
      var word;
      pos, word := NextText(sform, offset);
      CommandsAssoc(done, AcceptedWord(word), AcceptedFrom(sform, EndOf(sform, pos) + 1));
      PushNonEmpty(word);
    }

    method PushNonEmpty(word: string)
      requires fSigMax == MaxSignal(fCommands)
      modifies this
      ensures fCommands == old(fCommands) + AcceptedWord(word)
      ensures fSigMax == MaxSignal(fCommands) && fStack == old(fStack)
    {
      if |word| > 0 {
        var size := ComPushBack(word);
      }
    }

    method Calc(val: uint32) returns (ret: bool)
      requires Defined(fCommands)
      modifies this`fStack
      ensures ret == Value(fCommands, val)
    {
      fStack := [];
      DepthIndependent(fCommands, val, []);
      for i := 0 to |fCommands|
        invariant Run(fCommands, val, []).Some?
        invariant Run(fCommands, val, []) == Run(fCommands[i..], val, fStack)
      {
        assert fCommands[i..][0] == fCommands[i] && fCommands[i..][1..] == fCommands[i + 1..];
        Execute(fCommands[i], val);
      }
      assert fCommands[|fCommands|..] == [];
      if |fStack| > 0 {
        ret := Pop();
      } else {
        ret := false;
      }
    }

    /** One round of the loop over the commands. */
    method Execute(com: string, val: uint32)
      requires Step(com, val, fStack).Some?
      modifies this`fStack
      ensures Step(com, val, old(fStack)) == Some(fStack)
    {
      if AllDigits(com) {
        fStack := fStack + [ExtractBit(val, AtoI(com))];
      } else {
        if |fStack| > 1 {
          ExecuteBinary(com);
        }
        if com == "!" || com == "^" {
          var vtop := Pop();
          fStack := fStack + [!vtop];
        }
        if com == "d" || com == "p" {
          if |fStack| > 0 {
            var dropped := Pop();
          }
        }
      }
    }

    /** The commands that need two operands. */
    method ExecuteBinary(com: string)
      requires |fStack| > 1
      modifies this`fStack
      ensures |old(fStack)| > 1
      ensures IsBinary(com) ==>
        var n := |old(fStack)|;
        fStack == old(fStack)[..n - 2] + Binary(com, old(fStack)[n - 2], old(fStack)[n - 1])
      ensures !IsBinary(com) ==> fStack == old(fStack)
    {
      ghost var before, n := fStack, |fStack|;
      ghost var rest, below, top := before[..n - 2], before[n - 2], before[n - 1];
      assert before == rest + [below, top];
      Distinct(com);
      if com == "&" || com == "*" {
        var val1 := Pop();
        var val2 := Pop();
        fStack := fStack + [val1 && val2];
        assert fStack == rest + [top && below];
      }
      if com == "|" || com == "+" {
        var val1 := Pop();
        var val2 := Pop();
        fStack := fStack + [val1 || val2];
        assert fStack == rest + [top || below];
      }
      if com == "x" {
        var val1 := Pop();
        var val2 := Pop();
        fStack := fStack + [val1];
        fStack := fStack + [val2];
        assert fStack == rest + [top, below];
      }
    }

    method Pop() returns (top: bool)
      requires fStack != []
      modifies this`fStack
      ensures top == old(fStack)[|old(fStack)| - 1]
      ensures fStack == old(fStack)[..|old(fStack)| - 1]
    {
      top := fStack[|fStack| - 1];
      fStack := fStack[..|fStack| - 1];
    }
  }

  /** `find(" ", offset)`. */
  method FindBlank(s: string, offset: nat) returns (pos: Option<nat>)
    requires offset <= |s|
    ensures pos.Some? ==> pos.value < |s|
    ensures BreaksAt(s, offset, EndOf(s, pos))
  {
    for i := offset to |s|
      invariant ' ' !in s[offset..i]
    {
      if s[i] == ' ' { return Some(i); }
    }
    return None;
  }

  /** The text up to the next blank. */
  method NextText(sform: string, offset: nat) returns (pos: Option<nat>, word: string)
    requires offset <= |sform|
    ensures pos.Some? ==> offset <= pos.value < |sform|
    ensures Splits(sform, offset, word, EndOf(sform, pos))
  {
    pos := FindBlank(sform, offset);
    var end := EndOf(sform, pos);
    word := sform[offset..end];
    NextWord(sform, offset, end);
  }

  // ----- definedness does not depend on the input -----

  /** The depth of the stack after a run, and whether the run is defined, depend on the commands alone. */
  lemma {:induction false} DepthIndependent(cs: seq<string>, val: uint32, st: seq<bool>)
    ensures Run(cs, val, st).Some? <==> Depth(cs, |st|).Some?
    ensures Run(cs, val, st).Some? ==> |Run(cs, val, st).value| == Depth(cs, |st|).value
  {
    if cs != [] {
      var next := Step(cs[0], val, st);
      assert next.Some? <==> StepDepth(cs[0], |st|).Some?;
      if next.Some? {
        assert |next.value| == StepDepth(cs[0], |st|).value;
        DepthIndependent(cs[1..], val, next.value);
      }
    }
  }

  /** Command k is a negation that meets an empty stack. */
  predicate StopsAt(cs: seq<string>, d: nat, k: nat)
    requires k < |cs|
  {
    (cs[k] == "!" || cs[k] == "^") && Depth(cs[..k], d) == Some(0)
  }

  /** A negation with nothing below it is the only way to leave the defined behaviour. */
  lemma UndefinedOnlyByNot(cs: seq<string>)
    ensures !Defined(cs) <==> exists k | 0 <= k < |cs| :: StopsAt(cs, 0, k)
  {
    UndefinedFrom(cs, 0);
  }

  lemma {:induction false} UndefinedFrom(cs: seq<string>, d: nat)
    ensures Depth(cs, d).None? <==> exists k | 0 <= k < |cs| :: StopsAt(cs, d, k)
  {
    if cs != [] {
      var e := StepDepth(cs[0], d);
      assert cs[..0] == [] && Depth(cs[..0], d) == Some(d);
      if e.None? {
        assert StopsAt(cs, d, 0);
      } else {
        UndefinedFrom(cs[1..], e.value);
        assert (cs[0] == "!" || cs[0] == "^") ==> !IsDigit(cs[0][0]);
        assert !StopsAt(cs, d, 0);
        forall k | 0 <= k < |cs| - 1 ensures StopsAt(cs[1..], e.value, k) == StopsAt(cs, d, k + 1) {
          StopsAtNext(cs, d, k);
        }
        assert (exists k | 0 <= k < |cs| :: StopsAt(cs, d, k))
            <==> exists k | 0 <= k < |cs[1..]| :: StopsAt(cs[1..], e.value, k) by {
          if k :| 0 <= k < |cs| && StopsAt(cs, d, k) {
            assert StopsAt(cs[1..], e.value, k - 1);
          }
        }
      }
    }
  }

  lemma StopsAtNext(cs: seq<string>, d: nat, k: nat)
    requires k + 1 < |cs| && StepDepth(cs[0], d).Some?
    ensures StopsAt(cs[1..], StepDepth(cs[0], d).value, k) == StopsAt(cs, d, k + 1)
  {
    assert cs[..k + 1][1..] == cs[1..][..k] && cs[..k + 1][0] == cs[0];
  }

  // ----- only the low bits matter -----

  lemma ExtractIsBit(val: uint32, digit: nat)
    ensures ExtractBit(val, digit) == (digit < 32 && Bit(val, digit))
  {
    if digit < 32 { ShiftedBit(val, digit); }
  }

  predicate SignalsAtMost(cs: seq<string>, m: nat) {
    forall k | 0 <= k < |cs| && AllDigits(cs[k]) :: AtoI(cs[k]) <= m
  }

  lemma {:induction false} MaxSignalBounds(cs: seq<string>)
    ensures SignalsAtMost(cs, MaxSignal(cs))
    ensures forall m: nat | SignalsAtMost(cs, m) :: MaxSignal(cs) <= m
  {
    if cs != [] {
      var front, c := cs[..|cs| - 1], cs[|cs| - 1];
      MaxSignalBounds(front);
      forall k | 0 <= k < |cs| && AllDigits(cs[k]) ensures AtoI(cs[k]) <= MaxSignal(cs) {
        if k < |front| { assert cs[k] == front[k]; }
      }
      forall m: nat | SignalsAtMost(cs, m) ensures MaxSignal(cs) <= m {
        assert SignalsAtMost(front, m);
      }
    }
  }

  lemma {:induction false} RunAgrees(cs: seq<string>, v: uint32, w: uint32, m: nat, st: seq<bool>)
    requires SignalsAtMost(cs, m)
    requires forall i: nat | i <= m :: Bit(v, i) == Bit(w, i)
    ensures Run(cs, v, st) == Run(cs, w, st)
  {
    if cs != [] {
      if AllDigits(cs[0]) {
        ExtractIsBit(v, AtoI(cs[0]));
        ExtractIsBit(w, AtoI(cs[0]));
      }
      assert Step(cs[0], v, st) == Step(cs[0], w, st);
      assert SignalsAtMost(cs[1..], m);
      if Step(cs[0], v, st).Some? {
        RunAgrees(cs[1..], v, w, m, Step(cs[0], v, st).value);
      }
    }
  }

  /** Any command list, with swaps, drops and missing operands, sees only the bits up to its largest signal. */
  lemma ValueOfLowBits(cs: seq<string>, v: uint32)
    ensures Run(cs, v, []) == Run(cs, LowBits(v, MaxSignal(cs) + 1), [])
    ensures Value(cs, v) == Value(cs, LowBits(v, MaxSignal(cs) + 1))
  {
    var m := MaxSignal(cs);
    MaxSignalBounds(cs);
    forall i: nat | i <= m ensures Bit(v, i) == Bit(LowBits(v, m + 1), i) {
      ModBit(v, m + 1, i);
    }
    RunAgrees(cs, v, LowBits(v, m + 1), m, []);
  }

  // ----- what a formula means, and that its postfix text computes it -----

  /** The formula's value when exactly the signals in `on` are set. */
  predicate Eval(a: Ast, on: set<nat>)
    requires Complete(a)
  {
    if a.value == "|" then Eval(a.left, on) || Eval(a.right, on)
    else if a.value == "&" then Eval(a.left, on) && Eval(a.right, on)
    else if a.value == "!" then !Eval(a.left, on)
    else assert AllDigits(a.value); AtoI(a.value) in on
  }

  predicate LiteralsBelow(a: Ast, n: nat)
    requires Complete(a)
  {
    if a.value == "|" || a.value == "&" then LiteralsBelow(a.left, n) && LiteralsBelow(a.right, n)
    else if a.value == "!" then LiteralsBelow(a.left, n)
    else assert AllDigits(a.value); AtoI(a.value) < n
  }

  /** Children before their operator. */
  function Postfix(a: Ast): seq<string> {
    match a
    case Null => []
    case Node(v, l, r) => Postfix(l) + Postfix(r) + [v]
  }

  lemma TopTwo(st: seq<bool>, below: bool, top: bool)
    ensures var s := st + [below] + [top];
      s[..|s| - 2] == st && s[|s| - 2] == below && s[|s| - 1] == top
  {
  }

  lemma NotDigits(v: string)
    requires IsOperator(v)
    ensures !AllDigits(v)
  {
    assert !IsDigit(v[0]);
  }

  lemma BinaryStep(cmd: string, k: seq<string>, v: uint32, st: seq<bool>, l: bool, r: bool)
    requires cmd == "|" || cmd == "&"
    ensures Run([cmd] + k, v, st + [l] + [r]) == Run(k, v, st + [if cmd == "|" then l || r else l && r])
  {
    NotDigits(cmd);
    TopTwo(st, l, r);
    assert ([cmd] + k)[1..] == k;
  }

  lemma NotStep(k: seq<string>, v: uint32, st: seq<bool>, l: bool)
    ensures Run(["!"] + k, v, st + [l]) == Run(k, v, st + [!l])
  {
    NotDigits("!");
    var s := st + [l];
    assert s[..|s| - 1] == st && (["!"] + k)[1..] == k;
  }

  lemma NumberStep(d: string, k: seq<string>, v: uint32, st: seq<bool>)
    requires IsNumber(d)
    ensures Run([d] + k, v, st) == Run(k, v, st + [AtoI(d) in BitsOf(v)])
  {
    ExtractIsBit(v, AtoI(d));
    assert ([d] + k)[1..] == k;
  }

  /** The commands of a tree push the tree's value and leave the rest of the stack alone. */
  lemma {:induction false} PostfixComputes(a: Ast, k: seq<string>, v: uint32, st: seq<bool>)
    requires Complete(a)
    ensures Run(Postfix(a) + k, v, st) == Run(k, v, st + [Eval(a, BitsOf(v))])
  {
    var tail := [a.value] + k;
    if a.value == "|" || a.value == "&" {
      var l, r := Eval(a.left, BitsOf(v)), Eval(a.right, BitsOf(v));
      assert Postfix(a) + k == Postfix(a.left) + (Postfix(a.right) + tail);
      PostfixComputes(a.left, Postfix(a.right) + tail, v, st);
      PostfixComputes(a.right, tail, v, st + [l]);
      BinaryStep(a.value, k, v, st, l, r);
    } else if a.value == "!" {
      assert Postfix(a) + k == Postfix(a.left) + tail;
      PostfixComputes(a.left, tail, v, st);
      NotStep(k, v, st, Eval(a.left, BitsOf(v)));
    } else {
      assert Postfix(a) + k == tail;
      NumberStep(a.value, k, v, st);
    }
  }

  lemma {:induction false} PostfixDepth(a: Ast, k: seq<string>, d: nat)
    requires Complete(a)
    ensures Depth(Postfix(a) + k, d) == Depth(k, d + 1)
  {
    var tail := [a.value] + k;
    assert tail[0] == a.value && tail[1..] == k;
    if a.value == "|" || a.value == "&" {
      NotDigits(a.value);
      assert Postfix(a) + k == Postfix(a.left) + (Postfix(a.right) + tail);
      PostfixDepth(a.left, Postfix(a.right) + tail, d);
      PostfixDepth(a.right, tail, d + 1);
    } else if a.value == "!" {
      NotDigits(a.value);
      assert Postfix(a) + k == Postfix(a.left) + tail;
      PostfixDepth(a.left, tail, d);
    } else {
      assert Postfix(a) + k == tail;
    }
  }

  /** Printing a tree as text, splitting it and accepting the words gives the tree's commands. */
  lemma TextRoundTrip(a: Ast)
    requires Complete(a) && LiteralsBelow(a, SIGNALS)
    ensures Accepted(Words(ToRpn(a))) == Postfix(a)
  {
    CompletePrintable(a);
    WordsOfRpn(a, "");
    assert ToRpn(a) + "" == ToRpn(a) && Postfix(a) + [] == Postfix(a);
    AcceptedPostfix(a);
  }

  predicate Printable(a: Ast) {
    a.Node? ==> a.value != "" && ' ' !in a.value && Printable(a.left) && Printable(a.right)
  }

  lemma {:induction false} CompletePrintable(a: Ast)
    requires Complete(a)
    ensures Printable(a)
  {
    if IsOperator(a.value) {
      CompletePrintable(a.left);
      if a.value != "!" { CompletePrintable(a.right); }
    } else {
      assert forall c | c in a.value :: IsDigit(c);
    }
  }

  /** Splitting undoes printing, with or without missing operands. */
  lemma {:induction false} WordsOfRpn(a: Ast, more: string)
    requires Printable(a)
    ensures Words(ToRpn(a) + more) == Postfix(a) + Words(more)
  {
    match a
    case Null =>
      assert "" + more == more;
    case Node(v, l, r) =>
      var tail := v + " " + more;
      Regroup(ToRpn(l), ToRpn(r), v, more);
      WordsOfRpn(l, ToRpn(r) + tail);
      WordsOfRpn(r, tail);
      WordThenMore(v, more);
  }

  lemma Regroup(x: string, y: string, v: string, more: string)
    ensures x + y + v + " " + more == x + (y + (v + " " + more))
  {
  }

  lemma {:induction false} AcceptedPostfix(a: Ast)
    requires Complete(a) && LiteralsBelow(a, SIGNALS)
    ensures Accepted(Postfix(a)) == Postfix(a)
  {
    assert [a.value][1..] == [];
    if a.value == "|" || a.value == "&" {
      NotDigits(a.value);
      AcceptedPostfix(a.left);
      AcceptedPostfix(a.right);
      AcceptedAppend(Postfix(a.left) + Postfix(a.right), [a.value]);
      AcceptedAppend(Postfix(a.left), Postfix(a.right));
    } else if a.value == "!" {
      NotDigits(a.value);
      AcceptedPostfix(a.left);
      AcceptedAppend(Postfix(a.left), [a.value]);
      assert Postfix(a) == Postfix(a.left) + [a.value];
    } else {
      assert Postfix(a) == [a.value];
    }
  }

  /** Compiling a complete tree preserves its meaning, and its commands never run out of operands. */
  lemma CompileCorrect(a: Ast, v: uint32)
    requires Complete(a) && LiteralsBelow(a, SIGNALS)
    ensures Defined(Accepted(Words(ToRpn(a))))
    ensures Value(Accepted(Words(ToRpn(a))), v) == Eval(a, BitsOf(v))
  {
    TextRoundTrip(a);
    assert Postfix(a) + [] == Postfix(a);
    PostfixComputes(a, [], v, []);
    PostfixDepth(a, [], 0);
  }

  lemma {:induction false} MaxLiteral(a: Ast, n: nat)
    requires Complete(a) && LiteralsBelow(a, n + 1)
    ensures SignalsAtMost(Postfix(a), n)
  {
    if a.value == "|" || a.value == "&" {
      NotDigits(a.value);
      MaxLiteral(a.left, n);
      MaxLiteral(a.right, n);
    } else if a.value == "!" {
      NotDigits(a.value);
      MaxLiteral(a.left, n);
    }
  }
}
