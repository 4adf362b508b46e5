/**
 The trigger's lookup table: the value of a formula for every pattern of its signals,
 and the lookup of an arbitrary 32-bit pattern.
 */
module LookupTable {
  import opened Outcomes
  import opened Bits
  import opened InfixToRpn
  import opened Grammar
  import opened Commands
  import opened Calculator

  function Resize(s: seq<bool>, n: nat): (r: seq<bool>)
    ensures |r| == n
  {
    if |s| >= n then s[..n] else s + seq(n - |s|, _ => false)
  }

  /** `0x1 << n`, defined for n up to 31. */
  function TableSize(n: nat): (size: uint32)
    requires n <= 31
    ensures size == Pow2(n)
  {
    Pow2Monotone(n, 31);
    Powers();
    Pow2(n)
  }

  /** What the source demands of a formula: commands that never negate an empty stack, signals up to 30. */
  predicate Tabulable(formula: string) {
    && Present(formula)
    && (CommandsOf(formula).Ok? ==>
          Defined(CommandsOf(formula).value) && MaxSignal(CommandsOf(formula).value) <= 30)
  }

  class TriggerMap {
    var fLut: seq<bool>
    var fNsignal: nat
    var fSignalMask: uint32
    var fMapSize: uint32

    constructor ()
      ensures fLut == [] && fNsignal == 0 && fSignalMask == 0 && fMapSize == 0
    {
      fLut, fNsignal, fSignalMask, fMapSize := [], 0, 0, 0;
    }

    /** The table holds the values of commands `cs`. */
    ghost predicate Tabulates(cs: seq<string>)
      reads this
    {
      && MaxSignal(cs) <= 30
      && fNsignal == MaxSignal(cs) + 1
      && fMapSize == Pow2(fNsignal)
      && |fLut| == fMapSize
      && forall i: uint32 | i < fMapSize :: fLut[i] == Value(cs, i)
    }

    /** Tabulates a formula; bits of earlier formulas stay in the mask. */
    method MakeTable(formula: string) returns (r: Result<()>)
      requires Tabulable(formula)
      modifies this
      ensures r.Ok? <==> CommandsOf(formula).Ok?
      ensures r.Ok? ==> Tabulates(CommandsOf(formula).value)
      ensures r.Ok? ==> fSignalMask == BitOr(old(fSignalMask), Pow2(fNsignal) - 1)
      ensures r.Throw? ==> r.message == CommandsOf(formula).message
      ensures r.Throw? ==> unchanged(this)
    {
      var logic := new LogiCalc();
      var commands := logic.SetFormula(formula);
      if commands.Throw? { return Throw(commands.message); }

      Tabulate(logic);
      r := Ok(());
    }

    /** Sizes, mask and table for the commands that were set. */
    method Tabulate(logic: LogiCalc)
      requires Defined(logic.fCommands) && logic.fSigMax == MaxSignal(logic.fCommands) <= 30
      modifies this, logic`fStack
      ensures Tabulates(logic.fCommands)
      ensures fSignalMask == BitOr(old(fSignalMask), Pow2(fNsignal) - 1)
    {
      fNsignal := logic.fSigMax + 1;
      fMapSize := TableSize(fNsignal);
      fLut := Resize(fLut, fMapSize);
      SetMask();
      FillTable(logic);
    }

    /** The loop that evaluates every pattern. */
    method FillTable(logic: LogiCalc)
      requires Defined(logic.fCommands) && |fLut| == fMapSize
      modifies this`fLut, logic`fStack
      ensures |fLut| == fMapSize
      ensures forall k: uint32 | k < fMapSize :: fLut[k] == Value(logic.fCommands, k)
    {
      var i: uint32 := 0;
      while i < fMapSize
        invariant i <= fMapSize && |fLut| == fMapSize
        invariant forall k: uint32 | k < i :: fLut[k] == Value(logic.fCommands, k)
      {
        var b := logic.Calc(i);
        fLut := fLut[i as int := b];
        i := i + 1;
      }
    }

    /** The loop that ORs the mask bits. */
    method SetMask()
      requires fNsignal <= 31
      modifies this`fSignalMask
      ensures fSignalMask == BitOr(old(fSignalMask), Pow2(fNsignal) - 1)
    {
      OrOnes(fSignalMask, 0);
      Powers();
      for i := 0 to fNsignal
        invariant fSignalMask == BitOr(old(fSignalMask), Pow2(i) - 1)
      {
        Pow2Monotone(i + 1, 32);
        OrBelow(fSignalMask, Pow2(i), 32);
        OrNextOne(old(fSignalMask), i);
        fSignalMask := BitOr(fSignalMask, Pow2(i));
      }
    }

    /** The index a lookup reads. */
    function Index(val: uint32): nat
      reads this
    {
      if val < fMapSize then val else BitAnd(val, fSignalMask)
    }

    function LookUp(val: uint32): bool
      requires Index(val) < |fLut|
      reads this
    {
      if val < fMapSize then fLut[val] else fLut[BitAnd(val, fSignalMask)]
    }
  }

  lemma OrOnes(m: nat, n: nat)
    ensures n == 0 ==> BitOr(m, Pow2(n) - 1) == m
  {
    if n == 0 { OrZero(m); }
  }

  // ----- lookups agree with the calculator -----

  /**
   The table answers every 32-bit pattern as the calculator would, for any mask that
   has no bit above the table's own signals.
   */
  lemma LookUpIsValue(table: TriggerMap, cs: seq<string>, v: uint32)
    requires table.Tabulates(cs)
    requires table.fSignalMask == Pow2(table.fNsignal) - 1
    ensures table.Index(v) < |table.fLut|
    ensures table.LookUp(v) == Value(cs, v)
  {
    if v >= table.fMapSize {
      MaskedIsLow(v, table.fSignalMask, table.fNsignal);
      ValueOfLowBits(cs, v);
      assert table.Index(v) == LowBits(v, table.fNsignal) < table.fMapSize;
    }
  }

  lemma MaskedIsLow(v: uint32, mask: uint32, n: nat)
    requires mask == Pow2(n) - 1
    ensures BitAnd(v, mask) == LowBits(v, n) < Pow2(n)
  {
    MaskIsMod(v, n);
  }

  /** A fresh table for a complete infix formula answers as the formula evaluates. */
  lemma LookUpIsEval(table: TriggerMap, a: Ast, v: uint32)
    requires Complete(a) && LiteralsBelow(a, 31)
    requires table.Tabulates(Accepted(Words(ToRpn(a)))) && table.fSignalMask == Pow2(table.fNsignal) - 1
    ensures table.Index(v) < |table.fLut|
    ensures table.LookUp(v) == Eval(a, BitsOf(v))
  {
    MoreLiterals(a, 31, SIGNALS);
    CompileCorrect(a, v);
    LookUpIsValue(table, Accepted(Words(ToRpn(a))), v);
  }

  lemma {:induction false} MoreLiterals(a: Ast, m: nat, n: nat)
    requires Complete(a) && LiteralsBelow(a, m) && m <= n
    ensures LiteralsBelow(a, n)
  {
    if a.value == "|" || a.value == "&" {
      MoreLiterals(a.left, m, n);
      MoreLiterals(a.right, m, n);
    } else if a.value == "!" {
      MoreLiterals(a.left, m, n);
    }
  }

  /** A complete tree with signals up to 30 makes a formula the table accepts. */
  lemma CompleteIsTabulable(formula: string, a: Ast)
    requires !IsRpnText(formula) && Parse(formula) == Ok(a)
    requires Complete(a) && LiteralsBelow(a, 31)
    ensures Tabulable(formula) && CommandsOf(formula) == Ok(Accepted(Words(ToRpn(a))))
  {
    MoreLiterals(a, 31, SIGNALS);
    CompileCorrect(a, 0);
    TextRoundTrip(a);
    MaxLiteral(a, 30);
    MaxSignalBounds(Postfix(a));
  }

  /**
   Because earlier mask bits stay, a second table over fewer signals can be read outside its
   bounds; lookups are safe for every pattern exactly when no earlier formula had more signals.
   */
  lemma ReuseIsSafeIff(table: TriggerMap, cs: seq<string>, earlier: nat)
    requires table.Tabulates(cs) && earlier <= 31
    requires table.fSignalMask == BitOr(Pow2(earlier) - 1, Pow2(table.fNsignal) - 1)
    ensures (forall v: uint32 :: table.Index(v) < |table.fLut|) <==> earlier <= table.fNsignal
  {
    if earlier <= table.fNsignal {
      OrOfOnes(earlier, table.fNsignal);
      forall v: uint32 ensures table.Index(v) < |table.fLut| {
        LookUpIsValue(table, cs, v);
      }
    } else {
      var v := ReadsOutside(table, cs, earlier);
    }
  }

  /** The first pattern beyond the table is looked up beyond the table. */
  lemma ReadsOutside(table: TriggerMap, cs: seq<string>, earlier: nat) returns (v: uint32)
    requires table.Tabulates(cs) && table.fNsignal < earlier <= 31
    requires table.fSignalMask == BitOr(Pow2(earlier) - 1, Pow2(table.fNsignal) - 1)
    ensures table.Index(v) >= |table.fLut|
  {
    Pow2Monotone(table.fNsignal, 31);
    Powers();
    v := Pow2(table.fNsignal);
    LeftoverBit(table.fNsignal, earlier);
  }

  lemma LeftoverBit(n: nat, earlier: nat)
    requires n < earlier
    ensures BitAnd(Pow2(n), BitOr(Pow2(earlier) - 1, Pow2(n) - 1)) >= Pow2(n)
  {
    var mask := BitOr(Pow2(earlier) - 1, Pow2(n) - 1);
    AndBit(Pow2(n), mask, n);
    OrBit(Pow2(earlier) - 1, Pow2(n) - 1, n);
    OnesBit(earlier, n);
    Pow2Bit(n, n);
    BitIsHigh(BitAnd(Pow2(n), mask), n);
  }

  lemma {:induction false} BitIsHigh(v: nat, n: nat)
    requires Bit(v, n)
    ensures v >= Pow2(n)
  {
    if n > 0 { BitIsHigh(v / 2, n - 1); }
  }

  lemma OrOfOnes(m: nat, n: nat)
    requires m <= n
    ensures BitOr(Pow2(m) - 1, Pow2(n) - 1) == Pow2(n) - 1
  {
    var a, b := BitOr(Pow2(m) - 1, Pow2(n) - 1), Pow2(n) - 1;
    forall k: nat ensures Bit(a, k) == Bit(b, k) {
      OrBit(Pow2(m) - 1, Pow2(n) - 1, k);
      OnesBit(m, k);
      OnesBit(n, k);
    }
    SameBits(a, b);
  }
}
