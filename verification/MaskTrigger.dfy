/**
 The older coincidence trigger compares each time's bits with the mask of all entered
 signals. It finds the same hits as the table-driven trigger with the formula that asks
 for every signal.
 */
module MaskTrigger {
  import opened Outcomes
  import opened Bits
  import opened Lexer
  import opened InfixToRpn
  import opened Grammar
  import opened Commands
  import opened Calculator
  import opened LookupTable
  import opened EntryMaps
  import opened CoincidenceTrigger
  import opened TriggerMeaning

  /** Whether all bits of the mask are set at a time. */
  ghost function MaskHolds(mask: uint32, region: seq<uint32>): nat -> bool {
    (t: nat) => t < |region| && BitAnd(mask, region[t]) == mask
  }

  class MaskTrigger {
    var fEntryCh: map<uint32, seq<int>>
    var fEntryChDelay: map<uint32, seq<Delay>>
    var fEntryChBit: map<uint32, seq<uint32>>
    var fEntryCounts: nat
    var fEntryMask: uint32
    var fTimeRegionSize: RegionSize
    var fTimeRegion: array<uint32>
    var fHits: seq<uint32>
    ghost var fSignals: seq<Signal>
    ghost var fNumber: map<uint32, seq<nat>>
    ghost var fSlot: seq<nat>

    constructor (size: RegionSize)
      ensures EntriesMatch() && fSignals == []
      ensures fTimeRegionSize == size == fTimeRegion.Length && fresh(fTimeRegion)
    {
      fEntryCh, fEntryChDelay, fEntryChBit := map[], map[], map[];
      fEntryCounts, fEntryMask, fHits := 0, 0, [];
      fTimeRegionSize := size;
      fTimeRegion := new uint32[size];
      fSignals, fNumber, fSlot := [], map[], [];
    }

    /** Maps, count and mask are those of the signals in order of entry. */
    ghost predicate EntriesMatch()
      reads this
    {
      Registered(fEntryCounts, fEntryMask, fEntryCh, fEntryChDelay, fEntryChBit, fSignals, fNumber, fSlot)
    }

    /** Each entry files a signal and adds the next bit to the mask; the source aborts after 32. */
    method Entry(fem: uint32, ch: int, offset: Delay)
      requires EntriesMatch() && |fSignals| < 32
      modifies this`fEntryCh, this`fEntryChDelay, this`fEntryChBit, this`fEntryCounts, this`fEntryMask,
               this`fSignals, this`fNumber, this`fSlot
      ensures EntriesMatch()
      ensures fSignals == old(fSignals) + [Signal(fem, ch, offset)]
    {
      MaskOf(fEntryCounts, fEntryMask, fEntryCh, fEntryChDelay, fEntryChBit, fSignals, fNumber, fSlot);
      var bit, mask := EntryBit(fEntryCounts), WithBit(fEntryMask, fEntryCounts);
      ghost var sig := Signal(fem, ch, offset);
      EntryKeeps(fEntryCounts, fEntryMask, fEntryCh, fEntryChDelay, fEntryChBit, fSignals, fNumber, fSlot, sig);
      ghost var place: nat := |Slots<nat>(fNumber, fem)|;
      fSlot, fNumber, fSignals := fSlot + [place], Filed<nat>(fNumber, fem, |fSignals|), fSignals + [sig];
      fEntryCh, fEntryChDelay, fEntryChBit :=
        Filed<int>(fEntryCh, fem, ch), Filed<Delay>(fEntryChDelay, fem, offset), Filed<uint32>(fEntryChBit, fem, bit);
      fEntryMask, fEntryCounts := mask, fEntryCounts + 1;
    }

    method Scan()
      requires fTimeRegion.Length == fTimeRegionSize
      modifies this`fHits
      ensures Rising(fHits, fTimeRegionSize, MaskHolds(fEntryMask, fTimeRegion[..]))
    {
      fHits := [];
      ghost var f := MaskHolds(fEntryMask, fTimeRegion[..]);
      for i := 0 to fTimeRegionSize - 1
        invariant Rising(fHits, i + 1, f)
      {
        assert f(i) == (BitAnd(fEntryMask, fTimeRegion[i]) == fEntryMask);
        assert f(i + 1) == (BitAnd(fEntryMask, fTimeRegion[i + 1]) == fEntryMask);
        if BitAnd(fEntryMask, fTimeRegion[i]) != fEntryMask && BitAnd(fEntryMask, fTimeRegion[i + 1]) == fEntryMask {
          RisingAdd(fHits, i + 1, f);
          fHits := fHits + [i + 1];
        } else {
          RisingSkip(fHits, i + 1, f);
        }
      }
    }
  }

  // ----- the formula 0 & 1 & ... & n-1 -----

  function Digit(d: nat): char
    requires d < 10
  {
    '0' + d as char
  }

  /** Decimal digits of k. */
  function Decimal(k: nat): (s: string)
    ensures IsNumber(s) && AtoI(s) == k
  {
    if k < 10 then
      assert [Digit(k)][..0] == "";
      [Digit(k)]
    else
      var s := Decimal(k / 10) + [Digit(k % 10)];
      assert s[..|s| - 1] == Decimal(k / 10);
      s
  }

  function Conjunction(n: nat): (a: Ast)
    requires n >= 1
    ensures Complete(a) && LiteralsBelow(a, n)
  {
    var last := Node(Decimal(n - 1), Null, Null);
    NotOperator(last.value);
    if n == 1 then last
    else
      MoreLiterals(Conjunction(n - 1), n - 1, n);
      Node("&", Conjunction(n - 1), last)
  }

  lemma NotOperator(s: string)
    requires IsNumber(s)
    ensures !IsOperator(s)
  {
    assert IsDigit(s[0]);
  }

  lemma {:induction false} ConjunctionAsksAll(n: nat, on: set<nat>)
    requires n >= 1
    ensures Eval(Conjunction(n), on) <==> forall i: nat | i < n :: i in on
  {
    NotOperator(Decimal(n - 1));
    if n > 1 { ConjunctionAsksAll(n - 1, on); }
  }

  predicate IsOn(v: nat, i: nat) {
    Bit(v, i)
  }

  /** A word contains the mask of n ones exactly when its bits 0 to n-1 are set. */
  lemma OnesContained(n: nat, v: nat)
    ensures BitAnd(Pow2(n) - 1, v) == Pow2(n) - 1 <==> forall i: nat | i < n :: IsOn(v, i)
  {
    var ones := Pow2(n) - 1;
    var both := BitAnd(ones, v);
    forall i: nat ensures Bit(both, i) == (i < n && IsOn(v, i)) && Bit(ones, i) == (i < n) {
      AndBit(ones, v, i);
      OnesBit(n, i);
    }
    if forall i: nat | i < n :: IsOn(v, i) {
      forall i: nat ensures Bit(both, i) == Bit(ones, i) {
        AndBit(ones, v, i);
        OnesBit(n, i);
        assert i < n ==> IsOn(v, i);
      }
      SameBits(both, ones);
    }
    if both == ones {
      forall i: nat | i < n ensures IsOn(v, i) {
        AndBit(ones, v, i);
        OnesBit(n, i);
      }
    }
  }

  lemma MaskIsConjunction(n: nat, v: uint32)
    requires 1 <= n <= 32
    ensures BitAnd(Pow2(n) - 1, v) == Pow2(n) - 1 <==> Eval(Conjunction(n), BitsOf(v))
  {
    OnesContained(n, v);
    ConjunctionAsksAll(n, BitsOf(v));
    forall i: nat | i < n ensures i in BitsOf(v) <==> IsOn(v, i) {}
    if forall i: nat | i < n :: IsOn(v, i) {
      forall i: nat | i < n ensures i in BitsOf(v) { assert IsOn(v, i); }
    }
    if forall i: nat | i < n :: i in BitsOf(v) {
      forall i: nat | i < n ensures IsOn(v, i) { assert i in BitsOf(v); }
    }
  }

  /**
   On every time region the mask scan with n signals and the table scan with the formula that
   asks for all n give the same hits.
   */
  lemma ScansAgree(n: nat, mask: uint32, region: seq<uint32>, size: nat, byMask: seq<uint32>, byTable: seq<uint32>)
    requires 1 <= n <= 31 && |region| == size && mask == Pow2(n) - 1
    requires Rising(byMask, size, MaskHolds(mask, region))
    requires Rising(byTable, size, Answers(Accepted(Words(ToRpn(Conjunction(n)))), region))
    ensures byMask == byTable
  {
    var a := Conjunction(n);
    MoreLiterals(a, n, SIGNALS);
    forall t: nat | t < size
      ensures MaskHolds(mask, region)(t) == Answers(Accepted(Words(ToRpn(a))), region)(t)
    {
      CompileCorrect(a, region[t]);
      MaskIsConjunction(n, region[t]);
    }
    SameEdges(byMask, size, MaskHolds(mask, region), Answers(Accepted(Words(ToRpn(a))), region));
    HitsUnique(byMask, byTable, size, Answers(Accepted(Words(ToRpn(a))), region));
  }

  /** The conjunction is what the formula's text denotes. */
  lemma ConjunctionText(n: nat, gaps: seq<string>)
    requires 1 <= n <= 31
    requires |gaps| == |Toks(OrForm(Conjunction(n)))| + 1 && Spaced(Toks(OrForm(Conjunction(n))), gaps)
    ensures Parse(Spell(Toks(OrForm(Conjunction(n))), gaps)) == Ok(Conjunction(n))
  {
    MoreLiterals(Conjunction(n), n, SIGNALS);
    PrintedFormulaParses(Conjunction(n), gaps);
  }

  /** The table accepts the conjunction. */
  lemma ConjunctionIsTabulable(n: nat)
    requires 1 <= n <= 31
    ensures Defined(Accepted(Words(ToRpn(Conjunction(n))))) && MaxSignal(Accepted(Words(ToRpn(Conjunction(n))))) <= 30
  {
    var a := Conjunction(n);
    MoreLiterals(a, n, 31);
    MoreLiterals(a, n, SIGNALS);
    CompileCorrect(a, 0);
    TextRoundTrip(a);
    MaxLiteral(a, 30);
    MaxSignalBounds(Postfix(a));
  }
}
