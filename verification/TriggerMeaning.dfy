/**
 What the list returned by `Trigger.Exec` means for an infix formula: the times at which
 the formula becomes true, a signal being on within half a mark length of its hits.
 */
module TriggerMeaning {
  import opened Outcomes
  import opened Bits
  import opened InfixToRpn
  import opened Grammar
  import opened Commands
  import opened Calculator
  import opened LookupTable
  import opened UnpackTdc
  import opened EntryMaps
  import opened CoincidenceTrigger

  // ----- the unsigned tests and the window they are meant to test -----

  lemma WindowIsMeant(size: RegionSize, h: int, time: int, t: int)
    requires h <= size && -0x4000_0000 <= h < 0x4000_0000
    requires -0x8000_0000 <= time < 0x8000_0000 && 0 <= t < size
    ensures CodePaints(size, h, time, t) == InWindow(size, h, time, t)
  {
    if InWindow(size, h, time, t) {
      assert StepsTo(Wrap32(time), t - time, t);
    }
    WrapIs(time);
    WrapIs(size - h);
    if CodePaints(size, h, time, t) {
      var k :| -h <= k < h + 1 && StepsTo(Wrap32(time), k, t);
      assert time >= 0;
      WrapIs(time + k);
    }
  }

  lemma WrapIs(x: int)
    requires -TWO32 < x < 2 * TWO32
    ensures Wrap32(x) == if x < 0 then x + TWO32 else if x < TWO32 then x else x - TWO32
  {
  }

  /** With a region shorter than half the mark the subtraction wraps: time 0 is painted although it should not be. */
  lemma ShortRegionDiffers(size: RegionSize, h: int)
    requires size < h < 0x4000_0000
    ensures CodePaints(size, h, 0, 0) && !InWindow(size, h, 0, 0)
  {
    assert StepsTo(0, 0, 0);
  }

  /** The tests say what they are meant to for every hit exactly when half the mark fits the region. */
  lemma WindowMeantIff(size: RegionSize, h: int)
    requires -0x4000_0000 <= h < 0x4000_0000
    ensures h <= size <==>
      forall time, t | -0x8000_0000 <= time < 0x8000_0000 && 0 <= t < size ::
        CodePaints(size, h, time, t) == InWindow(size, h, time, t)
  {
    if h <= size {
      forall time, t | -0x8000_0000 <= time < 0x8000_0000 && 0 <= t < size
        ensures CodePaints(size, h, time, t) == InWindow(size, h, time, t)
      {
        WindowIsMeant(size, h, time, t);
      }
    } else {
      ShortRegionDiffers(size, h);
    }
  }

  /** Word j of the segment is a leading edge on the signal's channel whose delayed time is within h of t. */
  predicate Near(sig: Signal, seg: Segment, j: nat, size: RegionSize, h: int, t: int)
    requires j < |seg.words|
  {
    && sig.fem == seg.femId
    && IsEdge(seg.femType, seg.words[j], sig.ch)
    && var time := EdgeTime(seg.femType, seg.words[j]) + sig.delay;
       0 <= time < size - h && time - h <= t <= time + h
  }

  /** The signals with a near hit in some segment. */
  ghost function SignalsAt(signals: seq<Signal>, segs: seq<Segment>, size: RegionSize, h: int, t: int): set<nat> {
    set c: nat | c < |signals| &&
      exists s: nat, j: nat | s < |segs| && j < |segs[s].words| :: Near(signals[c], segs[s], j, size, h, t)
  }

  lemma OnAtIsMeant(signals: seq<Signal>, segs: seq<Segment>, size: RegionSize, h: int, t: int)
    requires h <= size && -0x4000_0000 <= h < 0x4000_0000 && 0 <= t < size
    ensures OnAt(signals, segs, size, h, t) == SignalsAt(signals, segs, size, h, t)
  {
    forall c: nat | c < |signals|
      ensures AnyLights(signals, segs, size, h, c, t)
         <==> exists s: nat, j: nat | s < |segs| && j < |segs[s].words| :: Near(signals[c], segs[s], j, size, h, t)
    {
      if AnyLights(signals, segs, size, h, c, t) {
        var s :| 0 <= s < |segs| && Lights(signals, segs[s], size, h, c, t);
        var j :| 0 <= j < |segs[s].words| && WordLights(signals[c], segs[s].femType, segs[s].words[j], size, h, t);
        WindowIsMeant(size, h, HitTime(signals[c], segs[s].femType, segs[s].words[j]), t);
        assert Near(signals[c], segs[s], j, size, h, t);
      }
      if s: nat, j: nat :| s < |segs| && j < |segs[s].words| && Near(signals[c], segs[s], j, size, h, t) {
        WindowIsMeant(size, h, HitTime(signals[c], segs[s].femType, segs[s].words[j]), t);
        assert WordLights(signals[c], segs[s].femType, segs[s].words[j], size, h, t);
        assert Lights(signals, segs[s], size, h, c, t);
      }
    }
  }

  // ----- end to end -----

  /** The formula's value over time. */
  ghost function FormulaAt(a: Ast, signals: seq<Signal>, segs: seq<Segment>, size: RegionSize, h: int): nat -> bool
    requires Complete(a)
  {
    (t: nat) => Eval(a, SignalsAt(signals, segs, size, h, t))
  }

  /** At every time the region holds exactly the signals that are on. */
  ghost predicate Shows(region: seq<uint32>, signals: seq<Signal>, segs: seq<Segment>, size: RegionSize, h: int) {
    && |region| == size
    && forall t: nat | t < size :: BitsOf(region[t]) == SignalsAt(signals, segs, size, h, t)
  }

  /**
   From characters to hits, for a formula in either notation: with any signals and any segments the
   trigger returns exactly the increasing list of times at which the formula's commands turn true
   on the signals that are on, or the error of a formula that does not parse.
   */
  method TriggerOnText(formula: string, signals: seq<Signal>, markLen: MarkLength, size: RegionSize, hbf: seq<Segment>)
    returns (r: Result<seq<uint32>>, ghost region: seq<uint32>)
    requires Tabulable(formula) && |signals| <= 32 && Half(markLen) <= size
    ensures r.Ok? <==> CommandsOf(formula).Ok?
    ensures r.Throw? ==> r.message == CommandsOf(formula).message
    ensures r.Ok? ==> Shows(region, signals, hbf, size, Half(markLen))
    ensures r.Ok? ==> Rising(r.value, size, Answers(CommandsOf(formula).value, region))
  {
    region := [];
    var trigger := EnterSignals(signals, size);
    var made := trigger.MakeTable(formula);
    if made.Throw? { return Throw(made.message), region; }
    trigger.fMarkLen := markLen;
    trigger.Exec(hbf);
    region := trigger.fTimeRegion[..];
    RegionIsMeant(region, signals, hbf, size, Half(markLen));
    r := Ok(trigger.fHits);
  }

  lemma RegionIsMeant(region: seq<uint32>, signals: seq<Signal>, segs: seq<Segment>, size: RegionSize, h: int)
    requires h <= size && -0x4000_0000 <= h < 0x4000_0000 && |region| == size
    requires forall t | 0 <= t < size :: BitsOf(region[t]) == OnAt(signals, segs, size, h, t)
    ensures Shows(region, signals, segs, size, h)
  {
    forall t: nat | t < size ensures BitsOf(region[t]) == SignalsAt(signals, segs, size, h, t) {
      OnAtIsMeant(signals, segs, size, h, t);
    }
  }

  /**
   For an infix formula whose operands are all present and whose signals are at most 30 that is
   exactly the increasing list of times at which the formula turns true.
   */
  method TriggerOnFormula(formula: string, ghost a: Ast, signals: seq<Signal>, markLen: MarkLength,
                          size: RegionSize, hbf: seq<Segment>)
    returns (hits: seq<uint32>)
    requires !IsRpnText(formula) && Parse(formula) == Ok(a)
    requires Complete(a) && LiteralsBelow(a, 31) && |signals| <= 32
    requires Half(markLen) <= size
    ensures Rising(hits, size, FormulaAt(a, signals, hbf, size, Half(markLen)))
  {
    CompleteIsTabulable(formula, a);
    var r; ghost var region;
    r, region := TriggerOnText(formula, signals, markLen, size, hbf);
    hits := r.value;
    FormulaDecides(a, Accepted(Words(ToRpn(a))), region, signals, hbf, size, Half(markLen));
    SameEdges(hits, size, Answers(Accepted(Words(ToRpn(a))), region), FormulaAt(a, signals, hbf, size, Half(markLen)));
  }

  /** A new trigger with the given signals, entered in order. */
  method EnterSignals(signals: seq<Signal>, size: RegionSize) returns (trigger: Trigger)
    requires |signals| <= 32
    ensures fresh(trigger) && fresh(trigger.fTimeRegion) && fresh(trigger.fTMap)
    ensures trigger.EntriesMatch() && trigger.fSignals == signals
    ensures trigger.fTimeRegion.Length == trigger.fTimeRegionSize == size
    ensures trigger.fTMap.fSignalMask == 0
  {
    trigger := new Trigger(size);
    for n := 0 to |signals|
      invariant trigger.EntriesMatch() && trigger.fSignals == signals[..n]
      invariant trigger.fTimeRegion.Length == trigger.fTimeRegionSize == size
      invariant trigger.fTMap.fSignalMask == 0
      invariant fresh(trigger) && fresh(trigger.fTimeRegion) && fresh(trigger.fTMap)
    {
      trigger.Entry(signals[n].fem, signals[n].ch, signals[n].delay);
    }
    assert signals[..|signals|] == signals;
  }

  lemma FormulaDecides(a: Ast, cs: seq<string>, region: seq<uint32>, signals: seq<Signal>, hbf: seq<Segment>,
                       size: RegionSize, h: int)
    requires Complete(a) && LiteralsBelow(a, 31) && cs == Accepted(Words(ToRpn(a))) && |region| == size
    requires Shows(region, signals, hbf, size, h)
    ensures forall t: nat | t < size :: Answers(cs, region)(t) == FormulaAt(a, signals, hbf, size, h)(t)
  {
    MoreLiterals(a, 31, SIGNALS);
    forall t: nat | t < size ensures Answers(cs, region)(t) == FormulaAt(a, signals, hbf, size, h)(t) {
      CompileCorrect(a, region[t]);
    }
  }

  lemma SameEdges(hits: seq<uint32>, n: nat, f: nat -> bool, g: nat -> bool)
    requires Rising(hits, n, f) && forall t: nat | t < n :: f(t) == g(t)
    ensures Rising(hits, n, g)
  {
  }

  // ----- consequences -----

  /** Two hits are never at neighbouring times. */
  lemma HitsApart(hits: seq<uint32>, n: nat, f: nat -> bool, i: nat)
    requires Rising(hits, n, f) && i + 1 < |hits|
    ensures hits[i + 1] as int - hits[i] as int >= 2
  {
    assert hits[i] in hits && hits[i + 1] in hits;
  }

  /** The hits are determined by the function they are the edges of. */
  lemma {:induction false} HitsUnique(x: seq<uint32>, y: seq<uint32>, n: nat, f: nat -> bool)
    requires Rising(x, n, f) && Rising(y, n, f)
    ensures x == y
  {
    assert forall t: uint32 :: t in x <==> t in y;
    SortedUnique(x, y);
  }

  lemma {:induction false} SortedUnique(x: seq<uint32>, y: seq<uint32>)
    requires forall i, j | 0 <= i < j < |x| :: x[i] < x[j]
    requires forall i, j | 0 <= i < j < |y| :: y[i] < y[j]
    requires forall t: uint32 :: t in x <==> t in y
    ensures x == y
  {
    assert x != [] ==> x[0] in y;
    assert y != [] ==> y[0] in x;
    if x != [] {
      assert x[0] == y[0];
      forall t: uint32 ensures t in x[1..] <==> t in y[1..] {
        assert t in x[1..] <==> t in x && t != x[0];
        assert t in y[1..] <==> t in y && t != y[0];
      }
      SortedUnique(x[1..], y[1..]);
      assert x == [x[0]] + x[1..] && y == [y[0]] + y[1..];
    }
  }

  /** Every word of every segment of `p` also arrives, from the same kind of module, in `q`. */
  ghost predicate Covered(p: seq<Segment>, q: seq<Segment>) {
    forall s: nat, j: nat | s < |p| && j < |p[s].words| :: Arrives(p[s], j, q)
  }

  ghost predicate Arrives(seg: Segment, j: nat, q: seq<Segment>)
    requires j < |seg.words|
  {
    exists s: nat, k: nat | s < |q| && k < |q[s].words| ::
      q[s].femType == seg.femType && q[s].femId == seg.femId && q[s].words[k] == seg.words[j]
  }

  lemma CoveredSignals(p: seq<Segment>, q: seq<Segment>, signals: seq<Signal>, size: RegionSize, h: int, t: int)
    requires Covered(p, q)
    ensures SignalsAt(signals, p, size, h, t) <= SignalsAt(signals, q, size, h, t)
  {
    forall c: nat | c in SignalsAt(signals, p, size, h, t) ensures c in SignalsAt(signals, q, size, h, t) {
      var s: nat, j: nat :| s < |p| && j < |p[s].words| && Near(signals[c], p[s], j, size, h, t);
      assert Arrives(p[s], j, q);
      var s': nat, k: nat :| s' < |q| && k < |q[s'].words| &&
        q[s'].femType == p[s].femType && q[s'].femId == p[s].femId && q[s'].words[k] == p[s].words[j];
      assert Near(signals[c], q[s'], k, size, h, t);
    }
  }

  /** Reordering, splitting, merging or repeating segments and words changes no hit. */
  lemma OrderIsImmaterial(x: seq<uint32>, y: seq<uint32>, a: Ast, signals: seq<Signal>,
                          p: seq<Segment>, q: seq<Segment>, size: RegionSize, h: int)
    requires Complete(a) && Covered(p, q) && Covered(q, p)
    requires Rising(x, size, FormulaAt(a, signals, p, size, h)) && Rising(y, size, FormulaAt(a, signals, q, size, h))
    ensures x == y
  {
    forall t: nat | t < size ensures FormulaAt(a, signals, p, size, h)(t) == FormulaAt(a, signals, q, size, h)(t) {
      CoveredSignals(p, q, signals, size, h, t);
      CoveredSignals(q, p, signals, size, h, t);
      assert SignalsAt(signals, p, size, h, t) == SignalsAt(signals, q, size, h, t);
    }
    SameEdges(x, size, FormulaAt(a, signals, p, size, h), FormulaAt(a, signals, q, size, h));
    HitsUnique(x, y, size, FormulaAt(a, signals, q, size, h));
  }
}
