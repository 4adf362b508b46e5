/**
 The coincidence trigger: signals are entered by module and channel, every matching time
 word paints a window of bits into the time region, and the scan reports the times at
 which the formula becomes true.
 */
module CoincidenceTrigger {
  import opened Outcomes
  import opened Bits
  import opened Commands
  import opened Calculator
  import opened LookupTable
  import opened UnpackTdc
  import opened EntryMaps

  type RegionSize = x: int | 1 <= x < 0x8000_0000 witness 1
  type MarkLength = x: int | -0x8000_0000 <= x < 0x8000_0000

  /** One data block of a heartbeat frame. */
  datatype Segment = Segment(femType: uint32, femId: uint32, words: seq<uint64>)

  /** Integer division by two, truncating toward zero. */
  function Half(len: int): (h: int)
    ensures len >= 0 ==> 2 * h <= len <= 2 * h + 1
    ensures len < 0 ==> 2 * h - 1 <= len <= 2 * h
  {
    if len >= 0 then len / 2 else -(-len / 2)
  }

  // ----- which times a word paints -----

  /** The unsigned tests of the source: the hit is accepted and some step of the window lands on t. */
  ghost predicate CodePaints(size: RegionSize, h: int, time: int, t: int) {
    Wrap32(time) < Wrap32(size - h) && Lands(Wrap32(time), -h, h + 1, t)
  }

  ghost predicate Lands(hit: int, lo: int, hi: int, t: int) {
    exists k | lo <= k < hi :: StepsTo(hit, k, t)
  }

  predicate StepsTo(hit: int, k: int, t: int) {
    Wrap32(hit + k) == t
  }

  /** What they are meant to say. */
  predicate InWindow(size: RegionSize, h: int, time: int, t: int) {
    0 <= time < size - h && -h <= t - time <= h
  }

  /** The word is a leading edge of the signal's channel. */
  predicate Matches(sig: Signal, femType: uint32, word: uint64): (m: bool)
    ensures m <==> IsEdge(femType, word, sig.ch)
  {
    EdgeIsDecoded(femType, word, sig.ch);
    Unpack(femType, word).kind == T_TDC && Unpack(femType, word).ch == sig.ch
  }

  function HitTime(sig: Signal, femType: uint32, word: uint64): (t: int)
    requires Matches(sig, femType, word)
    ensures -0x8000_0000 <= t < 0x8000_0000
    ensures t == EdgeTime(femType, word) + sig.delay
  {
    CoarseTimeFits(femType, word);
    EdgeIsDecoded(femType, word, sig.ch);
    Unpack(femType, word).tdc4n + sig.delay
  }

  ghost predicate WordLights(sig: Signal, femType: uint32, word: uint64, size: RegionSize, h: int, t: int) {
    Matches(sig, femType, word) && CodePaints(size, h, HitTime(sig, femType, word), t)
  }

  ghost predicate WordsLight(sig: Signal, femType: uint32, words: seq<uint64>, size: RegionSize, h: int, t: int) {
    exists j | 0 <= j < |words| :: WordLights(sig, femType, words[j], size, h, t)
  }

  /** Segment `seg` lights signal c at time t. */
  ghost predicate Lights(signals: seq<Signal>, seg: Segment, size: RegionSize, h: int, c: nat, t: int) {
    && c < |signals|
    && signals[c].fem == seg.femId
    && WordsLight(signals[c], seg.femType, seg.words, size, h, t)
  }

  ghost predicate AnyLights(signals: seq<Signal>, segs: seq<Segment>, size: RegionSize, h: int, c: nat, t: int) {
    exists s | 0 <= s < |segs| :: Lights(signals, segs[s], size, h, c, t)
  }

  /** The signals that are on at time t. */
  ghost function OnAt(signals: seq<Signal>, segs: seq<Segment>, size: RegionSize, h: int, t: int): set<nat> {
    set c: nat | c < |signals| && AnyLights(signals, segs, size, h, c, t)
  }

  // ----- painting regions -----

  /** `after` is `before` with exactly the bits of `lit` added. */
  ghost predicate Paints(before: seq<uint32>, after: seq<uint32>, lit: (nat, nat) -> bool) {
    && |after| == |before|
    && forall t: nat, c: nat {:trigger Bit(after[t], c)} {:trigger lit(c, t)} | t < |before| ::
         Bit(after[t], c) == (Bit(before[t], c) || lit(c, t))
  }

  /** Step k of a window around `hit` for signal b. */
  ghost function Dot(hit: int, k: int, b: nat): (nat, nat) -> bool {
    (c, t) => c == b && StepsTo(hit, k, t)
  }

  /** The steps lo <= k < hi of that window. */
  ghost function Dots(hit: int, lo: int, hi: int, b: nat): (nat, nat) -> bool {
    (c, t) => c == b && Lands(hit, lo, hi, t)
  }

  ghost function Window(size: RegionSize, h: int, hit: uint32, b: nat): (nat, nat) -> bool {
    (c, t) => c == b && hit < Wrap32(size - h) && Lands(hit, -h, h + 1, t)
  }

  lemma PaintNone(r: seq<uint32>, lit: (nat, nat) -> bool)
    requires forall t: nat, c: nat | t < |r| :: !lit(c, t)
    ensures Paints(r, r, lit)
  {
  }

  lemma PaintSame(x: seq<uint32>, y: seq<uint32>, f: (nat, nat) -> bool, g: (nat, nat) -> bool)
    requires Paints(x, y, f)
    requires forall t: nat, c: nat | t < |x| :: g(c, t) == f(c, t)
    ensures Paints(x, y, g)
  {
    forall t: nat, c: nat | t < |x| ensures Bit(y[t], c) == (Bit(x[t], c) || g(c, t)) {
      assert g(c, t) == f(c, t);
    }
  }

  lemma PaintMore(x: seq<uint32>, y: seq<uint32>, z: seq<uint32>,
                  f: (nat, nat) -> bool, g: (nat, nat) -> bool, both: (nat, nat) -> bool)
    requires Paints(x, y, f) && Paints(y, z, g)
    requires forall t: nat, c: nat | t < |x| :: both(c, t) == (f(c, t) || g(c, t))
    ensures Paints(x, z, both)
  {
    forall t: nat, c: nat | t < |x| ensures Bit(z[t], c) == (Bit(x[t], c) || both(c, t)) {
      assert Bit(y[t], c) == (Bit(x[t], c) || f(c, t));
      assert both(c, t) == (f(c, t) || g(c, t));
    }
  }

  lemma PaintOne(x: seq<uint32>, y: seq<uint32>, at: nat, b: nat, lit: (nat, nat) -> bool)
    requires at < |x| && b < 32 && Pow2(b) < TWO32 && BitOr(x[at], Pow2(b)) < TWO32
    requires y == x[at := BitOr(x[at], Pow2(b))]
    requires forall t: nat, c: nat | t < |x| :: lit(c, t) == (c == b && t == at)
    ensures Paints(x, y, lit)
  {
    forall t: nat, c: nat | t < |x| ensures Bit(y[t], c) == (Bit(x[t], c) || lit(c, t)) {
      OrBit(x[at], Pow2(b), c);
      Pow2Bit(b, c);
    }
  }

  // ----- rising edges -----

  /** `hits` lists, in increasing order, exactly the times 1 <= t < n where f turns true. */
  ghost predicate Rising(hits: seq<uint32>, n: nat, f: nat -> bool) {
    && (forall i, j | 0 <= i < j < |hits| :: hits[i] < hits[j])
    && (forall t: uint32 {:trigger t in hits} :: t in hits <==> 1 <= t < n && !f(t - 1) && f(t))
  }

  /** Looking at one more time adds it as a hit exactly when f turns true there. */
  lemma RisingAdd(hits: seq<uint32>, n: nat, f: nat -> bool)
    requires 1 <= n < TWO32 && Rising(hits, n, f) && !f(n - 1) && f(n)
    ensures Rising(hits + [n], n + 1, f)
  {
    forall i | 0 <= i < |hits| ensures hits[i] < n {
      assert hits[i] in hits;
    }
    var more := hits + [n];
    assert forall i, j | 0 <= i < j < |more| :: more[i] < more[j];
    forall t: uint32 ensures t in more <==> 1 <= t < n + 1 && !f(t - 1) && f(t) {
      InSnoc(hits, n, t);
      assert t in hits <==> 1 <= t < n && !f(t - 1) && f(t);
    }
  }

  lemma InSnoc(s: seq<uint32>, x: uint32, y: uint32)
    ensures y in s + [x] <==> y in s || y == x
  {
  }

  lemma RisingSkip(hits: seq<uint32>, n: nat, f: nat -> bool)
    requires 1 <= n < TWO32 && Rising(hits, n, f) && (f(n - 1) || !f(n))
    ensures Rising(hits, n + 1, f)
  {
    forall t: uint32 ensures t in hits <==> 1 <= t < n + 1 && !f(t - 1) && f(t) {
      assert t in hits <==> 1 <= t < n && !f(t - 1) && f(t);
    }
  }

  class Trigger {
    var fEntryCh: map<uint32, seq<int>>
    var fEntryChDelay: map<uint32, seq<Delay>>
    var fEntryChBit: map<uint32, seq<uint32>>
    var fEntryCounts: nat
    var fEntryMask: uint32
    var fTimeRegionSize: RegionSize
    var fTimeRegion: array<uint32>
    var fHits: seq<uint32>
    var fMarkLen: MarkLength
    const fTMap: TriggerMap

    /** The signals in the order they were entered, the signal of each slot, and the slot of each signal. */
    ghost var fSignals: seq<Signal>
    ghost var fNumber: map<uint32, seq<nat>>
    ghost var fSlot: seq<nat>
    /** The commands of the formula that was tabulated. */
    ghost var fCommands: seq<string>

    constructor (size: RegionSize)
      ensures EntriesMatch() && fSignals == [] && fresh(fTMap) && fresh(fTimeRegion)
      ensures fTimeRegionSize == size == fTimeRegion.Length && fMarkLen == 5
      ensures fTMap.fSignalMask == 0
    {
      fEntryCh, fEntryChDelay, fEntryChBit := map[], map[], map[];
      fEntryCounts, fEntryMask, fHits, fMarkLen := 0, 0, [], 5;
      fTimeRegionSize := size;
      fTimeRegion := new uint32[size];
      fTMap := new TriggerMap();
      fSignals, fNumber, fSlot, fCommands := [], map[], [], [];
    }

    /** The entry maps are an index, by module, of the signals in order of entry. */
    ghost predicate EntriesMatch()
      reads this
    {
      Registered(fEntryCounts, fEntryMask, fEntryCh, fEntryChDelay, fEntryChBit, fSignals, fNumber, fSlot)
    }

    /** Signal number n is the n-th one entered; the source aborts after 32. */
    method Entry(fem: uint32, ch: int, offset: Delay)
      requires EntriesMatch() && |fSignals| < 32
      modifies this`fEntryCh, this`fEntryChDelay, this`fEntryChBit, this`fEntryCounts, this`fEntryMask,
               this`fSignals, this`fNumber, this`fSlot
      ensures EntriesMatch()
      ensures fSignals == old(fSignals) + [Signal(fem, ch, offset)]
    {
      MaskOf(fEntryCounts, fEntryMask, fEntryCh, fEntryChDelay, fEntryChBit, fSignals, fNumber, fSlot);
      var bit, mask := EntryBit(fEntryCounts), WithBit(fEntryMask, fEntryCounts);
      ghost var sig := Signal(fem, ch, offset);
      EntryKeeps(fEntryCounts, fEntryMask, fEntryCh, fEntryChDelay, fEntryChBit, fSignals, fNumber, fSlot, sig);
      ghost var place: nat := |Slots<nat>(fNumber, fem)|;
      fSlot, fNumber, fSignals := fSlot + [place], Filed<nat>(fNumber, fem, |fSignals|), fSignals + [sig];
      fEntryCh, fEntryChDelay, fEntryChBit :=
        Filed<int>(fEntryCh, fem, ch), Filed<Delay>(fEntryChDelay, fem, offset), Filed<uint32>(fEntryChBit, fem, bit);
      fEntryMask, fEntryCounts := mask, fEntryCounts + 1;
    }

    method ClearEntry()
      modifies this`fEntryCh, this`fEntryChDelay, this`fEntryChBit, this`fEntryCounts, this`fEntryMask,
               this`fSignals, this`fNumber, this`fSlot
      ensures EntriesMatch() && fSignals == []
    {
      fEntryCh, fEntryChDelay, fEntryChBit := map[], map[], map[];
      fEntryCounts, fEntryMask := 0, 0;
      fSignals, fNumber, fSlot := [], map[], [];
    }

    method MakeTable(formula: string) returns (r: Result<()>)
      requires Tabulable(formula)
      modifies fTMap, this`fCommands
      ensures r.Ok? <==> CommandsOf(formula).Ok?
      ensures r.Ok? ==> fCommands == CommandsOf(formula).value && fTMap.Tabulates(fCommands)
      ensures r.Ok? && old(fTMap.fSignalMask) == 0 ==> TableReady()
      ensures r.Throw? ==> r.message == CommandsOf(formula).message
    {
      r := fTMap.MakeTable(formula);
      if r.Ok? {
        fCommands := CommandsOf(formula).value;
      }
    }

    /** A table made by a fresh `TriggerMap`. */
    ghost predicate TableReady()
      reads this, fTMap
    {
      fTMap.Tabulates(fCommands) && fTMap.fSignalMask == Pow2(fTMap.fNsignal) - 1
    }

    method CleanUpTimeRegion()
      requires fTimeRegion.Length == fTimeRegionSize
      modifies fTimeRegion
      ensures forall t | 0 <= t < fTimeRegionSize :: fTimeRegion[t] == 0
    {
      for i := 0 to fTimeRegionSize
        invariant forall t | 0 <= t < i :: fTimeRegion[t] == 0
      {
        fTimeRegion[i] := 0;
      }
    }

    /** The window loop around one hit. */
    method PaintWindow(hit: uint32, markbit: uint32, ghost b: nat)
      requires fTimeRegion.Length == fTimeRegionSize && b < 32 && markbit == Pow2(b)
      modifies fTimeRegion
      ensures Paints(old(fTimeRegion[..]), fTimeRegion[..], Window(fTimeRegionSize, Half(fMarkLen), hit, b))
    {
      var h := Half(fMarkLen);
      ghost var start := fTimeRegion[..];
      if hit < Wrap32(fTimeRegionSize - h) {
        var k := -1 * h;
        while k < h + 1
          invariant -h <= k && (h >= 0 ==> k <= h + 1) && (h < 0 ==> k == -h)
          invariant Paints(start, fTimeRegion[..], Dots(hit, -h, k, b))
        {
          ghost var before := fTimeRegion[..];
          PaintStep(hit, k, markbit, b);
          PaintMore(start, before, fTimeRegion[..], Dots(hit, -h, k, b), Dot(hit, k, b), Dots(hit, -h, k + 1, b));
          k := k + 1;
        }
      }
    }

    /** One step: the bound is tested on the wrapped sum. */
    method PaintStep(hit: uint32, k: int, markbit: uint32, ghost b: nat)
      requires fTimeRegion.Length == fTimeRegionSize && b < 32 && markbit == Pow2(b)
      modifies fTimeRegion
      ensures Paints(old(fTimeRegion[..]), fTimeRegion[..], Dot(hit, k, b))
    {
      var at := Wrap32(hit + k);
      if at < fTimeRegionSize {
        Powers();
        Pow2Monotone(b + 1, 32);
        OrBelow(fTimeRegion[at], markbit, 32);
        fTimeRegion[at] := BitOr(fTimeRegion[at], markbit);
        PaintOne(old(fTimeRegion[..]), fTimeRegion[..], at, b, Dot(hit, k, b));
      }
    }

    /** The loop over the words for one slot of the entry maps. */
    method MarkWords(seg: Segment, ch: int, delay: Delay, markbit: uint32, ghost b: nat)
      requires fTimeRegion.Length == fTimeRegionSize && b < 32 && markbit == Pow2(b)
      modifies fTimeRegion
      ensures Paints(old(fTimeRegion[..]), fTimeRegion[..],
                     WordsLit(Signal(seg.femId, ch, delay), b, seg.femType, seg.words, fTimeRegionSize, Half(fMarkLen)))
    {
      ghost var sig, h, start := Signal(seg.femId, ch, delay), Half(fMarkLen), fTimeRegion[..];
      for j := 0 to |seg.words|
        invariant Paints(start, fTimeRegion[..], WordsLit(sig, b, seg.femType, seg.words[..j], fTimeRegionSize, h))
      {
        ghost var before := fTimeRegion[..];
        MarkWord(seg, seg.words[j], ch, delay, markbit, b);
        WordsLightMore(sig, seg.femType, seg.words, j, fTimeRegionSize, h);
        PaintMore(start, before, fTimeRegion[..],
                  WordsLit(sig, b, seg.femType, seg.words[..j], fTimeRegionSize, h),
                  WordLit(sig, b, seg.femType, seg.words[j], fTimeRegionSize, h),
                  WordsLit(sig, b, seg.femType, seg.words[..j + 1], fTimeRegionSize, h));
      }
      assert seg.words[..|seg.words|] == seg.words;
    }

    /** One word for one slot; the source repeats these lines for each of the four decoders. */
    method MarkWord(seg: Segment, word: uint64, ch: int, delay: Delay, markbit: uint32, ghost b: nat)
      requires fTimeRegion.Length == fTimeRegionSize && b < 32 && markbit == Pow2(b)
      modifies fTimeRegion
      ensures Paints(old(fTimeRegion[..]), fTimeRegion[..],
                     WordLit(Signal(seg.femId, ch, delay), b, seg.femType, word, fTimeRegionSize, Half(fMarkLen)))
    {
      var tdc := Unpack(seg.femType, word);
      ghost var sig, h, start := Signal(seg.femId, ch, delay), Half(fMarkLen), fTimeRegion[..];
      ghost var lit := WordLit(sig, b, seg.femType, word, fTimeRegionSize, h);
      if tdc.kind == T_TDC {
        if tdc.ch == ch {
          assert Matches(sig, seg.femType, word);
          var hit := Wrap32(tdc.tdc4n + delay);
          PaintWindow(hit, markbit, b);
          assert hit == Wrap32(HitTime(sig, seg.femType, word));
          PaintSame(start, fTimeRegion[..], Window(fTimeRegionSize, h, hit, b), lit);
          return;
        }
      }
      assert !Matches(sig, seg.femType, word);
      PaintNone(start, lit);
    }

    /** Paints every entered signal of the segment's module. */
    method Mark(seg: Segment)
      requires EntriesMatch() && fTimeRegion.Length == fTimeRegionSize
      modifies fTimeRegion
      ensures Paints(old(fTimeRegion[..]), fTimeRegion[..], SegmentLit(fSignals, seg, fTimeRegionSize, Half(fMarkLen)))
    {
      var fem := seg.femId;
      ghost var h, start, numbers := Half(fMarkLen), fTimeRegion[..], Slots<nat>(fNumber, fem);
      NumbersOf(fEntryCh, fEntryChDelay, fEntryChBit, fSignals, fNumber, fSlot, fem);
      if fem in fEntryCh {
        MarkSlots(seg);
      }
      PaintSame(start, fTimeRegion[..], SlotsLit(fSignals, numbers, seg, fTimeRegionSize, h),
                SegmentLit(fSignals, seg, fTimeRegionSize, h));
    }

    /** The loop over the slots of one module. */
    method MarkSlots(seg: Segment)
      requires EntriesMatch() && fTimeRegion.Length == fTimeRegionSize && seg.femId in fEntryCh
      modifies fTimeRegion
      ensures Paints(old(fTimeRegion[..]), fTimeRegion[..],
                     SlotsLit(fSignals, Slots<nat>(fNumber, seg.femId), seg, fTimeRegionSize, Half(fMarkLen)))
    {
      var fem := seg.femId;
      ghost var h, start, numbers := Half(fMarkLen), fTimeRegion[..], Slots<nat>(fNumber, fem);
      assert SlotsDescribe(fem, Slots(fEntryCh, fem), Slots(fEntryChDelay, fem), Slots(fEntryChBit, fem), numbers,
                           fSignals);
      for i := 0 to |fEntryCh[fem]|
        invariant Paints(start, fTimeRegion[..], SlotsLit(fSignals, numbers[..i], seg, fTimeRegionSize, h))
      {
        ghost var before := fTimeRegion[..];
        MarkWords(seg, fEntryCh[fem][i], fEntryChDelay[fem][i], fEntryChBit[fem][i], numbers[i]);
        PaintMore(start, before, fTimeRegion[..],
                  SlotsLit(fSignals, numbers[..i], seg, fTimeRegionSize, h),
                  WordsLit(fSignals[numbers[i]], numbers[i], seg.femType, seg.words, fTimeRegionSize, h),
                  SlotsLit(fSignals, numbers[..i + 1], seg, fTimeRegionSize, h));
      }
      assert numbers[..|numbers|] == numbers;
    }

    method Scan()
      requires fTimeRegion.Length == fTimeRegionSize && TableReady()
      modifies this`fHits
      ensures Rising(fHits, fTimeRegionSize, Answers(fCommands, fTimeRegion[..]))
    {
      fHits := [];
      ghost var f := Answers(fCommands, fTimeRegion[..]);
      for i := 0 to fTimeRegionSize - 1
        invariant Rising(fHits, i + 1, f)
      {
        LookUpIsValue(fTMap, fCommands, fTimeRegion[i]);
        LookUpIsValue(fTMap, fCommands, fTimeRegion[i + 1]);
        assert f(i) == fTMap.LookUp(fTimeRegion[i]) && f(i + 1) == fTMap.LookUp(fTimeRegion[i + 1]);
        if !fTMap.LookUp(fTimeRegion[i]) && fTMap.LookUp(fTimeRegion[i + 1]) {
          RisingAdd(fHits, i + 1, f);
          fHits := fHits + [i + 1];
        } else {
          RisingSkip(fHits, i + 1, f);
        }
      }
    }

    /**
     End to end: whatever was painted before, the hits are exactly the times at which the
     commands turn true on the patterns of signals that the segments light.
     */
    method Exec(hbf: seq<Segment>)
      requires EntriesMatch() && fTimeRegion.Length == fTimeRegionSize && TableReady()
      modifies fTimeRegion, this`fHits
      ensures forall t | 0 <= t < fTimeRegionSize ::
                BitsOf(fTimeRegion[t]) == OnAt(fSignals, hbf, fTimeRegionSize, Half(fMarkLen), t)
      ensures Rising(fHits, fTimeRegionSize, Answers(fCommands, fTimeRegion[..]))
    {
      CleanUpTimeRegion();
      ghost var h, zeros := Half(fMarkLen), fTimeRegion[..];
      for s := 0 to |hbf|
        invariant Paints(zeros, fTimeRegion[..], SegmentsLit(fSignals, hbf[..s], fTimeRegionSize, h))
      {
        ghost var before := fTimeRegion[..];
        Mark(hbf[s]);
        AnyLightsMore(fSignals, hbf, s, fTimeRegionSize, h);
        PaintMore(zeros, before, fTimeRegion[..],
                  SegmentsLit(fSignals, hbf[..s], fTimeRegionSize, h), SegmentLit(fSignals, hbf[s], fTimeRegionSize, h),
                  SegmentsLit(fSignals, hbf[..s + 1], fTimeRegionSize, h));
      }
      assert hbf[..|hbf|] == hbf;
      PaintedBits(zeros, fTimeRegion[..], fSignals, hbf, fTimeRegionSize, h);
      Scan();
    }
  }

  ghost function WordLit(sig: Signal, b: nat, femType: uint32, word: uint64, size: RegionSize, h: int)
    : (nat, nat) -> bool
  {
    (c, t) => c == b && WordLights(sig, femType, word, size, h, t)
  }

  ghost function WordsLit(sig: Signal, b: nat, femType: uint32, words: seq<uint64>, size: RegionSize, h: int)
    : (nat, nat) -> bool
  {
    (c, t) => c == b && WordsLight(sig, femType, words, size, h, t)
  }

  ghost function SlotsLit(signals: seq<Signal>, numbers: seq<nat>, seg: Segment, size: RegionSize, h: int)
    : (nat, nat) -> bool
  {
    (c, t) => c in numbers && c < |signals| && WordsLight(signals[c], seg.femType, seg.words, size, h, t)
  }

  ghost function SegmentLit(signals: seq<Signal>, seg: Segment, size: RegionSize, h: int): (nat, nat) -> bool {
    (c: nat, t: nat) => Lights(signals, seg, size, h, c, t)
  }

  ghost function SegmentsLit(signals: seq<Signal>, segs: seq<Segment>, size: RegionSize, h: int): (nat, nat) -> bool {
    (c: nat, t: nat) => AnyLights(signals, segs, size, h, c, t)
  }

  /** The commands' value at each time of a region. */
  ghost function Answers(cs: seq<string>, region: seq<uint32>): nat -> bool {
    (t: nat) => t < |region| && Value(cs, region[t])
  }

  lemma WordsLightMore(sig: Signal, femType: uint32, words: seq<uint64>, j: nat, size: RegionSize, h: int)
    requires j < |words|
    ensures forall t ::
      WordsLight(sig, femType, words[..j + 1], size, h, t)
        == (WordsLight(sig, femType, words[..j], size, h, t) || WordLights(sig, femType, words[j], size, h, t))
  {
    forall t
      ensures WordsLight(sig, femType, words[..j + 1], size, h, t)
        == (WordsLight(sig, femType, words[..j], size, h, t) || WordLights(sig, femType, words[j], size, h, t))
    {
      forall i | 0 <= i < j ensures words[..j][i] == words[..j + 1][i] {}
      assert words[..j + 1][j] == words[j];
    }
  }

  lemma AnyLightsMore(signals: seq<Signal>, segs: seq<Segment>, s: nat, size: RegionSize, h: int)
    requires s < |segs|
    ensures forall c: nat, t ::
      AnyLights(signals, segs[..s + 1], size, h, c, t)
        == (AnyLights(signals, segs[..s], size, h, c, t) || Lights(signals, segs[s], size, h, c, t))
  {
    forall c: nat, t
      ensures AnyLights(signals, segs[..s + 1], size, h, c, t)
        == (AnyLights(signals, segs[..s], size, h, c, t) || Lights(signals, segs[s], size, h, c, t))
    {
      forall i | 0 <= i < s ensures segs[..s][i] == segs[..s + 1][i] {}
      assert segs[..s + 1][s] == segs[s];
    }
  }

  lemma PaintedBits(zeros: seq<uint32>, region: seq<uint32>, signals: seq<Signal>, segs: seq<Segment>,
                    size: RegionSize, h: int)
    requires |signals| <= 32 && |zeros| == size && (forall t | 0 <= t < |zeros| :: zeros[t] == 0)
    requires Paints(zeros, region, SegmentsLit(signals, segs, size, h))
    ensures forall t: nat | t < |region| :: BitsOf(region[t]) == OnAt(signals, segs, size, h, t)
  {
    forall t: nat | t < |region| ensures BitsOf(region[t]) == OnAt(signals, segs, size, h, t) {
      forall c: nat ensures c in BitsOf(region[t]) <==> c in OnAt(signals, segs, size, h, t) {
        ZeroBit(c);
        assert Bit(region[t], c) == (Bit(zeros[t], c) || SegmentsLit(signals, segs, size, h)(c, t));
        assert AnyLights(signals, segs, size, h, c, t) ==> c < |signals|;
      }
    }
  }
}
