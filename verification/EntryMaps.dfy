/**
 The signals of a coincidence trigger: entered one by one, and filed by module in parallel maps of
 channels, delays and bits. Both triggers keep them alike.
 */
module EntryMaps {
  import opened Bits

  /** Delays are small enough that adding a coarse time does not overflow `int`. */
  type Delay = x: int | -0x8000_0000 <= x < 0x8000_0000 - 0x2_0000

  datatype Signal = Signal(fem: uint32, ch: int, delay: Delay)

  type Index<T> = map<uint32, seq<T>>

  function Slots<T>(m: Index<T>, fem: uint32): seq<T> {
    if fem in m then m[fem] else []
  }

  /** Slot i of the module's lists describes signal `numbers[i]`. */
  ghost predicate SlotsDescribe(fem: uint32, chs: seq<int>, delays: seq<Delay>, bits: seq<uint32>,
                                numbers: seq<nat>, signals: seq<Signal>)
  {
    && |chs| == |delays| == |bits| == |numbers|
    && forall i | 0 <= i < |numbers| ::
         && numbers[i] < |signals|
         && signals[numbers[i]] == Signal(fem, chs[i], delays[i])
         && bits[i] == Pow2(numbers[i])
  }

  ghost predicate HasSlot(signals: seq<Signal>, numbers: Index<nat>, slot: seq<nat>, b: nat)
    requires b < |signals| && b < |slot|
  {
    slot[b] < |Slots<nat>(numbers, signals[b].fem)| && Slots<nat>(numbers, signals[b].fem)[slot[b]] == b
  }

  ghost predicate Indexed(chs: Index<int>, delays: Index<Delay>, bits: Index<uint32>,
                          signals: seq<Signal>, numbers: Index<nat>, slot: seq<nat>)
  {
    && |slot| == |signals|
    && chs.Keys == delays.Keys == bits.Keys == numbers.Keys
    && (forall fem :: SlotsDescribe(fem, Slots<int>(chs, fem), Slots<Delay>(delays, fem), Slots<uint32>(bits, fem),
                                    Slots<nat>(numbers, fem), signals))
    && (forall b | 0 <= b < |signals| :: HasSlot(signals, numbers, slot, b))
  }

  function Filed<T>(m: Index<T>, fem: uint32, x: T): Index<T> {
    m[fem := Slots(m, fem) + [x]]
  }

  lemma FiledSlots<T>(m: Index<T>, fem: uint32, x: T, k: uint32)
    ensures Slots(Filed(m, fem, x), k) == if k == fem then Slots(m, k) + [x] else Slots(m, k)
  {
  }

  /** Appending to the lists of one module keeps the index. */
  lemma IndexMore(chs: Index<int>, delays: Index<Delay>, bits: Index<uint32>,
                  signals: seq<Signal>, numbers: Index<nat>, slot: seq<nat>, sig: Signal, bit: uint32)
    requires Indexed(chs, delays, bits, signals, numbers, slot) && bit == Pow2(|signals|)
    ensures Indexed(Filed<int>(chs, sig.fem, sig.ch), Filed<Delay>(delays, sig.fem, sig.delay),
                    Filed<uint32>(bits, sig.fem, bit), signals + [sig],
                    Filed<nat>(numbers, sig.fem, |signals|), slot + [|Slots<nat>(numbers, sig.fem)|])
  {
    var f, n := sig.fem, |signals|;
    var chs', delays', bits', numbers' := Filed<int>(chs, f, sig.ch), Filed<Delay>(delays, f, sig.delay),
      Filed<uint32>(bits, f, bit), Filed<nat>(numbers, f, n);
    forall fem
      ensures SlotsDescribe(fem, Slots(chs', fem), Slots(delays', fem), Slots(bits', fem), Slots(numbers', fem),
                            signals + [sig])
    {
      FiledSlots<int>(chs, f, sig.ch, fem);
      FiledSlots<Delay>(delays, f, sig.delay, fem);
      FiledSlots<uint32>(bits, f, bit, fem);
      FiledSlots<nat>(numbers, f, n, fem);
      DescribeMore(fem, Slots<int>(chs, fem), Slots<Delay>(delays, fem), Slots<uint32>(bits, fem),
                   Slots<nat>(numbers, fem), signals, sig, bit);
    }
    HasSlotMore(signals, numbers, slot, sig);
  }

  /** Counts, mask and maps after entering one more signal still match the signals entered. */
  lemma EntryKeeps(counts: nat, mask: nat, chs: Index<int>, delays: Index<Delay>, bits: Index<uint32>,
                   signals: seq<Signal>, numbers: Index<nat>, slot: seq<nat>, sig: Signal)
    requires Registered(counts, mask, chs, delays, bits, signals, numbers, slot) && counts < 32
    ensures Registered(counts + 1, WithBit(mask, counts), Filed<int>(chs, sig.fem, sig.ch),
                       Filed<Delay>(delays, sig.fem, sig.delay), Filed<uint32>(bits, sig.fem, EntryBit(counts)),
                       signals + [sig], Filed<nat>(numbers, sig.fem, |signals|),
                       slot + [|Slots<nat>(numbers, sig.fem)|])
  {
    IndexMore(chs, delays, bits, signals, numbers, slot, sig, EntryBit(counts));
  }

  lemma MaskOf(counts: nat, mask: nat, chs: Index<int>, delays: Index<Delay>, bits: Index<uint32>,
               signals: seq<Signal>, numbers: Index<nat>, slot: seq<nat>)
    requires Registered(counts, mask, chs, delays, bits, signals, numbers, slot)
    ensures mask == Pow2(counts) - 1 && counts == |signals|
  {
  }

  ghost predicate Registered(counts: nat, mask: nat, chs: Index<int>, delays: Index<Delay>, bits: Index<uint32>,
                          signals: seq<Signal>, numbers: Index<nat>, slot: seq<nat>)
  {
    && counts == |signals| <= 32
    && mask == Pow2(|signals|) - 1
    && Indexed(chs, delays, bits, signals, numbers, slot)
  }

  lemma HasSlotMore(signals: seq<Signal>, numbers: Index<nat>, slot: seq<nat>, sig: Signal)
    requires |slot| == |signals| && forall b | 0 <= b < |signals| :: HasSlot(signals, numbers, slot, b)
    ensures
      var signals', numbers', slot' := signals + [sig], Filed<nat>(numbers, sig.fem, |signals|),
        slot + [|Slots<nat>(numbers, sig.fem)|];
      forall b | 0 <= b < |signals'| :: HasSlot(signals', numbers', slot', b)
  {
    var signals', numbers', slot' := signals + [sig], Filed<nat>(numbers, sig.fem, |signals|),
      slot + [|Slots<nat>(numbers, sig.fem)|];
    forall b | 0 <= b < |signals'| ensures HasSlot(signals', numbers', slot', b) {
      FiledSlots<nat>(numbers, sig.fem, |signals|, signals'[b].fem);
      if b < |signals| { assert HasSlot(signals, numbers, slot, b); }
    }
  }

  lemma DescribeMore(fem: uint32, chs: seq<int>, delays: seq<Delay>, bits: seq<uint32>,
                     numbers: seq<nat>, signals: seq<Signal>, sig: Signal, bit: uint32)
    requires SlotsDescribe(fem, chs, delays, bits, numbers, signals) && bit == Pow2(|signals|)
    ensures SlotsDescribe(fem, chs, delays, bits, numbers, signals + [sig])
    ensures fem == sig.fem ==>
      SlotsDescribe(fem, chs + [sig.ch], delays + [sig.delay], bits + [bit], numbers + [|signals|], signals + [sig])
  {
  }

  /** The numbers filed under a module are those of its signals. */
  lemma NumbersOf(chs: Index<int>, delays: Index<Delay>, bits: Index<uint32>,
                  signals: seq<Signal>, numbers: Index<nat>, slot: seq<nat>, fem: uint32)
    requires Indexed(chs, delays, bits, signals, numbers, slot)
    ensures forall c: nat :: c in Slots<nat>(numbers, fem) <==> c < |signals| && signals[c].fem == fem
  {
    assert SlotsDescribe(fem, Slots<int>(chs, fem), Slots<Delay>(delays, fem), Slots<uint32>(bits, fem),
                         Slots<nat>(numbers, fem), signals);
    forall c: nat | c < |signals| && signals[c].fem == fem ensures c in Slots<nat>(numbers, fem) {
      assert HasSlot(signals, numbers, slot, c);
    }
  }

  function EntryBit(n: nat): (bit: uint32)
    requires n < 32
    ensures bit == Pow2(n)
  {
    Pow2Monotone(n + 1, 32);
    Powers();
    Pow2(n)
  }

  function WithBit(mask: nat, n: nat): (r: uint32)
    requires n < 32 && mask == Pow2(n) - 1
    ensures r == Pow2(n + 1) - 1
  {
    EntryMaskGrows(n);
    BitOr(mask, EntryBit(n))
  }

  lemma EntryMaskGrows(n: nat)
    requires n < 32
    ensures BitOr(Pow2(n) - 1, Pow2(n)) == Pow2(n + 1) - 1 < TWO32
  {
    OrNextOne(0, n);
    Pow2Monotone(n + 1, 32);
    Powers();
  }
}
