/**
 What the time-frame builder keeps over whole runs, and when its length field is right.
 */
module TfProperties {
  import opened Outcomes
  import opened Bits
  import opened StfBuilder
  import opened TfBuilder

  // ----- rounds -----

  /** Later state r extends the history of s, and sends nothing whose identifier s had given up. */
  ghost predicate Extends(s: TfState, r: TfState) {
    && s.emitted <= r.emitted
    && s.discarded <= r.discarded
    && s.timedOut <= r.timedOut && s.late <= r.late
    && s.clock <= r.clock
    && forall k | |s.emitted| <= k < |r.emitted| :: r.emitted[k].timeFrameId !in s.discarded
  }

  lemma ExtendsTrans(s: TfState, t: TfState, r: TfState)
    requires Extends(s, t) && Extends(t, r)
    ensures Extends(s, r)
  {
    forall k | |s.emitted| <= k < |r.emitted| ensures r.emitted[k].timeFrameId !in s.discarded {
      if k < |t.emitted| { assert r.emitted[k] == t.emitted[k]; }
    }
  }

  lemma VisitExtends(c: Settings, s: TfState, id: uint32, now: int, full: set<uint32>)
    requires Inv(c, s, full) && id in s.buffer && s.buffer[id] != [] && s.clock <= now
    ensures Extends(s, Visit(c, s, id, now)) && Visit(c, s, id, now).received == s.received
  {
    assert EntriesOk(s, id, if id in full then c.numSource else c.numSource - 1);
  }

  lemma {:induction false} VisitsKeep(c: Settings, s: TfState, order: seq<(uint32, int)>, r: TfState, full: set<uint32>)
    requires Inv(c, s, full) && Visits(c, s, order, r)
    ensures Inv(c, r, full - Ids(order)) && Extends(s, r) && r.received == s.received
  {
    if order == [] {
      assert full - Ids(order) == full;
    } else {
      var front := order[..|order| - 1];
      var (id, now) := order[|order| - 1];
      var t :| Visits(c, s, front, t) && VisitTo(c, t, id, now, r);
      VisitsKeep(c, s, front, t, full);
      VisitKeeps(c, t, id, now, full - Ids(front));
      VisitExtends(c, t, id, now, full - Ids(front));
      ExtendsTrans(s, t, r);
      assert full - Ids(order) == (full - Ids(front)) - {id};
    }
  }

  function Arrived(inParts: Option<Stf>): multiset<Stf> {
    if inParts.Some? then multiset{inParts.value} else multiset{}
  }

  /**
   Every round, whatever arrives and whatever the clock reads: afterwards every buffered
   identifier waits for at least one more part and has not been given up; every part received
   so far is buffered, sent, timed out or refused, once; nothing given up is sent any more.
   */
  lemma RoundKeeps(c: Settings, s: TfState, inParts: Option<Stf>, rcv: int, order: seq<(uint32, int)>, r: TfState)
    requires Inv(c, s, {}) && Next(c, s, inParts, rcv, order, r)
    ensures Inv(c, r, {}) && Extends(s, r)
    ensures r.received == s.received + Arrived(inParts)
  {
    var t := if inParts.Some? then Receive(s, inParts.value, rcv) else s;
    if inParts.Some? {
      ReceiveKeeps(c, s, inParts.value, rcv);
    } else {
      FullGrows(c, s, s.buffer.Keys);
      assert s.received + multiset{} == s.received;
    }
    assert Extends(s, t);
    VisitsKeep(c, t, order, r, t.buffer.Keys);
    ExtendsTrans(s, t, r);
    assert t.buffer.Keys - Ids(order) == {};
  }

  /** Histories of rounds. */
  datatype Round = Round(inParts: Option<Stf>, rcv: int, order: seq<(uint32, int)>)

  ghost predicate Rounds(c: Settings, states: seq<TfState>, rounds: seq<Round>) {
    && |states| == |rounds| + 1
    && forall k | 0 <= k < |rounds| ::
         Next(c, states[k], rounds[k].inParts, rounds[k].rcv, rounds[k].order, states[k + 1])
  }

  const EMPTY := TfState(map[], {}, [], multiset{}, multiset{}, multiset{}, 0)

  lemma EmptyOk(c: Settings)
    requires c.Ok()
    ensures Inv(c, EMPTY, {})
  {
  }

  /** A time frame that was given up at some point is never sent later in any run. */
  lemma {:induction false} GivenUpStaysGivenUp(c: Settings, states: seq<TfState>, rounds: seq<Round>, i: nat, j: nat)
    requires c.Ok() && Rounds(c, states, rounds) && states[0] == EMPTY && i <= j < |states|
    ensures Inv(c, states[j], {}) && Extends(states[i], states[j])
    decreases j
  {
    EmptyOk(c);
    if j > 0 {
      GivenUpStaysGivenUp(c, states, rounds, if i < j then i else j - 1, j - 1);
      NextState(c, states, rounds, j - 1);
      RoundKeeps(c, states[j - 1], rounds[j - 1].inParts, rounds[j - 1].rcv, rounds[j - 1].order, states[j]);
      if i < j {
        ExtendsTrans(states[i], states[j - 1], states[j]);
      }
    }
  }

  lemma NextState(c: Settings, states: seq<TfState>, rounds: seq<Round>, k: nat)
    requires Rounds(c, states, rounds) && k < |rounds|
    ensures Next(c, states[k], rounds[k].inParts, rounds[k].rcv, rounds[k].order, states[k + 1])
  {
  }

  // ----- the length field -----

  function TrueLength(stfs: seq<Stf>): nat {
    if stfs == [] then TF_HEADER_BYTES
    else TrueLength(stfs[..|stfs| - 1]) + Bytes(stfs[|stfs| - 1].parts)
  }

  /** How many bytes the `int` sums miss. */
  function Lost(stfs: seq<Stf>): int {
    if stfs == [] then 0
    else Lost(stfs[..|stfs| - 1]) + Missed(Bytes(stfs[|stfs| - 1].parts))
  }

  function Missed(b: nat): (m: int)
    ensures 0 <= m <= 2 * b
    ensures m == 0 <==> b < 0x8000_0000
  {
    b - Int32(b)
  }

  lemma Int32Add(a: int, b: int)
    ensures Int32(Int32(a) + b) == Int32(a + b)
  {
  }

  lemma {:induction false} IntBytesWraps(ps: seq<Part>)
    ensures IntBytes(ps) == Int32(Bytes(ps))
  {
    if ps != [] {
      IntBytesWraps(ps[..|ps| - 1]);
      Int32Add(Bytes(ps[..|ps| - 1]), Size(ps[|ps| - 1]));
    }
  }

  lemma AddMod(x: int, y: int)
    ensures (x % TWO64 + y) % TWO64 == (x + y) % TWO64
  {
  }

  lemma {:induction false} SumLengthLoses(stfs: seq<Stf>)
    ensures SumLength(stfs) == (TrueLength(stfs) - Lost(stfs)) % TWO64
  {
    if stfs != [] {
      var front, parts := stfs[..|stfs| - 1], stfs[|stfs| - 1].parts;
      SumLengthLoses(front);
      IntBytesWraps(parts);
      AddMod(TrueLength(front) - Lost(front), Int32(Bytes(parts)));
    }
  }

  predicate AllSmall(stfs: seq<Stf>) {
    forall k | 0 <= k < |stfs| :: Bytes(stfs[k].parts) < 0x8000_0000
  }

  lemma {:induction false} LostIffLarge(stfs: seq<Stf>)
    ensures 0 <= Lost(stfs) <= 2 * TrueLength(stfs)
    ensures Lost(stfs) == 0 <==> AllSmall(stfs)
  {
    if stfs != [] {
      var front := stfs[..|stfs| - 1];
      LostIffLarge(front);
      assert forall k | 0 <= k < |front| :: front[k] == stfs[k];
    }
  }

  /**
   The length field counts the header and every byte exactly when each sub-time-frame is
   smaller than 2^31 bytes: the inner sum is accumulated in `int`.
   */
  lemma LengthExactIff(stfs: seq<Stf>)
    requires TrueLength(stfs) < 0x8000_0000_0000_0000
    ensures SumLength(stfs) == TrueLength(stfs) <==> AllSmall(stfs)
  {
    var total, lost, sum := TrueLength(stfs), Lost(stfs), SumLength(stfs);
    assert sum == (total - lost) % TWO64 by { SumLengthLoses(stfs); }
    LostIffLarge(stfs);
    WrapIff(total, lost);
  }

  /** One sub-time-frame of 2^31 + 4 bytes: its header and a message of 429496724 words. */
  function Oversize(): Stf {
    Stf(0, [Header(0, 0, 0x8000_0004, 2), Message(seq(429_496_724, _ => DATA * 0x10_0000_0000))])
  }

  /** For it the `int` sum turns negative, and the length field is not the number of bytes. */
  lemma OversizeExample()
    ensures Oversize().Ok() && Bytes(Oversize().parts) == 0x8000_0004
    ensures IntBytes(Oversize().parts) == -0x7fff_fffc
    ensures TrueLength([Oversize()]) == 0x8000_0004 + TF_HEADER_BYTES
    ensures SumLength([Oversize()]) == TWO64 - 0x7fff_ffe4
  {
    var x := Oversize();
    assert x.parts[..1] == [x.parts[0]] && x.parts[..1][..0] == [];
    assert Bytes(x.parts[..1]) == STF_HEADER_BYTES;
    IntBytesWraps(x.parts);
    assert [x][..0] == [];
    assert SumLength([]) == TF_HEADER_BYTES == TrueLength([]);
  }

  lemma WrapIff(total: nat, lost: nat)
    requires total < 0x8000_0000_0000_0000 && lost <= 2 * total
    ensures (total - lost) % TWO64 == total <==> lost == 0
  {
    if total < lost {
      ModUnique(total - lost, TWO64, -1, total - lost + TWO64);
    } else {
      ModUnique(total - lost, TWO64, 0, total - lost);
    }
  }
}
