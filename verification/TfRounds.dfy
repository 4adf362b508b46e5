/**
 What one round of the time-frame builder decides, told from what is buffered after the receive:
 which collections are sent, which are given up, which wait, and which part is refused.
 */
module TfRounds {
  import opened Outcomes
  import opened Bits
  import opened StfBuilder
  import opened TfBuilder
  import opened TfProperties

  type Buffer = map<uint32, seq<Entry>>

  /** The buffer when the sweep begins: the part received is filed unless its identifier was given up. */
  function Filed(s: TfState, inParts: Option<Stf>, rcv: int): Buffer
    requires inParts.Some? ==> inParts.value.Ok()
  {
    if inParts.None? || inParts.value.Id() in s.discarded then s.buffer
    else
      var id := inParts.value.Id();
      s.buffer[id := (if id in s.buffer then s.buffer[id] else []) + [Entry(inParts.value, rcv)]]
  }

  /** The collection is incomplete and its first part arrived more than timeoutMs whole milliseconds before `now`. */
  predicate Lapsed(c: Settings, es: seq<Entry>, now: int) {
    0 < |es| < c.numSource && now - es[0].start >= (c.timeoutMs + 1) * 1_000_000
  }

  /** The clock reading of the identifier's visit. */
  function ReadingOf(order: seq<(uint32, int)>, id: uint32): int
    requires id in Ids(order)
  {
    var (last, now) := order[|order| - 1];
    if last == id then now else ReadingOf(order[..|order| - 1], id)
  }

  /** The time frame of a complete collection. */
  function FrameOf(c: Settings, got: Buffer, id: uint32): seq<TimeFrame>
    requires id in got
  {
    if |got[id]| == c.numSource then [TimeFrame(id, c.numSource, SumLength(Stfs(got[id])), Stfs(got[id]))] else []
  }

  /** The time frames of the complete collections, in the order of the visits. */
  function Complete(c: Settings, got: Buffer, order: seq<(uint32, int)>): seq<TimeFrame>
    requires Ids(order) <= got.Keys
  {
    if order == [] then []
    else Complete(c, got, order[..|order| - 1]) + FrameOf(c, got, order[|order| - 1].0)
  }

  /** The parts of a lapsed collection. */
  function PartsOf(c: Settings, got: Buffer, id: uint32, now: int): multiset<Stf>
    requires id in got
  {
    if Lapsed(c, got[id], now) then multiset(Stfs(got[id])) else multiset{}
  }

  /** The parts of the lapsed collections. */
  function LapsedParts(c: Settings, got: Buffer, order: seq<(uint32, int)>): multiset<Stf>
    requires Ids(order) <= got.Keys
  {
    if order == [] then multiset{}
    else
      var (id, now) := order[|order| - 1];
      LapsedParts(c, got, order[..|order| - 1]) + PartsOf(c, got, id, now)
  }

  /** After the visits in `order`: what stays buffered, what is given up, and until when the clock has run. */
  ghost predicate Decided(c: Settings, got: Buffer, discarded: set<uint32>, order: seq<(uint32, int)>, r: TfState)
    requires Ids(order) <= got.Keys
  {
    && (forall id | id in r.buffer :: id in got && r.buffer[id] == got[id])
    && (forall id | id in got ::
          id in r.buffer <==>
            (id in Ids(order) ==> |got[id]| < c.numSource && !Lapsed(c, got[id], ReadingOf(order, id))))
    && (forall id :: id in r.discarded <==>
          id in discarded || (id in Ids(order) && Lapsed(c, got[id], ReadingOf(order, id))))
    && (forall id | id in Ids(order) && |got[id]| < c.numSource :: ReadingOf(order, id) <= r.clock)
  }

  lemma {:induction false} IdsCount(order: seq<(uint32, int)>)
    ensures |Ids(order)| <= |order|
    ensures order != [] && |Ids(order)| == |order| ==>
      var front := order[..|order| - 1];
      |Ids(front)| == |front| && order[|order| - 1].0 !in Ids(front)
  {
    if order != [] {
      var front, id := order[..|order| - 1], order[|order| - 1].0;
      IdsCount(front);
      if id in Ids(front) { assert Ids(order) == Ids(front); }
    }
  }

  /** The whole outcome of the visits in `order`, starting from the history of s with `got` in the buffer. */
  ghost predicate Outcome(c: Settings, got: Buffer, s: TfState, order: seq<(uint32, int)>, r: TfState)
    requires Ids(order) <= got.Keys
  {
    && Decided(c, got, s.discarded, order, r)
    && r.emitted == s.emitted + Complete(c, got, order)
    && r.timedOut == s.timedOut + LapsedParts(c, got, order)
    && r.late == s.late && s.clock <= r.clock
  }

  lemma {:induction false} VisitsDecide(c: Settings, t: TfState, order: seq<(uint32, int)>, r: TfState,
                                        full: set<uint32>)
    requires Inv(c, t, full) && Visits(c, t, order, r) && |Ids(order)| == |order| && Ids(order) <= t.buffer.Keys
    ensures Outcome(c, t.buffer, t, order, r)
  {
    if order == [] {
      assert t.emitted + [] == t.emitted;
    } else {
      var front := order[..|order| - 1];
      var (id, now) := order[|order| - 1];
      var m :| Visits(c, t, front, m) && VisitTo(c, m, id, now, r);
      IdsCount(order);
      VisitsDecide(c, t, front, m, full);
      EntryCount(c, t, full, id);
      VisitDecides(c, t.buffer, t.discarded, order, m, r);
      OneMore(c, t.buffer, t, order, m, r);
    }
  }

  lemma EntryCount(c: Settings, t: TfState, full: set<uint32>, id: uint32)
    requires Inv(c, t, full) && id in t.buffer
    ensures 1 <= |t.buffer[id]| <= c.numSource
  {
    assert EntriesOk(t, id, if id in full then c.numSource else c.numSource - 1);
  }

  lemma OneMore(c: Settings, got: Buffer, s: TfState, order: seq<(uint32, int)>, m: TfState, r: TfState)
    requires order != [] && Ids(order) <= got.Keys
    requires Outcome(c, got, s, order[..|order| - 1], m) && Decided(c, got, s.discarded, order, r)
    requires VisitHistory(c, got, order[|order| - 1].0, order[|order| - 1].1, m, r)
    ensures Outcome(c, got, s, order, r)
  {
    FramesAssoc(s.emitted, Complete(c, got, order[..|order| - 1]), FrameOf(c, got, order[|order| - 1].0));
  }

  lemma FramesAssoc(x: seq<TimeFrame>, y: seq<TimeFrame>, z: seq<TimeFrame>)
    ensures x + y + z == x + (y + z)
  {
  }

  /** What one visit adds to the history. */
  ghost predicate VisitHistory(c: Settings, got: Buffer, id: uint32, now: int, m: TfState, r: TfState)
    requires id in got
  {
    && r.emitted == m.emitted + FrameOf(c, got, id)
    && r.timedOut == m.timedOut + PartsOf(c, got, id, now)
    && r.late == m.late && m.clock <= r.clock
  }

  /** One more visit. */
  lemma VisitDecides(c: Settings, got: Buffer, discarded: set<uint32>, order: seq<(uint32, int)>,
                     m: TfState, r: TfState)
    requires order != [] && Ids(order) <= got.Keys
    requires var front := order[..|order| - 1];
      var (id, now) := order[|order| - 1];
      && Decided(c, got, discarded, front, m) && id !in Ids(front) && 1 <= |got[id]| <= c.numSource
      && VisitTo(c, m, id, now, r)
    ensures Decided(c, got, discarded, order, r)
    ensures VisitHistory(c, got, order[|order| - 1].0, order[|order| - 1].1, m, r)
  {
    var front := order[..|order| - 1];
    var (id, now) := order[|order| - 1];
    assert m.buffer[id] == got[id];
    LapsedIsExpired(c, got[id], now);
    assert ReadingOf(order, id) == now;
    forall i | i in Ids(front) ensures ReadingOf(order, i) == ReadingOf(front, i) {}
  }

  lemma LapsedIsExpired(c: Settings, es: seq<Entry>, now: int)
    requires 1 <= |es| <= c.numSource
    ensures Lapsed(c, es, now) <==> |es| != c.numSource && Expired(c, es, now)
  {
  }

  /**
   A round decides every buffered identifier, visiting each once: the complete collections are sent
   with exactly their parts and nothing else is; an identifier is given up, and its parts count as
   timed out, exactly when it was incomplete and too old at its visit; all others stay as they are;
   and a part is refused exactly when its identifier had been given up before.
   */
  lemma RoundDecides(c: Settings, s: TfState, inParts: Option<Stf>, rcv: int, order: seq<(uint32, int)>, r: TfState)
    requires Inv(c, s, {}) && Next(c, s, inParts, rcv, order, r)
    ensures var got := Filed(s, inParts, rcv);
      && Ids(order) == got.Keys && |order| == |got.Keys|
      && Decided(c, got, s.discarded, order, r)
      && r.emitted == s.emitted + Complete(c, got, order)
      && r.timedOut == s.timedOut + LapsedParts(c, got, order)
    ensures r.late == s.late + Refused(s, inParts)
    ensures s.clock <= r.clock && (inParts.Some? && inParts.value.Id() !in s.discarded ==> rcv <= r.clock)
  {
    var t := AfterReceive(c, s, inParts, rcv, order, r);
    VisitsDecide(c, t, order, r, t.buffer.Keys);
  }

  /** The part that is refused because its identifier had been given up. */
  function Refused(s: TfState, inParts: Option<Stf>): multiset<Stf>
    requires inParts.Some? ==> inParts.value.Ok()
  {
    if inParts.Some? && inParts.value.Id() in s.discarded then multiset{inParts.value} else multiset{}
  }

  lemma AfterReceive(c: Settings, s: TfState, inParts: Option<Stf>, rcv: int, order: seq<(uint32, int)>, r: TfState)
    returns (t: TfState)
    requires Inv(c, s, {}) && Next(c, s, inParts, rcv, order, r)
    ensures Inv(c, t, t.buffer.Keys) && t.buffer == Filed(s, inParts, rcv)
    ensures Visits(c, t, order, r) && Ids(order) == t.buffer.Keys && |order| == |t.buffer.Keys|
    ensures t.discarded == s.discarded && t.emitted == s.emitted && t.timedOut == s.timedOut
    ensures t.late == s.late + Refused(s, inParts)
    ensures s.clock <= t.clock && (inParts.Some? && inParts.value.Id() !in s.discarded ==> rcv == t.clock)
  {
    t := if inParts.Some? then Receive(s, inParts.value, rcv) else s;
    if inParts.Some? {
      ReceiveKeeps(c, s, inParts.value, rcv);
      FiledIs(s, inParts.value, rcv);
    } else {
      FullGrows(c, s, s.buffer.Keys);
    }
  }

  lemma FiledIs(s: TfState, stf: Stf, rcv: int)
    requires stf.Ok()
    ensures var t := Receive(s, stf, rcv);
      && t.buffer == Filed(s, Some(stf), rcv) && t.late == s.late + Refused(s, Some(stf))
      && t.discarded == s.discarded && t.emitted == s.emitted && t.timedOut == s.timedOut
      && (if stf.Id() in s.discarded then t.clock == s.clock else t.clock == rcv)
  {
  }

  /** Time frame f is among those sent exactly when it is made of a complete collection. */
  lemma {:induction false} CompleteFrames(c: Settings, got: Buffer, order: seq<(uint32, int)>, f: TimeFrame)
    requires Ids(order) <= got.Keys
    ensures f in Complete(c, got, order) <==>
      && f.timeFrameId in Ids(order) && |got[f.timeFrameId]| == c.numSource
      && f == TimeFrame(f.timeFrameId, c.numSource, SumLength(Stfs(got[f.timeFrameId])), Stfs(got[f.timeFrameId]))
  {
    if order != [] { CompleteFrames(c, got, order[..|order| - 1], f); }
  }

  // ----- a clock within the timeout -----

  /** A builder that has given nothing up, because its clock has not run for longer than the timeout. */
  predicate Punctual(b: TfState) {
    && b.discarded == {} && b.timedOut == multiset{} && b.late == multiset{} && b.clock >= 0
    && StartsOk(b.buffer)
  }

  predicate StartsOk(got: Buffer) {
    forall id, k | id in got && 0 <= k < |got[id]| :: got[id][k].start >= 0
  }

  /** The clock has not run for longer than the timeout, in whole milliseconds. */
  predicate WithinTimeout(c: Settings, b: TfState) {
    b.clock < (c.timeoutMs + 1) * 1_000_000
  }

  lemma RoundIsPunctual(c: Settings, s: TfState, round: Round, r: TfState)
    requires Inv(c, s, {}) && Punctual(s)
    requires Next(c, s, round.inParts, round.rcv, round.order, r) && WithinTimeout(c, r)
    ensures Punctual(r)
  {
    var got := Filed(s, round.inParts, round.rcv);
    RoundDecides(c, s, round.inParts, round.rcv, round.order, r);
    FiledStarts(s, round.inParts, round.rcv);
    NoneLapses(c, got, round.order, r);
    NothingLapsed(c, got, round.order, round.order);
    StayingStarts(got, r);
  }

  lemma FiledStarts(s: TfState, inParts: Option<Stf>, rcv: int)
    requires StartsOk(s.buffer) && 0 <= rcv && (inParts.Some? ==> inParts.value.Ok())
    ensures StartsOk(Filed(s, inParts, rcv))
  {
  }

  lemma StayingStarts(got: Buffer, r: TfState)
    requires StartsOk(got) && forall id | id in r.buffer :: id in got && r.buffer[id] == got[id]
    ensures StartsOk(r.buffer)
  {
  }

  lemma NoneLapses(c: Settings, got: Buffer, order: seq<(uint32, int)>, r: TfState)
    requires StartsOk(got) && Ids(order) == got.Keys && Decided(c, got, {}, order, r) && WithinTimeout(c, r)
    ensures forall id | id in Ids(order) :: !Lapsed(c, got[id], ReadingOf(order, id))
    ensures r.discarded == {}
  {
    forall id | id in Ids(order) ensures !Lapsed(c, got[id], ReadingOf(order, id)) {
      if 0 < |got[id]| < c.numSource {
        assert got[id][0].start >= 0 && ReadingOf(order, id) <= r.clock;
      }
    }
  }

  lemma {:induction false} NothingLapsed(c: Settings, got: Buffer, order: seq<(uint32, int)>,
                                         all: seq<(uint32, int)>)
    requires Ids(order) <= got.Keys && |Ids(order)| == |order|
    requires Ids(order) <= Ids(all) && forall id | id in Ids(order) :: ReadingOf(order, id) == ReadingOf(all, id)
    requires forall id | id in Ids(order) :: !Lapsed(c, got[id], ReadingOf(all, id))
    ensures LapsedParts(c, got, order) == multiset{}
  {
    if order != [] {
      var front, id := order[..|order| - 1], order[|order| - 1].0;
      IdsCount(order);
      forall i | i in Ids(front) ensures ReadingOf(front, i) == ReadingOf(all, i) {
        assert ReadingOf(order, i) == ReadingOf(front, i);
      }
      NothingLapsed(c, got, front, all);
      assert ReadingOf(order, id) == order[|order| - 1].1;
    }
  }
}
