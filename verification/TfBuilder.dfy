/**
 The time-frame builder: sub-time-frames are collected by identifier, complete collections
 are sent, incomplete ones time out, and parts of timed-out ones are refused.
 */
module TfBuilder {
  import opened Outcomes
  import opened Bits
  import opened StfBuilder

  const TF_HEADER_BYTES := 24
  const NS_PER_MS := 1_000_000
  const TWO64: int := 0x1_0000_0000_0000_0000

  /** A received multipart message; `source` is its sender, which the builder never looks at. */
  datatype Stf = Stf(source: nat, parts: seq<Part>) {
    predicate Ok() {
      |parts| >= 2 && HeadedFrame(parts)
    }

    function Id(): uint32
      requires Ok()
    {
      parts[0].timeFrameId
    }
  }

  datatype Entry = Entry(stf: Stf, start: int)

  datatype TimeFrame = TimeFrame(timeFrameId: uint32, numSource: uint32, length: uint64, stfs: seq<Stf>)

  /** What the builder holds, what it sent, what became of the rest, and its last reading of the clock. */
  datatype TfState = TfState(
    buffer: map<uint32, seq<Entry>>,
    discarded: set<uint32>,
    emitted: seq<TimeFrame>,
    received: multiset<Stf>,
    timedOut: multiset<Stf>,
    late: multiset<Stf>,
    clock: int)

  datatype Settings = Settings(numSource: uint32, timeoutMs: int) {
    predicate Ok() { numSource >= 1 }
  }

  function Stfs(es: seq<Entry>): seq<Stf> {
    if es == [] then [] else Stfs(es[..|es| - 1]) + [es[|es| - 1].stf]
  }

  // ----- the length field -----

  /** Conversion to a 32-bit signed integer. */
  function Int32(x: int): int {
    (x + 0x8000_0000) % TWO32 - 0x8000_0000
  }

  /** The inner sum runs in `int` because its initial value is the literal 0. */
  function IntBytes(ps: seq<Part>): int {
    if ps == [] then 0 else Int32(IntBytes(ps[..|ps| - 1]) + Size(ps[|ps| - 1]))
  }

  /** The outer sum runs in `size_t`. */
  function SumLength(stfs: seq<Stf>): uint64 {
    if stfs == [] then TF_HEADER_BYTES
    else (SumLength(stfs[..|stfs| - 1]) + IntBytes(stfs[|stfs| - 1].parts)) % TWO64
  }

  // ----- one receive and one visit of a buffered identifier -----

  function Receive(s: TfState, stf: Stf, now: int): TfState
    requires stf.Ok()
  {
    var id := stf.Id();
    var got := s.(received := s.received + multiset{stf});
    if id !in s.discarded then
      var before := if id in s.buffer then s.buffer[id] else [];
      got.(buffer := s.buffer[id := before + [Entry(stf, now)]], clock := now)
    else got.(late := s.late + multiset{stf})
  }

  predicate Expired(c: Settings, es: seq<Entry>, now: int)
    requires es != []
  {
    (now - es[0].start) / NS_PER_MS > c.timeoutMs
  }

  function MakeFrame(c: Settings, id: uint32, es: seq<Entry>): TimeFrame {
    TimeFrame(id, c.numSource, SumLength(Stfs(es)), Stfs(es))
  }

  /** The loop body for one identifier; `now` is the clock reading an incomplete one is compared with. */
  function Visit(c: Settings, s: TfState, id: uint32, now: int): TfState
    requires id in s.buffer && s.buffer[id] != []
  {
    var es := s.buffer[id];
    if |es| == c.numSource then
      s.(buffer := s.buffer - {id}, emitted := s.emitted + [MakeFrame(c, id, es)])
    else if Expired(c, es, now) then
      s.(buffer := s.buffer - {id}, discarded := s.discarded + {id},
         timedOut := s.timedOut + multiset(Stfs(es)), clock := now)
    else s.(clock := now)
  }

  // ----- what every step keeps -----

  ghost predicate EntriesOk(s: TfState, id: uint32, most: nat)
    requires id in s.buffer
  {
    var es := s.buffer[id];
    && 1 <= |es| <= most
    && id !in s.discarded
    && (forall k | 0 <= k < |es| :: es[k].stf.Ok() && es[k].stf.Id() == id && es[k].start <= s.clock)
    && (forall j, k | 0 <= j < k < |es| :: es[j].start <= es[k].start)
  }

  /** A sent time frame holds as many sub-time-frames as there are sources, all of its identifier. */
  predicate FrameIsWhole(c: Settings, f: TimeFrame) {
    && f.numSource == c.numSource
    && |f.stfs| == c.numSource
    && f.length == SumLength(f.stfs)
    && forall k | 0 <= k < |f.stfs| :: f.stfs[k].Ok() && f.stfs[k].Id() == f.timeFrameId
  }

  function InFrames(fs: seq<TimeFrame>): multiset<Stf> {
    if fs == [] then multiset{} else InFrames(fs[..|fs| - 1]) + multiset(fs[|fs| - 1].stfs)
  }

  function InBuffer(s: TfState, x: Stf): nat {
    if x.Ok() && x.Id() in s.buffer then multiset(Stfs(s.buffer[x.Id()]))[x] else 0
  }

  /** Each received sub-time-frame is buffered, sent, timed out or refused, exactly as often as it was received. */
  ghost predicate Balanced(s: TfState) {
    forall x: Stf :: BalancedAt(s, x)
  }

  predicate BalancedAt(s: TfState, x: Stf) {
    s.received[x] == InBuffer(s, x) + InFrames(s.emitted)[x] + s.timedOut[x] + s.late[x]
  }

  /** Identifiers in `full` may be complete; all others wait for at least one more part. */
  ghost predicate Inv(c: Settings, s: TfState, full: set<uint32>) {
    && c.Ok()
    && (forall id | id in s.buffer :: EntriesOk(s, id, if id in full then c.numSource else c.numSource - 1))
    && (forall k | 0 <= k < |s.emitted| :: FrameIsWhole(c, s.emitted[k]))
    && Balanced(s)
  }

  // ----- the device -----

  class TimeFrameBuilder {
    const settings: Settings
    var fTFBuffer: map<uint32, seq<Entry>>
    var fDiscarded: set<uint32>
    /** What was sent on each output socket. */
    var fOutput: seq<seq<TimeFrame>>
    var fClock: int
    ghost var fSent: seq<TimeFrame>
    ghost var fReceived: multiset<Stf>
    ghost var fTimedOut: multiset<Stf>
    ghost var fLate: multiset<Stf>

    constructor (c: Settings, nSock: nat)
      requires c.Ok() && nSock >= 1
      ensures settings == c && Now() == TfState(map[], {}, [], multiset{}, multiset{}, multiset{}, 0)
      ensures SocketsAlike() && |fOutput| == nSock
    {
      settings := c;
      fTFBuffer, fDiscarded, fSent, fClock := map[], {}, [], 0;
      fOutput := seq(nSock, _ => []);
      fReceived, fTimedOut, fLate := multiset{}, multiset{}, multiset{};
    }

    ghost function Now(): TfState
      reads this
    {
      TfState(fTFBuffer, fDiscarded, fSent, fReceived, fTimedOut, fLate, fClock)
    }

    /** Every output socket has been sent the same time frames, in the same order. */
    ghost predicate SocketsAlike()
      reads this
    {
      |fOutput| >= 1 && forall k | 0 <= k < |fOutput| :: fOutput[k] == fSent
    }

    /** Copies go to all sockets but the first, the last socket first; then the original to the first. */
    method SendToAll(h: TimeFrame)
      requires SocketsAlike()
      modifies this`fOutput, this`fSent
      ensures SocketsAlike() && |fOutput| == |old(fOutput)| && fSent == old(fSent) + [h]
    {
      var nSock := |fOutput|;
      for isock := nSock downto 1
        invariant |fOutput| == nSock && fSent == old(fSent)
        invariant forall k | 0 <= k < nSock :: fOutput[k] == if k < isock then fSent else fSent + [h]
      {
        fOutput := fOutput[isock := fOutput[isock] + [h]];
      }
      fOutput := fOutput[0 := fOutput[0] + [h]];
      fSent := fSent + [h];
    }

    /** The steady clock: any reading that does not go back. */
    method ReadClock() returns (now: int)
      modifies this`fClock
      ensures old(fClock) <= now == fClock
    {
      now :| fClock <= now;
      fClock := now;
    }

    method Accept(stf: Stf) returns (ghost now: int)
      requires stf.Ok()
      modifies this
      ensures old(fClock) <= now
      ensures Now() == Receive(old(Now()), stf, now) && fOutput == old(fOutput)
    {
      var stfId := stf.parts[0].timeFrameId;
      now := fClock;
      fReceived := fReceived + multiset{stf};
      if stfId !in fDiscarded {
        if stfId !in fTFBuffer {
          fTFBuffer := fTFBuffer[stfId := []];
        }
        var t := ReadClock();
        now := t;
        fTFBuffer := fTFBuffer[stfId := fTFBuffer[stfId] + [Entry(stf, t)]];
      } else {
        fLate := fLate + multiset{stf};
      }
    }

    /** The loop body for one identifier. */
    method VisitOne(stfId: uint32) returns (ghost now: int)
      requires stfId in fTFBuffer && fTFBuffer[stfId] != [] && SocketsAlike()
      modifies this
      ensures old(fClock) <= now
      ensures Now() == Visit(settings, old(Now()), stfId, now)
      ensures SocketsAlike() && |fOutput| == |old(fOutput)|
    {
      var tfBuf := fTFBuffer[stfId];
      now := fClock;
      if |tfBuf| == settings.numSource {
        var h := MakeFrame(settings, stfId, tfBuf);
        SendToAll(h);
        tfBuf := [];
      } else {
        var t := ReadClock();
        now := t;
        if (t - tfBuf[0].start) / NS_PER_MS > settings.timeoutMs {
          fDiscarded := fDiscarded + {stfId};
          fTimedOut := fTimedOut + multiset(Stfs(tfBuf));
          tfBuf := [];
        }
      }
      if tfBuf == [] {
        fTFBuffer := fTFBuffer - {stfId};
      }
    }

    /** The loop over the buffered identifiers, in the container's arbitrary order. */
    method Sweep() returns (ghost order: seq<(uint32, int)>)
      requires Inv(settings, Now(), fTFBuffer.Keys) && SocketsAlike()
      modifies this
      ensures Sweeps(settings, old(Now()), order, Now(), old(fTFBuffer.Keys))
      ensures Inv(settings, Now(), {})
      ensures SocketsAlike() && |fOutput| == |old(fOutput)|
    {
      order := [];
      var todo := fTFBuffer.Keys;
      ghost var start := Now();
      while todo != {}
        invariant todo <= fTFBuffer.Keys && todo <= start.buffer.Keys
        invariant Inv(settings, Now(), todo) && SocketsAlike() && |fOutput| == |old(fOutput)|
        invariant Sweeps(settings, start, order, Now(), start.buffer.Keys - todo)
      {
        var stfId :| stfId in todo;
        ghost var before := Now();
        BufferNotEmpty(settings, before, stfId, todo);
        ghost var now := VisitOne(stfId);
        SweepStep(settings, start, order, before, todo, stfId, now);
        order := order + [(stfId, now)];
        todo := todo - {stfId};
      }
      assert start.buffer.Keys - {} == start.buffer.Keys;
    }

    /** One round: perhaps a message arrives, then every buffered identifier is looked at once. */
    method ConditionalRun(inParts: Option<Stf>) returns (ghost rcv: int, ghost order: seq<(uint32, int)>)
      requires Inv(settings, Now(), {}) && (inParts.Some? ==> inParts.value.Ok()) && SocketsAlike()
      modifies this
      ensures Inv(settings, Now(), {}) && SocketsAlike() && |fOutput| == |old(fOutput)|
      ensures Next(settings, old(Now()), inParts, rcv, order, Now())
    {
      rcv := fClock;
      ghost var before := Now();
      if inParts.Some? {
        rcv := Accept(inParts.value);
        ReceiveKeeps(settings, before, inParts.value, rcv);
      } else {
        FullGrows(settings, before, fTFBuffer.Keys);
      }
      order := Sweep();
    }
  }

  /** `order` visits exactly the identifiers in `ids`, each once, with clock readings that do not go back. */
  ghost predicate Sweeps(c: Settings, s: TfState, order: seq<(uint32, int)>, r: TfState, ids: set<uint32>) {
    && |order| == |ids| && Ids(order) == ids
    && Visits(c, s, order, r)
  }

  /** The identifiers visited. */
  function Ids(order: seq<(uint32, int)>): set<uint32> {
    if order == [] then {} else Ids(order[..|order| - 1]) + {order[|order| - 1].0}
  }

  /** The visits in `order`, one after the other, lead from s to r. */
  ghost predicate Visits(c: Settings, s: TfState, order: seq<(uint32, int)>, r: TfState) {
    if order == [] then r == s
    else
      var (id, now) := order[|order| - 1];
      exists t :: Visits(c, s, order[..|order| - 1], t) && VisitTo(c, t, id, now, r)
  }

  ghost predicate VisitTo(c: Settings, s: TfState, id: uint32, now: int, r: TfState) {
    id in s.buffer && s.buffer[id] != [] && s.clock <= now && r == Visit(c, s, id, now)
  }

  /** One round of the device. */
  ghost predicate Next(c: Settings, s: TfState, inParts: Option<Stf>, rcv: int, order: seq<(uint32, int)>, r: TfState) {
    && s.clock <= rcv
    && (inParts.Some? ==> inParts.value.Ok())
    && var t := if inParts.Some? then Receive(s, inParts.value, rcv) else s;
       Sweeps(c, t, order, r, t.buffer.Keys)
  }

  lemma SweepsMore(c: Settings, s: TfState, order: seq<(uint32, int)>, t: TfState, ids: set<uint32>, id: uint32,
                   now: int)
    requires Sweeps(c, s, order, t, ids) && id !in ids
    requires id in t.buffer && t.buffer[id] != [] && t.clock <= now
    ensures Sweeps(c, s, order + [(id, now)], Visit(c, t, id, now), ids + {id})
  {
    var more := order + [(id, now)];
    assert more[..|order|] == order && more[|order|] == (id, now);
    assert VisitTo(c, t, id, now, Visit(c, t, id, now));
  }

  lemma BufferNotEmpty(c: Settings, s: TfState, id: uint32, full: set<uint32>)
    requires Inv(c, s, full) && id in s.buffer
    ensures s.buffer[id] != []
  {
    assert EntriesOk(s, id, if id in full then c.numSource else c.numSource - 1);
  }

  /** One round of the sweep keeps its loop invariant. */
  lemma SweepStep(c: Settings, start: TfState, order: seq<(uint32, int)>, s: TfState, todo: set<uint32>, id: uint32,
                  now: int)
    requires Inv(c, s, todo) && id in todo && todo <= s.buffer.Keys && todo <= start.buffer.Keys && s.clock <= now
    requires Sweeps(c, start, order, s, start.buffer.Keys - todo)
    ensures s.buffer[id] != []
    ensures Inv(c, Visit(c, s, id, now), todo - {id}) && todo - {id} <= Visit(c, s, id, now).buffer.Keys
    ensures Sweeps(c, start, order + [(id, now)], Visit(c, s, id, now), start.buffer.Keys - (todo - {id}))
  {
    VisitKeeps(c, s, id, now, todo);
    SweepsMore(c, start, order, s, start.buffer.Keys - todo, id, now);
    assert start.buffer.Keys - (todo - {id}) == (start.buffer.Keys - todo) + {id};
  }

  lemma FullGrows(c: Settings, s: TfState, full: set<uint32>)
    requires Inv(c, s, {})
    ensures Inv(c, s, full)
  {
    forall id | id in s.buffer ensures EntriesOk(s, id, if id in full then c.numSource else c.numSource - 1) {
      assert EntriesOk(s, id, c.numSource - 1);
    }
  }

  lemma StfsMore(es: seq<Entry>, e: Entry)
    ensures Stfs(es + [e]) == Stfs(es) + [e.stf]
  {
    assert (es + [e])[..|es|] == es;
  }

  lemma {:induction false} StfsAt(es: seq<Entry>)
    ensures |Stfs(es)| == |es|
    ensures forall k | 0 <= k < |es| :: Stfs(es)[k] == es[k].stf
  {
    if es != [] { StfsAt(es[..|es| - 1]); }
  }

  lemma ReceiveBalances(s: TfState, stf: Stf, now: int, x: Stf)
    requires BalancedAt(s, x) && stf.Ok()
    ensures BalancedAt(Receive(s, stf, now), x)
  {
    if stf.Id() !in s.discarded { BufferedWith(s, stf, now, x); }
  }

  lemma BufferedWith(s: TfState, stf: Stf, now: int, x: Stf)
    requires stf.Ok() && stf.Id() !in s.discarded
    ensures InBuffer(Receive(s, stf, now), x) == InBuffer(s, x) + multiset{stf}[x]
  {
    if x.Ok() && x.Id() == stf.Id() {
      var es := Collected(s, stf.Id());
      StfsMore(es, Entry(stf, now));
      MultisetMore(Stfs(es), stf, x);
      assert Collected(Receive(s, stf, now), stf.Id()) == es + [Entry(stf, now)];
      InBufferIs(s, x);
      InBufferIs(Receive(s, stf, now), x);
    } else {
      BufferedOther(s, stf, now, x);
    }
  }

  lemma BufferedOther(s: TfState, stf: Stf, now: int, x: Stf)
    requires stf.Ok() && !(x.Ok() && x.Id() == stf.Id())
    ensures InBuffer(Receive(s, stf, now), x) == InBuffer(s, x) && multiset{stf}[x] == 0
  {
    assert x != stf;
    if x.Ok() {
      assert Collected(Receive(s, stf, now), x.Id()) == Collected(s, x.Id());
      InBufferIs(s, x);
      InBufferIs(Receive(s, stf, now), x);
    }
  }

  function Collected(s: TfState, id: uint32): seq<Entry> {
    if id in s.buffer then s.buffer[id] else []
  }

  lemma InBufferIs(s: TfState, x: Stf)
    requires x.Ok()
    ensures InBuffer(s, x) == multiset(Stfs(Collected(s, x.Id())))[x]
  {
  }

  lemma MultisetMore(s: seq<Stf>, e: Stf, x: Stf)
    ensures multiset(s + [e])[x] == multiset(s)[x] + multiset{e}[x]
  {
    assert multiset(s + [e]) == multiset(s) + multiset{e};
  }

  /** Receiving keeps the invariant; only the identifier received may have become complete. */
  lemma ReceiveKeeps(c: Settings, s: TfState, stf: Stf, now: int)
    requires Inv(c, s, {}) && stf.Ok() && s.clock <= now
    ensures Inv(c, Receive(s, stf, now), Receive(s, stf, now).buffer.Keys)
  {
    var r := Receive(s, stf, now);
    assert Balanced(r) by {
      forall x: Stf ensures BalancedAt(r, x) { ReceiveBalances(s, stf, now, x); }
    }
    forall id | id in r.buffer ensures EntriesOk(r, id, c.numSource) {
      ReceiveEntries(c, s, stf, now, id);
    }
  }

  lemma ReceiveEntries(c: Settings, s: TfState, stf: Stf, now: int, id: uint32)
    requires c.Ok() && stf.Ok() && s.clock <= now && id in Receive(s, stf, now).buffer
    requires id in s.buffer ==> EntriesOk(s, id, c.numSource - 1)
    ensures EntriesOk(Receive(s, stf, now), id, c.numSource)
  {
  }

  lemma VisitBalances(c: Settings, s: TfState, id: uint32, now: int, x: Stf)
    requires BalancedAt(s, x) && id in s.buffer && s.buffer[id] != []
    requires forall k | 0 <= k < |s.buffer[id]| :: s.buffer[id][k].stf.Ok() && s.buffer[id][k].stf.Id() == id
    ensures BalancedAt(Visit(c, s, id, now), x)
  {
    var r, es := Visit(c, s, id, now), s.buffer[id];
    FramesMore(s.emitted, MakeFrame(c, id, es));
    BufferedWithout(s, id, x);
    if |es| == c.numSource || Expired(c, es, now) {
      assert InBuffer(r, x) == InBuffer(s.(buffer := s.buffer - {id}), x);
    }
  }

  lemma BufferedWithout(s: TfState, id: uint32, x: Stf)
    requires id in s.buffer
    requires forall k | 0 <= k < |s.buffer[id]| :: s.buffer[id][k].stf.Ok() && s.buffer[id][k].stf.Id() == id
    ensures InBuffer(s, x) == InBuffer(s.(buffer := s.buffer - {id}), x) + multiset(Stfs(s.buffer[id]))[x]
  {
    var es := s.buffer[id];
    StfsAt(es);
    assert x in multiset(Stfs(es)) ==> x in Stfs(es);
  }

  lemma FramesMore(fs: seq<TimeFrame>, f: TimeFrame)
    ensures InFrames(fs + [f]) == InFrames(fs) + multiset(f.stfs)
  {
    assert (fs + [f])[..|fs|] == fs;
  }

  /** A visit settles its identifier: what stays buffered waits for another part. */
  lemma VisitKeeps(c: Settings, s: TfState, id: uint32, now: int, full: set<uint32>)
    requires Inv(c, s, full) && id in s.buffer && s.clock <= now
    ensures s.buffer[id] != []
    ensures Inv(c, Visit(c, s, id, now), full - {id})
  {
    assert EntriesOk(s, id, if id in full then c.numSource else c.numSource - 1);
    StfsAt(s.buffer[id]);
    assert Balanced(Visit(c, s, id, now)) by {
      forall x: Stf ensures BalancedAt(Visit(c, s, id, now), x) { VisitBalances(c, s, id, now, x); }
    }
    VisitEntries(c, s, id, now, full);
    VisitFrames(c, s, id, now, full);
  }

  lemma VisitEntries(c: Settings, s: TfState, id: uint32, now: int, full: set<uint32>)
    requires Inv(c, s, full) && id in s.buffer && s.clock <= now && s.buffer[id] != []
    ensures var r := Visit(c, s, id, now);
      forall i | i in r.buffer :: EntriesOk(r, i, if i in full - {id} then c.numSource else c.numSource - 1)
  {
    var r := Visit(c, s, id, now);
    assert EntriesOk(s, id, if id in full then c.numSource else c.numSource - 1);
    forall i | i in r.buffer
      ensures EntriesOk(r, i, if i in full - {id} then c.numSource else c.numSource - 1)
    {
      assert EntriesOk(s, i, if i in full then c.numSource else c.numSource - 1);
    }
  }

  lemma VisitFrames(c: Settings, s: TfState, id: uint32, now: int, full: set<uint32>)
    requires Inv(c, s, full) && id in s.buffer && s.clock <= now && s.buffer[id] != []
    ensures var r := Visit(c, s, id, now);
      forall k | 0 <= k < |r.emitted| :: FrameIsWhole(c, r.emitted[k])
  {
    var r := Visit(c, s, id, now);
    assert EntriesOk(s, id, if id in full then c.numSource else c.numSource - 1);
    StfsAt(s.buffer[id]);
    forall k | 0 <= k < |r.emitted| ensures FrameIsWhole(c, r.emitted[k]) {
      if k < |s.emitted| { assert FrameIsWhole(c, s.emitted[k]); }
    }
  }
}
