/**
 The whole event builder as a distributed protocol: numbered sources frame their own word
 streams, route each frame by its identifier to one of several time-frame builders, and the
 network delivers in any order. Steps of all devices interleave freely.
 */
module EventBuilding {
  import opened Bits
  import opened StfBuilder
  import opened StfProperties
  import opened TfBuilder
  import opened TfProperties
  import opened TfRounds

  /** One configuration per source and per builder; every builder waits for all sources. */
  datatype Plan = Plan(sources: seq<Config>, builders: seq<Settings>) {
    ghost predicate Ok() {
      && |sources| >= 1 && |builders| >= 1
      && (forall i | 0 <= i < |sources| :: sources[i].Ok())
      && (forall d | 0 <= d < |builders| :: builders[d].numSource == |sources|)
    }
  }

  /** `net[d]` holds what is on its way to builder d; sources keep the history of their frames. */
  datatype World = World(sources: seq<State>, net: seq<multiset<Stf>>, builders: seq<TfState>) {
    predicate Fits(p: Plan) {
      |sources| == |p.sources| && |net| == |builders| == |p.builders|
    }
  }

  datatype Event =
    | ReadWord(source: nat, word: Word)
    | RunBuilder(builder: nat, round: Round)

  function Start(p: Plan): (w: World)
    ensures w.Fits(p)
  {
    World(seq(|p.sources|, _ => START), seq(|p.builders|, _ => multiset{}), seq(|p.builders|, _ => EMPTY))
  }

  /** What source i puts on the way to builder d when it finishes `frames`. */
  function Routed(i: nat, frames: seq<seq<Part>>, d: nat, n: nat): multiset<Stf>
    requires n >= 1
  {
    if frames == [] then multiset{}
    else
      var f := frames[|frames| - 1];
      Routed(i, frames[..|frames| - 1], d, n)
      + (if HeadedFrame(f) && f[0].timeFrameId % n == d then multiset{Stf(i, f)} else multiset{})
  }

  /** The frames a source finished in going from s to r. */
  function NewFrames(s: State, r: State): seq<seq<Part>>
    requires |s.output| <= |r.output|
  {
    r.output[|s.output|..]
  }

  ghost predicate SourceStep(p: Plan, a: World, i: nat, w: Word, b: World)
    requires p.Ok() && a.Fits(p) && b.Fits(p)
  {
    && i < |p.sources|
    && WorkingOk(a.sources[i])
    && var r := Step(p.sources[i], a.sources[i], w);
       && b.sources == a.sources[i := r]
       && b.builders == a.builders
       && |a.sources[i].output| <= |r.output|
       && forall d | 0 <= d < |a.net| ::
            b.net[d] == a.net[d] + Routed(i, NewFrames(a.sources[i], r), d, |p.builders|)
  }

  ghost predicate BuilderStep(p: Plan, a: World, d: nat, round: Round, b: World)
    requires p.Ok() && a.Fits(p) && b.Fits(p)
  {
    && d < |p.builders|
    && b.sources == a.sources
    && (round.inParts.Some? ==> round.inParts.value in a.net[d])
    && b.net == a.net[d := a.net[d] - Arrived(round.inParts)]
    && b.builders == a.builders[d := b.builders[d]]
    && TfBuilder.Next(p.builders[d], a.builders[d], round.inParts, round.rcv, round.order, b.builders[d])
  }

  ghost predicate StepTo(p: Plan, a: World, e: Event, b: World)
    requires p.Ok()
  {
    && a.Fits(p) && b.Fits(p)
    && match e
       case ReadWord(i, w) => SourceStep(p, a, i, w, b)
       case RunBuilder(d, round) => BuilderStep(p, a, d, round, b)
  }

  /** A run: any interleaving of steps from the start. */
  ghost predicate IsRun(p: Plan, worlds: seq<World>, events: seq<Event>)
    requires p.Ok()
  {
    && |worlds| == |events| + 1
    && worlds[0] == Start(p)
    && forall k | 0 <= k < |events| :: StepTo(p, worlds[k], events[k], worlds[k + 1])
  }

  // ----- the invariant of the protocol -----

  /** How often source x.source has finished exactly the frame x.parts, if it belongs to builder d. */
  function Finished(p: Plan, w: World, d: nat, x: Stf): nat
    requires w.Fits(p) && |p.builders| >= 1
  {
    if x.source < |w.sources| && HeadedFrame(x.parts) && x.parts[0].timeFrameId % |p.builders| == d
    then multiset(w.sources[x.source].output)[x.parts]
    else 0
  }

  predicate Accounted(p: Plan, w: World, d: nat, x: Stf)
    requires w.Fits(p) && |p.builders| >= 1 && d < |w.net|
  {
    w.net[d][x] + w.builders[d].received[x] == Finished(p, w, d, x)
  }

  ghost predicate WorldInv(p: Plan, w: World)
    requires p.Ok()
  {
    && w.Fits(p)
    && (forall i | 0 <= i < |w.sources| :: StfProperties.Inv(p.sources[i], w.sources[i], 0))
    && (forall d | 0 <= d < |w.builders| :: TfBuilder.Inv(p.builders[d], w.builders[d], {}))
    && (forall d: nat, x: Stf | d < |w.net| :: Accounted(p, w, d, x))
  }

  lemma {:induction false} RoutedCount(i: nat, frames: seq<seq<Part>>, d: nat, n: nat, x: Stf)
    requires n >= 1
    ensures Routed(i, frames, d, n)[x] ==
      if x.source == i && HeadedFrame(x.parts) && x.parts[0].timeFrameId % n == d then multiset(frames)[x.parts] else 0
  {
    if frames != [] {
      var front, f := frames[..|frames| - 1], frames[|frames| - 1];
      RoutedCount(i, front, d, n, x);
      assert frames == front + [f];
      assert multiset(frames) == multiset(front) + multiset{f};
      assert x == Stf(x.source, x.parts);
    }
  }

  lemma StartInv(p: Plan)
    requires p.Ok()
    ensures WorldInv(p, Start(p))
  {
    var w := Start(p);
    forall i | 0 <= i < |w.sources| ensures StfProperties.Inv(p.sources[i], w.sources[i], 0) {
      assert [Null][1..] == [];
    }
    forall d | 0 <= d < |w.builders| ensures TfBuilder.Inv(p.builders[d], w.builders[d], {}) {
      EmptyOk(p.builders[d]);
    }
  }

  /** A step only appends to the finished frames. */
  lemma StepAppends(c: Config, s: State, w: Word)
    requires c.Ok() && WorkingOk(s)
    ensures s.output <= Step(c, s, w).output
  {
    var bare := s.(output := []);
    assert After(s.output, bare).output == s.output;
    assert After(s.output, bare) == s;
    StepAfter(c, bare, w, s.output);
  }

  lemma SourceKeeps(p: Plan, a: World, i: nat, w: Word, b: World)
    requires p.Ok() && WorldInv(p, a) && b.Fits(p) && SourceStep(p, a, i, w, b)
    ensures WorldInv(p, b)
  {
    SourceRuns(p, a, i, w, b);
    forall j | 0 <= j < |b.sources| ensures StfProperties.Inv(p.sources[j], b.sources[j], 0) {
      if j != i { assert b.sources[j] == a.sources[j]; }
    }
    forall d: nat, x: Stf | d < |b.net| ensures Accounted(p, b, d, x) {
      assert Accounted(p, a, d, x);
      SourceAccounts(p, a, i, w, b, d, x);
    }
  }

  lemma SourceRuns(p: Plan, a: World, i: nat, w: Word, b: World)
    requires p.Ok() && WorldInv(p, a) && b.Fits(p) && SourceStep(p, a, i, w, b)
    ensures StfProperties.Inv(p.sources[i], b.sources[i], 0)
  {
    var c, s := p.sources[i], a.sources[i];
    assert StfProperties.Inv(c, s, 0);
    assert [w][..0] == [] && Run(c, s, []) == s && Run(c, s, [w]) == b.sources[i];
    RunKeeps(c, s, [w], 0);
  }

  lemma SourceAccounts(p: Plan, a: World, i: nat, w: Word, b: World, d: nat, x: Stf)
    requires p.Ok() && a.Fits(p) && b.Fits(p) && SourceStep(p, a, i, w, b) && d < |b.net|
    requires Accounted(p, a, d, x)
    ensures Accounted(p, b, d, x)
  {
    var s, r := a.sources[i], b.sources[i];
    StepAppends(p.sources[i], s, w);
    var finished := NewFrames(s, r);
    assert r.output == s.output + finished;
    assert multiset(r.output) == multiset(s.output) + multiset(finished);
    RoutedCount(i, finished, d, |p.builders|, x);
  }

  lemma BuilderKeeps(p: Plan, a: World, d: nat, round: Round, b: World)
    requires p.Ok() && WorldInv(p, a) && b.Fits(p) && BuilderStep(p, a, d, round, b)
    ensures WorldInv(p, b)
  {
    assert TfBuilder.Inv(p.builders[d], a.builders[d], {});
    RoundKeeps(p.builders[d], a.builders[d], round.inParts, round.rcv, round.order, b.builders[d]);
    forall e | 0 <= e < |b.builders| ensures TfBuilder.Inv(p.builders[e], b.builders[e], {}) {
      if e != d { assert b.builders[e] == a.builders[e]; }
    }
    forall e: nat, x: Stf | e < |b.net| ensures Accounted(p, b, e, x) {
      assert Accounted(p, a, e, x);
      if e == d {
        assert Arrived(round.inParts)[x] <= a.net[d][x];
      }
    }
  }

  lemma {:induction false} RunInv(p: Plan, worlds: seq<World>, events: seq<Event>, k: nat)
    requires p.Ok() && IsRun(p, worlds, events) && k < |worlds|
    ensures WorldInv(p, worlds[k])
  {
    if k == 0 {
      StartInv(p);
    } else {
      RunInv(p, worlds, events, k - 1);
      assert StepTo(p, worlds[k - 1], events[k - 1], worlds[k - 1 + 1]);
      match events[k - 1]
      case ReadWord(i, w) => SourceKeeps(p, worlds[k - 1], i, w, worlds[k]);
      case RunBuilder(d, round) => BuilderKeeps(p, worlds[k - 1], d, round, worlds[k]);
    }
  }

  // ----- what the protocol guarantees -----

  /** Fewer frames than there are 32-bit identifiers. */
  predicate BelowLimit(w: World) {
    forall i | 0 <= i < |w.sources| :: |w.sources[i].output| <= TWO32
  }

  /** Frame number k of a source carries identifier k and at least one message. */
  lemma FrameNumber(p: Plan, w: World, i: nat, k: nat)
    requires p.Ok() && WorldInv(p, w) && BelowLimit(w)
    requires i < |w.sources| && k < |w.sources[i].output|
    ensures Stf(i, w.sources[i].output[k]).Ok() && w.sources[i].output[k][0].timeFrameId == k
  {
    assert StfProperties.Inv(p.sources[i], w.sources[i], 0);
    FrameCarriesNumber(p.sources[i], w.sources[i], k);
  }

  lemma {:induction false} OnceIfDistinct<T>(s: seq<T>, x: T)
    requires forall i, j | 0 <= i < j < |s| :: s[i] != s[j]
    ensures multiset(s)[x] <= 1
  {
    if s != [] {
      var front, last := s[..|s| - 1], s[|s| - 1];
      OnceIfDistinct(front, x);
      assert s == front + [last];
      assert last !in front by {
        assert forall i | 0 <= i < |front| :: front[i] == s[i];
      }
      assert last !in multiset(front);
    }
  }

  /** A finished frame that belongs to builder d was finished once, and is the frame of its own number. */
  lemma FinishedOnce(p: Plan, w: World, d: nat, x: Stf)
    requires p.Ok() && WorldInv(p, w) && BelowLimit(w) && d < |w.net|
    ensures Finished(p, w, d, x) <= 1
    ensures Finished(p, w, d, x) == 1 ==>
      && x.source < |w.sources| && x.Ok() && x.Id() % |p.builders| == d
      && x.Id() < |w.sources[x.source].output| && x.parts == w.sources[x.source].output[x.Id()]
  {
    if x.source < |w.sources| {
      var frames := w.sources[x.source].output;
      forall i, j | 0 <= i < j < |frames| ensures frames[i] != frames[j] {
        FrameNumber(p, w, x.source, i);
        FrameNumber(p, w, x.source, j);
      }
      OnceIfDistinct(frames, x.parts);
      if x.parts in multiset(frames) {
        assert x.parts in frames;
        var k :| 0 <= k < |frames| && frames[k] == x.parts;
        FrameNumber(p, w, x.source, k);
      }
    }
  }

  lemma {:induction false} InFramesAt(fs: seq<TimeFrame>, j: nat, x: Stf)
    requires j < |fs|
    ensures multiset(fs[j].stfs)[x] <= InFrames(fs)[x]
    ensures forall k | 0 <= k < |fs| && k != j :: multiset(fs[j].stfs)[x] + multiset(fs[k].stfs)[x] <= InFrames(fs)[x]
  {
    var front, last := fs[..|fs| - 1], fs[|fs| - 1];
    if j < |front| {
      InFramesAt(front, j, x);
      assert forall k | 0 <= k < |front| :: front[k] == fs[k];
    } else {
      forall k | 0 <= k < |fs| && k != j
        ensures multiset(fs[j].stfs)[x] + multiset(fs[k].stfs)[x] <= InFrames(fs)[x]
      {
        InFramesAt(front, k, x);
        assert front[k] == fs[k];
      }
    }
  }

  /** What was sent was received, and so finished by its source. */
  lemma SentWasFinished(p: Plan, w: World, d: nat, x: Stf)
    requires p.Ok() && WorldInv(p, w) && d < |w.builders|
    ensures InFrames(w.builders[d].emitted)[x] <= Finished(p, w, d, x)
  {
    assert TfBuilder.Inv(p.builders[d], w.builders[d], {});
    assert BalancedAt(w.builders[d], x);
    assert Accounted(p, w, d, x);
  }

  /** Position k of a sent time frame: frame number `timeFrameId` of its source. */
  ghost predicate Authentic(p: Plan, w: World, f: TimeFrame, k: nat)
    requires k < |f.stfs|
  {
    var x := f.stfs[k];
    && x.source < |w.sources|
    && f.timeFrameId < |w.sources[x.source].output|
    && x.parts == w.sources[x.source].output[f.timeFrameId]
  }

  lemma SentIsAuthentic(p: Plan, w: World, d: nat, j: nat, k: nat)
    requires p.Ok() && WorldInv(p, w) && BelowLimit(w)
    requires d < |w.builders| && j < |w.builders[d].emitted| && k < |w.builders[d].emitted[j].stfs|
    ensures Authentic(p, w, w.builders[d].emitted[j], k)
    ensures w.builders[d].emitted[j].timeFrameId % |p.builders| == d
    ensures multiset(w.builders[d].emitted[j].stfs)[w.builders[d].emitted[j].stfs[k]] == 1
  {
    var b := w.builders[d];
    var f := b.emitted[j];
    var x := f.stfs[k];
    assert TfBuilder.Inv(p.builders[d], b, {});
    assert FrameIsWhole(p.builders[d], f);
    assert x in multiset(f.stfs);
    InFramesAt(b.emitted, j, x);
    SentWasFinished(p, w, d, x);
    FinishedOnce(p, w, d, x);
  }

  /** The frame holds, for every source, exactly one sub-time-frame: the one of the frame's number. */
  ghost predicate OneFromEach(p: Plan, w: World, f: TimeFrame) {
    && |f.stfs| == |p.sources|
    && (forall k | 0 <= k < |f.stfs| :: Authentic(p, w, f, k))
    && (forall i, k | 0 <= i < k < |f.stfs| :: f.stfs[i].source != f.stfs[k].source)
    && (forall i: nat | i < |p.sources| :: HasSource(f, i))
  }

  predicate HasSource(f: TimeFrame, i: nat) {
    exists k | 0 <= k < |f.stfs| :: f.stfs[k].source == i
  }

  function Elems(s: seq<nat>): (e: set<nat>)
    ensures forall x :: x in e <==> x in s
  {
    if s == [] then {} else Elems(s[..|s| - 1]) + {s[|s| - 1]}
  }

  lemma {:induction false} DistinctSet(s: seq<nat>)
    requires forall i, j | 0 <= i < j < |s| :: s[i] != s[j]
    ensures |Elems(s)| == |s|
  {
    if s != [] {
      var front, last := s[..|s| - 1], s[|s| - 1];
      DistinctSet(front);
      assert forall i | 0 <= i < |front| :: front[i] == s[i];
      assert last !in front;
    }
  }

  /** The numbers below n. */
  function Below(n: nat): (s: set<nat>)
    ensures |s| == n
    ensures forall x: nat :: x in s <==> x < n
  {
    if n == 0 then {} else Below(n - 1) + {n - 1}
  }

  /** Pigeonhole: n distinct numbers below n are all of them. */
  lemma Pigeonhole(s: seq<nat>)
    requires forall i, j | 0 <= i < j < |s| :: s[i] != s[j]
    requires forall i | 0 <= i < |s| :: s[i] < |s|
    ensures forall i: nat | i < |s| :: i in s
  {
    DistinctSet(s);
    var got, all := Elems(s), Below(|s|);
    assert got <= all;
    assert |all - got| == |all| - |got|;
    assert all - got == {};
    forall i: nat | i < |s| ensures i in s {
      assert i in Below(|s|);
    }
  }

  /**
   In every interleaving, with or without time-outs, each time frame any builder sends holds
   exactly one sub-time-frame from each source, all of the frame's number.
   */
  lemma EachFrameOneFromEach(p: Plan, worlds: seq<World>, events: seq<Event>, t: nat, d: nat, j: nat)
    requires p.Ok() && IsRun(p, worlds, events) && t < |worlds| && worlds[t].Fits(p) && BelowLimit(worlds[t])
    requires d < |p.builders| && j < |worlds[t].builders[d].emitted|
    ensures OneFromEach(p, worlds[t], worlds[t].builders[d].emitted[j])
    ensures worlds[t].builders[d].emitted[j].timeFrameId % |p.builders| == d
  {
    RunInv(p, worlds, events, t);
    FrameOneFromEach(p, worlds[t], d, j);
  }

  lemma FrameOneFromEach(p: Plan, w: World, d: nat, j: nat)
    requires p.Ok() && WorldInv(p, w) && BelowLimit(w)
    requires d < |w.builders| && j < |w.builders[d].emitted|
    ensures OneFromEach(p, w, w.builders[d].emitted[j])
    ensures w.builders[d].emitted[j].timeFrameId % |p.builders| == d
  {
    var f := w.builders[d].emitted[j];
    assert TfBuilder.Inv(p.builders[d], w.builders[d], {});
    assert FrameIsWhole(p.builders[d], f);
    forall k | 0 <= k < |f.stfs| ensures Authentic(p, w, f, k) {
      SentIsAuthentic(p, w, d, j, k);
    }
    SentIsAuthentic(p, w, d, j, 0);
    forall i, k | 0 <= i < k < |f.stfs| ensures f.stfs[i].source != f.stfs[k].source {
      SentIsAuthentic(p, w, d, j, k);
      TwiceIfEqual(f.stfs, i, k);
      SameSourceSamePart(p, w, f, i, k);
    }
    AllSources(p, w, f);
  }

  lemma SameSourceSamePart(p: Plan, w: World, f: TimeFrame, i: nat, k: nat)
    requires i < |f.stfs| && k < |f.stfs| && Authentic(p, w, f, i) && Authentic(p, w, f, k)
    ensures f.stfs[i].source == f.stfs[k].source ==> f.stfs[i] == f.stfs[k]
  {
  }

  lemma AllSources(p: Plan, w: World, f: TimeFrame)
    requires w.Fits(p) && |f.stfs| == |p.sources|
    requires forall k | 0 <= k < |f.stfs| :: Authentic(p, w, f, k)
    requires forall i, k | 0 <= i < k < |f.stfs| :: f.stfs[i].source != f.stfs[k].source
    ensures forall i: nat | i < |p.sources| :: HasSource(f, i)
  {
    var sources := seq(|f.stfs|, k requires 0 <= k < |f.stfs| => f.stfs[k].source);
    forall k | 0 <= k < |sources| ensures sources[k] < |sources| {
      assert Authentic(p, w, f, k);
    }
    Pigeonhole(sources);
    forall i: nat | i < |p.sources| ensures HasSource(f, i) {
      assert i in sources;
      var k :| 0 <= k < |sources| && sources[k] == i;
      assert f.stfs[k].source == i;
    }
  }

  lemma TwiceIfEqual(s: seq<Stf>, i: nat, k: nat)
    requires i < k < |s|
    ensures s[i] == s[k] ==> multiset(s)[s[k]] >= 2
  {
    assert s == s[..k] + [s[k]] + s[k + 1..];
    assert s[i] in s[..k];
  }

  /** In every interleaving no identifier is sent twice, neither by one builder nor by two. */
  lemma NoIdSentTwice(p: Plan, worlds: seq<World>, events: seq<Event>, t: nat, d: nat, j: nat, e: nat, k: nat)
    requires p.Ok() && IsRun(p, worlds, events) && t < |worlds| && worlds[t].Fits(p) && BelowLimit(worlds[t])
    requires d < |p.builders| && j < |worlds[t].builders[d].emitted|
    requires e < |p.builders| && k < |worlds[t].builders[e].emitted|
    requires (d, j) != (e, k)
    ensures worlds[t].builders[d].emitted[j].timeFrameId != worlds[t].builders[e].emitted[k].timeFrameId
  {
    var w := worlds[t];
    RunInv(p, worlds, events, t);
    FrameOneFromEach(p, w, d, j);
    FrameOneFromEach(p, w, e, k);
    if d == e {
      SameFrameOnce(p, w, d, j, k);
    }
  }

  lemma SameFrameOnce(p: Plan, w: World, d: nat, j: nat, k: nat)
    requires p.Ok() && WorldInv(p, w) && BelowLimit(w) && d < |w.builders|
    requires j < |w.builders[d].emitted| && k < |w.builders[d].emitted| && j != k
    requires OneFromEach(p, w, w.builders[d].emitted[j]) && OneFromEach(p, w, w.builders[d].emitted[k])
    ensures w.builders[d].emitted[j].timeFrameId != w.builders[d].emitted[k].timeFrameId
  {
    var fs := w.builders[d].emitted;
    assert HasSource(fs[j], 0) && HasSource(fs[k], 0);
    var a :| 0 <= a < |fs[j].stfs| && fs[j].stfs[a].source == 0;
    var b :| 0 <= b < |fs[k].stfs| && fs[k].stfs[b].source == 0;
    var x, y := fs[j].stfs[a], fs[k].stfs[b];
    assert Authentic(p, w, fs[j], a) && Authentic(p, w, fs[k], b);
    assert y in multiset(fs[k].stfs);
    InOneFrame(p, w, d, j, k, x);
    assert x == Stf(0, x.parts) && y == Stf(0, y.parts);
  }

  /** What one time frame holds, no other one of the builder does. */
  lemma InOneFrame(p: Plan, w: World, d: nat, j: nat, k: nat, x: Stf)
    requires p.Ok() && WorldInv(p, w) && BelowLimit(w) && d < |w.builders|
    requires j < |w.builders[d].emitted| && k < |w.builders[d].emitted| && j != k
    requires x in w.builders[d].emitted[j].stfs
    ensures multiset(w.builders[d].emitted[k].stfs)[x] == 0
  {
    var fs := w.builders[d].emitted;
    assert x in multiset(fs[j].stfs);
    InFramesAt(fs, j, x);
    SentWasFinished(p, w, d, x);
    FinishedOnce(p, w, d, x);
  }

  /**
   Nothing disappears: a frame a source has finished is on its way, buffered, sent, timed out
   or refused as late, and in exactly one of these.
   */
  lemma EveryFrameAccounted(p: Plan, worlds: seq<World>, events: seq<Event>, t: nat, i: nat, k: nat)
    requires p.Ok() && IsRun(p, worlds, events) && t < |worlds| && worlds[t].Fits(p) && BelowLimit(worlds[t])
    requires i < |p.sources| && k < |worlds[t].sources[i].output|
    ensures
      var w, x := worlds[t], Stf(i, worlds[t].sources[i].output[k]);
      var d := k % |p.builders|;
      var b := w.builders[d];
      w.net[d][x] + InBuffer(b, x) + InFrames(b.emitted)[x] + b.timedOut[x] + b.late[x] == 1
  {
    var w, x, d := worlds[t], Stf(i, worlds[t].sources[i].output[k]), k % |p.builders|;
    RunInv(p, worlds, events, t);
    FrameNumber(p, w, i, k);
    FinishedOnce(p, w, d, x);
    assert x.parts in multiset(w.sources[i].output);
    assert TfBuilder.Inv(p.builders[d], w.builders[d], {});
    assert BalancedAt(w.builders[d], x);
    assert Accounted(p, w, d, x);
  }

  /** Everything on its way has a header and a message, so the receiving assertion holds. */
  lemma DeliveriesAreSound(p: Plan, w: World, d: nat, x: Stf)
    requires p.Ok() && WorldInv(p, w) && BelowLimit(w) && d < |w.net| && x in w.net[d]
    ensures x.Ok() && x.Id() % |p.builders| == d
  {
    assert Accounted(p, w, d, x);
    FinishedOnce(p, w, d, x);
  }

  /** Frame `id` of source i has been delivered and was neither timed out nor refused. */
  ghost predicate Kept(p: Plan, w: World, id: nat, i: nat)
    requires w.Fits(p) && |p.builders| >= 1 && i < |w.sources|
  {
    && id < |w.sources[i].output|
    && var x, d := Stf(i, w.sources[i].output[id]), id % |p.builders|;
       x !in w.net[d] && x !in w.builders[d].timedOut && x !in w.builders[d].late
  }

  /** Once the frames of all sources have been delivered and kept, the time frame has been sent. */
  lemma KeptIsSent(p: Plan, worlds: seq<World>, events: seq<Event>, t: nat, id: uint32)
    requires p.Ok() && IsRun(p, worlds, events) && t < |worlds| && worlds[t].Fits(p) && BelowLimit(worlds[t])
    requires forall i | 0 <= i < |p.sources| :: Kept(p, worlds[t], id, i)
    ensures exists j | 0 <= j < |worlds[t].builders[id % |p.builders|].emitted| ::
      worlds[t].builders[id % |p.builders|].emitted[j].timeFrameId == id
  {
    var w, d := worlds[t], id % |p.builders|;
    RunInv(p, worlds, events, t);
    forall i: nat | i < |p.sources| ensures Numbered(w, i, id) {
      assert Kept(p, w, id, i);
      FrameNumber(p, w, i, id);
    }
    var i := OneNotWaiting(p, w, id);
    assert Kept(p, w, id, i) && Numbered(w, i, id);
    var x := Stf(i, w.sources[i].output[id]);
    EveryFrameAccounted(p, worlds, events, t, i, id);
    var j := FrameWith(w.builders[d].emitted, x);
    FrameHasId(p.builders[d], w.builders[d], j, x);
  }

  lemma {:induction false} RunIsPunctual(p: Plan, worlds: seq<World>, events: seq<Event>, t: nat, d: nat)
    requires p.Ok() && IsRun(p, worlds, events) && t < |worlds| && worlds[t].Fits(p) && d < |p.builders|
    requires WithinTimeout(p.builders[d], worlds[t].builders[d])
    ensures Punctual(worlds[t].builders[d])
  {
    if t > 0 {
      RunInv(p, worlds, events, t - 1);
      NextWorld(p, worlds, events, t - 1);
      ClockOnlyRuns(p, worlds[t - 1], events[t - 1], worlds[t], d);
      RunIsPunctual(p, worlds, events, t - 1, d);
      StepIsPunctual(p, worlds[t - 1], events[t - 1], worlds[t], d);
    } else {
      StartIsPunctual(p, d);
    }
  }

  lemma NextWorld(p: Plan, worlds: seq<World>, events: seq<Event>, k: nat)
    requires p.Ok() && IsRun(p, worlds, events) && k < |events|
    ensures StepTo(p, worlds[k], events[k], worlds[k + 1])
  {
  }

  lemma StartIsPunctual(p: Plan, d: nat)
    requires d < |p.builders|
    ensures Punctual(Start(p).builders[d])
  {
  }

  lemma ClockOnlyRuns(p: Plan, a: World, e: Event, b: World, d: nat)
    requires p.Ok() && WorldInv(p, a) && StepTo(p, a, e, b) && d < |p.builders|
    ensures a.builders[d].clock <= b.builders[d].clock
  {
    match e
    case ReadWord(_, _) =>
    case RunBuilder(f, round) =>
      assert TfBuilder.Inv(p.builders[f], a.builders[f], {});
      RoundKeeps(p.builders[f], a.builders[f], round.inParts, round.rcv, round.order, b.builders[f]);
  }

  lemma StepIsPunctual(p: Plan, a: World, e: Event, b: World, d: nat)
    requires p.Ok() && WorldInv(p, a) && StepTo(p, a, e, b) && d < |p.builders|
    requires Punctual(a.builders[d]) && WithinTimeout(p.builders[d], b.builders[d])
    ensures Punctual(b.builders[d])
  {
    match e
    case ReadWord(_, _) =>
    case RunBuilder(f, round) =>
      if f == d {
        assert TfBuilder.Inv(p.builders[d], a.builders[d], {});
        RoundIsPunctual(p.builders[d], a.builders[d], round, b.builders[d]);
      }
  }

  /** Source i has finished frame `id`, and it has left the network. */
  predicate Delivered(p: Plan, w: World, id: nat, i: nat)
    requires w.Fits(p) && |p.builders| >= 1 && i < |w.sources|
  {
    id < |w.sources[i].output| && Stf(i, w.sources[i].output[id]) !in w.net[id % |p.builders|]
  }

  /**
   Progress: in any run, once the frames of all sources with one number have been delivered while
   their builder's clock stays within the timeout, the time frame has been sent.
   */
  lemma DeliveredIsSent(p: Plan, worlds: seq<World>, events: seq<Event>, t: nat, id: uint32)
    requires p.Ok() && IsRun(p, worlds, events) && t < |worlds| && worlds[t].Fits(p) && BelowLimit(worlds[t])
    requires forall i | 0 <= i < |p.sources| :: Delivered(p, worlds[t], id, i)
    requires WithinTimeout(p.builders[id % |p.builders|], worlds[t].builders[id % |p.builders|])
    ensures exists j | 0 <= j < |worlds[t].builders[id % |p.builders|].emitted| ::
      worlds[t].builders[id % |p.builders|].emitted[j].timeFrameId == id
  {
    RunIsPunctual(p, worlds, events, t, id % |p.builders|);
    forall i | 0 <= i < |p.sources| ensures Kept(p, worlds[t], id, i) {
      assert Delivered(p, worlds[t], id, i);
    }
    KeptIsSent(p, worlds, events, t, id);
  }

  /** A buffered collection is never complete between rounds. */
  lemma OneNotWaiting(p: Plan, w: World, id: uint32) returns (i: nat)
    requires p.Ok() && WorldInv(p, w)
    requires forall i: nat | i < |p.sources| :: Numbered(w, i, id)
    ensures i < |p.sources| && !Waiting(p, w, id, i)
  {
    var d := id % |p.builders|;
    var b := w.builders[d];
    assert TfBuilder.Inv(p.builders[d], b, {});
    assert id in b.buffer ==> EntriesOk(b, id, |p.sources| - 1);
    if forall i: nat | i < |p.sources| :: Waiting(p, w, id, i) {
      AllWaiting(p, w, id);
      assert false;
    }
    i :| i < |p.sources| && !Waiting(p, w, id, i);
  }

  lemma FrameHasId(c: Settings, b: TfState, j: nat, x: Stf)
    requires TfBuilder.Inv(c, b, {}) && j < |b.emitted| && x in b.emitted[j].stfs
    ensures x.Ok() && b.emitted[j].timeFrameId == x.Id()
  {
    assert FrameIsWhole(c, b.emitted[j]);
  }

  /** Source i's frame `id` sits in the builder's buffer. */
  predicate Waiting(p: Plan, w: World, id: nat, i: nat)
    requires w.Fits(p) && |p.builders| >= 1 && i < |w.sources|
  {
    id < |w.sources[i].output| && InBuffer(w.builders[id % |p.builders|], Stf(i, w.sources[i].output[id])) > 0
  }

  lemma {:induction false} FrameWith(fs: seq<TimeFrame>, x: Stf) returns (j: nat)
    requires InFrames(fs)[x] > 0
    ensures j < |fs| && x in fs[j].stfs
  {
    var front := fs[..|fs| - 1];
    if InFrames(front)[x] > 0 {
      j := FrameWith(front, x);
    } else {
      j := |fs| - 1;
      assert x in multiset(fs[j].stfs);
    }
  }

  /** If the frames of all sources are buffered, the collection has at least that many entries. */
  lemma AllWaiting(p: Plan, w: World, id: uint32)
    requires w.Fits(p) && |p.builders| >= 1 && |p.sources| >= 1
    requires forall i: nat | i < |p.sources| :: Waiting(p, w, id, i)
    requires forall i: nat | i < |p.sources| :: Numbered(w, i, id)
    ensures id in w.builders[id % |p.builders|].buffer
    ensures |w.builders[id % |p.builders|].buffer[id]| >= |p.sources|
  {
    var b := w.builders[id % |p.builders|];
    assert Waiting(p, w, id, 0) && Numbered(w, 0, id);
    var held := Stfs(b.buffer[id]);
    StfsAt(b.buffer[id]);
    var froms, all := (set k | 0 <= k < |held| :: held[k].source), Below(|p.sources|);
    SourcesBound(held);
    forall i: nat | i in all ensures i in froms {
      assert Waiting(p, w, id, i) && Numbered(w, i, id);
      assert Stf(i, w.sources[i].output[id]) in multiset(held);
      var k :| 0 <= k < |held| && held[k] == Stf(i, w.sources[i].output[id]);
    }
    SubsetBound(all, froms);
  }

  predicate Numbered(w: World, i: nat, id: nat) {
    && i < |w.sources| && id < |w.sources[i].output|
    && Stf(i, w.sources[i].output[id]).Ok()
    && w.sources[i].output[id][0].timeFrameId == id
  }

  lemma {:induction false} SourcesBound(s: seq<Stf>)
    ensures |set k | 0 <= k < |s| :: s[k].source| <= |s|
  {
    if s != [] {
      var front := s[..|s| - 1];
      SourcesBound(front);
      var got, less := (set k | 0 <= k < |s| :: s[k].source), (set k | 0 <= k < |front| :: front[k].source);
      forall x | x in got ensures x in less + {s[|s| - 1].source} {
        var k :| 0 <= k < |s| && s[k].source == x;
        if k < |front| { assert front[k].source == x; }
      }
      assert got <= less + {s[|s| - 1].source};
      SubsetBound(got, less + {s[|s| - 1].source});
    }
  }

  lemma SubsetBound(a: set<nat>, b: set<nat>)
    requires a <= b
    ensures |a| <= |b|
  {
    assert |b| == |b - a| + |a|;
  }
}
