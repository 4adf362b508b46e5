/**
 The steps of the distributed protocol are what the devices do: what a source puts on its way to
 a builder, word by word, is exactly what the source's message handler sends in that direction.
 */
module Routing {
  import opened StfBuilder
  import opened StfProperties
  import opened TfBuilder
  import opened EventBuilding

  /** Of all that source i sends, what goes to builder d. */
  function SentTo(i: nat, sent: seq<Sent>, d: int): multiset<Stf> {
    if sent == [] then multiset{}
    else
      var last := sent[|sent| - 1];
      SentTo(i, sent[..|sent| - 1], d) + (if last.direction == d then multiset{Stf(i, last.parts)} else multiset{})
  }

  lemma {:induction false} DeliverMore(fs: seq<seq<Part>>, f: seq<Part>, n: int, dqmExists: bool)
    requires AllHeaded(fs) && HeadedFrame(f) && n >= 1
    ensures AllHeaded(fs + [f])
    ensures DeliverAll(fs + [f], n, dqmExists) == DeliverAll(fs, n, dqmExists) + [Deliver(f, n, dqmExists)]
  {
    assert AllHeaded(fs + [f]) by {
      forall k | 0 <= k < |fs + [f]| ensures HeadedFrame((fs + [f])[k]) {}
    }
    if fs == [] {
      assert fs + [f] == [f] && [f][1..] == [];
    } else {
      assert HeadedFrame(fs[0]);
      assert AllHeaded(fs[1..]);
      DeliverMore(fs[1..], f, n, dqmExists);
      assert (fs + [f])[1..] == fs[1..] + [f];
    }
  }

  lemma SentMore(i: nat, sent: seq<Sent>, one: Sent, d: int)
    ensures SentTo(i, sent + [one], d) ==
      SentTo(i, sent, d) + (if one.direction == d then multiset{Stf(i, one.parts)} else multiset{})
  {
    assert (sent + [one])[..|sent|] == sent;
  }

  /** The protocol routes finished frames as `HandleData` sends them, with or without monitoring. */
  lemma {:induction false} RoutedIsSent(i: nat, frames: seq<seq<Part>>, d: nat, n: nat, dqmExists: bool)
    requires AllHeaded(frames) && n >= 1
    ensures Routed(i, frames, d, n) == SentTo(i, DeliverAll(frames, n, dqmExists), d)
  {
    if frames != [] {
      var front, f := frames[..|frames| - 1], frames[|frames| - 1];
      assert AllHeaded(front) && HeadedFrame(f);
      RoutedIsSent(i, front, d, n, dqmExists);
      assert frames == front + [f];
      DeliverMore(front, f, n, dqmExists);
      SentMore(i, DeliverAll(front, n, dqmExists), Deliver(f, n, dqmExists), d);
    }
  }

  lemma {:induction false} RoutedAppend(i: nat, a: seq<seq<Part>>, b: seq<seq<Part>>, d: nat, n: nat)
    requires n >= 1
    ensures Routed(i, a + b, d, n) == Routed(i, a, d, n) + Routed(i, b, d, n)
  {
    if b == [] {
      assert a + b == a;
    } else {
      assert (a + b)[..|a + b| - 1] == a + b[..|b| - 1];
      RoutedAppend(i, a, b[..|b| - 1], d, n);
    }
  }

  /** A source that reads `words`, one protocol step each. */
  ghost predicate Reads(c: Config, states: seq<State>, words: seq<Word>)
    requires c.Ok()
  {
    && |states| == |words| + 1
    && (forall k | 0 <= k < |states| :: WorkingOk(states[k]))
    && forall k | 0 <= k < |words| :: states[k + 1] == Step(c, states[k], words[k])
  }

  /** Finished frames are only added to. */
  predicate Growing(states: seq<State>) {
    forall k | 0 < k < |states| :: states[k - 1].output <= states[k].output
  }

  /** What these steps of source i put on the way to builder d. */
  function RoutedAlong(i: nat, states: seq<State>, d: nat, n: nat): multiset<Stf>
    requires n >= 1 && Growing(states)
  {
    if |states| <= 1 then multiset{}
    else
      var m := |states| - 1;
      RoutedAlong(i, states[..m], d, n) + Routed(i, NewFrames(states[m - 1], states[m]), d, n)
  }

  lemma {:induction false} RoutedAlongIs(i: nat, states: seq<State>, d: nat, n: nat)
    requires n >= 1 && Growing(states) && states != []
    ensures states[0].output <= states[|states| - 1].output
    ensures RoutedAlong(i, states, d, n) == Routed(i, NewFrames(states[0], states[|states| - 1]), d, n)
  {
    if |states| > 1 {
      var m := |states| - 1;
      RoutedAlongIs(i, states[..m], d, n);
      NewFramesMore(states[0], states[m - 1], states[m]);
      RoutedAppend(i, NewFrames(states[0], states[m - 1]), NewFrames(states[m - 1], states[m]), d, n);
    }
  }

  lemma NewFramesMore(a: State, b: State, c: State)
    requires a.output <= b.output <= c.output
    ensures NewFrames(a, c) == NewFrames(a, b) + NewFrames(b, c)
  {
  }

  lemma {:induction false} ReadsIsRun(c: Config, states: seq<State>, words: seq<Word>)
    requires c.Ok() && Reads(c, states, words)
    ensures states[|words|] == Run(c, states[0], words)
    ensures Growing(states)
  {
    if words != [] {
      var m := |words| - 1;
      var front := states[..m + 1];
      assert Reads(c, front, words[..m]);
      ReadsIsRun(c, front, words[..m]);
      StepAppends(c, states[m], words[m]);
      forall k | 0 < k < |states| ensures states[k - 1].output <= states[k].output {
        if k <= m { assert front[k - 1].output <= front[k].output; }
      }
    }
  }

  /**
   Reading one message word by word in the protocol puts on the way to each builder exactly the
   frames that `HandleData`, called on the message with nothing left to send, sends there.
   */
  lemma MessageIsSteps(c: Config, states: seq<State>, words: seq<Word>, i: nat, d: nat, n: nat, dqmExists: bool)
    requires c.Ok() && Reads(c, states, words) && n >= 1
    ensures Growing(states)
    ensures var r := Run(c, states[0].(output := []), words);
      && AllHeaded(r.output)
      && RoutedAlong(i, states, d, n) == SentTo(i, DeliverAll(r.output, n, dqmExists), d)
  {
    ReadsIsRun(c, states, words);
    RoutedAlongIs(i, states, d, n);
    var s := states[0];
    var bare := s.(output := []);
    RunHeaders(c, bare, words);
    RunAfter(c, bare, words, s.output);
    assert After(s.output, bare) == s;
    assert NewFrames(s, states[|words|]) == Run(c, bare, words).output;
    RoutedIsSent(i, Run(c, bare, words).output, d, n, dqmExists);
  }
}
