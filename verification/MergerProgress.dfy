/**
 What the merger and the workers can always still do: from any point of any run, without new
 inputs, every input dealt so far can be answered and handed out; and what the input counter counts.
 */
module MergerProgress {
  import opened Outcomes
  import opened Bits
  import opened Merger

  lemma {:induction false} RunAppend<M, R>(n: nat, s: State<M, R>, a: seq<Event<M>>, b: seq<Event<M>>, f: M -> R)
    requires Fits(n, s)
    ensures Run(n, s, a + b, f) == Run(n, Run(n, s, a, f), b, f)
  {
    if b == [] {
      assert a + b == a;
    } else {
      assert (a + b)[..|a + b| - 1] == a + b[..|b| - 1];
      RunAppend(n, s, a, b[..|b| - 1], f);
    }
  }

  /** The worker of the polled channel takes a message unless it holds one, answers it, and the merger polls. */
  function OneRound<M>(i: nat): seq<Event<M>> {
    [Receive(i), Answer(i), Poll]
  }

  lemma RoundIs<M, R>(n: nat, s: State<M, R>, i: nat, f: M -> R)
    requires Fits(n, s) && i < n
    ensures Fits(n, ReceiveStep(s, i)) && Fits(n, AnswerStep(ReceiveStep(s, i), i, f))
    ensures Run(n, s, OneRound(i), f) == PollStep(n, AnswerStep(ReceiveStep(s, i), i, f))
  {
    var es: seq<Event<M>> := OneRound(i);
    assert es[..2][..1] == es[..1] && es[..1][..0] == [] && es[..3] == es && es[..3][..2] == es[..2];
    assert Run(n, s, es[..1], f) == ReceiveStep(s, i);
    assert Run(n, s, es[..2], f) == AnswerStep(ReceiveStep(s, i), i, f);
  }

  /** While an input is still to be handed out, that round hands out one more. */
  lemma OneMoreOutput<M, R>(n: nat, s: State<M, R>, base: seq<nat>, f: M -> R) returns (r: State<M, R>)
    requires Merger.Inv(n, s, base, f) && DealtInTurn(n, s) && |s.output| < |s.dealt|
    ensures r == Run(n, s, OneRound(|s.output| % n), f)
    ensures Merger.Inv(n, r, base, f) && DealtInTurn(n, r)
    ensures r.dealt == s.dealt && |r.output| == |s.output| + 1
  {
    var k := |s.output|;
    var i := k % n;
    RoundIs(n, s, i, f);
    var t := ReceiveStep(s, i);
    ApplyKeeps(n, s, base, f, Receive(i));
    DealStep(n, s, Receive(i), f);
    assert t == Apply(n, s, Receive(i), f);
    var u := AnswerStep(t, i, f);
    ApplyKeeps(n, t, base, f, Answer(i));
    DealStep(n, t, Answer(i), f);
    assert u == Apply(n, t, Answer(i), f);
    SomethingToPoll(n, s, base, f);
    r := PollStep(n, u);
    ApplyKeeps(n, u, base, f, Poll);
    DealStep(n, u, Poll, f);
    assert r == Apply(n, u, Poll, f);
  }

  lemma SomethingToPoll<M, R>(n: nat, s: State<M, R>, base: seq<nat>, f: M -> R)
    requires Merger.Inv(n, s, base, f) && DealtInTurn(n, s) && |s.output| < |s.dealt|
    ensures var i := |s.output| % n;
      var t := ReceiveStep(s, i);
      AnswerStep(t, i, f).merge[i] != [] && AnswerStep(t, i, f).output == s.output
  {
    var k := |s.output|;
    var i := k % n;
    assert ChannelOk(n, s, base, f, i);
    TurnsMonotone(i, k + 1, |s.dealt|, n);
    assert Turns(i, k + 1, n) == Turns(i, k, n) + 1;
  }

  /** From here, without new inputs, everything dealt can be handed out. */
  lemma {:induction false} Drain<M, R>(n: nat, s: State<M, R>, base: seq<nat>, f: M -> R) returns (more: seq<Event<M>>)
    requires Merger.Inv(n, s, base, f) && DealtInTurn(n, s)
    ensures forall k | 0 <= k < |more| :: !more[k].Arrive?
    ensures var r := Run(n, s, more, f); r.dealt == s.dealt && |r.output| == |s.dealt|
    decreases |s.dealt| - |s.output|
  {
    TooManyTurns(n, s, base, f);
    if |s.output| == |s.dealt| {
      more := [];
    } else {
      var r := OneMoreOutput(n, s, base, f);
      TooManyTurns(n, r, base, f);
      var later := Drain(n, r, base, f);
      more := OneRound(|s.output| % n) + later;
      RunAppend(n, s, OneRound(|s.output| % n), later, f);
    }
  }

  /**
   No deadlock: any run with round-robin dealing can be continued without new inputs until the
   outputs are the answers to all inputs, in order.
   */
  lemma EverythingIsDeliverable<M, R>(n: nat, es: seq<Event<M>>, base: seq<nat>, f: M -> R)
    returns (more: seq<Event<M>>)
    requires n >= 1 && |base| == n && RoundRobin(n, es)
    ensures forall k | 0 <= k < |more| :: !more[k].Arrive?
    ensures
      var s, r := Run(n, Initial(n, base), es, f), Run(n, Initial(n, base), es + more, f);
      r.dealt == s.dealt && |r.output| == |s.dealt| && forall k | 0 <= k < |r.output| :: r.output[k] == f(s.dealt[k])
  {
    var s := Run(n, Initial(n, base), es, f);
    RunKeeps(n, es, base, f);
    DealingKeeps(n, es, base, f);
    more := Drain(n, s, base, f);
    RunAppend(n, Initial(n, base), es, more, f);
    StillRoundRobin(n, es, more);
    OrderRestored(n, es + more, base, f);
  }

  lemma StillRoundRobin<M>(n: nat, es: seq<Event<M>>, more: seq<Event<M>>)
    requires n >= 1 && RoundRobin(n, es) && forall k | 0 <= k < |more| :: !more[k].Arrive?
    ensures RoundRobin(n, es + more)
  {
    var all := es + more;
    forall j | |es| <= j < |all| ensures !all[j].Arrive? {
      assert all[j] == more[j - |es|];
    }
    forall k | 0 <= k < |all| && all[k].Arrive? ensures all[k].channel == Arrivals(all[..k]) % n {
      assert k < |es|;
      assert all[k] == es[k] && all[..k] == es[..k];
    }
  }

  // ----- the input counter -----

  function Lengths<T>(xss: seq<seq<T>>): (r: seq<nat>)
    ensures |r| == |xss|
  {
    seq(|xss|, i requires 0 <= i < |xss| => |xss[i]|)
  }

  /** The counter is the number of inputs dealt less those that still wait for their worker. */
  lemma {:induction false} InputsCounted<M, R>(n: nat, es: seq<Event<M>>, base: seq<nat>, f: M -> R)
    requires n >= 1 && |base| == n
    ensures var s := Run(n, Initial(n, base), es, f);
      s.nInput + Sum(Lengths(s.input)) == |s.dealt|
  {
    if es == [] {
      SumZeros(Lengths(Initial<M, R>(n, base).input));
    } else {
      InputsCounted(n, es[..|es| - 1], base, f);
      var s := Run(n, Initial(n, base), es[..|es| - 1], f);
      match es[|es| - 1] {
        case Arrive(i, m) =>
          if i < n {
            SumBump(Lengths(s.input), i);
            assert Lengths(ArriveStep(s, i, m).input) == Lengths(s.input)[i := |s.input[i]| + 1];
          }
        case Receive(i) =>
          if i < n && s.held[i].None? && s.input[i] != [] {
            var r := ReceiveStep(s, i);
            SumBump(Lengths(r.input), i);
            assert Lengths(s.input) == Lengths(r.input)[i := |r.input[i]| + 1];
          }
        case Answer(i) =>
        case Poll =>
      }
    }
  }
}
