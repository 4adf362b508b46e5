/**
 The multi-threaded task processor: worker threads run freely between per-thread channels,
 and one merger thread polls the channels round-robin. In every interleaving the merger
 restores the order in which the inputs were dealt.
 */
module Merger {
  import opened Outcomes
  import opened Bits

  /** Channel contents, and the history of what was put on each input and merger channel. */
  datatype State<M, R> = State(
    input: seq<seq<M>>,
    held: seq<Option<M>>,
    merge: seq<seq<R>>,
    processed: seq<nat>,
    nInput: nat,
    output: seq<R>,
    dealt: seq<M>,
    arrived: seq<seq<M>>,
    answered: seq<seq<R>>)

  /** One step of one thread. A thread whose receive times out makes no change. */
  datatype Event<M> =
    | Arrive(channel: nat, msg: M)
    | Receive(worker: nat)
    | Answer(worker: nat)
    | Poll

  predicate Fits<M, R>(n: nat, s: State<M, R>) {
    && n >= 1
    && |s.input| == |s.held| == |s.merge| == |s.processed| == |s.arrived| == |s.answered| == n
  }

  /** A message is put on worker i's input channel. */
  function ArriveStep<M, R>(s: State<M, R>, i: nat, m: M): State<M, R>
    requires i < |s.input| && i < |s.arrived|
  {
    s.(input := s.input[i := s.input[i] + [m]], arrived := s.arrived[i := s.arrived[i] + [m]], dealt := s.dealt + [m])
  }

  /** Worker i takes the first message of its channel. */
  function ReceiveStep<M, R>(s: State<M, R>, i: nat): State<M, R>
    requires i < |s.input| && i < |s.held|
  {
    if s.held[i].None? && s.input[i] != [] then
      s.(input := s.input[i := s.input[i][1..]], held := s.held[i := Some(s.input[i][0])], nInput := s.nInput + 1)
    else s
  }

  /** Worker i's handler sends its one answer to the merger channel. */
  function AnswerStep<M, R>(s: State<M, R>, i: nat, f: M -> R): State<M, R>
    requires i < |s.held| && i < |s.merge| && i < |s.answered|
  {
    if s.held[i].Some? then
      var r := f(s.held[i].value);
      s.(held := s.held[i := None], merge := s.merge[i := s.merge[i] + [r]],
         answered := s.answered[i := s.answered[i] + [r]])
    else s
  }

  /** The merger polls the channel whose turn it is. */
  function PollStep<M, R>(n: nat, s: State<M, R>): State<M, R>
    requires Fits(n, s)
  {
    var i := |s.output| % n;
    if s.merge[i] == [] then s
    else
      s.(output := s.output + [s.merge[i][0]], merge := s.merge[i := s.merge[i][1..]],
         processed := s.processed[i := s.processed[i] + 1])
  }

  function Apply<M, R>(n: nat, s: State<M, R>, e: Event<M>, f: M -> R): (r: State<M, R>)
    requires Fits(n, s)
    ensures Fits(n, r)
  {
    match e
    case Arrive(i, m) => if i < n then ArriveStep(s, i, m) else s
    case Receive(i) => if i < n then ReceiveStep(s, i) else s
    case Answer(i) => if i < n then AnswerStep(s, i, f) else s
    case Poll => PollStep(n, s)
  }

  function Run<M, R>(n: nat, s: State<M, R>, es: seq<Event<M>>, f: M -> R): (r: State<M, R>)
    requires Fits(n, s)
    ensures Fits(n, r)
  {
    if es == [] then s else Apply(n, Run(n, s, es[..|es| - 1], f), es[|es| - 1], f)
  }

  /** `resize(n, 0)`: counts of an earlier set of channels stay. */
  function Resize(counts: seq<nat>, n: nat): (r: seq<nat>)
    ensures |r| == n
  {
    if |counts| >= n then counts[..n] else counts + seq(n - |counts|, _ => 0)
  }

  function Initial<M, R>(n: nat, base: seq<nat>): State<M, R>
    requires |base| == n
  {
    State(Lists<M>(n), Idle<M>(n), Lists<R>(n), base, 0, [], [], Lists<M>(n), Lists<R>(n))
  }

  /** n empty lists. */
  function Lists<T>(n: nat): seq<seq<T>> {
    seq(n, _ => [])
  }

  /** n workers with nothing in hand. */
  function Idle<T>(n: nat): seq<Option<T>> {
    seq(n, _ => None)
  }

  // ----- the object whose fields the threads update -----

  class TaskProcessorMT<M, R> {
    var fNThreads: nat
    var fNProcessed: seq<nat>
    var fNInput: nat
    var fNOutput: nat
    var fWorkerInputChannels: seq<seq<M>>
    var fMergerChannels: seq<seq<R>>
    var inHand: seq<Option<M>>
    var handedOut: seq<R>
    ghost var dealt: seq<M>
    ghost var arrived: seq<seq<M>>
    ghost var answered: seq<seq<R>>

    constructor ()
      ensures fNProcessed == []
    {
      fNThreads, fNProcessed, fNInput, fNOutput := 0, [], 0, 0;
      fWorkerInputChannels, fMergerChannels, inHand, handedOut := [], [], [], [];
      dealt, arrived, answered := [], [], [];
    }

    ghost function Now(): State<M, R>
      reads this
    {
      State(fWorkerInputChannels, inHand, fMergerChannels, fNProcessed, fNInput, handedOut, dealt, arrived, answered)
    }

    ghost predicate Valid()
      reads this
    {
      Fits(fNThreads, Now()) && fNOutput == |handedOut|
    }

    method InitChannels(nThreads: nat)
      requires nThreads >= 1
      modifies this
      ensures Valid() && fNThreads == nThreads
      ensures Now() == Initial(nThreads, Resize(old(fNProcessed), nThreads))
    {
      fNThreads := nThreads;
      fNProcessed := Resize(fNProcessed, nThreads);
      fNInput, fNOutput := 0, 0;
      fWorkerInputChannels, fMergerChannels := Lists<M>(nThreads), Lists<R>(nThreads);
      inHand, handedOut := Idle<M>(nThreads), [];
      dealt, arrived, answered := [], Lists<M>(nThreads), Lists<R>(nThreads);
    }

    /** One round of the merger's loop. */
    method MergerRound()
      requires Valid()
      modifies this
      ensures Valid() && fNThreads == old(fNThreads)
      ensures Now() == PollStep(fNThreads, old(Now()))
    {
      var i := fNOutput % fNThreads;
      if fMergerChannels[i] != [] {
        var payload := fMergerChannels[i][0];
        fMergerChannels := fMergerChannels[i := fMergerChannels[i][1..]];
        handedOut := handedOut + [payload];
        fNOutput := fNOutput + 1;
        fNProcessed := fNProcessed[i := fNProcessed[i] + 1];
      }
    }

    /** The receiving half of a round of worker i. */
    method WorkerReceive(i: nat)
      requires Valid() && i < fNThreads
      modifies this
      ensures Valid() && fNThreads == old(fNThreads)
      ensures Now() == ReceiveStep(old(Now()), i)
    {
      if inHand[i].None? && fWorkerInputChannels[i] != [] {
        var payloadIn := fWorkerInputChannels[i][0];
        fWorkerInputChannels := fWorkerInputChannels[i := fWorkerInputChannels[i][1..]];
        inHand := inHand[i := Some(payloadIn)];
        fNInput := fNInput + 1;
      }
    }

    /** The handling half. */
    method WorkerAnswer(i: nat, f: M -> R)
      requires Valid() && i < fNThreads
      modifies this
      ensures Valid() && fNThreads == old(fNThreads)
      ensures Now() == AnswerStep(old(Now()), i, f)
    {
      if inHand[i].Some? {
        var r := f(inHand[i].value);
        inHand := inHand[i := None];
        fMergerChannels := fMergerChannels[i := fMergerChannels[i] + [r]];
        answered := answered[i := answered[i] + [r]];
      }
    }
  }

  // ----- turns -----

  /** How many of the first k turns are channel i's. */
  function Turns(i: nat, k: nat, n: nat): nat
    requires n >= 1
  {
    if k == 0 then 0 else Turns(i, k - 1, n) + (if (k - 1) % n == i then 1 else 0)
  }

  lemma NextTurn(k: nat, n: nat)
    requires n >= 1
    ensures if k % n + 1 == n then (k + 1) % n == 0 && (k + 1) / n == k / n + 1
            else (k + 1) % n == k % n + 1 && (k + 1) / n == k / n
  {
    var q, r := k / n, k % n;
    assert k == n * q + r;
    if r + 1 == n {
      assert n * (q + 1) == n * q + n;
      ModUnique(k + 1, n, q + 1, 0);
    } else {
      ModUnique(k + 1, n, q, r + 1);
    }
  }

  /** After k turns, channel i has had k div n of them, and one more when its turn of the last round has passed. */
  lemma {:induction false} TurnsIs(i: nat, k: nat, n: nat)
    requires i < n
    ensures Turns(i, k, n) == k / n + (if i < k % n then 1 else 0)
  {
    if k == 0 {
      ModUnique(0, n, 0, 0);
    } else {
      TurnsIs(i, k - 1, n);
      NextTurn(k - 1, n);
    }
  }

  // ----- the invariant of every interleaving -----

  ghost predicate ChannelOk<M, R>(n: nat, s: State<M, R>, base: seq<nat>, f: M -> R, i: nat)
    requires Fits(n, s) && |base| == n && i < n
  {
    var done := Turns(i, |s.output|, n);
    var held := if s.held[i].Some? then [s.held[i].value] else [];
    && done <= |s.answered[i]|
    && s.merge[i] == s.answered[i][done..]
    && s.processed[i] == base[i] + done
    && |s.answered[i]| <= |s.arrived[i]|
    && (forall k | 0 <= k < |s.answered[i]| :: s.answered[i][k] == f(s.arrived[i][k]))
    && s.arrived[i][|s.answered[i]|..] == held + s.input[i]
  }

  /** Output k is the (k div n)-th answer of channel k mod n. */
  ghost predicate OutputOk<M, R>(n: nat, s: State<M, R>, k: nat)
    requires Fits(n, s) && k < |s.output|
  {
    k % n < n && k / n < |s.answered[k % n]| && s.output[k] == s.answered[k % n][k / n]
  }

  ghost predicate Inv<M, R>(n: nat, s: State<M, R>, base: seq<nat>, f: M -> R) {
    && Fits(n, s) && |base| == n
    && (forall i | 0 <= i < n :: ChannelOk(n, s, base, f, i))
    && (forall k | 0 <= k < |s.output| :: OutputOk(n, s, k))
  }

  lemma PollKeeps<M, R>(n: nat, s: State<M, R>, base: seq<nat>, f: M -> R)
    requires Inv(n, s, base, f)
    ensures Inv(n, PollStep(n, s), base, f)
  {
    var k, r := |s.output|, PollStep(n, s);
    var i := k % n;
    if s.merge[i] != [] {
      assert ChannelOk(n, s, base, f, i);
      TurnsIs(i, k, n);
      forall j | 0 <= j < n ensures ChannelOk(n, r, base, f, j) {
        assert ChannelOk(n, s, base, f, j);
        assert Turns(j, k + 1, n) == Turns(j, k, n) + (if j == i then 1 else 0);
      }
      forall m | 0 <= m < |r.output| ensures OutputOk(n, r, m) {
        if m < k { assert OutputOk(n, s, m); }
      }
    }
  }

  lemma OutputStays<M, R>(n: nat, s: State<M, R>, r: State<M, R>)
    requires Fits(n, s) && Fits(n, r) && r.output == s.output
    requires forall i | 0 <= i < n :: s.answered[i] <= r.answered[i]
    requires forall k | 0 <= k < |s.output| :: OutputOk(n, s, k)
    ensures forall k | 0 <= k < |r.output| :: OutputOk(n, r, k)
  {
    forall k | 0 <= k < |r.output| ensures OutputOk(n, r, k) {
      assert OutputOk(n, s, k);
    }
  }

  lemma ApplyKeeps<M, R>(n: nat, s: State<M, R>, base: seq<nat>, f: M -> R, e: Event<M>)
    requires Inv(n, s, base, f)
    ensures Inv(n, Apply(n, s, e, f), base, f)
  {
    var r := Apply(n, s, e, f);
    if e.Poll? {
      PollKeeps(n, s, base, f);
    } else {
      forall j | 0 <= j < n ensures ChannelOk(n, r, base, f, j) {
        assert ChannelOk(n, s, base, f, j);
        ChannelStays(n, s, base, f, e, j);
      }
      OutputStays(n, s, r);
    }
  }

  lemma ChannelStays<M, R>(n: nat, s: State<M, R>, base: seq<nat>, f: M -> R, e: Event<M>, j: nat)
    requires Fits(n, s) && |base| == n && j < n && !e.Poll? && ChannelOk(n, s, base, f, j)
    ensures ChannelOk(n, Apply(n, s, e, f), base, f, j)
  {
  }

  lemma {:induction false} RunKeeps<M, R>(n: nat, es: seq<Event<M>>, base: seq<nat>, f: M -> R)
    requires n >= 1 && |base| == n
    ensures Inv(n, Run(n, Initial(n, base), es, f), base, f)
  {
    if es != [] {
      RunKeeps(n, es[..|es| - 1], base, f);
      ApplyKeeps(n, Run(n, Initial(n, base), es[..|es| - 1], f), base, f, es[|es| - 1]);
    }
  }

  // ----- order -----

  /** The inputs were dealt to the channels in turn. */
  ghost predicate DealtInTurn<M, R>(n: nat, s: State<M, R>)
    requires Fits(n, s)
  {
    && (forall i | 0 <= i < n :: |s.arrived[i]| == Turns(i, |s.dealt|, n))
    && (forall k | 0 <= k < |s.dealt| :: DealtOk(n, s, k))
  }

  ghost predicate DealtOk<M, R>(n: nat, s: State<M, R>, k: nat)
    requires Fits(n, s) && k < |s.dealt|
  {
    k % n < n && k / n < |s.arrived[k % n]| && s.arrived[k % n][k / n] == s.dealt[k]
  }

  function Arrivals<M>(es: seq<Event<M>>): nat {
    if es == [] then 0 else Arrivals(es[..|es| - 1]) + (if es[|es| - 1].Arrive? then 1 else 0)
  }

  /** Every arrival goes to the channel whose turn it is. */
  predicate RoundRobin<M>(n: nat, es: seq<Event<M>>)
    requires n >= 1
  {
    forall k | 0 <= k < |es| && es[k].Arrive? :: es[k].channel == Arrivals(es[..k]) % n
  }

  lemma {:induction false} DealingKeeps<M, R>(n: nat, es: seq<Event<M>>, base: seq<nat>, f: M -> R)
    requires n >= 1 && |base| == n && RoundRobin(n, es)
    ensures |Run(n, Initial(n, base), es, f).dealt| == Arrivals(es)
    ensures DealtInTurn(n, Run(n, Initial(n, base), es, f))
  {
    if es != [] {
      var front, e := es[..|es| - 1], es[|es| - 1];
      assert RoundRobin(n, front) by {
        forall k | 0 <= k < |front| && front[k].Arrive? ensures front[k].channel == Arrivals(front[..k]) % n {
          assert front[k] == es[k] && front[..k] == es[..k];
        }
      }
      DealingKeeps(n, front, base, f);
      var s := Run(n, Initial(n, base), front, f);
      assert e.Arrive? ==> e.channel == Arrivals(es[..|es| - 1]) % n;
      DealStep(n, s, e, f);
    }
  }

  lemma DealStep<M, R>(n: nat, s: State<M, R>, e: Event<M>, f: M -> R)
    requires Fits(n, s) && DealtInTurn(n, s) && (e.Arrive? ==> e.channel == |s.dealt| % n)
    ensures DealtInTurn(n, Apply(n, s, e, f))
    ensures |Apply(n, s, e, f).dealt| == |s.dealt| + (if e.Arrive? then 1 else 0)
  {
    var r := Apply(n, s, e, f);
    if e.Arrive? {
      DealOne(n, s, e.msg);
    } else {
      assert r.dealt == s.dealt && r.arrived == s.arrived;
      forall k | 0 <= k < |r.dealt| ensures DealtOk(n, r, k) {
        assert DealtOk(n, s, k);
      }
    }
  }

  lemma DealOne<M, R>(n: nat, s: State<M, R>, m: M)
    requires Fits(n, s) && DealtInTurn(n, s)
    ensures |s.dealt| % n < n && DealtInTurn(n, ArriveStep(s, |s.dealt| % n, m))
  {
    var k := |s.dealt|;
    var i := k % n;
    var r := ArriveStep(s, i, m);
    TurnsIs(i, k, n);
    forall j | 0 <= j < n ensures |r.arrived[j]| == Turns(j, |r.dealt|, n) {}
    forall x | 0 <= x < |r.dealt| ensures DealtOk(n, r, x) {
      if x < k { assert DealtOk(n, s, x); }
    }
  }

  /** In every interleaving with round-robin dealing the outputs are the answers to the inputs, in the inputs' order. */
  lemma OrderRestored<M, R>(n: nat, es: seq<Event<M>>, base: seq<nat>, f: M -> R)
    requires n >= 1 && |base| == n && RoundRobin(n, es)
    ensures
      var s := Run(n, Initial(n, base), es, f);
      |s.output| <= |s.dealt| && forall k | 0 <= k < |s.output| :: s.output[k] == f(s.dealt[k])
  {
    var s := Run(n, Initial(n, base), es, f);
    RunKeeps(n, es, base, f);
    DealingKeeps(n, es, base, f);
    TooManyTurns(n, s, base, f);
    forall k | 0 <= k < |s.output| ensures s.output[k] == f(s.dealt[k]) {
      OutputIsAnswer(n, s, base, f, k);
    }
  }

  lemma OutputIsAnswer<M, R>(n: nat, s: State<M, R>, base: seq<nat>, f: M -> R, k: nat)
    requires Inv(n, s, base, f) && DealtInTurn(n, s) && k < |s.output| && k < |s.dealt|
    ensures s.output[k] == f(s.dealt[k])
  {
    assert OutputOk(n, s, k) && DealtOk(n, s, k);
    assert ChannelOk(n, s, base, f, k % n);
  }

  lemma {:induction false} TurnsMonotone(i: nat, j: nat, k: nat, n: nat)
    requires n >= 1 && j <= k
    ensures Turns(i, j, n) <= Turns(i, k, n)
  {
    if j < k { TurnsMonotone(i, j, k - 1, n); }
  }

  /** The turn after the last dealt input has no answer. */
  lemma TooManyTurns<M, R>(n: nat, s: State<M, R>, base: seq<nat>, f: M -> R)
    requires Inv(n, s, base, f) && DealtInTurn(n, s)
    ensures |s.output| <= |s.dealt|
  {
    var k := |s.dealt|;
    var i := k % n;
    assert ChannelOk(n, s, base, f, i);
    assert Turns(i, k + 1, n) == Turns(i, k, n) + 1;
    if |s.output| > k {
      TurnsMonotone(i, k + 1, |s.output|, n);
    }
  }

  /** No deadlock: when every worker has caught up, the polled channel is empty only if everything was handed out. */
  lemma MergerProgresses<M, R>(n: nat, es: seq<Event<M>>, base: seq<nat>, f: M -> R)
    requires n >= 1 && |base| == n && RoundRobin(n, es)
    requires var s := Run(n, Initial(n, base), es, f);
      forall i | 0 <= i < n :: s.input[i] == [] && s.held[i].None?
    ensures var s := Run(n, Initial(n, base), es, f);
      |s.output| < |s.dealt| ==> |PollStep(n, s).output| == |s.output| + 1
  {
    var s := Run(n, Initial(n, base), es, f);
    RunKeeps(n, es, base, f);
    DealingKeeps(n, es, base, f);
    if |s.output| < |s.dealt| {
      var k := |s.output|;
      assert DealtOk(n, s, k);
      assert ChannelOk(n, s, base, f, k % n);
      TurnsIs(k % n, k, n);
    }
  }

  // ----- the counters -----

  function Sum(xs: seq<nat>): nat {
    if xs == [] then 0 else Sum(xs[..|xs| - 1]) + xs[|xs| - 1]
  }

  lemma {:induction false} SumAdd(xs: seq<nat>, ys: seq<nat>, zs: seq<nat>)
    requires |xs| == |ys| == |zs| && forall i | 0 <= i < |xs| :: zs[i] == xs[i] + ys[i]
    ensures Sum(zs) == Sum(xs) + Sum(ys)
  {
    if xs != [] {
      SumAdd(xs[..|xs| - 1], ys[..|ys| - 1], zs[..|zs| - 1]);
    }
  }

  function TurnCounts(k: nat, n: nat): (r: seq<nat>)
    requires n >= 1
    ensures |r| == n
  {
    seq(n, i requires 0 <= i < n => Turns(i, k, n))
  }

  lemma {:induction false} SumBump(xs: seq<nat>, i: nat)
    requires i < |xs|
    ensures Sum(xs[i := xs[i] + 1]) == Sum(xs) + 1
  {
    var ys := xs[i := xs[i] + 1];
    if i < |xs| - 1 {
      assert ys[..|ys| - 1] == xs[..|xs| - 1][i := xs[i] + 1];
      SumBump(xs[..|xs| - 1], i);
    } else {
      assert ys[..|ys| - 1] == xs[..|xs| - 1];
    }
  }

  lemma {:induction false} SumZeros(xs: seq<nat>)
    ensures Sum(xs) == 0 <==> forall i | 0 <= i < |xs| :: xs[i] == 0
  {
    if xs != [] {
      var front := xs[..|xs| - 1];
      SumZeros(front);
      assert forall i | 0 <= i < |front| :: front[i] == xs[i];
    }
  }

  lemma {:induction false} TurnsSum(k: nat, n: nat)
    requires n >= 1
    ensures Sum(TurnCounts(k, n)) == k
  {
    if k == 0 {
      SumZeros(TurnCounts(0, n));
    } else {
      var before, i := TurnCounts(k - 1, n), (k - 1) % n;
      TurnsSum(k - 1, n);
      SumBump(before, i);
      assert TurnCounts(k, n) == before[i := before[i] + 1];
    }
  }

  /**
   The counts of any run: each channel's growth is its number of turns, so growths differ by at
   most one; the counts add up to the number of outputs exactly when they started at zero,
   which a second `InitChannels` on the same object does not arrange.
   */
  lemma CountsOfAnyRun<M, R>(n: nat, es: seq<Event<M>>, base: seq<nat>, f: M -> R)
    requires n >= 1 && |base| == n
    ensures
      var s := Run(n, Initial(n, base), es, f);
      && (forall i, j | 0 <= i < n && 0 <= j < n :: s.processed[i] + base[j] <= s.processed[j] + base[i] + 1)
      && (Sum(s.processed) == |s.output| <==> forall i | 0 <= i < n :: base[i] == 0)
  {
    var s := Run(n, Initial(n, base), es, f);
    RunKeeps(n, es, base, f);
    var turns := TurnCounts(|s.output|, n);
    forall i | 0 <= i < n ensures s.processed[i] == base[i] + turns[i] {
      assert ChannelOk(n, s, base, f, i);
    }
    forall i, j | 0 <= i < n && 0 <= j < n
      ensures s.processed[i] + base[j] <= s.processed[j] + base[i] + 1
    {
      TurnsIs(i, |s.output|, n);
      TurnsIs(j, |s.output|, n);
    }
    SumAdd(base, turns, s.processed);
    TurnsSum(|s.output|, n);
    SumZeros(base);
  }

  /**
   One worker answers one message, and `InitChannels` is called again: the old count is still
   there, so the counts add up to 1 although nothing was output since.
   */
  lemma StaleCountExample<M, R>(m: M, f: M -> R)
    ensures
      var first := Run(1, Initial<M, R>(1, [0]), [Arrive(0, m), Receive(0), Answer(0), Poll], f);
      var again := Run(1, Initial<M, R>(1, Resize(first.processed, 1)), [], f);
      first.output == [f(m)] && again.output == [] && Sum(again.processed) == 1
  {
    var es := [Arrive(0, m), Receive(0), Answer(0), Poll];
    var s0 := Initial<M, R>(1, [0]);
    assert es[..3][..2] == es[..2] && es[..2][..1] == es[..1] && es[..1][..0] == [];
    assert es[..4] == es && es[..4][..3] == es[..3];
    var s1 := ArriveStep(s0, 0, m);
    assert Run(1, s0, es[..1], f) == s1;
    var s2 := ReceiveStep(s1, 0);
    assert s2.held[0] == Some(m) && Run(1, s0, es[..2], f) == s2;
    var s3 := AnswerStep(s2, 0, f);
    assert s3.merge[0] == [f(m)] && Run(1, s0, es[..3], f) == s3;
    assert Run(1, s0, es, f) == PollStep(1, s3);
    assert PollStep(1, s3).processed == [1];
    SumBump([0], 0);
    SumZeros([0]);
    assert [0][0 := 1] == [1];
  }
}
