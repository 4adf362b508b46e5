/**
 Which messages the sub-time-frame builder makes of a stream, told from the words alone: each mark
 is a message of its own, and the data words between two marks are one message, however the stream
 was cut and wherever frames end.
 */
module StfMessages {
  import opened Outcomes
  import opened Bits
  import opened StfBuilder
  import opened StfProperties

  /** The four highest bits say data. */
  predicate SaysData(w: Word) {
    w / 0x10_0000_0000 == 0xD
  }

  /** They say heartbeat, error recovery or spill end. */
  predicate SaysMark(w: Word) {
    w / 0x10_0000_0000 == 0xF || w / 0x10_0000_0000 == 0xE || w / 0x10_0000_0000 == 0x4
  }

  /** The data words since the last mark. */
  function Trailing(ws: seq<Word>): seq<Word> {
    if ws == [] then []
    else
      var front, w := ws[..|ws| - 1], ws[|ws| - 1];
      if SaysData(w) then Trailing(front) + [w] else if SaysMark(w) then [] else Trailing(front)
  }

  /** The messages up to the last mark: blocks of all data between marks, and the marks. */
  function Messages(ws: seq<Word>): seq<Part> {
    if ws == [] then []
    else
      var front, w := ws[..|ws| - 1], ws[|ws| - 1];
      if SaysMark(w) then Messages(front) + Block(Trailing(front)) + [Message([w])] else Messages(front)
  }

  function Block(ws: seq<Word>): seq<Part> {
    if ws == [] then [] else [Message(ws)]
  }

  lemma Heads(w: Word)
    ensures IsValid(w) <==> SaysData(w) || SaysMark(w)
    ensures IsData(w) <==> SaysData(w)
    ensures IsHeartbeat(w) <==> w / 0x10_0000_0000 == 0xF || w / 0x10_0000_0000 == 0xE
    ensures IsSpillEnd(w) <==> w / 0x10_0000_0000 == 0x4
  {
  }

  /**
   In any run the bodies of the frames, then the body being built, are exactly these messages in
   order, and the leftovers are exactly the data since the last mark.
   */
  lemma {:induction false} RunGroups(c: Config, ws: seq<Word>)
    requires c.Ok()
    ensures var r := Run(c, START, ws);
      Bodies(r.output) + Body(r) == Messages(ws) && r.input == Trailing(ws)
  {
    if ws != [] {
      var front, w := ws[..|ws| - 1], ws[|ws| - 1];
      RunGroups(c, front);
      Heads(w);
      var s := Run(c, START, front);
      if SaysMark(w) {
        StartOk(c);
        RunKeeps(c, START, front, 0);
        StepParts(c, s, w, 0);
        assert Buffered(s) == Block(Trailing(front));
      }
    }
  }

  lemma StartOk(c: Config)
    requires c.Ok()
    ensures StfProperties.Inv(c, START, 0)
  {
  }

  /** Part k is a block of data, and the part behind it is a mark. */
  predicate BlockThenMark(ps: seq<Part>, k: nat) {
    k + 1 < |ps| && ps[k + 1].Message? && |ps[k + 1].words| == 1 && SaysMark(ps[k + 1].words[0])
  }

  predicate IsSingleMark(p: Part) {
    p.Message? && |p.words| == 1 && SaysMark(p.words[0])
  }

  /** Every message is a mark or a non-empty block of data with a mark behind it; a mark comes last. */
  lemma {:induction false} MessagesAlternate(ws: seq<Word>)
    ensures var ps := Messages(ws);
      && (ps != [] ==> IsSingleMark(ps[|ps| - 1]))
      && forall k | 0 <= k < |ps| && !IsSingleMark(ps[k]) ::
           ps[k].Message? && ps[k].words != [] && BlockThenMark(ps, k)
  {
    if ws != [] {
      var front := ws[..|ws| - 1];
      MessagesAlternate(front);
      var all, ps := Messages(front), Messages(ws);
      forall k | 0 <= k < |ps| && !IsSingleMark(ps[k])
        ensures ps[k].Message? && ps[k].words != [] && BlockThenMark(ps, k)
      {
        if k < |all| { assert ps[k] == all[k] && BlockThenMark(all, k); }
      }
    }
  }

  /**
   Blocks are maximal: in no frame and not in the body being built are two neighbouring messages
   both blocks, and the body being built is empty or ends in a mark.
   */
  lemma BlocksAreMaximal(c: Config, ws: seq<Word>)
    requires c.Ok()
    ensures var r := Run(c, START, ws);
      && (Body(r) != [] ==> IsSingleMark(Body(r)[|Body(r)| - 1]))
      && (forall k | 0 < k < |Body(r)| :: IsSingleMark(Body(r)[k - 1]) || IsSingleMark(Body(r)[k]))
      && forall n, k | 0 <= n < |r.output| && 1 < k < |r.output[n]| ::
           IsSingleMark(r.output[n][k - 1]) || IsSingleMark(r.output[n][k])
  {
    var r := Run(c, START, ws);
    RunGroups(c, ws);
    MessagesAlternate(ws);
    var front, all := Bodies(r.output), Messages(ws);
    forall k | 0 <= k < |Body(r)| ensures Body(r)[k] == all[|front| + k] {}
    forall k | 0 < k < |Body(r)| ensures IsSingleMark(Body(r)[k - 1]) || IsSingleMark(Body(r)[k]) {
      if !IsSingleMark(all[|front| + k - 1]) { assert BlockThenMark(all, |front| + k - 1); }
    }
    forall n, k | 0 <= n < |r.output| && 1 < k < |r.output[n]|
      ensures IsSingleMark(r.output[n][k - 1]) || IsSingleMark(r.output[n][k])
    {
      var at := FrameStands(r.output, n);
      assert front[at + k - 1] == all[at + k - 1] && front[at + k - 2] == all[at + k - 2];
      if !IsSingleMark(all[at + k - 2]) { assert BlockThenMark(all, at + k - 2); }
    }
  }

  /** The body of frame n stands in one piece among the bodies. */
  lemma {:induction false} FrameStands(fs: seq<seq<Part>>, n: nat) returns (at: nat)
    requires n < |fs| && fs[n] != []
    ensures at + |fs[n]| - 1 <= |Bodies(fs)|
    ensures forall k | 1 <= k < |fs[n]| :: Bodies(fs)[at + k - 1] == fs[n][k]
  {
    var m := |fs| - 1;
    if n < m {
      at := FrameStands(fs[..m], n);
    } else {
      at := |Bodies(fs[..m])|;
    }
  }

  /**
   Every finished frame is sent once, in order, as it is, towards its identifier modulo the number of
   destinations; the monitoring channel, if there is one, gets its header and its words that are not data.
   */
  lemma {:induction false} DeliveredInOrder(c: Config, fs: seq<seq<Part>>, ids: seq<uint64>, n: int, dqmExists: bool)
    requires n >= 1 && |ids| == |fs| && forall k | 0 <= k < |fs| :: HeadedFrame(fs[k]) && FrameOk(c, ids[k], fs[k])
    ensures AllHeaded(fs) && |DeliverAll(fs, n, dqmExists)| == |fs|
    ensures forall k | 0 <= k < |fs| :: IsDelivery(DeliverAll(fs, n, dqmExists)[k], fs[k], n, dqmExists)
  {
    if fs != [] {
      assert HeadedFrame(fs[0]) && FrameOk(c, ids[0], fs[0]);
      DeliveredOne(c, fs[0], ids[0], n, dqmExists);
      DeliveredInOrder(c, fs[1..], ids[1..], n, dqmExists);
    }
  }

  /** The frame as it is, its direction, and its monitoring copy if there is one. */
  predicate IsDelivery(one: Sent, f: seq<Part>, n: int, dqmExists: bool)
    requires n >= 1 && HeadedFrame(f)
  {
    && one.parts == f && one.direction == f[0].timeFrameId % n
    && (if dqmExists then one.dqm != [] && one.dqm[0] == f[0] && Flat(one.dqm) == NonData(Flat(f)) else one.dqm == [])
  }

  lemma DeliveredOne(c: Config, f: seq<Part>, id: uint64, n: int, dqmExists: bool)
    requires n >= 1 && HeadedFrame(f) && FrameOk(c, id, f)
    ensures IsDelivery(Deliver(f, n, dqmExists), f, n, dqmExists)
  {
    MonitorOfFrame(c, id, f);
  }
}
