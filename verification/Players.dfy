/**
 The two file players cut the body of a sub-time-frame into messages with loops that test
 different conditions. Both cut every body alike; cutting loses nothing; and in split mode 1
 it undoes the concatenation of data blocks and heartbeat pairs.
 */
module Players {

  type Word = x: int | 0 <= x < 0x1_0000_0000_0000_0000

  const HEARTBEAT := 0x1C
  const SPILL_END := 0x14

  /** Bits 63 to 58. */
  function Head(w: Word): nat { w / 0x400_0000_0000_0000 }

  predicate IsHeartbeat(w: Word): (b: bool)
    ensures b <==> w / 0x400_0000_0000_0000 == 0x1c
  {
    Head(w) == HEARTBEAT
  }

  /** Heartbeats and spill ends. */
  predicate IsDelimiter(w: Word): (b: bool)
    ensures b <==> w / 0x400_0000_0000_0000 == 0x1c || w / 0x400_0000_0000_0000 == 0x14
  {
    IsHeartbeat(w) || Head(w) == SPILL_END
  }

  /** The messages cut so far and the words since the last cut. */
  datatype Cut = Cut(parts: seq<seq<Word>>, open: seq<Word>) {
    /** Cut after w. */
    function After(w: Word): Cut { Cut(parts + [open + [w]], []) }

    /** Cut before w. */
    function Before(w: Word): Cut { Cut(parts + [open], [w]) }

    function Keep(w: Word): Cut { Cut(parts, open + [w]) }
  }

  /** The time-frame player's decision at w. */
  function TfbStep(mode: int, s: Cut, w: Word): Cut {
    var n := |s.open|;
    if !IsDelimiter(w) then s.Keep(w)
    else if mode == 0 then s.After(w)
    else if n == 0 then s.Keep(w)
    else if n > 1 || (n == 1 && !IsHeartbeat(s.open[n - 1])) then s.Before(w)
    else s.After(w)
  }

  /** The sub-time-frame player's decision at w. */
  function StfbStep(mode: int, s: Cut, w: Word): Cut {
    var n := |s.open|;
    if !IsDelimiter(w) then s.Keep(w)
    else if mode == 0 then s.After(w)
    else if n > 0 then
      if IsHeartbeat(s.open[n - 1]) then s.After(w) else s.Before(w)
    else s.Keep(w)
  }

  function TfbCut(mode: int, ws: seq<Word>): Cut {
    if ws == [] then Cut([], []) else TfbStep(mode, TfbCut(mode, ws[..|ws| - 1]), ws[|ws| - 1])
  }

  function StfbCut(mode: int, ws: seq<Word>): Cut {
    if ws == [] then Cut([], []) else StfbStep(mode, StfbCut(mode, ws[..|ws| - 1]), ws[|ws| - 1])
  }

  // ----- the loops of the source -----

  /** `TFBFilePlayer`: the loop over the words of one sub-time-frame; what is left open is never sent. */
  method TfbSplit(words: seq<Word>, fSplitMethod: int) returns (outParts: seq<seq<Word>>)
    ensures outParts == TfbCut(fSplitMethod, words).parts
  {
    outParts := [];
    var wBegin := 0;
    ghost var cut := Cut([], []);
    for ptr := 0 to |words|
      invariant wBegin <= ptr
      invariant cut == TfbCut(fSplitMethod, words[..ptr]) == Cut(outParts, words[wBegin..ptr])
    {
      assert words[..ptr + 1][..ptr] == words[..ptr];
      ghost var next := TfbStep(fSplitMethod, cut, words[ptr]);
      assert next == TfbCut(fSplitMethod, words[..ptr + 1]);
      SliceMore(words, wBegin, ptr);
      cut := next;
      if IsDelimiter(words[ptr]) {
        if fSplitMethod == 0 {
          outParts := outParts + [words[wBegin..ptr + 1]];
          wBegin := ptr + 1;
        } else if ptr - wBegin == 0 {
          // nothing to send yet
        } else if ptr - wBegin > 1 || (ptr - wBegin == 1 && !IsHeartbeat(words[ptr - 1])) {
          outParts := outParts + [words[wBegin..ptr]];
          wBegin := ptr;
        } else {
          outParts := outParts + [words[wBegin..ptr + 1]];
          wBegin := ptr + 1;
        }
      }
    }
    assert words[..|words|] == words;
  }

  /** `STFBFilePlayer`: the same job with the previous word kept in a variable. */
  method StfbSplit(words: seq<Word>, fSplitMethod: int) returns (outParts: seq<seq<Word>>)
    ensures outParts == StfbCut(fSplitMethod, words).parts
  {
    outParts := [];
    var wBegin := 0;
    ghost var cut := Cut([], []);
    var prev: Word := 0;
    for ptr := 0 to |words|
      invariant wBegin <= ptr
      invariant ptr > 0 ==> prev == words[ptr - 1]
      invariant cut == StfbCut(fSplitMethod, words[..ptr]) == Cut(outParts, words[wBegin..ptr])
    {
      var d := words[ptr];
      assert words[..ptr + 1][..ptr] == words[..ptr];
      ghost var next := StfbStep(fSplitMethod, cut, words[ptr]);
      assert next == StfbCut(fSplitMethod, words[..ptr + 1]);
      SliceMore(words, wBegin, ptr);
      cut := next;
      if fSplitMethod == 0 {
        if IsDelimiter(d) {
          outParts := outParts + [words[wBegin..ptr + 1]];
          wBegin := ptr + 1;
        }
      } else {
        if IsDelimiter(d) {
          if ptr - wBegin > 0 {
            if IsHeartbeat(prev) {
              outParts := outParts + [words[wBegin..ptr + 1]];
              wBegin := ptr + 1;
            } else {
              outParts := outParts + [words[wBegin..ptr]];
              wBegin := ptr;
            }
          }
        }
      }
      prev := d;
    }
    assert words[..|words|] == words;
  }

  lemma SliceMore(words: seq<Word>, from: nat, to: nat)
    requires from <= to < |words|
    ensures words[from..to + 1] == words[from..to] + [words[to]]
  {
  }

  // ----- the two loops cut alike -----

  /** In mode 1 a heartbeat is never left open behind other words. */
  predicate HeartbeatOnlyAlone(open: seq<Word>) {
    |open| > 1 ==> !IsHeartbeat(open[|open| - 1])
  }

  /** The differently written conditions agree on every body, in both modes. */
  lemma {:induction false} PlayersAgree(mode: int, ws: seq<Word>)
    ensures TfbCut(mode, ws) == StfbCut(mode, ws)
    ensures mode != 0 ==> HeartbeatOnlyAlone(StfbCut(mode, ws).open)
  {
    if ws != [] { PlayersAgree(mode, ws[..|ws| - 1]); }
  }

  // ----- nothing is lost -----

  function Concat(parts: seq<seq<Word>>): seq<Word> {
    if parts == [] then [] else Concat(parts[..|parts| - 1]) + parts[|parts| - 1]
  }

  lemma ConcatMore(parts: seq<seq<Word>>, p: seq<Word>)
    ensures Concat(parts + [p]) == Concat(parts) + p
  {
    assert (parts + [p])[..|parts|] == parts;
  }

  lemma {:induction false} CutKeepsAll(mode: int, ws: seq<Word>)
    ensures Concat(StfbCut(mode, ws).parts) + StfbCut(mode, ws).open == ws
  {
    if ws != [] {
      var s, w := StfbCut(mode, ws[..|ws| - 1]), ws[|ws| - 1];
      CutKeepsAll(mode, ws[..|ws| - 1]);
      ConcatMore(s.parts, s.open + [w]);
      ConcatMore(s.parts, s.open);
      assert Concat(s.parts) + (s.open + [w]) == (Concat(s.parts) + s.open) + [w];
      assert ws == ws[..|ws| - 1] + [w];
    }
  }

  // ----- mode 0: every message ends at its only delimiter -----

  predicate NoDelimiter(ws: seq<Word>) {
    forall k | 0 <= k < |ws| :: !IsDelimiter(ws[k])
  }

  predicate EndsAtDelimiter(p: seq<Word>) {
    p != [] && IsDelimiter(p[|p| - 1]) && NoDelimiter(p[..|p| - 1])
  }

  predicate Mode0Shape(s: Cut) {
    (forall k | 0 <= k < |s.parts| :: EndsAtDelimiter(s.parts[k])) && NoDelimiter(s.open)
  }

  lemma {:induction false} Mode0Cuts(ws: seq<Word>)
    ensures Mode0Shape(StfbCut(0, ws))
  {
    if ws != [] {
      var s, w := StfbCut(0, ws[..|ws| - 1]), ws[|ws| - 1];
      Mode0Cuts(ws[..|ws| - 1]);
      assert (s.open + [w])[..|s.open|] == s.open;
    }
  }

  lemma {:induction false} OpenCut(mode: int, s: Cut, before: seq<Word>, block: seq<Word>)
    requires StfbCut(mode, before) == s && NoDelimiter(block)
    ensures StfbCut(mode, before + block) == Cut(s.parts, s.open + block)
  {
    if block == [] {
      assert before + block == before && s.open + block == s.open;
    } else {
      var front, w := block[..|block| - 1], block[|block| - 1];
      OpenCut(mode, s, before, front);
      assert (before + block)[..|before + block| - 1] == before + front;
      assert (s.open + front) + [w] == s.open + block;
    }
  }

  /** Reading a message that ends at its only delimiter, with nothing open, cuts off that message. */
  lemma ClosedCut(before: seq<Word>, front: seq<seq<Word>>, p: seq<Word>)
    requires StfbCut(0, before) == Cut(front, []) && EndsAtDelimiter(p)
    ensures StfbCut(0, before + p) == Cut(front + [p], [])
  {
    var block, w := p[..|p| - 1], p[|p| - 1];
    OpenCut(0, Cut(front, []), before, block);
    CutMore(0, before + block, w);
    SplitLast(before, p);
    assert [] + block == block;
  }

  lemma SplitLast(before: seq<Word>, p: seq<Word>)
    requires p != []
    ensures (before + p[..|p| - 1]) + [p[|p| - 1]] == before + p && p[..|p| - 1] + [p[|p| - 1]] == p
  {
  }

  lemma CutMore(mode: int, ws: seq<Word>, w: Word)
    ensures StfbCut(mode, ws + [w]) == StfbStep(mode, StfbCut(mode, ws), w)
  {
    assert (ws + [w])[..|ws|] == ws;
  }

  lemma {:induction false} ClosedParts(parts: seq<seq<Word>>)
    requires forall k | 0 <= k < |parts| :: EndsAtDelimiter(parts[k])
    ensures StfbCut(0, Concat(parts)) == Cut(parts, [])
  {
    if parts != [] {
      var front, p := parts[..|parts| - 1], parts[|parts| - 1];
      ClosedParts(front);
      ClosedCut(Concat(front), front, p);
      assert front + [p] == parts;
    }
  }

  /** No other cutting of the body has that shape. */
  lemma Mode0Unique(s: Cut)
    requires Mode0Shape(s)
    ensures StfbCut(0, Concat(s.parts) + s.open) == s
  {
    ClosedParts(s.parts);
    OpenCut(0, Cut(s.parts, []), Concat(s.parts), s.open);
    assert [] + s.open == s.open;
  }

  // ----- mode 1 -----

  /** A delimiter stands only at the front of a message, or second in a pair behind a heartbeat. */
  predicate Mode1Part(p: seq<Word>) {
    && p != []
    && forall k | 1 <= k < |p| && IsDelimiter(p[k]) :: k == 1 && |p| == 2 && IsHeartbeat(p[0])
  }

  predicate FrontOnly(open: seq<Word>) {
    forall k | 1 <= k < |open| :: !IsDelimiter(open[k])
  }

  lemma {:induction false} Mode1Cuts(mode: int, ws: seq<Word>)
    requires mode != 0
    ensures forall k | 0 <= k < |StfbCut(mode, ws).parts| :: Mode1Part(StfbCut(mode, ws).parts[k])
    ensures FrontOnly(StfbCut(mode, ws).open) && HeartbeatOnlyAlone(StfbCut(mode, ws).open)
  {
    if ws != [] {
      Mode1Cuts(mode, ws[..|ws| - 1]);
      var s := StfbCut(mode, ws[..|ws| - 1]);
      assert |s.open| > 0 && IsHeartbeat(s.open[|s.open| - 1]) ==> |s.open| == 1;
    }
  }

  predicate IsBlock(p: seq<Word>) { p != [] && NoDelimiter(p) }
  predicate IsPair(p: seq<Word>) { |p| == 2 && IsHeartbeat(p[0]) && IsHeartbeat(p[1]) }

  /** The data of one heartbeat period, perhaps none, and the pair of words that ends it. */
  datatype Period = Period(block: seq<Word>, pair: seq<Word>) {
    predicate Ok() { NoDelimiter(block) && IsPair(pair) }

    /** Its messages: the data, when there are any, and the pair. */
    function Messages(): seq<seq<Word>> { if block == [] then [pair] else [block] + [pair] }
  }

  function MessagesOf(ps: seq<Period>): seq<seq<Word>> {
    if ps == [] then [] else MessagesOf(ps[..|ps| - 1]) + ps[|ps| - 1].Messages()
  }

  /** On bodies made of periods, mode 1 undoes the concatenation of their messages. */
  lemma {:induction false} Mode1Inverse(mode: int, ps: seq<Period>)
    requires mode != 0 && forall k | 0 <= k < |ps| :: ps[k].Ok()
    ensures StfbCut(mode, Concat(MessagesOf(ps))) == Cut(MessagesOf(ps), [])
  {
    if ps != [] {
      Mode1Inverse(mode, ps[..|ps| - 1]);
      OnePeriod(mode, MessagesOf(ps[..|ps| - 1]), ps[|ps| - 1]);
    }
  }

  lemma OnePeriod(mode: int, front: seq<seq<Word>>, p: Period)
    requires mode != 0 && p.Ok()
    requires StfbCut(mode, Concat(front)) == Cut(front, [])
    ensures StfbCut(mode, Concat(front + p.Messages())) == Cut(front + p.Messages(), [])
  {
    if p.block == [] {
      ConcatMore(front, p.pair);
      PairAlone(mode, Concat(front), Cut(front, []), p.pair);
    } else {
      BlockAndPair(mode, front, p.block, p.pair);
      assert front + [p.block] + [p.pair] == front + ([p.block] + [p.pair]);
    }
  }

  lemma BlockAndPair(mode: int, front: seq<seq<Word>>, block: seq<Word>, pair: seq<Word>)
    requires mode != 0 && IsBlock(block) && IsPair(pair)
    requires StfbCut(mode, Concat(front)) == Cut(front, [])
    ensures StfbCut(mode, Concat(front + [block] + [pair])) == Cut(front + [block] + [pair], [])
  {
    OpenCut(mode, Cut(front, []), Concat(front), block);
    assert [] + block == block;
    ConcatMore(front, block);
    ConcatMore(front + [block], pair);
    PairAfterBlock(mode, Concat(front) + block, Cut(front, block), pair);
  }

  /** Two more words. */
  lemma TwoSteps(mode: int, before: seq<Word>, p: seq<Word>)
    requires |p| == 2
    ensures StfbCut(mode, before + p) == StfbStep(mode, StfbStep(mode, StfbCut(mode, before), p[0]), p[1])
  {
    var ws := before + p;
    assert ws[..|ws| - 1] == before + [p[0]];
    assert (before + [p[0]])[..|before|] == before;
  }

  lemma PairAlone(mode: int, before: seq<Word>, s: Cut, pair: seq<Word>)
    requires mode != 0 && StfbCut(mode, before) == s && s.open == [] && IsPair(pair)
    ensures StfbCut(mode, before + pair) == Cut(s.parts + [pair], [])
  {
    TwoSteps(mode, before, pair);
    assert [] + [pair[0]] == [pair[0]] && [pair[0]] + [pair[1]] == pair;
  }

  lemma PairAfterBlock(mode: int, before: seq<Word>, s: Cut, pair: seq<Word>)
    requires mode != 0 && StfbCut(mode, before) == s && IsBlock(s.open) && IsPair(pair)
    ensures StfbCut(mode, before + pair) == Cut(s.parts + [s.open] + [pair], [])
  {
    TwoSteps(mode, before, pair);
    assert !IsDelimiter(s.open[|s.open| - 1]);
    assert [pair[0]] + [pair[1]] == pair;
  }

  // ----- mode 1 on any body -----

  /** A heartbeat and the delimiter behind it. */
  predicate ClosedPair(p: seq<Word>) {
    |p| == 2 && IsHeartbeat(p[0]) && IsDelimiter(p[1])
  }

  /** Words with a delimiter at most in front, no heartbeat last, cut off by the delimiter that begins `next`. */
  predicate Interrupted(p: seq<Word>, next: seq<Word>) {
    p != [] && FrontOnly(p) && !IsHeartbeat(p[|p| - 1]) && next != [] && IsDelimiter(next[0])
  }

  predicate PartOk(s: Cut, k: nat)
    requires k < |s.parts|
  {
    ClosedPair(s.parts[k]) || Interrupted(s.parts[k], if k + 1 < |s.parts| then s.parts[k + 1] else s.open)
  }

  predicate Mode1Shape(s: Cut) {
    FrontOnly(s.open) && forall k | 0 <= k < |s.parts| :: PartOk(s, k)
  }

  /** What replaces the open words keeps the parts as long as it begins alike. */
  lemma SamePartsOk(s: Cut, r: Cut)
    requires s.parts == r.parts && (s.open != [] ==> r.open != [] && r.open[0] == s.open[0])
    requires forall k | 0 <= k < |s.parts| :: PartOk(s, k)
    ensures forall k | 0 <= k < |r.parts| :: PartOk(r, k)
  {
    forall k | 0 <= k < |r.parts| ensures PartOk(r, k) {
      assert PartOk(s, k);
    }
  }

  lemma ShapeMore(s: Cut, p: seq<Word>, open: seq<Word>)
    requires forall k | 0 <= k < |s.parts| :: PartOk(s, k)
    requires s.open != [] ==> p != [] && p[0] == s.open[0]
    requires ClosedPair(p) || Interrupted(p, open)
    ensures forall k | 0 <= k < |s.parts| + 1 :: PartOk(Cut(s.parts + [p], open), k)
  {
    forall k | 0 <= k < |s.parts| + 1 ensures PartOk(Cut(s.parts + [p], open), k) {
      if k < |s.parts| { assert PartOk(s, k); }
    }
  }

  /** The mode-1 cut of every body has this shape. */
  lemma {:induction false} Mode1Shaped(mode: int, ws: seq<Word>)
    requires mode != 0
    ensures Mode1Shape(StfbCut(mode, ws))
  {
    if ws != [] {
      var front, w := ws[..|ws| - 1], ws[|ws| - 1];
      var s, r := StfbCut(mode, front), StfbCut(mode, ws);
      Mode1Shaped(mode, front);
      if r == s.Keep(w) {
        SamePartsOk(s, r);
      } else if r == s.After(w) {
        assert ClosedPair(s.open + [w]);
        ShapeMore(s, s.open + [w], []);
      } else {
        ShapeMore(s, s.open, [w]);
      }
    }
  }

  /** The cut before the last word was read. */
  lemma OneWordLess(mode: int, s: Cut) returns (before: Cut, w: Word)
    requires mode != 0 && Mode1Shape(s) && (s.parts != [] || s.open != [])
    ensures Mode1Shape(before) && StfbStep(mode, before, w) == s
    ensures Concat(before.parts) + before.open + [w] == Concat(s.parts) + s.open
  {
    var n, m := |s.parts|, |s.open|;
    if m > 1 || (m == 1 && (n == 0 || ClosedPair(s.parts[n - 1]))) {
      before, w := Cut(s.parts, s.open[..m - 1]), s.open[m - 1];
      KeptWord(s);
      assert before.open + [w] == s.open;
      Reassoc(Concat(s.parts), before.open, [w]);
    } else {
      assert PartOk(s, n - 1);
      before, w := LastPartLess(mode, s);
    }
  }

  lemma KeptWord(s: Cut)
    requires Mode1Shape(s) && s.open != []
    requires |s.open| > 1 || s.parts == [] || ClosedPair(s.parts[|s.parts| - 1])
    ensures Mode1Shape(Cut(s.parts, s.open[..|s.open| - 1]))
  {
    var before := Cut(s.parts, s.open[..|s.open| - 1]);
    forall k | 0 <= k < |s.parts| ensures PartOk(before, k) {
      assert PartOk(s, k);
    }
  }

  lemma LastPartLess(mode: int, s: Cut) returns (before: Cut, w: Word)
    requires mode != 0 && Mode1Shape(s) && s.parts != [] && |s.open| <= 1
    requires if s.open == [] then ClosedPair(s.parts[|s.parts| - 1]) else Interrupted(s.parts[|s.parts| - 1], s.open)
    ensures Mode1Shape(before) && StfbStep(mode, before, w) == s
    ensures Concat(before.parts) + before.open + [w] == Concat(s.parts) + s.open
  {
    var n := |s.parts| - 1;
    var front, p := s.parts[..n], s.parts[n];
    assert s.parts == front + [p];
    ConcatMore(front, p);
    if s.open == [] {
      before, w := Cut(front, [p[0]]), p[1];
      assert [p[0]] + [w] == p;
      Reassoc(Concat(front), [p[0]], [w]);
    } else {
      before, w := Cut(front, p), s.open[0];
      assert [w] == s.open;
    }
    forall k | 0 <= k < n ensures PartOk(before, k) {
      assert PartOk(s, k);
    }
  }

  lemma Reassoc(a: seq<Word>, b: seq<Word>, c: seq<Word>)
    ensures a + b + c == a + (b + c)
  {
  }

  /** No other cutting of a body has it. */
  lemma {:induction false} Mode1Unique(mode: int, s: Cut)
    requires mode != 0 && Mode1Shape(s)
    ensures StfbCut(mode, Concat(s.parts) + s.open) == s
    decreases |Concat(s.parts) + s.open|
  {
    if s.parts == [] && s.open == [] {
      assert Concat([]) + [] == [];
    } else {
      var before, w := OneWordLess(mode, s);
      Mode1Unique(mode, before);
      CutMore(mode, Concat(before.parts) + before.open, w);
    }
  }
}
