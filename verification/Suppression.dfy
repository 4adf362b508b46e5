/**
 The coincidence filter decides what is sent: the messages of every column without hits are
 unflagged, and with a message of data the one behind it, which is meant to be its heartbeat but
 may be the header of the next sub-time-frame. Rewriting the lengths then adds up only if no such
 header still has something to announce.
 */
module Suppression {
  import opened Bits
  import opened LengthRewrite

  datatype Block = Block(isHB: bool, msgIndex: nat)

  /** The rows finished so far and the row being filled. */
  datatype Walk = Walk(rows: seq<seq<Block>>, blocks: seq<Block>)

  function Read(kinds: seq<Kind>, isHB: seq<bool>, s: Walk, i: nat): Walk
    requires |isHB| == |kinds| && i < |kinds|
  {
    match kinds[i]
    case TfHeader => s
    case StfHeader => Walk(if s.blocks != [] then s.rows + [s.blocks] else s.rows, [])
    case Body => s.(blocks := s.blocks + [Block(isHB[i], i)])
  }

  function WalkTo(kinds: seq<Kind>, isHB: seq<bool>, n: nat): Walk
    requires |isHB| == |kinds| && n <= |kinds|
  {
    if n == 0 then Walk([], []) else Read(kinds, isHB, WalkTo(kinds, isHB, n - 1), n - 1)
  }

  function RowsOf(kinds: seq<Kind>, isHB: seq<bool>): seq<seq<Block>>
    requires |isHB| == |kinds|
  {
    var s := WalkTo(kinds, isHB, |kinds|);
    s.rows + [s.blocks]
  }

  method MakeRows(kinds: seq<Kind>, isHB: seq<bool>) returns (blockMap: seq<seq<Block>>)
    requires |isHB| == |kinds|
    ensures blockMap == RowsOf(kinds, isHB)
  {
    var blocks: seq<Block> := [];
    blockMap := [];
    for i := 0 to |kinds|
      invariant Walk(blockMap, blocks) == WalkTo(kinds, isHB, i)
    {
      match kinds[i]
      case TfHeader =>
      case StfHeader =>
        if |blocks| > 0 {
          blockMap := blockMap + [blocks];
        }
        blocks := [];
      case Body =>
        blocks := blocks + [Block(isHB[i], i)];
    }
    blockMap := blockMap + [blocks];
  }

  // ----- the loop that clears flags -----

  /** Every access of the loop is inside its vector: `hits` has one entry for each block of the last row. */
  predicate InRange(blockMap: seq<seq<Block>>, hits: seq<nat>, n: nat) {
    && (forall r | 0 <= r < |blockMap| :: |hits| <= |blockMap[r]|)
    && (forall r, i | 0 <= r < |blockMap| && 0 <= i < |hits| :: BlockInRange(blockMap[r][i], hits[i], n))
  }

  predicate BlockInRange(b: Block, nhits: nat, n: nat) {
    b.msgIndex < n && (nhits == 0 && !b.isHB && b.msgIndex > 0 ==> b.msgIndex + 1 < n)
  }

  predicate BlockClears(b: Block, k: nat) {
    b.msgIndex > 0 && (k == b.msgIndex || (!b.isHB && k == b.msgIndex + 1))
  }

  /** Some block of column i in the rows before n clears flag k. */
  ghost predicate ColumnClears(blockMap: seq<seq<Block>>, hits: seq<nat>, i: nat, n: nat, k: nat)
    requires i < |hits| && n <= |blockMap| && forall r | 0 <= r < |blockMap| :: |hits| <= |blockMap[r]|
  {
    hits[i] == 0 && exists r | 0 <= r < n :: BlockClears(blockMap[r][i], k)
  }

  ghost predicate Clears(blockMap: seq<seq<Block>>, hits: seq<nat>, m: nat, k: nat)
    requires m <= |hits| && forall r | 0 <= r < |blockMap| :: |hits| <= |blockMap[r]|
  {
    exists i | 0 <= i < m :: ColumnClears(blockMap, hits, i, |blockMap|, k)
  }

  /** `hits[i]` is the number of hits found in column i. */
  method Suppress(blockMap: seq<seq<Block>>, hits: seq<nat>, flagSending: array<bool>)
    requires InRange(blockMap, hits, flagSending.Length)
    modifies flagSending
    ensures forall k | 0 <= k < flagSending.Length ::
      flagSending[k] == (old(flagSending[k]) && !Clears(blockMap, hits, |hits|, k))
  {
    for i := 0 to |hits|
      invariant forall k | 0 <= k < flagSending.Length ::
        flagSending[k] == (old(flagSending[k]) && !Clears(blockMap, hits, i, k))
    {
      ClearColumn(blockMap, hits, i, flagSending);
      forall k | 0 <= k < flagSending.Length
        ensures Clears(blockMap, hits, i + 1, k) ==
          (Clears(blockMap, hits, i, k) || ColumnClears(blockMap, hits, i, |blockMap|, k))
      {
      }
    }
  }

  /** The inner loop, over the rows. */
  method ClearColumn(blockMap: seq<seq<Block>>, hits: seq<nat>, i: nat, flagSending: array<bool>)
    requires InRange(blockMap, hits, flagSending.Length) && i < |hits|
    modifies flagSending
    ensures forall k | 0 <= k < flagSending.Length ::
      flagSending[k] == (old(flagSending[k]) && !ColumnClears(blockMap, hits, i, |blockMap|, k))
  {
    for iifem := 0 to |blockMap|
      invariant forall k | 0 <= k < flagSending.Length ::
        flagSending[k] == (old(flagSending[k]) && !ColumnClears(blockMap, hits, i, iifem, k))
    {
      var b := blockMap[iifem][i];
      assert BlockInRange(b, hits[i], flagSending.Length);
      if hits[i] == 0 {
        if b.msgIndex > 0 && !b.isHB {
          flagSending[b.msgIndex] := false;
          flagSending[b.msgIndex + 1] := false;
        }
        if b.msgIndex > 0 && b.isHB {
          flagSending[b.msgIndex] := false;
        }
      }
      forall k | 0 <= k < flagSending.Length
        ensures ColumnClears(blockMap, hits, i, iifem + 1, k) ==
          (ColumnClears(blockMap, hits, i, iifem, k) || (hits[i] == 0 && BlockClears(b, k)))
      {
      }
    }
  }

  // ----- which messages that are -----

  /** Position of message k among the messages of its sub-time-frame. */
  function ColumnOf(kinds: seq<Kind>, k: nat): nat
    requires k <= |kinds|
  {
    if k == 0 || kinds[k - 1] != Body then 0 else ColumnOf(kinds, k - 1) + 1
  }

  /** Message k is in a column without hits. */
  predicate InQuiet(kinds: seq<Kind>, hits: seq<nat>, k: nat)
    requires k < |kinds|
  {
    kinds[k] == Body && ColumnOf(kinds, k) < |hits| && hits[ColumnOf(kinds, k)] == 0
  }

  /** In a column without hits, or right behind a message of data in such a column. */
  predicate Suppressed(kinds: seq<Kind>, isHB: seq<bool>, hits: seq<nat>, k: nat)
    requires k < |kinds| == |isHB|
  {
    InQuiet(kinds, hits, k) || (k > 0 && InQuiet(kinds, hits, k - 1) && !isHB[k - 1])
  }

  predicate OneFrame(kinds: seq<Kind>) {
    |kinds| >= 1 && kinds[0] == TfHeader && forall k | 1 <= k < |kinds| :: kinds[k] != TfHeader
  }

  /** The block at column c of a row is a message at that place of its sub-time-frame. */
  predicate Placed(kinds: seq<Kind>, isHB: seq<bool>, b: Block, c: nat, n: nat)
    requires n <= |kinds| == |isHB|
  {
    b.msgIndex < n && kinds[b.msgIndex] == Body && ColumnOf(kinds, b.msgIndex) == c && b.isHB == isHB[b.msgIndex]
  }

  predicate AllPlaced(kinds: seq<Kind>, isHB: seq<bool>, row: seq<Block>, n: nat)
    requires n <= |kinds| == |isHB|
  {
    forall c | 0 <= c < |row| :: Placed(kinds, isHB, row[c], c, n)
  }

  predicate RowHas(row: seq<Block>, c: nat, k: nat) {
    c < |row| && row[c].msgIndex == k
  }

  /** Message k stands at its column in some row. */
  ghost predicate Listed(kinds: seq<Kind>, s: Walk, k: nat)
    requires k < |kinds|
  {
    RowHas(s.blocks, ColumnOf(kinds, k), k) || exists r | 0 <= r < |s.rows| :: RowHas(s.rows[r], ColumnOf(kinds, k), k)
  }

  lemma {:induction false} RowsPlaced(kinds: seq<Kind>, isHB: seq<bool>, n: nat)
    requires OneFrame(kinds) && n <= |kinds| == |isHB|
    ensures var s := WalkTo(kinds, isHB, n);
      && |s.blocks| == ColumnOf(kinds, n) && AllPlaced(kinds, isHB, s.blocks, n)
      && forall r | 0 <= r < |s.rows| :: AllPlaced(kinds, isHB, s.rows[r], n)
  {
    if n > 0 { RowsPlaced(kinds, isHB, n - 1); }
  }

  lemma {:induction false} AllListed(kinds: seq<Kind>, isHB: seq<bool>, n: nat, k: nat)
    requires OneFrame(kinds) && k < n <= |kinds| == |isHB| && kinds[k] == Body
    ensures Listed(kinds, WalkTo(kinds, isHB, n), k)
  {
    var s, t := WalkTo(kinds, isHB, n - 1), WalkTo(kinds, isHB, n);
    if k == n - 1 {
      RowsPlaced(kinds, isHB, n - 1);
      assert RowHas(t.blocks, ColumnOf(kinds, k), k);
    } else {
      AllListed(kinds, isHB, n - 1, k);
      var c := ColumnOf(kinds, k);
      if RowHas(s.blocks, c, k) {
        if kinds[n - 1] == StfHeader { assert RowHas(t.rows[|s.rows|], c, k); }
      } else {
        var r :| 0 <= r < |s.rows| && RowHas(s.rows[r], c, k);
        assert RowHas(t.rows[r], c, k);
      }
    }
  }

  /** The loop clears exactly the suppressed messages, headers among them. */
  lemma ClearsIsSuppressed(kinds: seq<Kind>, isHB: seq<bool>, hits: seq<nat>, k: nat)
    requires OneFrame(kinds) && k < |kinds| == |isHB|
    requires InRange(RowsOf(kinds, isHB), hits, |kinds|)
    ensures Clears(RowsOf(kinds, isHB), hits, |hits|, k) <==> Suppressed(kinds, isHB, hits, k)
  {
    var rows := RowsOf(kinds, isHB);
    if Clears(rows, hits, |hits|, k) {
      var i :| 0 <= i < |hits| && ColumnClears(rows, hits, i, |rows|, k);
      var r :| 0 <= r < |rows| && BlockClears(rows[r][i], k);
      BlockPlaced(kinds, isHB, r, i);
    }
    if InQuiet(kinds, hits, k) { QuietClears(kinds, isHB, hits, k, k); }
    if k > 0 && InQuiet(kinds, hits, k - 1) && !isHB[k - 1] { QuietClears(kinds, isHB, hits, k - 1, k); }
  }

  lemma BlockPlaced(kinds: seq<Kind>, isHB: seq<bool>, r: nat, c: nat)
    requires OneFrame(kinds) && |kinds| == |isHB|
    requires r < |RowsOf(kinds, isHB)| && c < |RowsOf(kinds, isHB)[r]|
    ensures Placed(kinds, isHB, RowsOf(kinds, isHB)[r][c], c, |kinds|)
  {
    RowsPlaced(kinds, isHB, |kinds|);
    assert AllPlaced(kinds, isHB, RowsOf(kinds, isHB)[r], |kinds|);
  }

  lemma QuietClears(kinds: seq<Kind>, isHB: seq<bool>, hits: seq<nat>, j: nat, k: nat)
    requires OneFrame(kinds) && j < |kinds| == |isHB|
    requires InRange(RowsOf(kinds, isHB), hits, |kinds|)
    requires InQuiet(kinds, hits, j) && (k == j || (k == j + 1 && !isHB[j]))
    ensures Clears(RowsOf(kinds, isHB), hits, |hits|, k)
  {
    var rows, s, c := RowsOf(kinds, isHB), WalkTo(kinds, isHB, |kinds|), ColumnOf(kinds, j);
    AllListed(kinds, isHB, |kinds|, j);
    var r: nat;
    if RowHas(s.blocks, c, j) {
      r := |s.rows|;
    } else {
      r :| 0 <= r < |s.rows| && RowHas(s.rows[r], c, j);
    }
    assert RowHas(rows[r], c, j);
    BlockPlaced(kinds, isHB, r, c);
    assert BlockClears(rows[r][c], k);
    assert ColumnClears(rows, hits, c, |rows|, k);
  }

  // ----- suppression and rewriting together -----

  /** Header h is suppressed although a message of its body is not. */
  ghost predicate Orphaned(kinds: seq<Kind>, isHB: seq<bool>, hits: seq<nat>, h: nat)
    requires h < |kinds| == |isHB|
  {
    && kinds[h] == StfHeader && Suppressed(kinds, isHB, hits, h)
    && exists j | h < j < |kinds| :: InBody(kinds, h, j) && !Suppressed(kinds, isHB, hits, j)
  }

  /**
   From the numbers of hits to the lengths: messages stay exactly if not suppressed; the length of
   every kept sub-time-frame is right; and the time frame's length is its header plus the lengths of
   the kept sub-time-frames exactly when no header is orphaned.
   */
  method SuppressAndRewrite(kinds: seq<Kind>, sizes: seq<nat>, isHB: seq<bool>, hits: seq<nat>, lengths: array<nat>)
    returns (flagSending: array<bool>)
    requires WellFormed(kinds, sizes) && |isHB| == |kinds| == lengths.Length
    requires BytesFrom(sizes, 0) < TWO32 && InRange(RowsOf(kinds, isHB), hits, |kinds|)
    modifies lengths
    ensures fresh(flagSending) && flagSending.Length == |kinds|
    ensures forall k | 0 <= k < |kinds| && kinds[k] != StfHeader ::
      flagSending[k] == !Suppressed(kinds, isHB, hits, k)
    ensures forall h | 0 <= h < |kinds| && kinds[h] == StfHeader ::
      Announced(kinds, sizes, isHB, hits, flagSending[..], lengths[..], h)
    ensures lengths[0] == TF_HEADER_BYTES + LengthsFrom(kinds, flagSending[..], lengths[..], 1)
       <==> forall h | 0 <= h < |kinds| :: !Orphaned(kinds, isHB, hits, h)
  {
    flagSending := new bool[|kinds|](_ => true);
    var blockMap := MakeRows(kinds, isHB);
    Suppress(blockMap, hits, flagSending);
    ghost var was, had := flagSending[..], lengths[..];
    assert Flagged(kinds, isHB, hits, was) by {
      forall k | 0 <= k < |kinds| ensures was[k] == !Suppressed(kinds, isHB, hits, k) {
        ClearsIsSuppressed(kinds, isHB, hits, k);
      }
    }
    Rewrite(kinds, sizes, flagSending, lengths, 0);
    Outcome(kinds, sizes, isHB, hits, was, had, flagSending[..], lengths[..]);
  }

  /** Header h stays if it is not suppressed and has something to announce, and then its length is right. */
  ghost predicate Announced(kinds: seq<Kind>, sizes: seq<nat>, isHB: seq<bool>, hits: seq<nat>,
                            flags: seq<bool>, lengths: seq<nat>, h: nat)
    requires |kinds| == |sizes| == |isHB| == |flags| == |lengths| && h < |kinds|
  {
    && flags[h] == (!Suppressed(kinds, isHB, hits, h) && KeepsSome(kinds, flags, h))
    && (flags[h] ==> lengths[h] == STF_HEADER_BYTES + KeptFrom(kinds, sizes, flags, h + 1))
  }

  /** The flags after the suppression. */
  predicate Flagged(kinds: seq<Kind>, isHB: seq<bool>, hits: seq<nat>, was: seq<bool>)
    requires |isHB| == |kinds| == |was|
  {
    forall k | 0 <= k < |kinds| :: was[k] == !Suppressed(kinds, isHB, hits, k)
  }

  lemma Outcome(kinds: seq<Kind>, sizes: seq<nat>, isHB: seq<bool>, hits: seq<nat>, was: seq<bool>, had: seq<nat>,
                flags: seq<bool>, lengths: seq<nat>)
    requires WellFormed(kinds, sizes) && |was| == |had| == |flags| == |lengths| == |kinds| == |isHB|
    requires BytesFrom(sizes, 0) < TWO32
    requires Flagged(kinds, isHB, hits, was) && AllSettled(kinds, sizes, was, had, flags, lengths)
    ensures forall k | 0 <= k < |kinds| && kinds[k] != StfHeader :: flags[k] == !Suppressed(kinds, isHB, hits, k)
    ensures forall h | 0 <= h < |kinds| && kinds[h] == StfHeader ::
      Announced(kinds, sizes, isHB, hits, flags, lengths, h)
    ensures Wrap32(AllKeptFrom(sizes, flags, 0)) == TF_HEADER_BYTES + LengthsFrom(kinds, flags, lengths, 1)
       <==> forall h | 0 <= h < |kinds| :: !Orphaned(kinds, isHB, hits, h)
  {
    forall h | 0 <= h < |kinds| && kinds[h] == StfHeader
      ensures Announced(kinds, sizes, isHB, hits, flags, lengths, h)
    {
      HeaderLengths(kinds, sizes, was, had, flags, lengths, h);
    }
    assert was[0];
    FrameLength(kinds, sizes, was, had, flags, lengths);
    forall h | 0 <= h < |kinds| && kinds[h] == StfHeader
      ensures HasHeader(kinds, was, h) == !Orphaned(kinds, isHB, hits, h)
    {
      OrphanedIs(kinds, isHB, hits, was, h);
    }
  }

  lemma OrphanedIs(kinds: seq<Kind>, isHB: seq<bool>, hits: seq<nat>, was: seq<bool>, h: nat)
    requires |was| == |kinds| == |isHB| && h < |kinds| && kinds[h] == StfHeader
    requires Flagged(kinds, isHB, hits, was)
    ensures HasHeader(kinds, was, h) == !Orphaned(kinds, isHB, hits, h)
  {
    if KeepsSome(kinds, was, h) {
      var j :| h < j < |kinds| && was[j] && InBody(kinds, h, j);
      assert !Suppressed(kinds, isHB, hits, j);
    }
    if Orphaned(kinds, isHB, hits, h) {
      var j :| h < j < |kinds| && InBody(kinds, h, j) && !Suppressed(kinds, isHB, hits, j);
      assert was[j];
    }
  }

  /** When every sub-time-frame ends with a heartbeat, no header is orphaned. */
  lemma HeartbeatEndsKeepHeaders(kinds: seq<Kind>, isHB: seq<bool>, hits: seq<nat>)
    requires |isHB| == |kinds|
    requires forall h | 0 < h < |kinds| && kinds[h] == StfHeader && kinds[h - 1] == Body :: isHB[h - 1]
    ensures forall h | 0 <= h < |kinds| :: !Orphaned(kinds, isHB, hits, h)
  {
  }

  const KINDS := [TfHeader, StfHeader, Body, Body, StfHeader, Body, Body]
  const SIZES: seq<nat> := [TF_HEADER_BYTES, STF_HEADER_BYTES, 8, 8, STF_HEADER_BYTES, 8, 8]
  const HEARTBEATS := [false, false, false, false, false, false, true]
  const FLAGS := [true, true, true, false, false, true, false]

  /**
   Two sub-time-frames with hits in column 0 only, the first ending with data: the second one's
   data is sent without its header, and the lengths do not add up.
   */
  lemma OrphanExample()
    ensures InRange(RowsOf(KINDS, HEARTBEATS), [1, 0], 7) && Flagged(KINDS, HEARTBEATS, [1, 0], FLAGS)
    ensures Orphaned(KINDS, HEARTBEATS, [1, 0], 4)
    ensures forall had, flags, lengths |
      |had| == |flags| == |lengths| == 7 && AllSettled(KINDS, SIZES, FLAGS, had, flags, lengths) ::
      && !flags[4] && flags[5]
      && Wrap32(AllKeptFrom(SIZES, flags, 0)) != TF_HEADER_BYTES + LengthsFrom(KINDS, flags, lengths, 1)
  {
    ExampleRows();
    assert InRange([[Block(false, 2), Block(false, 3)], [Block(false, 5), Block(true, 6)]], [1, 0], 7);
    ExampleFlags();
    ExampleSizes();
    forall had, flags, lengths |
      |had| == |flags| == |lengths| == 7 && AllSettled(KINDS, SIZES, FLAGS, had, flags, lengths)
      ensures !flags[4] && flags[5]
      ensures Wrap32(AllKeptFrom(SIZES, flags, 0)) != TF_HEADER_BYTES + LengthsFrom(KINDS, flags, lengths, 1)
    {
      Outcome(KINDS, SIZES, HEARTBEATS, [1, 0], FLAGS, had, flags, lengths);
      assert flags[5] == !Suppressed(KINDS, HEARTBEATS, [1, 0], 5);
      assert Announced(KINDS, SIZES, HEARTBEATS, [1, 0], flags, lengths, 4);
    }
  }

  lemma ExampleRows()
    ensures RowsOf(KINDS, HEARTBEATS) == [[Block(false, 2), Block(false, 3)], [Block(false, 5), Block(true, 6)]]
  {
    assert WalkTo(KINDS, HEARTBEATS, 1) == Walk([], []);
    assert WalkTo(KINDS, HEARTBEATS, 2) == Walk([], []);
    assert WalkTo(KINDS, HEARTBEATS, 4) == Walk([], [Block(false, 2), Block(false, 3)]);
    var first := [Block(false, 2), Block(false, 3)];
    assert WalkTo(KINDS, HEARTBEATS, 5) == Walk([first], []);
    assert WalkTo(KINDS, HEARTBEATS, 7) == Walk([first], [Block(false, 5), Block(true, 6)]);
    assert RowsOf(KINDS, HEARTBEATS) == [first, [Block(false, 5), Block(true, 6)]];
  }

  lemma ExampleSizes()
    ensures WellFormed(KINDS, SIZES) && BytesFrom(SIZES, 0) < TWO32
  {
    assert BytesFrom(SIZES, 6) == 8;
    assert BytesFrom(SIZES, 4) == 64;
    assert BytesFrom(SIZES, 2) == 80;
  }

  lemma ExampleFlags()
    ensures Flagged(KINDS, HEARTBEATS, [1, 0], FLAGS)
    ensures Orphaned(KINDS, HEARTBEATS, [1, 0], 4) && !Suppressed(KINDS, HEARTBEATS, [1, 0], 5)
  {
    assert ColumnOf(KINDS, 2) == 0;
    assert ColumnOf(KINDS, 3) == 1;
    assert ColumnOf(KINDS, 5) == 0;
    assert ColumnOf(KINDS, 6) == 1;
    forall k | 0 <= k < 7
      ensures FLAGS[k] == !Suppressed(KINDS, HEARTBEATS, [1, 0], k)
    {
      assert InQuiet(KINDS, [1, 0], k) == (k == 3 || k == 6);
      assert k > 0 ==> InQuiet(KINDS, [1, 0], k - 1) == (k == 4);
    }
    assert InBody(KINDS, 4, 5);
  }
}
