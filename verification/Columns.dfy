/**
 What the columns of the block map hand to the trigger, told from the messages alone: message k
 belongs to the column of its place in its own sub-time-frame, and is handed over unless it is a
 heartbeat.
 */
module Columns {
  import opened Bits
  import opened CoincidenceTrigger
  import opened BlockMap

  /** The header of the sub-time-frame that position k is in. */
  function HeaderAt(parts: seq<Part>, k: nat): (h: Part)
    requires k <= |parts|
    ensures h.StfHeader?
  {
    if k == 0 then StfHeader(0, 0, 0)
    else if parts[k - 1].StfHeader? then parts[k - 1]
    else HeaderAt(parts, k - 1)
  }

  /** Message k is a heartbeat for the module type of its header. */
  predicate Beats(parts: seq<Part>, k: nat)
    requires Readable(parts) && k < |parts|
  {
    parts[k].Data? && IsHeartbeat(parts[k], HeaderAt(parts, k).femType)
  }

  /** Number of blocks between position n and the header before it; a heartbeat without data counts twice in mode 1. */
  function BlocksTo(split: int, parts: seq<Part>, n: nat): nat
    requires Readable(parts) && n <= |parts|
  {
    if n == 0 || !parts[n - 1].Data? then 0
    else BlocksTo(split, parts, n - 1) + (if split == 1 && LacksData(parts, n - 1) then 2 else 1)
  }

  /** Message k is a heartbeat that comes first in its sub-time-frame or right after another heartbeat. */
  predicate LacksData(parts: seq<Part>, k: nat)
    requires Readable(parts) && k < |parts|
  {
    Beats(parts, k) && (k == 0 || !parts[k - 1].Data? || Beats(parts, k - 1))
  }

  /** The column of message k. */
  function SlotOf(split: int, parts: seq<Part>, k: nat): nat
    requires Readable(parts) && k < |parts| && parts[k].Data?
  {
    BlocksTo(split, parts, k + 1) - 1
  }

  /** Message k is handed to the trigger in column `slot`. */
  predicate IsHanded(split: int, parts: seq<Part>, slot: nat, k: nat)
    requires Readable(parts) && k < |parts|
  {
    parts[k].Data? && SlotOf(split, parts, k) == slot && !Beats(parts, k)
  }

  /** The messages handed over in column `slot`, among the first n, in order. */
  function Handed(split: int, parts: seq<Part>, slot: nat, n: nat): seq<HBFIndex>
    requires Readable(parts) && n <= |parts|
  {
    if n == 0 then []
    else
      Handed(split, parts, slot, n - 1) +
      if IsHanded(split, parts, slot, n - 1) then
        var h := HeaderAt(parts, n - 1);
        [HBFIndex(slot, h.stfId, Segment(h.femType, h.femId, parts[n - 1].words), n - 1)]
      else []
  }

  predicate HasSource(list: seq<HBFIndex>, k: nat) {
    exists i | 0 <= i < |list| :: list[i].source == k
  }

  lemma SourceMore(list: seq<HBFIndex>, more: seq<HBFIndex>, k: nat)
    ensures HasSource(list + more, k) <==> HasSource(list, k) || HasSource(more, k)
  {
    var all := list + more;
    if i :| 0 <= i < |list| && list[i].source == k { assert all[i].source == k; }
    if i :| 0 <= i < |more| && more[i].source == k { assert all[|list| + i].source == k; }
    if i :| 0 <= i < |all| && all[i].source == k {
      assert all[i] == if i < |list| then list[i] else more[i - |list|];
    }
  }

  /** Message k is the source of an entry of the column exactly when it is handed over there. */
  lemma {:induction false} HandedSources(split: int, parts: seq<Part>, slot: nat, n: nat, k: nat)
    requires Readable(parts) && n <= |parts|
    ensures HasSource(Handed(split, parts, slot, n), k) <==> k < n && IsHanded(split, parts, slot, k)
  {
    if n > 0 {
      HandedSources(split, parts, slot, n - 1, k);
      var h := HeaderAt(parts, n - 1);
      var one := if IsHanded(split, parts, slot, n - 1)
        then [HBFIndex(slot, h.stfId, Segment(h.femType, h.femId, parts[n - 1].words), n - 1)] else [];
      SourceMore(Handed(split, parts, slot, n - 1), one, k);
      if one != [] { assert one[0].source == n - 1; }
    }
  }

  /** A sub-time-frame's body ends before position n. */
  predicate EndsBody(parts: seq<Part>, n: nat)
    requires n <= |parts|
  {
    n > 0 && parts[n - 1].Data? && (n < |parts| ==> !parts[n].Data?)
  }

  /** Every sub-time-frame that ends before position n reaches column `slot`. */
  predicate BodiesReach(split: int, parts: seq<Part>, slot: nat, n: nat)
    requires Readable(parts) && n <= |parts| + 1
  {
    forall m | 0 < m < n && EndsBody(parts, m) :: slot < BlocksTo(split, parts, m)
  }

  /** Every sub-time-frame reaches column `slot`. */
  predicate InEveryBody(split: int, parts: seq<Part>, slot: nat)
    requires Readable(parts)
  {
    BodiesReach(split, parts, slot, |parts| + 1)
  }

  // ----- the walk over the messages fills exactly these columns -----

  /** The walk's state at n: whose messages are read, how far the row is, and what it would hand over. */
  predicate WalkColumns(split: int, parts: seq<Part>, slot: nat, n: nat, s: Walk)
    requires Readable(parts) && n <= |parts|
  {
    && HeaderAt(parts, n) == StfHeader(s.tfId, s.femType, s.femId)
    && |s.blocks| == BlocksTo(split, parts, n)
    && (s.blocks != [] ==> n > 0 && s.blocks[|s.blocks| - 1].isHB == Beats(parts, n - 1))
    && EntriesOf(s.rows + [s.blocks], parts, slot) == Handed(split, parts, slot, n)
  }

  lemma {:induction false} WalkIsColumns(split: int, parts: seq<Part>, slot: nat, n: nat)
    requires WellFormed(parts) && n <= |parts|
    ensures WalkColumns(split, parts, slot, n, WalkTo(split, parts, n))
  {
    if n == 0 {
      EntriesMore([], [], parts, slot);
    } else {
      WalkIsColumns(split, parts, slot, n - 1);
      if parts[n - 1].Data? {
        DataColumns(split, parts, slot, n - 1, WalkTo(split, parts, n - 1));
      } else if parts[n - 1].StfHeader? {
        HeaderColumns(split, parts, slot, n - 1, WalkTo(split, parts, n - 1));
      } else {
        assert n == 1 && WalkTo(split, parts, 1) == WalkTo(split, parts, 0);
      }
    }
  }

  lemma EntriesMore(rows: seq<seq<DataBlock>>, row: seq<DataBlock>, parts: seq<Part>, slot: nat)
    ensures EntriesOf(rows + [row], parts, slot) == EntriesOf(rows, parts, slot) + EntryOf(row, parts, slot)
  {
    assert (rows + [row])[..|rows|] == rows;
  }

  lemma HeaderColumns(split: int, parts: seq<Part>, slot: nat, n: nat, s: Walk)
    requires WellFormed(parts) && n < |parts| && parts[n].StfHeader? && WalkColumns(split, parts, slot, n, s)
    ensures WalkColumns(split, parts, slot, n + 1, Read(split, parts, s, n))
  {
    EntriesMore(s.rows, s.blocks, parts, slot);
    EntriesMore(s.rows, [], parts, slot);
    EntriesMore(s.rows + [s.blocks], [], parts, slot);
  }

  lemma DataColumns(split: int, parts: seq<Part>, slot: nat, n: nat, s: Walk)
    requires WellFormed(parts) && n < |parts| && parts[n].Data? && WalkColumns(split, parts, slot, n, s)
    ensures WalkColumns(split, parts, slot, n + 1, Read(split, parts, s, n))
  {
    var row := s.blocks + NewBlocks(split, s, parts[n], n);
    NewRow(split, parts, slot, n, s);
    SameEntries(s.rows, s.blocks, row, parts, slot);
    assert Read(split, parts, s, n) == s.(blocks := row);
  }

  /** What a longer last row adds. */
  lemma SameEntries(rows: seq<seq<DataBlock>>, row: seq<DataBlock>, longer: seq<DataBlock>, parts: seq<Part>, slot: nat)
    ensures forall added: seq<HBFIndex> ::
      EntryOf(longer, parts, slot) == EntryOf(row, parts, slot) + added ==>
      EntriesOf(rows + [longer], parts, slot) == EntriesOf(rows + [row], parts, slot) + added
  {
    EntriesMore(rows, row, parts, slot);
    EntriesMore(rows, longer, parts, slot);
  }

  /** The row that message n extends: its length, its last block and its contribution. */
  lemma NewRow(split: int, parts: seq<Part>, slot: nat, n: nat, s: Walk)
    requires WellFormed(parts) && n < |parts| && parts[n].Data? && WalkColumns(split, parts, slot, n, s)
    ensures
      var row := s.blocks + NewBlocks(split, s, parts[n], n);
      var h := HeaderAt(parts, n);
      && |row| == BlocksTo(split, parts, n + 1) && row != [] && row[|row| - 1].isHB == Beats(parts, n)
      && EntryOf(row, parts, slot) == EntryOf(s.blocks, parts, slot) +
           (if IsHanded(split, parts, slot, n)
            then [HBFIndex(slot, h.stfId, Segment(h.femType, h.femId, parts[n].words), n)] else [])
  {
    var row := s.blocks + NewBlocks(split, s, parts[n], n);
    assert n >= 2;
    assert |row| == BlocksTo(split, parts, n + 1) by {
      assert s.blocks == [] <==> !parts[n - 1].Data?;
    }
    if slot < |s.blocks| { assert row[slot] == s.blocks[slot]; }
  }

  /** The map's rows seen column by column: what each column hands over, and how many columns are complete. */
  lemma MapColumns(split: int, parts: seq<Part>, slot: nat)
    requires WellFormed(parts)
    ensures EntriesOf(BlockMapOf(split, parts), parts, slot) == Handed(split, parts, slot, |parts|)
  {
    WalkIsColumns(split, parts, slot, |parts|);
  }

  /** A column is complete in the map exactly when every sub-time-frame reaches it. */
  lemma CompleteColumns(split: int, parts: seq<Part>, slot: nat)
    requires WellFormed(parts)
    ensures InEveryRow(BlockMapOf(split, parts), slot) <==> InEveryBody(split, parts, slot)
  {
    var n, s := |parts|, WalkTo(split, parts, |parts|);
    WalkReaches(split, parts, slot, n);
    WalkIsColumns(split, parts, slot, n);
    InEveryRowMore(s.rows, s.blocks, slot);
    assert parts[n - 1].Data? && EndsBody(parts, n);
    BodiesMore(split, parts, slot, n);
  }

  lemma BodiesMore(split: int, parts: seq<Part>, slot: nat, n: nat)
    requires Readable(parts) && 0 < n <= |parts|
    ensures BodiesReach(split, parts, slot, n + 1) <==>
      BodiesReach(split, parts, slot, n) && (EndsBody(parts, n) ==> slot < BlocksTo(split, parts, n))
  {
  }

  lemma {:induction false} WalkReaches(split: int, parts: seq<Part>, slot: nat, n: nat)
    requires WellFormed(parts) && 0 < n <= |parts|
    ensures InEveryRow(WalkTo(split, parts, n).rows, slot) <==> BodiesReach(split, parts, slot, n)
  {
    if n == 1 {
      assert WalkTo(split, parts, 1) == WalkTo(split, parts, 0);
    } else {
      var s := WalkTo(split, parts, n - 1);
      WalkReaches(split, parts, slot, n - 1);
      WalkIsColumns(split, parts, slot, n - 1);
      BodiesMore(split, parts, slot, n - 1);
      InEveryRowMore(s.rows, s.blocks, slot);
    }
  }

  /** `slot` is below the length of every row. */
  predicate InEveryRow(rows: seq<seq<DataBlock>>, slot: nat) {
    forall r | 0 <= r < |rows| :: slot < |rows[r]|
  }

  lemma InEveryRowMore(rows: seq<seq<DataBlock>>, row: seq<DataBlock>, slot: nat)
    ensures InEveryRow(rows + [row], slot) <==> InEveryRow(rows, slot) && slot < |row|
  {
    if InEveryRow(rows + [row], slot) {
      forall r | 0 <= r < |rows| ensures slot < |rows[r]| { assert (rows + [row])[r] == rows[r]; }
      assert (rows + [row])[|rows|] == row;
    }
  }

  // ----- the columns in the two split modes -----

  /** Except in mode 1 a message's column is the number of messages between it and its header. */
  lemma {:induction false} SlotIsPlace(split: int, parts: seq<Part>, k: nat)
    requires WellFormed(parts) && split != 1 && k < |parts| && parts[k].Data?
    ensures var h := k - 1 - SlotOf(split, parts, k);
      0 <= h && parts[h].StfHeader? && forall j | h < j <= k :: parts[j].Data?
  {
    assert k >= 2;
    assert BlocksTo(split, parts, k + 1) == BlocksTo(split, parts, k) + 1;
    if parts[k - 1].Data? {
      SlotIsPlace(split, parts, k - 1);
      var h := k - 2 - SlotOf(split, parts, k - 1);
      assert h == k - 1 - SlotOf(split, parts, k);
      forall j | h < j <= k ensures parts[j].Data? {}
    } else {
      assert SlotOf(split, parts, k) == 0;
    }
  }

  /** In mode 1 with periodic bodies frame k has column 2k for its data and 2k+1 for its heartbeat. */
  lemma {:induction false} SlotIsFrame(parts: seq<Part>, k: nat)
    requires WellFormed(parts) && Periodic(parts) && k < |parts| && parts[k].Data?
    ensures SlotOf(1, parts, k) == 2 * BeatNo(parts, k) + (if Beats(parts, k) then 1 else 0)
  {
    assert k >= 2;
    HeaderIsType(parts, k);
    assert BlocksTo(1, parts, k + 1) == BlocksTo(1, parts, k) + (if LacksData(parts, k) then 2 else 1);
    if parts[k - 1].Data? {
      HeaderIsType(parts, k - 1);
      SlotIsFrame(parts, k - 1);
      if !Beats(parts, k - 1) { BeatFollows(parts, k - 1); }
    }
  }

  lemma {:induction false} HeaderIsType(parts: seq<Part>, k: nat)
    requires Readable(parts) && k < |parts|
    ensures HeaderAt(parts, k).femType == TypeAt(parts, k) && Beats(parts, k) == IsBeat(parts, k)
  {
    if k > 0 && !parts[k - 1].StfHeader? { HeaderIsType(parts, k - 1); }
  }

  /** So odd columns hand nothing over, and column 2k exactly the data of frame k. */
  lemma HandedInMode1(parts: seq<Part>, slot: nat, k: nat)
    requires WellFormed(parts) && Periodic(parts) && k < |parts|
    ensures IsHanded(1, parts, slot, k) <==>
      parts[k].Data? && !Beats(parts, k) && slot == 2 * BeatNo(parts, k)
  {
    if parts[k].Data? { SlotIsFrame(parts, k); }
  }
}
