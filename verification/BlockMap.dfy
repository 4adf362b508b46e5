/**
 The logic filter's index of a time-frame message: one row of blocks per sub-time-frame. Where
 heartbeats are messages of their own, columns 2k and 2k+1 of all rows are heartbeat frame k.
 Trigger segments are built column by column.
 */
module BlockMap {
  import opened Bits
  import opened UnpackTdc
  import opened CoincidenceTrigger

  const NULDEV: uint32 := 0
  const TDC64L_V1: uint32 := 1
  const HEARTBEAT_FRAME_MAGIC: uint64 := 0x0054_4145_4254_5248

  /** One part of a multipart message, told apart by its magic word. */
  datatype Part =
    | TfHeader(timeFrameId: uint32)
    | StfHeader(stfId: uint32, femType: uint32, femId: uint32)
    | Data(words: seq<uint64>)

  /** `msgIndex` is the position of the message, or -2 for a dummy. */
  datatype DataBlock = DataBlock(femId: uint32, kind: uint32, timeFrameId: uint32, isHB: bool, msgIndex: int)

  /** A heartbeat word of a known kind of module. */
  predicate IsHeartbeatWord(word: uint64, femType: uint32) {
    && (femType == TDC64H || femType == TDC64L || femType == TDC64L_V1 || femType == TDC64H_V3 || femType == TDC64L_V3)
    && Kind(word) == T_HB
  }

  /** The heartbeat number of a heartbeat word, -1 for any other word and for unknown modules. */
  function IsHartBeat(val: uint64, femType: uint32): (hbframe: int)
    ensures hbframe >= 0 <==> IsHeartbeatWord(val, femType)
  {
    if femType == TDC64H then HeartbeatOf(UnpackH(val))
    else if femType == TDC64L then HeartbeatOf(UnpackL(val))
    else if femType == TDC64L_V1 then (if Kind(val) == T_HB then HeartbeatOf(UnpackMark(val)) else -1)
    else if femType == TDC64H_V3 then HeartbeatOf(UnpackHV3(val))
    else if femType == TDC64L_V3 then HeartbeatOf(UnpackLV3(val))
    else -1
  }

  function HeartbeatOf(t: Tdc64): int {
    if t.kind == T_HB then t.marks.hartbeat else -1
  }

  /** The first word says heartbeat in its top six bits, for a known kind of module, and is no frame header. */
  predicate IsHeartbeat(p: Part, femType: uint32): (b: bool)
    requires p.Data? && p.words != []
    ensures b <==>
      && p.words[0] / 0x400_0000_0000_0000 == 0x1c && p.words[0] != HEARTBEAT_FRAME_MAGIC
      && femType in {TDC64L_V1, TDC64H, TDC64L, TDC64H_V3, TDC64L_V3}
  {
    KindIsTop(p.words[0]);
    p.words[0] != HEARTBEAT_FRAME_MAGIC && IsHeartbeatWord(p.words[0], femType)
  }

  /** Every message is long enough to hold the word that is looked at. */
  predicate Readable(parts: seq<Part>) {
    forall k | 0 <= k < |parts| && parts[k].Data? :: parts[k].words != []
  }

  // ----- the loop as a function of the parts read so far -----

  datatype Walk = Walk(rows: seq<seq<DataBlock>>, blocks: seq<DataBlock>, femId: uint32, femType: uint32, tfId: uint32)

  /** What a message adds to the current row. */
  function NewBlocks(split: int, s: Walk, p: Part, i: nat): seq<DataBlock>
    requires p.Data? && p.words != []
  {
    if !IsHeartbeat(p, s.femType) then [DataBlock(s.femId, s.femType, s.tfId, false, i)]
    else
      (if split == 1 && (s.blocks == [] || s.blocks[|s.blocks| - 1].isHB)
       then [DataBlock(s.femId, NULDEV, s.tfId, false, -2)] else [])
      + [DataBlock(s.femId, s.femType, s.tfId, true, i)]
  }

  function Read(split: int, parts: seq<Part>, s: Walk, i: nat): Walk
    requires Readable(parts) && i < |parts|
  {
    match parts[i]
    case TfHeader(_) => s
    case StfHeader(id, t, fem) => Walk(if s.blocks != [] then s.rows + [s.blocks] else s.rows, [], fem, t, id)
    case Data(_) => s.(blocks := s.blocks + NewBlocks(split, s, parts[i], i))
  }

  function WalkTo(split: int, parts: seq<Part>, n: nat): Walk
    requires Readable(parts) && n <= |parts|
  {
    if n == 0 then Walk([], [], 0, 0, 0) else Read(split, parts, WalkTo(split, parts, n - 1), n - 1)
  }

  function BlockMapOf(split: int, parts: seq<Part>): seq<seq<DataBlock>>
    requires Readable(parts)
  {
    var s := WalkTo(split, parts, |parts|);
    s.rows + [s.blocks]
  }

  method MakeBlockMap(inParts: seq<Part>, fSplitMethod: int) returns (blockMap: seq<seq<DataBlock>>)
    requires Readable(inParts)
    ensures blockMap == BlockMapOf(fSplitMethod, inParts)
  {
    var femid: uint32, timeFrameId: uint32, devtype: uint32 := 0, 0, 0;
    var blocks: seq<DataBlock> := [];
    blockMap := [];
    for i := 0 to |inParts|
      invariant Walk(blockMap, blocks, femid, devtype, timeFrameId) == WalkTo(fSplitMethod, inParts, i)
    {
      match inParts[i]
      case TfHeader(_) =>
      case StfHeader(id, t, fem) =>
        femid, devtype, timeFrameId := fem, t, id;
        if |blocks| > 0 {
          blockMap := blockMap + [blocks];
        }
        blocks := [];
      case Data(words) =>
        var dblock: DataBlock;
        var hbframe := IsHartBeat(words[0], devtype);
        if words[0] == HEARTBEAT_FRAME_MAGIC || hbframe < 0 {
          dblock := DataBlock(femid, devtype, timeFrameId, false, i);
        } else {
          if fSplitMethod == 1 {
            if |blocks| == 0 || (|blocks| > 0 && blocks[|blocks| - 1].isHB == true) {
              blocks := blocks + [DataBlock(femid, NULDEV, timeFrameId, false, -2)];
            }
          }
          dblock := DataBlock(femid, devtype, timeFrameId, true, i);
        }
        blocks := blocks + [dblock];
    }
    blockMap := blockMap + [blocks];
  }

  /** The length of the shortest row. */
  method MinimumSize(blockMap: seq<seq<DataBlock>>) returns (bsizeMin: nat)
    requires blockMap != []
    ensures forall r | 0 <= r < |blockMap| :: bsizeMin <= |blockMap[r]|
    ensures exists r | 0 <= r < |blockMap| :: bsizeMin == |blockMap[r]|
  {
    bsizeMin := |blockMap[0]|;
    for k := 0 to |blockMap|
      invariant forall r | 0 <= r < k :: bsizeMin <= |blockMap[r]|
      invariant exists r | 0 <= r < |blockMap| :: bsizeMin == |blockMap[r]|
    {
      if |blockMap[k]| < bsizeMin {
        bsizeMin := |blockMap[k]|;
      }
    }
  }

  // ----- the segments of one column -----

  datatype HBFIndex = HBFIndex(msgIndex: nat, timeFrameId: uint32, seg: Segment, source: int)

  predicate IsCollected(b: DataBlock) {
    !b.isHB && b.msgIndex > 0
  }

  /** The collected blocks of column `slot` in the rows before n, as positions of rows. */
  function Column(blockMap: seq<seq<DataBlock>>, slot: nat, n: nat): seq<nat>
    requires n <= |blockMap| && forall r | 0 <= r < |blockMap| :: slot < |blockMap[r]|
  {
    if n == 0 then []
    else Column(blockMap, slot, n - 1) + (if IsCollected(blockMap[n - 1][slot]) then [n - 1] else [])
  }

  /** Entry e describes row r's block of the column. */
  predicate Describes(e: HBFIndex, blockMap: seq<seq<DataBlock>>, parts: seq<Part>, slot: nat, r: nat) {
    && r < |blockMap| && slot < |blockMap[r]|
    && var b := blockMap[r][slot];
       && 0 < b.msgIndex < |parts| && parts[b.msgIndex].Data?
       && e == HBFIndex(slot, b.timeFrameId, Segment(b.kind, b.femId, parts[b.msgIndex].words), b.msgIndex)
  }

  /** Every block refers to a message of data. */
  predicate Sound(blockMap: seq<seq<DataBlock>>, parts: seq<Part>) {
    forall r, k | 0 <= r < |blockMap| && 0 <= k < |blockMap[r]| :: BlockSound(blockMap[r][k], parts)
  }

  predicate BlockSound(b: DataBlock, parts: seq<Part>) {
    b.msgIndex > 0 ==> b.msgIndex < |parts| && parts[b.msgIndex].Data?
  }

  /** One segment for each row whose block in this column is data, in the order of the rows. */
  method BuildHBF(blockMap: seq<seq<DataBlock>>, inParts: seq<Part>, imsg: nat) returns (hbfList: seq<HBFIndex>)
    requires Sound(blockMap, inParts)
    requires forall r | 0 <= r < |blockMap| :: imsg < |blockMap[r]|
    ensures hbfList == EntriesOf(blockMap, inParts, imsg)
    ensures |hbfList| == |Column(blockMap, imsg, |blockMap|)|
    ensures forall k | 0 <= k < |hbfList| ::
      Describes(hbfList[k], blockMap, inParts, imsg, Column(blockMap, imsg, |blockMap|)[k])
  {
    hbfList := [];
    for iifem := 0 to |blockMap|
      invariant hbfList == EntriesOf(blockMap[..iifem], inParts, imsg)
      invariant |hbfList| == |Column(blockMap, imsg, iifem)|
      invariant forall k | 0 <= k < |hbfList| ::
        Describes(hbfList[k], blockMap, inParts, imsg, Column(blockMap, imsg, iifem)[k])
    {
      var dbl := blockMap[iifem][imsg];
      assert BlockSound(dbl, inParts);
      assert blockMap[..iifem + 1][..iifem] == blockMap[..iifem];
      if !dbl.isHB {
        var mindex := dbl.msgIndex;
        if mindex > 0 {
          hbfList := hbfList + [HBFIndex(imsg, dbl.timeFrameId, Segment(dbl.kind, dbl.femId, inParts[mindex].words),
                                         mindex)];
        }
      }
    }
    assert blockMap[..|blockMap|] == blockMap;
  }

  /** What a row, if it is long enough, contributes to column `slot`. */
  function EntryOf(row: seq<DataBlock>, parts: seq<Part>, slot: nat): seq<HBFIndex> {
    if slot < |row| && IsCollected(row[slot]) && row[slot].msgIndex < |parts| && parts[row[slot].msgIndex].Data? then
      var b := row[slot];
      [HBFIndex(slot, b.timeFrameId, Segment(b.kind, b.femId, parts[b.msgIndex].words), b.msgIndex)]
    else []
  }

  function EntriesOf(rows: seq<seq<DataBlock>>, parts: seq<Part>, slot: nat): seq<HBFIndex> {
    if rows == [] then []
    else EntriesOf(rows[..|rows| - 1], parts, slot) + EntryOf(rows[|rows| - 1], parts, slot)
  }

  /** A column lists each row at most once, in order, and lists exactly the rows with data in it. */
  lemma {:induction false} ColumnIs(blockMap: seq<seq<DataBlock>>, slot: nat, n: nat)
    requires n <= |blockMap| && forall r | 0 <= r < |blockMap| :: slot < |blockMap[r]|
    ensures forall i | 0 <= i < |Column(blockMap, slot, n)| :: Column(blockMap, slot, n)[i] < n
    ensures forall i, j | 0 <= i < j < |Column(blockMap, slot, n)| ::
      Column(blockMap, slot, n)[i] < Column(blockMap, slot, n)[j]
    ensures forall r: nat :: r in Column(blockMap, slot, n) <==>
      r < n && !blockMap[r][slot].isHB && blockMap[r][slot].msgIndex > 0
  {
    if n > 0 { ColumnIs(blockMap, slot, n - 1); }
  }

  // ----- what the map holds -----

  /** A time-frame header, then sub-time-frames that each have at least one message. */
  predicate WellFormed(parts: seq<Part>) {
    && Readable(parts)
    && |parts| >= 3 && parts[0].TfHeader? && parts[1].StfHeader?
    && (forall k | 1 <= k < |parts| :: !parts[k].TfHeader?)
    && (forall k | 1 <= k < |parts| && parts[k].StfHeader? :: k + 1 < |parts| && parts[k + 1].Data?)
  }

  function Headers(parts: seq<Part>, n: nat): seq<Part>
    requires n <= |parts|
  {
    if n == 0 then [] else Headers(parts, n - 1) + (if parts[n - 1].StfHeader? then [parts[n - 1]] else [])
  }

  /** Positions of the messages of data, in order. */
  function Messages(parts: seq<Part>, n: nat): seq<int>
    requires n <= |parts|
  {
    if n == 0 then [] else Messages(parts, n - 1) + (if parts[n - 1].Data? then [n - 1] else [])
  }

  /** The positions a row refers to, without its dummies. */
  function Indices(row: seq<DataBlock>): seq<int> {
    if row == [] then []
    else Indices(row[..|row| - 1]) + (if row[|row| - 1].msgIndex >= 0 then [row[|row| - 1].msgIndex] else [])
  }

  function AllIndices(rows: seq<seq<DataBlock>>): seq<int> {
    if rows == [] then [] else AllIndices(rows[..|rows| - 1]) + Indices(rows[|rows| - 1])
  }

  /** Every block of the row belongs to that sub-time-frame, a dummy having no device type. */
  predicate RowOf(row: seq<DataBlock>, h: Part)
    requires h.StfHeader?
  {
    forall k | 0 <= k < |row| ::
      && row[k].femId == h.femId && row[k].timeFrameId == h.stfId
      && row[k].kind == (if row[k].msgIndex < 0 then NULDEV else h.femType)
  }

  /** Neither starts with a heartbeat nor has two in a row. */
  predicate Alternates(row: seq<DataBlock>) {
    forall k | 0 <= k < |row| && row[k].isHB :: k > 0 && !row[k - 1].isHB
  }

  predicate RowFits(split: int, row: seq<DataBlock>, h: Part) {
    h.StfHeader? && RowOf(row, h) && (split == 1 ==> Alternates(row))
  }

  predicate RowsFit(split: int, rows: seq<seq<DataBlock>>, hs: seq<Part>) {
    |rows| == |hs| && forall r | 0 <= r < |rows| :: RowFits(split, rows[r], hs[r])
  }

  /** The rows read so far, the last one still growing, and what they refer to. */
  ghost predicate RowsOk(split: int, s: Walk, hs: seq<Part>, msgs: seq<int>, started: bool) {
    && RowsFit(split, s.rows + [s.blocks], hs)
    && hs[|hs| - 1] == StfHeader(s.tfId, s.femType, s.femId)
    && AllIndices(s.rows + [s.blocks]) == msgs
    && (s.blocks == [] <==> !started)
    && (forall r | 0 <= r < |s.rows| :: s.rows[r] != [])
  }

  ghost predicate WalkOk(split: int, parts: seq<Part>, n: nat)
    requires WellFormed(parts) && 2 <= n <= |parts|
  {
    RowsOk(split, WalkTo(split, parts, n), Headers(parts, n), Messages(parts, n), !parts[n - 1].StfHeader?)
  }

  lemma LastRowFits(split: int, rows: seq<seq<DataBlock>>, a: seq<DataBlock>, hs: seq<Part>)
    requires RowsFit(split, rows + [a], hs)
    ensures RowFits(split, a, hs[|hs| - 1])
    ensures forall b | RowFits(split, b, hs[|hs| - 1]) :: RowsFit(split, rows + [b], hs)
  {
    assert (rows + [a])[|rows|] == a;
    forall b | RowFits(split, b, hs[|hs| - 1]) ensures RowsFit(split, rows + [b], hs) {
      forall r | 0 <= r < |rows| ensures RowFits(split, (rows + [b])[r], hs[r]) {
        assert (rows + [a])[r] == (rows + [b])[r];
      }
    }
  }

  lemma IndicesMore(row: seq<DataBlock>, b: DataBlock)
    ensures Indices(row + [b]) == Indices(row) + (if b.msgIndex >= 0 then [b.msgIndex] else [])
  {
    assert (row + [b])[..|row|] == row;
  }

  lemma AllIndicesMore(rows: seq<seq<DataBlock>>, row: seq<DataBlock>)
    ensures AllIndices(rows + [row]) == AllIndices(rows) + Indices(row)
  {
    assert (rows + [row])[..|rows|] == rows;
  }

  /** A message adds its own position to the row, and only that. */
  lemma NewBlocksIndices(split: int, s: Walk, p: Part, i: nat)
    requires p.Data? && p.words != []
    ensures Indices(s.blocks + NewBlocks(split, s, p, i)) == Indices(s.blocks) + [i]
  {
    var dummy, last := DataBlock(s.femId, NULDEV, s.tfId, false, -2), DataBlock(s.femId, s.femType, s.tfId, true, i);
    IndicesMore(s.blocks, dummy);
    IndicesMore(s.blocks + [dummy], last);
    assert s.blocks + ([dummy] + [last]) == s.blocks + [dummy] + [last];
    assert s.blocks + ([] + [last]) == s.blocks + [last];
    IndicesMore(s.blocks, last);
    IndicesMore(s.blocks, DataBlock(s.femId, s.femType, s.tfId, false, i));
  }

  lemma NewBlocksRow(split: int, s: Walk, p: Part, i: nat)
    requires p.Data? && p.words != []
    requires RowFits(split, s.blocks, StfHeader(s.tfId, s.femType, s.femId))
    ensures RowFits(split, s.blocks + NewBlocks(split, s, p, i), StfHeader(s.tfId, s.femType, s.femId))
  {
  }

  /** Blocks that fit the row and refer to message i only are added to the row being filled. */
  lemma RowGrows(split: int, s: Walk, added: seq<DataBlock>, i: nat, hs: seq<Part>, msgs: seq<int>, started: bool)
    requires RowsOk(split, s, hs, msgs, started) && s.blocks + added != []
    requires RowFits(split, s.blocks + added, hs[|hs| - 1])
    requires Indices(s.blocks + added) == Indices(s.blocks) + [i]
    ensures RowsOk(split, s.(blocks := s.blocks + added), hs, msgs + [i], true)
  {
    LastRowFits(split, s.rows, s.blocks, hs);
    AllIndicesMore(s.rows, s.blocks);
    AllIndicesMore(s.rows, s.blocks + added);
    assert AllIndices(s.rows) + Indices(s.blocks) + [i] == AllIndices(s.rows) + (Indices(s.blocks) + [i]);
  }

  lemma DataKeeps(split: int, parts: seq<Part>, n: nat)
    requires WellFormed(parts) && 2 <= n < |parts| && parts[n].Data? && WalkOk(split, parts, n)
    ensures WalkOk(split, parts, n + 1)
  {
    var s, hs := WalkTo(split, parts, n), Headers(parts, n);
    LastRowFits(split, s.rows, s.blocks, hs);
    NewBlocksRow(split, s, parts[n], n);
    NewBlocksIndices(split, s, parts[n], n);
    RowGrows(split, s, NewBlocks(split, s, parts[n], n), n, hs, Messages(parts, n), !parts[n - 1].StfHeader?);
    assert Headers(parts, n + 1) == hs;
  }

  lemma HeaderKeeps(split: int, parts: seq<Part>, n: nat)
    requires WellFormed(parts) && 2 <= n < |parts| && parts[n].StfHeader? && WalkOk(split, parts, n)
    ensures WalkOk(split, parts, n + 1)
  {
    var s, t, hs := WalkTo(split, parts, n), WalkTo(split, parts, n + 1), Headers(parts, n);
    var rows := s.rows + [s.blocks];
    assert t.rows == rows && t.blocks == [];
    AllIndicesMore(rows, []);
    forall r | 0 <= r < |rows| + 1 ensures RowFits(split, (rows + [t.blocks])[r], Headers(parts, n + 1)[r]) {
      if r < |rows| { assert (rows + [t.blocks])[r] == rows[r] && Headers(parts, n + 1)[r] == hs[r]; }
    }
  }

  lemma {:induction false} WalkKeeps(split: int, parts: seq<Part>, n: nat)
    requires WellFormed(parts) && 2 <= n <= |parts|
    ensures WalkOk(split, parts, n)
  {
    if n == 2 {
      assert WalkTo(split, parts, 0) == Walk([], [], 0, 0, 0);
      assert WalkTo(split, parts, 1) == WalkTo(split, parts, 0);
      assert Headers(parts, 0) == [] && Messages(parts, 0) == [];
      assert Headers(parts, 1) == [] && Messages(parts, 1) == [];
      AllIndicesMore([], []);
    } else {
      WalkKeeps(split, parts, n - 1);
      if parts[n - 1].Data? { DataKeeps(split, parts, n - 1); } else { HeaderKeeps(split, parts, n - 1); }
    }
  }

  // ----- every message stands in the row of its own sub-time-frame -----

  /** Row r refers to messages behind the header of sub-time-frame r and before the next one only. */
  predicate Owned(parts: seq<Part>, row: seq<DataBlock>, r: nat) {
    forall k | 0 <= k < |row| && row[k].msgIndex >= 0 :: Belongs(parts, row[k].msgIndex, r)
  }

  predicate Belongs(parts: seq<Part>, i: nat, r: nat) {
    i < |parts| && |Headers(parts, i)| == r + 1
  }

  predicate RowsOwned(parts: seq<Part>, s: Walk, headers: nat) {
    && headers == |s.rows| + 1 && Owned(parts, s.blocks, |s.rows|)
    && forall r | 0 <= r < |s.rows| :: Owned(parts, s.rows[r], r)
  }

  lemma {:induction false} WalkOwns(split: int, parts: seq<Part>, n: nat)
    requires WellFormed(parts) && 2 <= n <= |parts|
    ensures RowsOwned(parts, WalkTo(split, parts, n), |Headers(parts, n)|)
  {
    if n == 2 {
      assert WalkTo(split, parts, 1) == WalkTo(split, parts, 0);
      assert Headers(parts, 1) == Headers(parts, 0);
    } else {
      WalkOwns(split, parts, n - 1);
      if parts[n - 1].Data? { DataOwned(split, parts, n - 1); } else { HeaderOwned(split, parts, n - 1); }
    }
  }

  lemma DataOwned(split: int, parts: seq<Part>, n: nat)
    requires WellFormed(parts) && n < |parts| && parts[n].Data?
    requires RowsOwned(parts, WalkTo(split, parts, n), |Headers(parts, n)|)
    ensures RowsOwned(parts, WalkTo(split, parts, n + 1), |Headers(parts, n + 1)|)
  {
    var s := WalkTo(split, parts, n);
    var row := s.blocks + NewBlocks(split, s, parts[n], n);
    forall k | |s.blocks| <= k < |row| && row[k].msgIndex >= 0
      ensures Belongs(parts, row[k].msgIndex, |s.rows|)
    {
    }
    assert Owned(parts, row, |s.rows|);
  }

  lemma HeaderOwned(split: int, parts: seq<Part>, n: nat)
    requires WellFormed(parts) && 2 <= n < |parts| && parts[n].StfHeader?
    requires RowsOwned(parts, WalkTo(split, parts, n), |Headers(parts, n)|)
    ensures RowsOwned(parts, WalkTo(split, parts, n + 1), |Headers(parts, n + 1)|)
  {
    assert parts[n - 1].Data?;
    BlocksAfterData(split, parts, n);
  }

  lemma BlocksAfterData(split: int, parts: seq<Part>, n: nat)
    requires Readable(parts) && 0 < n <= |parts| && parts[n - 1].Data?
    ensures WalkTo(split, parts, n).blocks != []
  {
    assert NewBlocks(split, WalkTo(split, parts, n - 1), parts[n - 1], n - 1) != [];
  }

  lemma MapOwns(split: int, parts: seq<Part>)
    requires WellFormed(parts)
    ensures forall r | 0 <= r < |BlockMapOf(split, parts)| :: Owned(parts, BlockMapOf(split, parts)[r], r)
  {
    WalkOwns(split, parts, |parts|);
  }

  /**
   The map has one row per sub-time-frame, in order, each row belonging to its module and
   referring to that sub-time-frame's messages only; read row by row it refers to every message
   exactly once and in order; and in split mode 1 no row starts with a heartbeat or has two
   neighbouring ones.
   */
  lemma MapOfTimeFrame(split: int, parts: seq<Part>)
    requires WellFormed(parts)
    ensures
      var rows, hs := BlockMapOf(split, parts), Headers(parts, |parts|);
      && |rows| == |hs|
      && (forall r | 0 <= r < |rows| :: rows[r] != [] && hs[r].StfHeader? && RowOf(rows[r], hs[r]))
      && (forall r | 0 <= r < |rows| :: Owned(parts, rows[r], r))
      && AllIndices(rows) == Messages(parts, |parts|)
      && (split == 1 ==> forall r | 0 <= r < |rows| :: Alternates(rows[r]))
  {
    WalkKeeps(split, parts, |parts|);
    MapOwns(split, parts);
    var rows, hs := BlockMapOf(split, parts), Headers(parts, |parts|);
    assert forall r | 0 <= r < |rows| :: RowFits(split, rows[r], hs[r]);
  }

  // ----- columns are heartbeat frames -----

  /** Type of the module whose messages are read at k. */
  function TypeAt(parts: seq<Part>, k: nat): uint32
    requires k <= |parts|
  {
    if k == 0 then 0 else if parts[k - 1].StfHeader? then parts[k - 1].femType else TypeAt(parts, k - 1)
  }

  predicate IsBeat(parts: seq<Part>, k: nat)
    requires Readable(parts) && k < |parts|
  {
    parts[k].Data? && IsHeartbeat(parts[k], TypeAt(parts, k))
  }

  /** Number of heartbeats between position k and the header before it. */
  function BeatNo(parts: seq<Part>, k: nat): nat
    requires Readable(parts) && k <= |parts|
  {
    if k == 0 || !parts[k - 1].Data? then 0 else BeatNo(parts, k - 1) + (if IsBeat(parts, k - 1) then 1 else 0)
  }

  /** Every message of data is followed by its heartbeat; heartbeats may lack data. */
  predicate Periodic(parts: seq<Part>)
    requires Readable(parts)
  {
    forall k | 0 <= k < |parts| && parts[k].Data? && !IsBeat(parts, k) :: k + 1 < |parts| && IsBeat(parts, k + 1)
  }

  /** Block j of a row is the heartbeat of frame j / 2 if j is odd, and its data or a dummy if j is even. */
  predicate BeatBlock(parts: seq<Part>, b: DataBlock, j: nat)
    requires Readable(parts)
  {
    && b.isHB == (j % 2 == 1) && (b.isHB ==> b.msgIndex >= 0)
    && (b.msgIndex >= 0 ==>
          b.msgIndex < |parts| && BeatNo(parts, b.msgIndex) == j / 2 && IsBeat(parts, b.msgIndex) == b.isHB)
  }

  predicate BeatRow(parts: seq<Part>, row: seq<DataBlock>)
    requires Readable(parts)
  {
    forall j | 0 <= j < |row| :: BeatBlock(parts, row[j], j)
  }

  /** The message read last is data whose heartbeat is still to come. */
  predicate Pending(parts: seq<Part>, n: nat)
    requires Readable(parts) && n <= |parts|
  {
    n > 0 && parts[n - 1].Data? && !IsBeat(parts, n - 1)
  }

  predicate RowsBeat(parts: seq<Part>, s: Walk, n: nat)
    requires Readable(parts) && n <= |parts|
  {
    && s.femType == TypeAt(parts, n) && BeatRow(parts, s.blocks)
    && |s.blocks| == 2 * BeatNo(parts, n) + (if Pending(parts, n) then 1 else 0)
    && forall r | 0 <= r < |s.rows| :: EvenRow(parts, s.rows[r])
  }

  predicate EvenRow(parts: seq<Part>, row: seq<DataBlock>)
    requires Readable(parts)
  {
    BeatRow(parts, row) && |row| % 2 == 0
  }

  lemma {:induction false} WalkBeats(parts: seq<Part>, n: nat)
    requires Readable(parts) && Periodic(parts) && n <= |parts|
    requires forall k | 0 < k < |parts| :: !parts[k].TfHeader?
    ensures RowsBeat(parts, WalkTo(1, parts, n), n)
  {
    if n > 0 {
      WalkBeats(parts, n - 1);
      match parts[n - 1] {
        case Data(_) => BeatStep(parts, n - 1);
        case StfHeader(_, _, _) => BeatHeader(parts, n - 1);
        case TfHeader(_) =>
          assert n == 1 && WalkTo(1, parts, 1) == WalkTo(1, parts, 0);
          assert TypeAt(parts, 1) == TypeAt(parts, 0);
      }
    }
  }

  lemma BeatHeader(parts: seq<Part>, n: nat)
    requires Readable(parts) && Periodic(parts) && n < |parts| && parts[n].StfHeader?
    requires RowsBeat(parts, WalkTo(1, parts, n), n)
    ensures RowsBeat(parts, WalkTo(1, parts, n + 1), n + 1)
  {
    NotPending(parts, n);
    assert EvenRow(parts, WalkTo(1, parts, n).blocks);
  }

  /** Data never comes last in its sub-time-frame. */
  lemma NotPending(parts: seq<Part>, n: nat)
    requires Readable(parts) && Periodic(parts) && n <= |parts| && (n < |parts| ==> !parts[n].Data?)
    ensures !Pending(parts, n)
  {
    if Pending(parts, n) { BeatFollows(parts, n - 1); }
  }

  lemma BeatFollows(parts: seq<Part>, k: nat)
    requires Readable(parts) && Periodic(parts) && k < |parts| && parts[k].Data? && !IsBeat(parts, k)
    ensures k + 1 < |parts| && IsBeat(parts, k + 1)
  {
  }

  /** One more message of a sub-time-frame: two blocks for a heartbeat without data, else one. */
  lemma BeatStep(parts: seq<Part>, n: nat)
    requires Readable(parts) && Periodic(parts) && n < |parts| && parts[n].Data?
    requires RowsBeat(parts, WalkTo(1, parts, n), n)
    ensures RowsBeat(parts, WalkTo(1, parts, n + 1), n + 1)
  {
    var s := WalkTo(1, parts, n);
    if Pending(parts, n) {
      BeatFollows(parts, n - 1);
      assert |s.blocks| % 2 == 1 && !s.blocks[|s.blocks| - 1].isHB by {
        assert BeatBlock(parts, s.blocks[|s.blocks| - 1], |s.blocks| - 1);
      }
    } else if s.blocks != [] {
      assert s.blocks[|s.blocks| - 1].isHB by {
        assert BeatBlock(parts, s.blocks[|s.blocks| - 1], |s.blocks| - 1);
      }
    }
    NewBeats(parts, s, n);
    BeatRowMore(parts, s.blocks, NewBlocks(1, s, parts[n], n));
  }

  /** The added blocks fit their columns. */
  lemma NewBeats(parts: seq<Part>, s: Walk, n: nat)
    requires Readable(parts) && n < |parts| && parts[n].Data? && s.femType == TypeAt(parts, n)
    requires |s.blocks| == 2 * BeatNo(parts, n) + (if Pending(parts, n) then 1 else 0)
    requires Pending(parts, n) ==> IsBeat(parts, n)
    requires s.blocks != [] ==> (s.blocks[|s.blocks| - 1].isHB <==> !Pending(parts, n))
    ensures
      var added := NewBlocks(1, s, parts[n], n);
      && |s.blocks| + |added| == 2 * BeatNo(parts, n + 1) + (if Pending(parts, n + 1) then 1 else 0)
      && forall j | 0 <= j < |added| :: BeatBlock(parts, added[j], |s.blocks| + j)
  {
  }

  lemma BeatRowMore(parts: seq<Part>, row: seq<DataBlock>, added: seq<DataBlock>)
    requires Readable(parts) && BeatRow(parts, row)
    requires forall j | 0 <= j < |added| :: BeatBlock(parts, added[j], |row| + j)
    ensures BeatRow(parts, row + added)
  {
  }

  /**
   In split mode 1, when every data message is followed by its heartbeat, all rows have an even
   number of blocks, and columns 2k and 2k+1 hold the data of heartbeat frame k, or a dummy, and
   the heartbeat that ends it, each from the row's own sub-time-frame.
   */
  lemma ColumnsAreFrames(parts: seq<Part>)
    requires WellFormed(parts) && Periodic(parts)
    ensures
      var rows := BlockMapOf(1, parts);
      forall r | 0 <= r < |rows| :: EvenRow(parts, rows[r]) && Owned(parts, rows[r], r)
  {
    MapOwns(1, parts);
    RowsEven(parts);
  }

  lemma RowsEven(parts: seq<Part>)
    requires WellFormed(parts) && Periodic(parts)
    ensures forall r | 0 <= r < |BlockMapOf(1, parts)| :: EvenRow(parts, BlockMapOf(1, parts)[r])
  {
    WalkBeats(parts, |parts|);
    NotPending(parts, |parts|);
  }

  lemma {:induction false} MessagesAreData(parts: seq<Part>, n: nat)
    requires n <= |parts|
    ensures forall x | x in Messages(parts, n) :: 0 <= x < n && parts[x].Data?
    ensures forall i | 0 <= i < |Messages(parts, n)| :: Messages(parts, n)[i] < n
    ensures forall i, j | 0 <= i < j < |Messages(parts, n)| :: Messages(parts, n)[i] < Messages(parts, n)[j]
  {
    if n > 0 { MessagesAreData(parts, n - 1); }
  }

  lemma {:induction false} InIndices(row: seq<DataBlock>, k: nat)
    requires k < |row| && row[k].msgIndex >= 0
    ensures row[k].msgIndex in Indices(row)
  {
    if k < |row| - 1 { InIndices(row[..|row| - 1], k); }
  }

  lemma {:induction false} InAllIndices(rows: seq<seq<DataBlock>>, r: nat, x: int)
    requires r < |rows| && x in Indices(rows[r])
    ensures x in AllIndices(rows)
  {
    if r < |rows| - 1 { InAllIndices(rows[..|rows| - 1], r, x); }
  }

  /** The map can be handed to `BuildHBF` for every slot below the shortest row. */
  lemma MapIsSound(split: int, parts: seq<Part>)
    requires WellFormed(parts)
    ensures Sound(BlockMapOf(split, parts), parts)
  {
    var rows := BlockMapOf(split, parts);
    MapOfTimeFrame(split, parts);
    MessagesAreData(parts, |parts|);
    forall r, k | 0 <= r < |rows| && 0 <= k < |rows[r]| ensures BlockSound(rows[r][k], parts) {
      if rows[r][k].msgIndex > 0 {
        InIndices(rows[r], k);
        InAllIndices(rows, r, rows[r][k].msgIndex);
      }
    }
  }
}
