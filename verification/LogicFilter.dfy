/**
 The logic filter's main loop: a time frame is indexed into heartbeat columns, and the
 trigger is executed on the segments of each complete column.
 */
module LogicFilter {
  import opened Bits
  import opened InfixToRpn
  import opened Grammar
  import opened Commands
  import opened Calculator
  import opened EntryMaps
  import opened CoincidenceTrigger
  import opened TriggerMeaning
  import opened BlockMap
  import opened Columns

  function Segments(list: seq<HBFIndex>): (segs: seq<Segment>)
    ensures |segs| == |list| && forall k | 0 <= k < |list| :: segs[k] == list[k].seg
  {
    seq(|list|, k requires 0 <= k < |list| => list[k].seg)
  }

  /** Whether `trg` is set up for formula a. */
  ghost predicate SetUpFor(trg: Trigger, a: Ast)
    reads trg, trg.fTMap
  {
    && trg.EntriesMatch() && trg.TableReady()
    && trg.fTimeRegion.Length == trg.fTimeRegionSize && Half(trg.fMarkLen) <= trg.fTimeRegionSize
    && Complete(a) && LiteralsBelow(a, 31)
    && trg.fCommands == Accepted(Words(ToRpn(a)))
  }

  /** `hits` are exactly the times at which formula a turns true on the entries of a column. */
  ghost predicate HitsOf(hits: seq<uint32>, a: Ast, signals: seq<Signal>, size: RegionSize, h: int, list: seq<HBFIndex>)
    requires Complete(a)
  {
    Rising(hits, size, FormulaAt(a, signals, Segments(list), size, h))
  }

  /** One column: its segments are built and the trigger runs on them. */
  method RunSlot(trg: Trigger, ghost a: Ast, blockMap: seq<seq<DataBlock>>, inParts: seq<Part>, slot: nat)
    returns (hits: seq<uint32>)
    requires SetUpFor(trg, a) && Sound(blockMap, inParts)
    requires InEveryRow(blockMap, slot)
    modifies trg.fTimeRegion, trg`fHits
    ensures SetUpFor(trg, a)
    ensures HitsOf(hits, a, trg.fSignals, trg.fTimeRegionSize, Half(trg.fMarkLen), EntriesOf(blockMap, inParts, slot))
  {
    var hbfList := BuildHBF(blockMap, inParts, slot);
    trg.Exec(Segments(hbfList));
    hits := trg.fHits;
    RegionIsMeant(trg.fTimeRegion[..], trg.fSignals, Segments(hbfList), trg.fTimeRegionSize, Half(trg.fMarkLen));
    FormulaDecides(a, trg.fCommands, trg.fTimeRegion[..], trg.fSignals, Segments(hbfList), trg.fTimeRegionSize,
                   Half(trg.fMarkLen));
    SameEdges(hits, trg.fTimeRegionSize, Answers(trg.fCommands, trg.fTimeRegion[..]),
              FormulaAt(a, trg.fSignals, Segments(hbfList), trg.fTimeRegionSize, Half(trg.fMarkLen)));
  }

  /** List i holds the hits of column i of the map. */
  ghost predicate HitsOfRows(trgTdc: seq<seq<uint32>>, a: Ast, signals: seq<Signal>, size: RegionSize, h: int,
                             rows: seq<seq<DataBlock>>, parts: seq<Part>)
    requires Complete(a)
  {
    forall i | 0 <= i < |trgTdc| :: HitsOf(trgTdc[i], a, signals, size, h, EntriesOf(rows, parts, i))
  }

  lemma HitsMore(trgTdc: seq<seq<uint32>>, hits: seq<uint32>, a: Ast, signals: seq<Signal>, size: RegionSize, h: int,
                 rows: seq<seq<DataBlock>>, parts: seq<Part>)
    requires Complete(a) && HitsOfRows(trgTdc, a, signals, size, h, rows, parts)
    requires HitsOf(hits, a, signals, size, h, EntriesOf(rows, parts, |trgTdc|))
    ensures HitsOfRows(trgTdc + [hits], a, signals, size, h, rows, parts)
  {
    var more := trgTdc + [hits];
    forall i | 0 <= i < |more|
      ensures HitsOf(more[i], a, signals, size, h, EntriesOf(rows, parts, i))
    {
      assert more[i] == if i < |trgTdc| then trgTdc[i] else hits;
    }
  }

  /**
   One list of hits for exactly the columns that every sub-time-frame reaches, list i holding the
   times at which the formula turns true on the messages whose place is column i, heartbeats excepted.
   */
  ghost predicate HitsOfColumns(trgTdc: seq<seq<uint32>>, a: Ast, signals: seq<Signal>, size: RegionSize, h: int,
                                split: int, parts: seq<Part>)
    requires Complete(a) && Readable(parts)
  {
    && (forall i: nat :: i < |trgTdc| <==> InEveryBody(split, parts, i))
    && forall i | 0 <= i < |trgTdc| :: HitsOf(trgTdc[i], a, signals, size, h, Handed(split, parts, i, |parts|))
  }

  /** A whole time frame, told from its messages alone. */
  method RunTrigger(trg: Trigger, ghost a: Ast, inParts: seq<Part>, fSplitMethod: int)
    returns (trgTdc: seq<seq<uint32>>)
    requires SetUpFor(trg, a) && WellFormed(inParts)
    modifies trg.fTimeRegion, trg`fHits
    ensures SetUpFor(trg, a)
    ensures HitsOfColumns(trgTdc, a, trg.fSignals, trg.fTimeRegionSize, Half(trg.fMarkLen), fSplitMethod, inParts)
  {
    var blockMap := MakeBlockMap(inParts, fSplitMethod);
    MapIsSound(fSplitMethod, inParts);
    trgTdc := RunColumns(trg, a, blockMap, inParts);
    RowsAreColumns(trgTdc, a, trg.fSignals, trg.fTimeRegionSize, Half(trg.fMarkLen), fSplitMethod, inParts);
  }

  lemma RowsAreColumns(trgTdc: seq<seq<uint32>>, a: Ast, signals: seq<Signal>, size: RegionSize, h: int,
                       split: int, parts: seq<Part>)
    requires Complete(a) && WellFormed(parts)
    requires HitsOfRows(trgTdc, a, signals, size, h, BlockMapOf(split, parts), parts)
    requires forall i: nat :: i < |trgTdc| <==> InEveryRow(BlockMapOf(split, parts), i)
    ensures HitsOfColumns(trgTdc, a, signals, size, h, split, parts)
  {
    forall i: nat ensures i < |trgTdc| <==> InEveryBody(split, parts, i) {
      CompleteColumns(split, parts, i);
    }
    forall i | 0 <= i < |trgTdc|
      ensures HitsOf(trgTdc[i], a, signals, size, h, Handed(split, parts, i, |parts|))
    {
      MapColumns(split, parts, i);
    }
  }

  /** The loop over the columns. */
  method RunColumns(trg: Trigger, ghost a: Ast, blockMap: seq<seq<DataBlock>>, inParts: seq<Part>)
    returns (trgTdc: seq<seq<uint32>>)
    requires SetUpFor(trg, a) && Sound(blockMap, inParts) && blockMap != []
    modifies trg.fTimeRegion, trg`fHits
    ensures SetUpFor(trg, a)
    ensures forall i: nat :: i < |trgTdc| <==> InEveryRow(blockMap, i)
    ensures HitsOfRows(trgTdc, a, trg.fSignals, trg.fTimeRegionSize, Half(trg.fMarkLen), blockMap, inParts)
  {
    var bsizeMin := MinimumSize(blockMap);
    ColumnsBelow(blockMap, bsizeMin);
    trgTdc := [];
    ghost var signals, size, h := trg.fSignals, trg.fTimeRegionSize, Half(trg.fMarkLen);
    for i := 0 to bsizeMin
      invariant SetUpFor(trg, a) && |trgTdc| == i
      invariant HitsOfRows(trgTdc, a, signals, size, h, blockMap, inParts)
    {
      var hits := RunSlot(trg, a, blockMap, inParts, i);
      HitsMore(trgTdc, hits, a, signals, size, h, blockMap, inParts);
      trgTdc := trgTdc + [hits];
    }
  }

  lemma ColumnsBelow(rows: seq<seq<DataBlock>>, min: nat)
    requires forall r | 0 <= r < |rows| :: min <= |rows[r]|
    requires exists r :: 0 <= r < |rows| && min == |rows[r]|
    ensures forall i: nat :: i < min <==> InEveryRow(rows, i)
  {
    var r :| 0 <= r < |rows| && min == |rows[r]|;
    forall i: nat ensures i < min <==> InEveryRow(rows, i) {
      if InEveryRow(rows, i) { assert i < |rows[r]|; }
    }
  }
}
