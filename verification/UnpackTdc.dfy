/**
 The decoders of 64-bit TDC words. Each reads its fields with a mask and a shift, as the
 source writes them; the lemmas say which part of the word each field is.
 */
module UnpackTdc {
  import opened Bits

  // Kinds of front-end module, and the type codes in the top six bits of a word.
  const TDC64H: uint32 := 2
  const TDC64L: uint32 := 3
  const TDC64H_V3: uint32 := 5
  const TDC64L_V3: uint32 := 6

  const T_TDC := 0x0b
  const T_TDC_T := 0x0d
  const T_THR1_START := 0x19
  const T_THR1_END := 0x11
  const T_THR2_START := 0x1a
  const T_THR2_END := 0x12
  const T_HB := 0x1c
  const T_HB2 := 0x1e
  const T_SPL_START := 0x18
  const T_SPL_END := 0x14

  /** The decoded word; -1 where it has no such field. */
  datatype Tdc64 = Tdc64(kind: int, ch: int, tot: int, tdc: int, tdc4n: int, marks: Marks)

  /** The fields of words that are not times. */
  datatype Marks = Marks(flag: int, spill: int, toffset: int, genesize: int, transize: int, hartbeat: int)

  const NO_MARKS := Marks(-1, -1, -1, -1, -1, -1)

  /** `(data & mask) >> shift`. */
  function Field(data: uint64, mask: uint64, shift: nat): nat {
    Shr(BitAnd(data, mask), shift)
  }

  function Kind(data: uint64): nat {
    Field(data, 0xfc00_0000_0000_0000, 58)
  }

  predicate IsTimeKind(kind: int) {
    kind == T_TDC || kind == T_TDC_T || kind == T_THR1_START || kind == T_THR1_END
    || kind == T_THR2_START || kind == T_THR2_END
  }

  predicate IsMarkKind(kind: int) {
    kind == T_HB || kind == T_SPL_START || kind == T_SPL_END
  }

  /** A heartbeat or spill word of the first two generations of modules. */
  function UnpackMark(data: uint64): Tdc64 {
    Tdc64(Kind(data), -1, -1, -1, -1,
          Marks(Field(data, 0x03ff_0000_0000_0000, 48), Field(data, 0x0000_ff00_0000_0000, 40), -1, -1, -1,
                Field(data, 0x0000_00ff_ff00_0000, 24)))
  }

  /** The first heartbeat word of third-generation modules. */
  function UnpackHB1(data: uint64): Tdc64 {
    Tdc64(Kind(data), -1, -1, -1, -1,
          Marks(Field(data, 0x00ff_ff00_0000_0000, 40), -1, Field(data, 0x0000_00ff_ff00_0000, 24), -1, -1,
                Field(data, 0x0000_0000_00ff_ffff, 0)))
  }

  /** The second heartbeat word of third-generation modules. */
  function UnpackHB2(data: uint64): Tdc64 {
    Tdc64(Kind(data), -1, -1, -1, -1,
          Marks(Field(data, 0x00ff_ff00_0000_0000, 40), -1, -1, Field(data, 0x0000_00ff_fff0_0000, 20),
                Field(data, 0x0000_0000_000f_ffff, 0), -1))
  }

  function Blank(kind: int): Tdc64 {
    Tdc64(kind, -1, -1, -1, -1, NO_MARKS)
  }

  function UnpackH(data: uint64): Tdc64 {
    var kind := Kind(data);
    if kind == T_TDC then
      Tdc64(kind,
            Field(data, 0x03f8_0000_0000_0000, 51),
            Field(data, 0x0007_ffff_e000_0000, 29),
            Field(data, 0x0000_0000_1fff_ffff, 0),
            Field(data, 0x0000_0000_1fff_ffff, 12),
            NO_MARKS)
    else if IsMarkKind(kind) then UnpackMark(data)
    else Blank(kind)
  }

  function UnpackL(data: uint64): Tdc64 {
    var kind := Kind(data);
    if IsTimeKind(kind) then
      Tdc64(kind,
            Field(data, 0x03f8_0000_0000_0000, 51),
            Field(data, 0x0007_fff8_0000_0000, 35),
            Field(data, 0x0000_0007_ffff_0000, 16),
            Field(data, 0x0000_0007_fffc_0000, 18),
            NO_MARKS)
    else if IsMarkKind(kind) then UnpackMark(data)
    else Blank(kind)
  }

  function UnpackHV3(data: uint64): Tdc64 {
    var kind := Kind(data);
    if IsTimeKind(kind) then
      Tdc64(kind,
            Field(data, 0x03f8_0000_0000_0000, 51),
            Field(data, 0x0007_ffff_e000_0000, 29),
            Field(data, 0x0000_0000_1fff_ffff, 0),
            Field(data, 0x0000_0000_1fff_ffff, 12),
            NO_MARKS)
    else if kind == T_HB then UnpackHB1(data)
    else if kind == T_HB2 then UnpackHB2(data)
    else Blank(kind)
  }

  function UnpackLV3(data: uint64): Tdc64 {
    var kind := Kind(data);
    if IsTimeKind(kind) then
      Tdc64(kind,
            Field(data, 0x03fc_0000_0000_0000, 50),
            Field(data, 0x0003_fffc_0000_0000, 34),
            Field(data, 0x0000_0003_ffff_8000, 15),
            Field(data, 0x0000_0003_fffe_0000, 17),
            NO_MARKS)
    else if kind == T_HB then UnpackHB1(data)
    else if kind == T_HB2 then UnpackHB2(data)
    else Blank(kind)
  }

  lemma Powers64()
    ensures Pow2(6) == 0x40 && Pow2(7) == 0x80 && Pow2(8) == 0x100 && Pow2(12) == 0x1000 && Pow2(15) == 0x8000
    ensures Pow2(16) == 0x1_0000 && Pow2(17) == 0x2_0000 && Pow2(18) == 0x4_0000 && Pow2(19) == 0x8_0000
    ensures Pow2(22) == 0x40_0000 && Pow2(29) == 0x2000_0000 && Pow2(34) == 0x4_0000_0000
    ensures Pow2(35) == 0x8_0000_0000 && Pow2(50) == 0x4_0000_0000_0000
    ensures Pow2(51) == 0x8_0000_0000_0000 && Pow2(58) == 0x400_0000_0000_0000
    ensures Pow2(10) == 0x400 && Pow2(20) == 0x10_0000 && Pow2(24) == 0x100_0000 && Pow2(0) == 1
    ensures Pow2(40) == 0x100_0000_0000 && Pow2(48) == 0x1_0000_0000_0000
  {
    Powers();
    assert Pow2(6) == 64 && Pow2(4) == 16;
    Pow2Add(8, 4);
    Pow2Add(8, 7);
    Pow2Add(16, 2);
    Pow2Add(16, 3);
    Pow2Add(16, 6);
    Pow2Add(17, 12);
    Pow2Add(17, 17);
    Pow2Add(17, 18);
    Pow2Add(32, 18);
    Pow2Add(50, 1);
    Pow2Add(50, 8);
    Pow2Add(8, 2);
    Pow2Add(16, 4);
    Pow2Add(16, 8);
    Pow2Add(32, 8);
    Pow2Add(32, 16);
  }

  /** A mask of w ones at position s picks (data / 2^s) mod 2^w. */
  lemma FieldValue(data: uint64, mask: uint64, w: nat, s: nat)
    requires mask == (Pow2(w) - 1) * Pow2(s)
    ensures Field(data, mask, s) == (data / Pow2(s)) % Pow2(w)
  {
    FieldIsDivMod(data, w, s);
    ShrIsDiv(data, s);
  }

  lemma KindIsTop(data: uint64)
    ensures Kind(data) == data / 0x400_0000_0000_0000
  {
    Powers64();
    FieldValue(data, 0xfc00_0000_0000_0000, 6, 58);
  }

  /** What a time word holds: the fields tile the word and the coarse time is the fine time scaled down. */
  ghost predicate TimeWord(t: Tdc64, data: uint64, chUnit: nat, totUnit: nat, tdcUnit: nat, scale: nat) {
    && t.kind == data / 0x400_0000_0000_0000
    && tdcUnit > 0
    && data == t.kind * 0x400_0000_0000_0000 + t.ch * chUnit + t.tot * totUnit + t.tdc * tdcUnit + data % tdcUnit
    && 0 <= t.ch && 0 <= t.tot && 0 <= t.tdc
    && 0 <= t.tdc4n < 0x2_0000
    && scale > 0 && t.tdc4n == t.tdc / scale
  }

  /** What a heartbeat or spill word holds: kind, flag, spill and heartbeat number tile the word. */
  ghost predicate MarkWord(t: Tdc64, data: uint64) {
    var m := t.marks;
    && t == Tdc64(data / 0x400_0000_0000_0000, -1, -1, -1, -1, Marks(m.flag, m.spill, -1, -1, -1, m.hartbeat))
    && data == t.kind * 0x400_0000_0000_0000 + m.flag * 0x1_0000_0000_0000 + m.spill * 0x100_0000_0000
             + m.hartbeat * 0x100_0000 + data % 0x100_0000
    && 0 <= m.flag < 0x400 && 0 <= m.spill < 0x100 && 0 <= m.hartbeat < 0x1_0000
  }

  /** The first heartbeat word of the third generation: below the top byte, flag, offset and number tile it. */
  ghost predicate HB1Word(t: Tdc64, data: uint64) {
    var m := t.marks;
    && t == Tdc64(data / 0x400_0000_0000_0000, -1, -1, -1, -1, Marks(m.flag, -1, m.toffset, -1, -1, m.hartbeat))
    && data == data / 0x100_0000_0000_0000 * 0x100_0000_0000_0000 + m.flag * 0x100_0000_0000
             + m.toffset * 0x100_0000 + m.hartbeat
    && 0 <= m.flag < 0x1_0000 && 0 <= m.toffset < 0x1_0000 && 0 <= m.hartbeat < 0x100_0000
  }

  /** The second one: flag, generated and transferred size tile it. */
  ghost predicate HB2Word(t: Tdc64, data: uint64) {
    var m := t.marks;
    && t == Tdc64(data / 0x400_0000_0000_0000, -1, -1, -1, -1, Marks(m.flag, -1, -1, m.genesize, m.transize, -1))
    && data == data / 0x100_0000_0000_0000 * 0x100_0000_0000_0000 + m.flag * 0x100_0000_0000
             + m.genesize * 0x10_0000 + m.transize
    && 0 <= m.flag < 0x1_0000 && 0 <= m.genesize < 0x10_0000 && 0 <= m.transize < 0x10_0000
  }

  lemma MarkReads(data: uint64)
    ensures MarkWord(UnpackMark(data), data)
  {
    KindIsTop(data);
    Powers64();
    FieldValue(data, 0x03ff_0000_0000_0000, 10, 48);
    FieldValue(data, 0x0000_ff00_0000_0000, 8, 40);
    FieldValue(data, 0x0000_00ff_ff00_0000, 16, 24);
    TileMark(data);
  }

  lemma HB1Reads(data: uint64)
    ensures HB1Word(UnpackHB1(data), data)
  {
    KindIsTop(data);
    Powers64();
    FieldValue(data, 0x00ff_ff00_0000_0000, 16, 40);
    FieldValue(data, 0x0000_00ff_ff00_0000, 16, 24);
    FieldValue(data, 0x0000_0000_00ff_ffff, 24, 0);
    TileHB1(data);
  }

  lemma HB2Reads(data: uint64)
    ensures HB2Word(UnpackHB2(data), data)
  {
    KindIsTop(data);
    Powers64();
    FieldValue(data, 0x00ff_ff00_0000_0000, 16, 40);
    FieldValue(data, 0x0000_00ff_fff0_0000, 20, 20);
    FieldValue(data, 0x0000_0000_000f_ffff, 20, 0);
    TileHB2(data);
  }

  /** Every word of a TDC64H module: a leading edge, a heartbeat or spill word, or none of its fields. */
  lemma UnpackHReads(data: uint64)
    ensures var t := UnpackH(data);
      && t.kind == data / 0x400_0000_0000_0000
      && (t.kind == T_TDC ==>
            TimeWord(t, data, 0x8_0000_0000_0000, 0x2000_0000, 1, 4096) && t.ch < 128 && t.marks == NO_MARKS)
      && (IsMarkKind(t.kind) ==> MarkWord(t, data))
      && (t.kind != T_TDC && !IsMarkKind(t.kind) ==> t == Blank(t.kind))
  {
    KindIsTop(data);
    if Kind(data) == T_TDC { HighResolutionTime(data); } else if IsMarkKind(Kind(data)) { MarkReads(data); }
  }

  /** Every word of a TDC64H_V3 module: an edge, one of the two heartbeat words, or none of its fields. */
  lemma UnpackHV3Reads(data: uint64)
    ensures var t := UnpackHV3(data);
      && t.kind == data / 0x400_0000_0000_0000
      && (IsTimeKind(t.kind) ==>
            TimeWord(t, data, 0x8_0000_0000_0000, 0x2000_0000, 1, 4096) && t.ch < 128 && t.marks == NO_MARKS)
      && (t.kind == T_HB ==> HB1Word(t, data)) && (t.kind == T_HB2 ==> HB2Word(t, data))
      && (!IsTimeKind(t.kind) && t.kind != T_HB && t.kind != T_HB2 ==> t == Blank(t.kind))
  {
    KindIsTop(data);
    if IsTimeKind(Kind(data)) { HighResolutionTime(data); }
    else if Kind(data) == T_HB { HB1Reads(data); }
    else if Kind(data) == T_HB2 { HB2Reads(data); }
  }

  lemma HighResolutionTime(data: uint64)
    requires IsTimeKind(Kind(data))
    ensures var t := UnpackHV3(data);
      TimeWord(t, data, 0x8_0000_0000_0000, 0x2000_0000, 1, 4096) && t.ch < 128
    ensures Kind(data) == T_TDC ==> UnpackH(data) == UnpackHV3(data)
  {
    HighResolutionFields(data);
    KindIsTop(data);
    TileH(data);
  }

  lemma HighResolutionFields(data: uint64)
    ensures Field(data, 0x03f8_0000_0000_0000, 51) == data / 0x8_0000_0000_0000 % 0x80
    ensures Field(data, 0x0007_ffff_e000_0000, 29) == data / 0x2000_0000 % 0x40_0000
    ensures Field(data, 0x0000_0000_1fff_ffff, 0) == data % 0x2000_0000
    ensures Field(data, 0x0000_0000_1fff_ffff, 12) == data % 0x2000_0000 / 0x1000
  {
    Powers64();
    FieldValue(data, 0x03f8_0000_0000_0000, 7, 51);
    FieldValue(data, 0x0007_ffff_e000_0000, 22, 29);
    FieldValue(data, 0x0000_0000_1fff_ffff, 29, 0);
    ShrIsDiv(BitAnd(data, 0x0000_0000_1fff_ffff), 12);
    assert Pow2(0) == 1;
  }

  /** Every word of a TDC64L module: an edge, a heartbeat or spill word, or none of its fields. */
  lemma UnpackLReads(data: uint64)
    ensures var t := UnpackL(data);
      && t.kind == data / 0x400_0000_0000_0000
      && (IsTimeKind(t.kind) ==>
            TimeWord(t, data, 0x8_0000_0000_0000, 0x8_0000_0000, 0x1_0000, 4) && t.ch < 128 && t.marks == NO_MARKS)
      && (IsMarkKind(t.kind) ==> MarkWord(t, data))
      && (!IsTimeKind(t.kind) && !IsMarkKind(t.kind) ==> t == Blank(t.kind))
  {
    KindIsTop(data);
    if IsTimeKind(Kind(data)) { LowResolutionTime(data); } else if IsMarkKind(Kind(data)) { MarkReads(data); }
  }

  lemma LowResolutionTime(data: uint64)
    requires IsTimeKind(Kind(data))
    ensures TimeWord(UnpackL(data), data, 0x8_0000_0000_0000, 0x8_0000_0000, 0x1_0000, 4)
    ensures UnpackL(data).ch < 128
  {
    Powers64();
    KindIsTop(data);
    FieldValue(data, 0x03f8_0000_0000_0000, 7, 51);
    FieldValue(data, 0x0007_fff8_0000_0000, 16, 35);
    FieldValue(data, 0x0000_0007_ffff_0000, 19, 16);
    FieldValue(data, 0x0000_0007_fffc_0000, 17, 18);
    TileL(data);
  }

  /** Every word of a TDC64L_V3 module, whose channel has eight bits. */
  lemma UnpackLV3Reads(data: uint64)
    ensures var t := UnpackLV3(data);
      && t.kind == data / 0x400_0000_0000_0000
      && (IsTimeKind(t.kind) ==>
            TimeWord(t, data, 0x4_0000_0000_0000, 0x4_0000_0000, 0x8000, 4) && t.ch < 256 && t.marks == NO_MARKS)
      && (t.kind == T_HB ==> HB1Word(t, data)) && (t.kind == T_HB2 ==> HB2Word(t, data))
      && (!IsTimeKind(t.kind) && t.kind != T_HB && t.kind != T_HB2 ==> t == Blank(t.kind))
  {
    KindIsTop(data);
    if IsTimeKind(Kind(data)) { LowResolutionTimeV3(data); }
    else if Kind(data) == T_HB { HB1Reads(data); }
    else if Kind(data) == T_HB2 { HB2Reads(data); }
  }

  lemma LowResolutionTimeV3(data: uint64)
    requires IsTimeKind(Kind(data))
    ensures TimeWord(UnpackLV3(data), data, 0x4_0000_0000_0000, 0x4_0000_0000, 0x8000, 4)
    ensures UnpackLV3(data).ch < 256
  {
    Powers64();
    KindIsTop(data);
    FieldValue(data, 0x03fc_0000_0000_0000, 8, 50);
    FieldValue(data, 0x0003_fffc_0000_0000, 16, 34);
    FieldValue(data, 0x0000_0003_ffff_8000, 19, 15);
    FieldValue(data, 0x0000_0003_fffe_0000, 17, 17);
    TileLV3(data);
  }

  lemma TileMark(data: uint64)
    ensures data == data / 0x400_0000_0000_0000 * 0x400_0000_0000_0000
                  + data / 0x1_0000_0000_0000 % 0x400 * 0x1_0000_0000_0000
                  + data / 0x100_0000_0000 % 0x100 * 0x100_0000_0000
                  + data / 0x100_0000 % 0x1_0000 * 0x100_0000 + data % 0x100_0000
  {
    var a := data / 0x100_0000;
    var b := a / 0x1_0000;
    var c := b / 0x100;
    assert b == data / 0x100_0000_0000;
    assert c == data / 0x1_0000_0000_0000;
    assert c / 0x400 == data / 0x400_0000_0000_0000;
  }

  lemma TileHB1(data: uint64)
    ensures data == data / 0x100_0000_0000_0000 * 0x100_0000_0000_0000
                  + data / 0x100_0000_0000 % 0x1_0000 * 0x100_0000_0000
                  + data / 0x100_0000 % 0x1_0000 * 0x100_0000 + data % 0x100_0000
  {
    var a := data / 0x100_0000;
    var b := a / 0x1_0000;
    assert b == data / 0x100_0000_0000;
    assert b / 0x1_0000 == data / 0x100_0000_0000_0000;
  }

  lemma TileHB2(data: uint64)
    ensures data == data / 0x100_0000_0000_0000 * 0x100_0000_0000_0000
                  + data / 0x100_0000_0000 % 0x1_0000 * 0x100_0000_0000
                  + data / 0x10_0000 % 0x10_0000 * 0x10_0000 + data % 0x10_0000
  {
    var a := data / 0x10_0000;
    var b := a / 0x10_0000;
    assert b == data / 0x100_0000_0000;
    assert b / 0x1_0000 == data / 0x100_0000_0000_0000;
  }

  lemma TileH(data: uint64)
    ensures data == data / 0x400_0000_0000_0000 * 0x400_0000_0000_0000
                  + data / 0x8_0000_0000_0000 % 0x80 * 0x8_0000_0000_0000
                  + data / 0x2000_0000 % 0x40_0000 * 0x2000_0000
                  + data % 0x2000_0000 * 1 + data % 1
    ensures 0 <= data % 0x2000_0000 / 0x1000 < 0x2_0000
  {
    var b := data / 0x2000_0000;
    var c := b / 0x40_0000;
    assert c == data / 0x8_0000_0000_0000;
    assert c / 0x80 == data / 0x400_0000_0000_0000;
  }

  lemma TileL(data: uint64)
    ensures data == data / 0x400_0000_0000_0000 * 0x400_0000_0000_0000
                  + data / 0x8_0000_0000_0000 % 0x80 * 0x8_0000_0000_0000
                  + data / 0x8_0000_0000 % 0x1_0000 * 0x8_0000_0000
                  + data / 0x1_0000 % 0x8_0000 * 0x1_0000 + data % 0x1_0000
    ensures data / 0x4_0000 % 0x2_0000 == data / 0x1_0000 % 0x8_0000 / 4
  {
    var a := data / 0x1_0000;
    var b := a / 0x8_0000;
    var c := b / 0x1_0000;
    assert b == data / 0x8_0000_0000;
    assert c == data / 0x8_0000_0000_0000;
    assert c / 0x80 == data / 0x400_0000_0000_0000;
    assert data / 0x4_0000 == a / 4;
  }

  lemma TileLV3(data: uint64)
    ensures data == data / 0x400_0000_0000_0000 * 0x400_0000_0000_0000
                  + data / 0x4_0000_0000_0000 % 0x100 * 0x4_0000_0000_0000
                  + data / 0x4_0000_0000 % 0x1_0000 * 0x4_0000_0000
                  + data / 0x8000 % 0x8_0000 * 0x8000 + data % 0x8000
    ensures data / 0x2_0000 % 0x2_0000 == data / 0x8000 % 0x8_0000 / 4
  {
    var a := data / 0x8000;
    var b := a / 0x8_0000;
    var c := b / 0x1_0000;
    assert b == data / 0x4_0000_0000;
    assert c == data / 0x4_0000_0000_0000;
    assert c / 0x100 == data / 0x400_0000_0000_0000;
    assert data / 0x2_0000 == a / 4;
  }

  // ----- the dispatch on the kind of module -----

  /** The decoder `Mark` picks for a module kind; a word of an unknown kind is ignored. */
  function Unpack(femType: uint32, data: uint64): Tdc64 {
    if femType == TDC64H then UnpackH(data)
    else if femType == TDC64L then UnpackL(data)
    else if femType == TDC64H_V3 then UnpackHV3(data)
    else if femType == TDC64L_V3 then UnpackLV3(data)
    else Blank(-1)
  }

  /** Every leading-edge time fits the time region that is 2^17 long. */
  lemma CoarseTimeFits(femType: uint32, data: uint64)
    requires Unpack(femType, data).kind == T_TDC
    ensures 0 <= Unpack(femType, data).tdc4n < 0x2_0000
    ensures Unpack(femType, data).tdc4n
         == Unpack(femType, data).tdc / (if femType == TDC64H || femType == TDC64H_V3 then 4096 else 4)
    ensures 0 <= Unpack(femType, data).ch < 256
  {
    if femType == TDC64H { UnpackHReads(data); }
    else if femType == TDC64L { UnpackLReads(data); }
    else if femType == TDC64H_V3 { UnpackHV3Reads(data); }
    else if femType == TDC64L_V3 { UnpackLV3Reads(data); }
  }

  // ----- leading edges, read off the raw word -----

  /** The top six bits say leading edge, and the channel bits of this kind of module say ch. */
  predicate IsEdge(femType: uint32, word: uint64, ch: int) {
    && word / 0x400_0000_0000_0000 == 0x0b
    && if femType == TDC64H || femType == TDC64L || femType == TDC64H_V3 then word / 0x8_0000_0000_0000 % 128 == ch
       else femType == TDC64L_V3 && word / 0x4_0000_0000_0000 % 256 == ch
  }

  /** The coarse time of a leading edge: the 17 highest of its time bits. */
  function EdgeTime(femType: uint32, word: uint64): int {
    if femType == TDC64H || femType == TDC64H_V3 then word % 0x2000_0000 / 4096
    else if femType == TDC64L then word % 0x8_0000_0000 / 0x4_0000
    else word % 0x4_0000_0000 / 0x2_0000
  }

  /** The decoder picked for the module finds exactly these edges, at these times. */
  lemma EdgeIsDecoded(femType: uint32, word: uint64, ch: int)
    ensures IsEdge(femType, word, ch) <==> Unpack(femType, word).kind == T_TDC && Unpack(femType, word).ch == ch
    ensures IsEdge(femType, word, ch) ==> Unpack(femType, word).tdc4n == EdgeTime(femType, word)
  {
    KindIsTop(word);
    if Kind(word) == T_TDC {
      if femType == TDC64H || femType == TDC64H_V3 {
        HighResolutionFields(word);
      } else if femType == TDC64L {
        EdgeOfL(word);
      } else if femType == TDC64L_V3 {
        EdgeOfLV3(word);
      }
    }
  }

  lemma EdgeOfL(word: uint64)
    requires Kind(word) == T_TDC
    ensures UnpackL(word).ch == word / 0x8_0000_0000_0000 % 128
    ensures UnpackL(word).tdc4n == word % 0x8_0000_0000 / 0x4_0000
  {
    Powers64();
    FieldValue(word, 0x03f8_0000_0000_0000, 7, 51);
    FieldValue(word, 0x0000_0007_fffc_0000, 17, 18);
    LowPartL(word);
  }

  lemma EdgeOfLV3(word: uint64)
    requires Kind(word) == T_TDC
    ensures UnpackLV3(word).ch == word / 0x4_0000_0000_0000 % 256
    ensures UnpackLV3(word).tdc4n == word % 0x4_0000_0000 / 0x2_0000
  {
    Powers64();
    FieldValue(word, 0x03fc_0000_0000_0000, 8, 50);
    FieldValue(word, 0x0000_0003_fffe_0000, 17, 17);
    LowPartLV3(word);
  }

  lemma LowPartL(word: nat)
    ensures word / 0x4_0000 % 0x2_0000 == word % 0x8_0000_0000 / 0x4_0000
  {
    var q, r, low := word / 0x4_0000 / 0x2_0000, word / 0x4_0000 % 0x2_0000, word % 0x4_0000;
    assert word == 0x8_0000_0000 * q + (0x4_0000 * r + low);
    assert word % 0x8_0000_0000 == 0x4_0000 * r + low;
  }

  lemma LowPartLV3(word: nat)
    ensures word / 0x2_0000 % 0x2_0000 == word % 0x4_0000_0000 / 0x2_0000
  {
    var q, r, low := word / 0x2_0000 / 0x2_0000, word / 0x2_0000 % 0x2_0000, word % 0x2_0000;
    assert word == 0x4_0000_0000 * q + (0x2_0000 * r + low);
    assert word % 0x4_0000_0000 == 0x2_0000 * r + low;
  }
}
