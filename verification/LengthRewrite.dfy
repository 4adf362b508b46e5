/**
 The coincidence filter suppresses messages and then rewrites the nested length fields:
 the length of every sub-time-frame that keeps data, and the length of the time frame.
 */
module LengthRewrite {
  import opened Bits

  datatype Kind = TfHeader | StfHeader | Body

  const STF_HEADER_BYTES := 48
  const TF_HEADER_BYTES := 24

  /** Bytes of the kept messages from j up to the next sub-time-frame header. */
  function KeptFrom(kinds: seq<Kind>, sizes: seq<nat>, flags: seq<bool>, j: nat): nat
    requires |kinds| == |sizes| == |flags|
    decreases |kinds| - j
  {
    if j >= |kinds| || kinds[j] == StfHeader then 0
    else (if flags[j] then sizes[j] else 0) + KeptFrom(kinds, sizes, flags, j + 1)
  }

  /** Bytes of all kept messages from j on. */
  function AllKeptFrom(sizes: seq<nat>, flags: seq<bool>, j: nat): nat
    requires |sizes| == |flags|
    decreases |sizes| - j
  {
    if j >= |sizes| then 0
    else (if flags[j] then sizes[j] else 0) + AllKeptFrom(sizes, flags, j + 1)
  }

  function BytesFrom(sizes: seq<nat>, j: nat): nat
    decreases |sizes| - j
  {
    if j >= |sizes| then 0 else sizes[j] + BytesFrom(sizes, j + 1)
  }

  /** What the rewriting makes of header h, in the source's 32-bit arithmetic. */
  predicate Settled(kinds: seq<Kind>, sizes: seq<nat>, was: seq<bool>, had: seq<nat>, flags: seq<bool>,
                    lengths: seq<nat>, h: nat)
    requires |kinds| == |sizes| == |was| == |had| == |flags| == |lengths| && h < |kinds|
  {
    var kept := KeptFrom(kinds, sizes, was, h + 1);
    && flags[h] == (was[h] && Wrap32(kept) != 0)
    && lengths[h] == if Wrap32(kept) != 0 then Wrap32(STF_HEADER_BYTES + kept) else had[h]
  }

  predicate AllSettled(kinds: seq<Kind>, sizes: seq<nat>, was: seq<bool>, had: seq<nat>, flags: seq<bool>,
                       lengths: seq<nat>)
    requires |kinds| == |sizes| == |was| == |had| == |flags| == |lengths|
  {
    forall h | 0 <= h < |kinds| ::
      if kinds[h] == StfHeader then Settled(kinds, sizes, was, had, flags, lengths, h) else flags[h] == was[h]
  }

  /** The rewriting loops; `tf` is the position of the time-frame header. */
  method Rewrite(kinds: seq<Kind>, sizes: seq<nat>, flagSending: array<bool>, lengths: array<nat>, tf: nat)
    requires |kinds| == |sizes| == flagSending.Length == lengths.Length
    requires tf < |kinds| && kinds[tf] == TfHeader
    modifies flagSending, lengths
    ensures AllSettled(kinds, sizes, old(flagSending[..]), old(lengths[..]), flagSending[..], lengths[..])
    ensures lengths[tf] == Wrap32(AllKeptFrom(sizes, flagSending[..], 0))
    ensures forall h | 0 <= h < |kinds| && kinds[h] != StfHeader && h != tf :: lengths[h] == old(lengths[h])
  {
    ghost var was, had := flagSending[..], lengths[..];
    var ii := 0;
    while ii < |kinds|
      invariant 0 <= ii <= |kinds|
      invariant forall h | 0 <= h < ii && kinds[h] == StfHeader ::
                  Settled(kinds, sizes, was, had, flagSending[..], lengths[..], h)
      invariant forall h | 0 <= h < |kinds| && (h >= ii || kinds[h] != StfHeader) ::
                  flagSending[h] == was[h] && lengths[h] == had[h]
    {
      if kinds[ii] == StfHeader {
        var lenStf, kk := BodyLength(kinds, sizes, flagSending, ii + 1);
        SameKept(kinds, sizes, was, flagSending[..], ii + 1);
        WrapHeader(KeptFrom(kinds, sizes, was, ii + 1));
        if lenStf == 0 {
          flagSending[ii] := false;
        } else {
          lengths[ii] := Wrap32(lenStf + STF_HEADER_BYTES);
        }
        assert Settled(kinds, sizes, was, had, flagSending[..], lengths[..], ii);
        ii := kk;
      } else {
        ii := ii + 1;
      }
    }

    var tfLen := TotalLength(sizes, flagSending);
    ghost var settled := lengths[..];
    lengths[tf] := tfLen;
    forall h | 0 <= h < |kinds| && kinds[h] == StfHeader
      ensures Settled(kinds, sizes, was, had, flagSending[..], lengths[..], h)
    {
      assert Settled(kinds, sizes, was, had, flagSending[..], settled, h);
    }
  }

  /** The loop over all messages. */
  method TotalLength(sizes: seq<nat>, flagSending: array<bool>) returns (tfLen: uint32)
    requires |sizes| == flagSending.Length
    ensures tfLen == Wrap32(AllKeptFrom(sizes, flagSending[..], 0))
  {
    tfLen := 0;
    for i := 0 to |sizes|
      invariant Wrap32(tfLen + AllKeptFrom(sizes, flagSending[..], i)) == Wrap32(AllKeptFrom(sizes, flagSending[..], 0))
    {
      if flagSending[i] {
        WrapAdd(tfLen + sizes[i], AllKeptFrom(sizes, flagSending[..], i + 1));
        tfLen := Wrap32(tfLen + sizes[i]);
      }
    }
  }

  /** The inner loop: the kept bytes up to the next header, and where to go on. */
  method BodyLength(kinds: seq<Kind>, sizes: seq<nat>, flagSending: array<bool>, first: nat)
    returns (lenStf: uint32, kk: nat)
    requires |kinds| == |sizes| == flagSending.Length && first <= |kinds|
    ensures lenStf == Wrap32(KeptFrom(kinds, sizes, flagSending[..], first))
    ensures first <= kk <= |kinds|
    ensures forall j | first <= j < kk :: kinds[j] != StfHeader
  {
    lenStf, kk := 0, first;
    for jj := first to |kinds|
      invariant kk == first
      invariant forall j | first <= j < jj :: kinds[j] != StfHeader
      invariant Wrap32(lenStf + KeptFrom(kinds, sizes, flagSending[..], jj))
             == Wrap32(KeptFrom(kinds, sizes, flagSending[..], first))
    {
      if kinds[jj] == StfHeader {
        kk := jj;
        break;
      } else if flagSending[jj] {
        WrapAdd(lenStf + sizes[jj], KeptFrom(kinds, sizes, flagSending[..], jj + 1));
        lenStf := Wrap32(lenStf + sizes[jj]);
      }
    }
  }

  lemma WrapAdd(x: int, y: int)
    ensures Wrap32(Wrap32(x) + y) == Wrap32(x + y)
  {
  }

  lemma WrapHeader(kept: nat)
    ensures Wrap32(Wrap32(kept) + STF_HEADER_BYTES) == Wrap32(STF_HEADER_BYTES + kept)
  {
    WrapAdd(kept, STF_HEADER_BYTES);
  }

  /** The bytes kept in a body depend on the flags of its messages only. */
  lemma {:induction false} SameKept(kinds: seq<Kind>, sizes: seq<nat>, a: seq<bool>, b: seq<bool>, j: nat)
    requires |kinds| == |sizes| == |a| == |b|
    requires forall h | 0 <= h < |kinds| && kinds[h] != StfHeader :: a[h] == b[h]
    ensures KeptFrom(kinds, sizes, a, j) == KeptFrom(kinds, sizes, b, j)
    decreases |kinds| - j
  {
    if j < |kinds| && kinds[j] != StfHeader { SameKept(kinds, sizes, a, b, j + 1); }
  }

  // ----- what the lengths then mean -----

  /** One time-frame header first, then sub-time-frames; messages are not empty. The flags may be any. */
  ghost predicate WellFormed(kinds: seq<Kind>, sizes: seq<nat>) {
    && |kinds| == |sizes| >= 1
    && kinds[0] == TfHeader && sizes[0] == TF_HEADER_BYTES
    && (|kinds| > 1 ==> kinds[1] == StfHeader)
    && (forall k | 1 <= k < |kinds| :: kinds[k] != TfHeader && sizes[k] > 0)
    && (forall k | 1 <= k < |kinds| && kinds[k] == StfHeader :: sizes[k] == STF_HEADER_BYTES)
  }

  /** Sum of the rewritten lengths of the kept sub-time-frames from j on. */
  function LengthsFrom(kinds: seq<Kind>, flags: seq<bool>, lengths: seq<nat>, j: nat): nat
    requires |kinds| == |flags| == |lengths|
    decreases |kinds| - j
  {
    if j >= |kinds| then 0
    else (if kinds[j] == StfHeader && flags[j] then lengths[j] else 0) + LengthsFrom(kinds, flags, lengths, j + 1)
  }

  /** Header and kept body bytes of the sub-time-frames from j on whose header is kept. */
  function FramesFrom(kinds: seq<Kind>, sizes: seq<nat>, flags: seq<bool>, j: nat): nat
    requires |kinds| == |sizes| == |flags|
    decreases |kinds| - j
  {
    if j >= |kinds| then 0
    else
      (if kinds[j] == StfHeader && flags[j] then STF_HEADER_BYTES + KeptFrom(kinds, sizes, flags, j + 1) else 0)
      + FramesFrom(kinds, sizes, flags, j + 1)
  }

  /** Bytes that are kept although the header of their sub-time-frame is dropped, from j on. */
  function OrphansFrom(kinds: seq<Kind>, sizes: seq<nat>, flags: seq<bool>, j: nat): nat
    requires |kinds| == |sizes| == |flags|
    decreases |kinds| - j
  {
    if j >= |kinds| then 0
    else
      (if kinds[j] == StfHeader && !flags[j] then KeptFrom(kinds, sizes, flags, j + 1) else 0)
      + OrphansFrom(kinds, sizes, flags, j + 1)
  }

  lemma {:induction false} KeptFits(kinds: seq<Kind>, sizes: seq<nat>, flags: seq<bool>, j: nat)
    requires |kinds| == |sizes| == |flags|
    ensures KeptFrom(kinds, sizes, flags, j) <= AllKeptFrom(sizes, flags, j) <= BytesFrom(sizes, j)
    decreases |kinds| - j
  {
    if j < |kinds| { KeptFits(kinds, sizes, flags, j + 1); }
  }

  lemma {:induction false} BytesLater(sizes: seq<nat>, i: nat, j: nat)
    requires i <= j
    ensures BytesFrom(sizes, j) <= BytesFrom(sizes, i)
    decreases |sizes| - i
  {
    if i < j && i < |sizes| { BytesLater(sizes, i + 1, j); }
  }

  /** Some message between header h and the next header is kept. */
  ghost predicate KeepsSome(kinds: seq<Kind>, flags: seq<bool>, h: nat)
    requires |kinds| == |flags|
  {
    exists j | h < j < |kinds| :: flags[j] && InBody(kinds, h, j)
  }

  predicate InBody(kinds: seq<Kind>, h: nat, j: nat) {
    j < |kinds| && forall k | h < k <= j :: kinds[k] != StfHeader
  }

  lemma {:induction false} KeptIffSome(kinds: seq<Kind>, sizes: seq<nat>, flags: seq<bool>, h: nat)
    requires |kinds| == |sizes| == |flags| && h < |kinds|
    requires forall k | h < k < |kinds| :: sizes[k] > 0
    ensures KeptFrom(kinds, sizes, flags, h + 1) > 0 <==> KeepsSome(kinds, flags, h)
    decreases |kinds| - h
  {
    if h + 1 < |kinds| && kinds[h + 1] != StfHeader {
      KeptIffSome(kinds, sizes, flags, h + 1);
      if flags[h + 1] { assert InBody(kinds, h, h + 1); }
      forall j | h + 1 < j < |kinds| ensures InBody(kinds, h, j) == InBody(kinds, h + 1, j) {}
    } else if h + 1 < |kinds| {
      forall j | h < j < |kinds| ensures !InBody(kinds, h, j) {
        assert kinds[h + 1] == StfHeader;
      }
    }
  }

  /**
   For any flags and sizes: a header stays exactly when it was flagged and the bytes kept in its
   body are not a multiple of 2^32, and then its length is header plus kept messages modulo 2^32.
   */
  lemma HeaderValues(kinds: seq<Kind>, sizes: seq<nat>, was: seq<bool>, had: seq<nat>,
                     flags: seq<bool>, lengths: seq<nat>, h: nat)
    requires |kinds| == |sizes| == |was| == |had| == |flags| == |lengths|
    requires AllSettled(kinds, sizes, was, had, flags, lengths)
    requires h < |kinds| && kinds[h] == StfHeader
    ensures flags[h] <==> was[h] && Wrap32(KeptFrom(kinds, sizes, flags, h + 1)) != 0
    ensures flags[h] ==> lengths[h] == Wrap32(STF_HEADER_BYTES + KeptFrom(kinds, sizes, flags, h + 1))
    ensures KeptFrom(kinds, sizes, was, h + 1) == KeptFrom(kinds, sizes, flags, h + 1)
  {
    assert Settled(kinds, sizes, was, had, flags, lengths, h);
    SameKept(kinds, sizes, was, flags, h + 1);
  }

  /**
   Below 2^32 bytes, for any flags: a header stays exactly when it was flagged and some of its
   messages is kept, and a kept sub-time-frame's length is its header plus its kept messages. So
   "dropped exactly when nothing of its body is kept" holds exactly when the header was flagged or
   had nothing to keep.
   */
  lemma HeaderLengths(kinds: seq<Kind>, sizes: seq<nat>, was: seq<bool>, had: seq<nat>,
                      flags: seq<bool>, lengths: seq<nat>, h: nat)
    requires WellFormed(kinds, sizes) && |was| == |had| == |flags| == |lengths| == |kinds|
    requires BytesFrom(sizes, 0) < TWO32 && AllSettled(kinds, sizes, was, had, flags, lengths)
    requires h < |kinds| && kinds[h] == StfHeader
    ensures flags[h] <==> was[h] && KeepsSome(kinds, flags, h)
    ensures flags[h] ==> lengths[h] == STF_HEADER_BYTES + KeptFrom(kinds, sizes, flags, h + 1)
    ensures KeepsSome(kinds, flags, h) <==> KeepsSome(kinds, was, h)
    ensures (flags[h] <==> KeepsSome(kinds, flags, h)) <==> (was[h] || !KeepsSome(kinds, was, h))
  {
    HeaderKept(kinds, sizes, was, had, flags, lengths, h);
    KeptIffSome(kinds, sizes, flags, h);
    KeptIffSome(kinds, sizes, was, h);
  }

  lemma HeaderKept(kinds: seq<Kind>, sizes: seq<nat>, was: seq<bool>, had: seq<nat>,
                   flags: seq<bool>, lengths: seq<nat>, h: nat)
    requires WellFormed(kinds, sizes) && |was| == |had| == |flags| == |lengths| == |kinds|
    requires BytesFrom(sizes, 0) < TWO32 && AllSettled(kinds, sizes, was, had, flags, lengths)
    requires h < |kinds| && kinds[h] == StfHeader
    ensures KeptFrom(kinds, sizes, was, h + 1) == KeptFrom(kinds, sizes, flags, h + 1)
    ensures flags[h] <==> was[h] && KeptFrom(kinds, sizes, flags, h + 1) > 0
    ensures flags[h] ==> lengths[h] == STF_HEADER_BYTES + KeptFrom(kinds, sizes, flags, h + 1)
  {
    var kept := KeptFrom(kinds, sizes, flags, h + 1);
    assert STF_HEADER_BYTES + kept < TWO32 by { HeaderFits(kinds, sizes, flags, h); }
    Small(kept);
    Small(STF_HEADER_BYTES + kept);
    HeaderValues(kinds, sizes, was, had, flags, lengths, h);
  }

  lemma Small(x: nat)
    requires x < TWO32
    ensures Wrap32(x) == x
  {
  }

  lemma HeaderFits(kinds: seq<Kind>, sizes: seq<nat>, flags: seq<bool>, h: nat)
    requires |kinds| == |sizes| == |flags| && h < |kinds| && sizes[h] == STF_HEADER_BYTES
    requires BytesFrom(sizes, 0) < TWO32
    ensures STF_HEADER_BYTES + KeptFrom(kinds, sizes, flags, h + 1) < TWO32
  {
    KeptFits(kinds, sizes, flags, h + 1);
    BytesLater(sizes, 0, h);
  }

  /** All kept bytes are those of the open body, of the kept sub-time-frames and the orphans. */
  lemma {:induction false} BytesAddUp(kinds: seq<Kind>, sizes: seq<nat>, flags: seq<bool>, j: nat)
    requires WellFormed(kinds, sizes) && |flags| == |kinds| && 1 <= j
    ensures AllKeptFrom(sizes, flags, j) ==
      KeptFrom(kinds, sizes, flags, j) + FramesFrom(kinds, sizes, flags, j) + OrphansFrom(kinds, sizes, flags, j)
    decreases |kinds| - j
  {
    if j < |kinds| { BytesAddUp(kinds, sizes, flags, j + 1); }
  }

  /** The rewritten lengths are those of the kept sub-time-frames, modulo 2^32. */
  lemma {:induction false} LengthsAddUp(kinds: seq<Kind>, sizes: seq<nat>, was: seq<bool>, had: seq<nat>,
                                        flags: seq<bool>, lengths: seq<nat>, j: nat)
    requires |kinds| == |sizes| == |was| == |had| == |flags| == |lengths|
    requires AllSettled(kinds, sizes, was, had, flags, lengths)
    ensures Wrap32(LengthsFrom(kinds, flags, lengths, j)) == Wrap32(FramesFrom(kinds, sizes, flags, j))
    ensures BytesFrom(sizes, 0) < TWO32 && WellFormed(kinds, sizes) ==>
      LengthsFrom(kinds, flags, lengths, j) == FramesFrom(kinds, sizes, flags, j)
    decreases |kinds| - j
  {
    if j < |kinds| {
      LengthsAddUp(kinds, sizes, was, had, flags, lengths, j + 1);
      if kinds[j] == StfHeader && flags[j] {
        HeaderValues(kinds, sizes, was, had, flags, lengths, j);
        var one := STF_HEADER_BYTES + KeptFrom(kinds, sizes, flags, j + 1);
        WrapSum(one, LengthsFrom(kinds, flags, lengths, j + 1), FramesFrom(kinds, sizes, flags, j + 1));
        if BytesFrom(sizes, 0) < TWO32 && WellFormed(kinds, sizes) { HeaderFits(kinds, sizes, flags, j); }
      }
    }
  }

  lemma WrapSum(x: nat, y: nat, z: nat)
    requires Wrap32(y) == Wrap32(z)
    ensures Wrap32(Wrap32(x) + y) == Wrap32(x + z)
  {
    WrapAdd(x, y);
    WrapAdd(y, x);
    WrapAdd(z, x);
  }

  /**
   For any flags and sizes: the time frame's length is, modulo 2^32, its header plus the lengths of
   the kept sub-time-frames exactly when the orphaned bytes are a multiple of 2^32.
   */
  lemma FrameLengthModulo(kinds: seq<Kind>, sizes: seq<nat>, was: seq<bool>, had: seq<nat>,
                          flags: seq<bool>, lengths: seq<nat>)
    requires WellFormed(kinds, sizes) && |was| == |had| == |flags| == |lengths| == |kinds| && was[0]
    requires AllSettled(kinds, sizes, was, had, flags, lengths)
    ensures Wrap32(AllKeptFrom(sizes, flags, 0)) == Wrap32(TF_HEADER_BYTES + LengthsFrom(kinds, flags, lengths, 1))
       <==> Wrap32(OrphansFrom(kinds, sizes, flags, 1)) == 0
  {
    TotalIs(kinds, sizes, flags);
    LengthsAddUp(kinds, sizes, was, had, flags, lengths, 1);
    WrapParts(LengthsFrom(kinds, flags, lengths, 1), FramesFrom(kinds, sizes, flags, 1),
              OrphansFrom(kinds, sizes, flags, 1));
  }

  /** The whole is the time-frame header, the kept sub-time-frames and the orphans. */
  lemma TotalIs(kinds: seq<Kind>, sizes: seq<nat>, flags: seq<bool>)
    requires WellFormed(kinds, sizes) && |flags| == |kinds| && flags[0]
    ensures AllKeptFrom(sizes, flags, 0) ==
      TF_HEADER_BYTES + FramesFrom(kinds, sizes, flags, 1) + OrphansFrom(kinds, sizes, flags, 1)
  {
    BytesAddUp(kinds, sizes, flags, 1);
  }

  lemma WrapParts(lengths: nat, frames: nat, orphans: nat)
    requires Wrap32(lengths) == Wrap32(frames)
    ensures Wrap32(TF_HEADER_BYTES + frames + orphans) == Wrap32(TF_HEADER_BYTES + lengths) <==> Wrap32(orphans) == 0
  {
    WrapAdd(lengths, TF_HEADER_BYTES);
    WrapAdd(frames, TF_HEADER_BYTES);
    WrapApart(TF_HEADER_BYTES + frames, orphans);
  }

  lemma WrapApart(x: nat, y: nat)
    ensures Wrap32(x + y) == Wrap32(x) <==> Wrap32(y) == 0
  {
  }

  /** Header h was flagged for sending, or nothing of its body is kept. */
  ghost predicate HasHeader(kinds: seq<Kind>, was: seq<bool>, h: nat)
    requires |kinds| == |was| && h < |kinds|
  {
    was[h] || !KeepsSome(kinds, was, h)
  }

  /**
   Below 2^32 bytes, for any flags: the time frame's length is its header plus the lengths of the
   kept sub-time-frames exactly when no message is kept under a header that was not flagged.
   */
  lemma FrameLength(kinds: seq<Kind>, sizes: seq<nat>, was: seq<bool>, had: seq<nat>,
                    flags: seq<bool>, lengths: seq<nat>)
    requires WellFormed(kinds, sizes) && |was| == |had| == |flags| == |lengths| == |kinds| && was[0]
    requires BytesFrom(sizes, 0) < TWO32 && AllSettled(kinds, sizes, was, had, flags, lengths)
    ensures Wrap32(AllKeptFrom(sizes, flags, 0)) == TF_HEADER_BYTES + LengthsFrom(kinds, flags, lengths, 1)
       <==> forall h | 0 <= h < |kinds| && kinds[h] == StfHeader :: HasHeader(kinds, was, h)
  {
    FrameBytes(kinds, sizes, was, had, flags, lengths);
    NoOrphansIff(kinds, sizes, was, had, flags, lengths, 1);
    assert kinds[0] != StfHeader;
  }

  lemma FrameBytes(kinds: seq<Kind>, sizes: seq<nat>, was: seq<bool>, had: seq<nat>,
                   flags: seq<bool>, lengths: seq<nat>)
    requires WellFormed(kinds, sizes) && |was| == |had| == |flags| == |lengths| == |kinds| && was[0]
    requires BytesFrom(sizes, 0) < TWO32 && AllSettled(kinds, sizes, was, had, flags, lengths)
    ensures Wrap32(AllKeptFrom(sizes, flags, 0)) ==
      TF_HEADER_BYTES + LengthsFrom(kinds, flags, lengths, 1) + OrphansFrom(kinds, sizes, flags, 1)
  {
    TotalIs(kinds, sizes, flags);
    LengthsAddUp(kinds, sizes, was, had, flags, lengths, 1);
    KeptFits(kinds, sizes, flags, 0);
    Small(AllKeptFrom(sizes, flags, 0));
  }

  lemma {:induction false} NoOrphansIff(kinds: seq<Kind>, sizes: seq<nat>, was: seq<bool>, had: seq<nat>,
                                        flags: seq<bool>, lengths: seq<nat>, j: nat)
    requires WellFormed(kinds, sizes) && |was| == |had| == |flags| == |lengths| == |kinds|
    requires BytesFrom(sizes, 0) < TWO32 && AllSettled(kinds, sizes, was, had, flags, lengths)
    ensures OrphansFrom(kinds, sizes, flags, j) == 0
       <==> forall h | j <= h < |kinds| && kinds[h] == StfHeader :: HasHeader(kinds, was, h)
    decreases |kinds| - j
  {
    if j < |kinds| {
      NoOrphansIff(kinds, sizes, was, had, flags, lengths, j + 1);
      if kinds[j] == StfHeader {
        HeaderKept(kinds, sizes, was, had, flags, lengths, j);
        KeptIffSome(kinds, sizes, was, j);
      }
    }
  }
}
