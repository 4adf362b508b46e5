/**
 The event buffer: channels of 32-bit samples are written into one byte buffer through a
 moving pointer, and a second walk over the bytes finds the same channels again.
 */
module EventBuffer {
  import opened Bits

  type byte = x: int | 0 <= x < 256

  const EVENT_HEADER := 20
  const CHANNEL_HEADER := 12
  const EV_MAGIC: uint32 := 0xffff_fffe

  /** The little-endian word at a byte position. */
  function Get32(s: seq<byte>, at: nat): uint32
    requires at + 4 <= |s|
  {
    s[at] as int + 0x100 * s[at + 1] as int + 0x1_0000 * s[at + 2] as int + 0x100_0000 * s[at + 3] as int
  }

  /** `0xaa000000 | (i & 0xffff)`. */
  function Name(i: nat): (n: uint32)
    ensures n == 0xaa00_0000 + i % 0x1_0000
  {
    LowOr(0xaa00, i);
    BitOr(0xaa00_0000, BitAnd(i, 0xffff))
  }

  lemma LowOr(high: nat, i: nat)
    ensures BitOr(high * 0x1_0000, BitAnd(i, 0xffff)) == high * 0x1_0000 + i % 0x1_0000
  {
    Powers();
    MaskIsLow(i, 16);
    LowIsMod(i, 16);
    ShlIsTimes(high, 16);
    OrAboveLow(high, i % 0x1_0000, 16);
  }

  /** Or-ing a number below 2^n to a multiple of 2^n adds it. */
  lemma {:induction false} OrAboveLow(high: nat, low: nat, n: nat)
    requires low < Pow2(n)
    ensures BitOr(Shl(high, n), low) == Shl(high, n) + low
  {
    if n == 0 {
      assert low == 0;
      OrZero(high);
    } else if Shl(high, n) != 0 {
      OrAboveLow(high, low / 2, n - 1);
    }
  }

  // ----- the layout, as words -----

  function BodySize(data: seq<seq<uint32>>): nat {
    if data == [] then 0 else BodySize(data[..|data| - 1]) + CHANNEL_HEADER + 4 * |data[|data| - 1]|
  }

  /** The sizes are computed in `int`. */
  predicate Fits(data: seq<seq<uint32>>) {
    EVENT_HEADER + BodySize(data) < 0x8000_0000
  }

  function ChannelHead(i: nat, n: nat): seq<uint32>
    requires 4 * n < TWO32
  {
    [Name(i), 4, 4 * n]
  }

  function Channels(data: seq<seq<uint32>>): (s: seq<uint32>)
    requires Fits(data)
    ensures 4 * |s| == BodySize(data)
  {
    if data == [] then []
    else
      var i := |data| - 1;
      Channels(data[..i]) + ChannelHead(i, |data[i]|) + data[i]
  }

  function Header(id: uint32, index: uint32, kind: uint32, size: uint32): (s: seq<uint32>)
    ensures |s| == 5
  {
    [EV_MAGIC, id, index, kind, size]
  }

  function Layout(data: seq<seq<uint32>>, id: uint32, index: uint32, kind: uint32): seq<uint32>
    requires Fits(data)
  {
    Header(id, index, kind, BodySize(data)) + Channels(data)
  }

  /** The buffer begins with these words. */
  predicate Holds(s: seq<byte>, ws: seq<uint32>) {
    4 * |ws| <= |s| && forall j: nat | j < |ws| :: Get32(s, 4 * j) == ws[j]
  }

  /** Two buffers of one length that hold the same words throughout are equal. */
  lemma WordsFixBytes(s: seq<byte>, t: seq<byte>, ws: seq<uint32>)
    requires |s| == |t| == 4 * |ws| && Holds(s, ws) && Holds(t, ws)
    ensures s == t
  {
    forall k | 0 <= k < |s|
      ensures s[k] == t[k]
    {
      var j := k / 4;
      assert Get32(s, 4 * j) == ws[j] == Get32(t, 4 * j);
      SameFour(s, t, 4 * j);
      assert k == 4 * j || k == 4 * j + 1 || k == 4 * j + 2 || k == 4 * j + 3;
    }
  }

  lemma SameFour(s: seq<byte>, t: seq<byte>, at: nat)
    requires at + 4 <= |s| == |t| && Get32(s, at) == Get32(t, at)
    ensures s[at] == t[at] && s[at + 1] == t[at + 1] && s[at + 2] == t[at + 2] && s[at + 3] == t[at + 3]
  {
    FourDigits(s[at], s[at + 1], s[at + 2], s[at + 3], t[at], t[at + 1], t[at + 2], t[at + 3]);
  }

  lemma FourDigits(a: int, b: int, c: int, d: int, e: int, f: int, g: int, h: int)
    requires 0 <= a < 0x100 && 0 <= b < 0x100 && 0 <= c < 0x100 && 0 <= e < 0x100 && 0 <= f < 0x100 && 0 <= g < 0x100
    requires a + 0x100 * b + 0x1_0000 * c + 0x100_0000 * d == e + 0x100 * f + 0x1_0000 * g + 0x100_0000 * h
    ensures a == e && b == f && c == g && d == h
  {
    Digit(a, e, b + 0x100 * c + 0x1_0000 * d, f + 0x100 * g + 0x1_0000 * h);
    Digit(b, f, c + 0x100 * d, g + 0x100 * h);
    Digit(c, g, d, h);
  }

  lemma Digit(x: int, y: int, p: int, q: int)
    requires 0 <= x < 0x100 && 0 <= y < 0x100 && x + 0x100 * p == y + 0x100 * q
    ensures x == y && p == q
  {
  }

  lemma {:induction false} PrefixFits(data: seq<seq<uint32>>, i: nat)
    requires i <= |data| && Fits(data)
    ensures Fits(data[..i]) && BodySize(data[..i]) <= BodySize(data)
    decreases |data|
  {
    if i < |data| {
      PrefixFits(data[..|data| - 1], i);
      assert data[..|data| - 1][..i] == data[..i];
    } else {
      assert data[..i] == data;
    }
  }

  lemma NextFits(data: seq<seq<uint32>>, i: nat)
    requires i < |data| && Fits(data)
    ensures Fits(data[..i]) && Fits(data[..i + 1]) && 4 * |data[i]| < TWO32
    ensures BodySize(data[..i + 1]) == BodySize(data[..i]) + CHANNEL_HEADER + 4 * |data[i]| <= BodySize(data)
    ensures Channels(data[..i + 1]) == Channels(data[..i]) + ChannelHead(i, |data[i]|) + data[i]
  {
    PrefixFits(data, i);
    PrefixFits(data, i + 1);
    assert data[..i + 1][..i] == data[..i];
  }

  // ----- writing through a moving pointer -----

  /** Stores word number k; the words before it, and those of `ws` after it, stay. */
  method Put32(buf: array<byte>, at: nat, v: uint32, ghost ws: seq<uint32>, ghost k: nat)
    requires at == 4 * k && k <= |ws| && at + 4 <= buf.Length
    requires Holds(buf[..], ws)
    modifies buf
    ensures Holds(buf[..], if k < |ws| then ws[k := v] else ws + [v])
  {
    var b := LittleEndian(v);
    ghost var was := buf[..];
    buf[at], buf[at + 1], buf[at + 2], buf[at + 3] := b[0], b[1], b[2], b[3];
    StoreSets(was, buf[..], ws, k, b);
  }

  function LittleEndian(v: uint32): (b: seq<byte>)
    ensures |b| == 4 && Get32(b, 0) == v
  {
    var (q1, q2, q3) := (v / 0x100, v / 0x100 / 0x100, v / 0x100 / 0x100 / 0x100);
    [v - 0x100 * q1, q1 - 0x100 * q2, q2 - 0x100 * q3, q3]
  }

  lemma StoreSets(was: seq<byte>, now: seq<byte>, ws: seq<uint32>, k: nat, b: seq<byte>)
    requires Holds(was, ws) && k <= |ws| && 4 * k + 4 <= |was| && |b| == 4
    requires now == was[4 * k := b[0]][4 * k + 1 := b[1]][4 * k + 2 := b[2]][4 * k + 3 := b[3]]
    ensures Holds(now, if k < |ws| then ws[k := Get32(b, 0)] else ws + [Get32(b, 0)])
  {
    assert Get32(now, 4 * k) == Get32(b, 0);
    forall j: nat | j < |ws| && j != k
      ensures Get32(now, 4 * j) == ws[j]
    {
      assert Get32(was, 4 * j) == ws[j];
    }
  }

  /** `memcpy` of a channel's samples. */
  method Memcpy(buf: array<byte>, at: nat, from: seq<uint32>, ghost ws: seq<uint32>)
    requires at == 4 * |ws| && at + 4 * |from| <= buf.Length
    requires Holds(buf[..], ws)
    modifies buf
    ensures Holds(buf[..], ws + from)
  {
    ghost var now := ws;
    for k := 0 to |from|
      invariant now == ws + from[..k] && Holds(buf[..], now)
    {
      Put32(buf, at + 4 * k, from[k], now, |ws| + k);
      now := now + [from[k]];
    }
    assert from[..|from|] == from;
  }

  method PutChannel(buf: array<byte>, at: nat, i: nat, from: seq<uint32>, ghost ws: seq<uint32>) returns (next: nat)
    requires at == 4 * |ws| && at + CHANNEL_HEADER + 4 * |from| <= buf.Length && 4 * |from| < TWO32
    requires Holds(buf[..], ws)
    modifies buf
    ensures next == at + CHANNEL_HEADER + 4 * |from|
    ensures Holds(buf[..], ws + ChannelHead(i, |from|) + from)
  {
    ghost var n := |ws|;
    Put32(buf, at, Name(i), ws, n);
    Put32(buf, at + 4, 4, ws + [Name(i)], n + 1);
    assert ws + [Name(i)] + [4] == ws + [Name(i), 4];
    Put32(buf, at + 8, 4 * |from|, ws + [Name(i), 4], n + 2);
    assert ws + [Name(i), 4] + [4 * |from|] == ws + ChannelHead(i, |from|);
    Memcpy(buf, at + CHANNEL_HEADER, from, ws + ChannelHead(i, |from|));
    next := at + CHANNEL_HEADER + 4 * |from|;
  }

  method PutHeader(buf: array<byte>, id: uint32, index: uint32, kind: uint32)
    requires EVENT_HEADER <= buf.Length
    modifies buf
    ensures Holds(buf[..], Header(id, index, kind, 0))
  {
    Put32(buf, 0, EV_MAGIC, [], 0);
    Put32(buf, 4, id, [EV_MAGIC], 1);
    Put32(buf, 8, index, [EV_MAGIC, id], 2);
    Put32(buf, 12, kind, [EV_MAGIC, id, index], 3);
    Put32(buf, 16, 0, [EV_MAGIC, id, index, kind], 4);
    assert [EV_MAGIC, id, index, kind] + [0] == Header(id, index, kind, 0);
  }

  method EventSize(data: seq<seq<uint32>>) returns (eventSize: nat)
    ensures eventSize == EVENT_HEADER + BodySize(data)
  {
    eventSize := EVENT_HEADER;
    for i := 0 to |data|
      invariant eventSize == EVENT_HEADER + BodySize(data[..i])
    {
      assert data[..i + 1][..i] == data[..i];
      eventSize := eventSize + CHANNEL_HEADER;
      eventSize := eventSize + 4 * |data[i]|;
    }
    assert data[..|data|] == data;
  }

  /** Every store stays inside the buffer, and the size computed first is the size written. */
  method MakeEventBuffer(data: seq<seq<uint32>>, id: uint32, index: uint32, kind: uint32)
    returns (buf: array<byte>, bufSize: nat)
    requires Fits(data)
    ensures fresh(buf) && bufSize == buf.Length == 4 * |Layout(data, id, index, kind)|
    ensures Holds(buf[..], Layout(data, id, index, kind))
    ensures bufSize >= 20 && HeaderIs(buf[..], id, index, kind, bufSize - 20)
  {
    var eventSize := EventSize(data);
    buf := new byte[eventSize];
    PutHeader(buf, id, index, kind);
    var pdata := EVENT_HEADER;
    ghost var h := Header(id, index, kind, 0);
    assert h + Channels(data[..0]) == h;
    for i := 0 to |data|
      invariant Fits(data[..i]) && pdata == EVENT_HEADER + BodySize(data[..i])
      invariant Holds(buf[..], h + Channels(data[..i]))
    {
      NextFits(data, i);
      pdata := PutChannel(buf, pdata, i, data[i], h + Channels(data[..i]));
      Regroup(h, Channels(data[..i]), ChannelHead(i, |data[i]|), data[i]);
    }
    assert data[..|data|] == data;
    Put32(buf, 16, pdata - EVENT_HEADER, h + Channels(data), 4);
    assert (h + Channels(data))[4 := BodySize(data)] == Layout(data, id, index, kind);
    assert eventSize == pdata;
    bufSize := eventSize;
    HeaderFound(buf[..], data, id, index, kind);
  }

  /** The five words at the front: magic, id, heartbeat number, type, and the bytes that follow. */
  predicate HeaderIs(s: seq<byte>, id: uint32, index: uint32, kind: uint32, size: int) {
    && |s| >= 20
    && Get32(s, 0) == 0xffff_fffe && Get32(s, 4) == id && Get32(s, 8) == index && Get32(s, 12) == kind
    && Get32(s, 16) == size
  }

  lemma HeaderFound(s: seq<byte>, data: seq<seq<uint32>>, id: uint32, index: uint32, kind: uint32)
    requires Fits(data) && Holds(s, Layout(data, id, index, kind))
    ensures HeaderIs(s, id, index, kind, BodySize(data))
  {
    var ws := Layout(data, id, index, kind);
    assert Get32(s, 4 * 0) == ws[0] && Get32(s, 4 * 1) == ws[1] && Get32(s, 4 * 2) == ws[2];
    assert Get32(s, 4 * 3) == ws[3] && Get32(s, 4 * 4) == ws[4];
  }

  lemma Regroup(a: seq<uint32>, b: seq<uint32>, c: seq<uint32>, d: seq<uint32>)
    ensures a + b + c + d == a + (b + c + d)
  {
  }

  // ----- reading it back -----

  /** Where channel i starts. */
  function Offset(data: seq<seq<uint32>>, i: nat): nat
    requires i <= |data|
  {
    EVENT_HEADER + BodySize(data[..i])
  }

  /** The words of channel i stand behind those of the channels before it. */
  lemma {:induction false} ChannelAt(data: seq<seq<uint32>>, i: nat) returns (post: seq<uint32>)
    requires i < |data| && Fits(data)
    ensures 4 * |data[i]| < TWO32 && Fits(data[..i])
    ensures Channels(data) == Channels(data[..i]) + ChannelHead(i, |data[i]|) + data[i] + post
    decreases |data|
  {
    NextFits(data, i);
    var n := |data| - 1;
    if i < n {
      NextFits(data, n);
      var front := data[..n];
      assert front[..i] == data[..i];
      var more := ChannelAt(front, i);
      assert data[..n + 1] == data;
      post := more + ChannelHead(n, |data[n]|) + data[n];
      Rejoin(Channels(data[..i]) + ChannelHead(i, |data[i]|) + data[i], more, ChannelHead(n, |data[n]|), data[n]);
    } else {
      post := [];
      assert data[..i + 1] == data;
    }
  }

  lemma Rejoin(a: seq<uint32>, b: seq<uint32>, c: seq<uint32>, d: seq<uint32>)
    ensures (a + b) + c + d == a + (b + c + d)
  {
  }

  /** At `at` the buffer holds channel i with samples ws: name, unit size, byte count and every sample. */
  predicate Finds(s: seq<byte>, at: nat, i: nat, ws: seq<uint32>) {
    && at + CHANNEL_HEADER + 4 * |ws| <= |s|
    && Get32(s, at) == Name(i) && Get32(s, at + 4) == 4 && Get32(s, at + 8) == 4 * |ws|
    && forall j: nat | j < |ws| :: Get32(s, at + CHANNEL_HEADER + 4 * j) == ws[j]
  }

  lemma HeldIsFound(s: seq<byte>, pre: seq<uint32>, i: nat, ws: seq<uint32>, post: seq<uint32>)
    requires 4 * |ws| < TWO32 && Holds(s, pre + ChannelHead(i, |ws|) + ws + post)
    ensures Finds(s, 4 * |pre|, i, ws)
  {
    var all, n := pre + ChannelHead(i, |ws|) + ws + post, |pre|;
    assert Get32(s, 4 * n) == all[n] && Get32(s, 4 * (n + 1)) == all[n + 1] && Get32(s, 4 * (n + 2)) == all[n + 2];
    forall j: nat | j < |ws|
      ensures Get32(s, 4 * n + CHANNEL_HEADER + 4 * j) == ws[j]
    {
      assert Get32(s, 4 * (n + 3 + j)) == all[n + 3 + j] == ws[j];
    }
  }

  lemma Shift(h: seq<uint32>, a: seq<uint32>, b: seq<uint32>, c: seq<uint32>, d: seq<uint32>)
    ensures h + (a + b + c + d) == (h + a) + b + c + d
  {
  }

  lemma ChannelFound(s: seq<byte>, data: seq<seq<uint32>>, id: uint32, index: uint32, kind: uint32, i: nat)
    requires i < |data| && Fits(data) && Holds(s, Layout(data, id, index, kind))
    ensures Finds(s, Offset(data, i), i, data[i])
  {
    var post := ChannelAt(data, i);
    var h, c := Header(id, index, kind, BodySize(data)), Channels(data[..i]);
    Shift(h, c, ChannelHead(i, |data[i]|), data[i], post);
    HeldIsFound(s, h + c, i, data[i], post);
  }

  /** The walk of the reader: the position of every channel it finds. */
  method EvbufToPch(buf: array<byte>, ghost data: seq<seq<uint32>>, ghost id: uint32, ghost index: uint32,
                    ghost kind: uint32)
    returns (chevent: seq<nat>, nch: nat)
    requires Fits(data) && Holds(buf[..], Layout(data, id, index, kind))
    ensures nch == |chevent| == |data|
    ensures forall i | 0 <= i < nch :: Finds(buf[..], chevent[i], i, data[i])
  {
    ghost var s := buf[..];
    TotalAt(s, data, id, index, kind);
    var totalSize := Get32(buf[..], 16);
    var chTop := EVENT_HEADER;
    var cch := chTop;
    chevent, nch := [], 0;
    while cch - chTop < totalSize
      invariant nch == |chevent| <= |data|
      invariant cch == Offset(data, nch)
      invariant forall i | 0 <= i < nch :: Finds(s, chevent[i], i, data[i])
      decreases |data| - nch
    {
      WalkStep(s, data, id, index, kind, nch);
      var size := Get32(buf[..], cch + 8);
      chevent := chevent + [cch];
      cch := cch + (size + CHANNEL_HEADER);
      nch := nch + 1;
    }
    AllOnlyAtEnd(data, nch);
  }

  lemma TotalAt(s: seq<byte>, data: seq<seq<uint32>>, id: uint32, index: uint32, kind: uint32)
    requires Fits(data) && Holds(s, Layout(data, id, index, kind))
    ensures |s| >= EVENT_HEADER && Get32(s, 16) == BodySize(data)
  {
    assert Get32(s, 4 * 4) == Layout(data, id, index, kind)[4];
  }

  lemma WalkStep(s: seq<byte>, data: seq<seq<uint32>>, id: uint32, index: uint32, kind: uint32, n: nat)
    requires n <= |data| && Fits(data) && Holds(s, Layout(data, id, index, kind))
    requires BodySize(data[..n]) < BodySize(data)
    ensures n < |data| && Finds(s, Offset(data, n), n, data[n])
    ensures Offset(data, n + 1) == Offset(data, n) + Get32(s, Offset(data, n) + 8) + CHANNEL_HEADER
  {
    assert data[..|data|] == data;
    ChannelFound(s, data, id, index, kind, n);
    NextFits(data, n);
  }

  lemma AllOnlyAtEnd(data: seq<seq<uint32>>, n: nat)
    requires n <= |data| && Fits(data) && BodySize(data[..n]) >= BodySize(data)
    ensures n == |data|
  {
    if n < |data| { NextFits(data, n); }
  }

  datatype Event = Event(magic: uint32, id: uint32, hbNumber: uint32, kind: uint32,
                         channels: seq<(uint32, uint32, seq<uint32>)>)

  /** Written and read again: the header, and as many channels, in order, each with name, unit size and samples. */
  method RoundTrip(data: seq<seq<uint32>>, id: uint32, index: uint32, kind: uint32) returns (event: Event)
    requires Fits(data)
    ensures event.magic == 0xffff_fffe && event.id == id && event.hbNumber == index && event.kind == kind
    ensures |event.channels| == |data|
    ensures forall i | 0 <= i < |data| :: event.channels[i] == (0xaa00_0000 + i % 0x1_0000, 4, data[i])
  {
    var buf, _ := MakeEventBuffer(data, id, index, kind);
    var at, nch := EvbufToPch(buf, data, id, index, kind);
    var found := ReadChannels(buf[..], at, data);
    event := Event(Get32(buf[..], 0), Get32(buf[..], 4), Get32(buf[..], 8), Get32(buf[..], 12), found);
  }

  method ReadChannels(s: seq<byte>, at: seq<nat>, ghost data: seq<seq<uint32>>)
    returns (found: seq<(uint32, uint32, seq<uint32>)>)
    requires |at| == |data| && forall k | 0 <= k < |at| :: Finds(s, at[k], k, data[k])
    ensures |found| == |data| && forall k | 0 <= k < |data| :: found[k] == (Name(k), 4, data[k])
  {
    found := [];
    for i := 0 to |at|
      invariant |found| == i && forall k | 0 <= k < i :: found[k] == (Name(k), 4, data[k])
    {
      var c := ReadChannel(s, at[i], i, data[i]);
      found := found + [c];
    }
  }

  /** What a reader of one found channel gets. */
  method ReadChannel(s: seq<byte>, at: nat, ghost i: nat, ghost ws: seq<uint32>)
    returns (c: (uint32, uint32, seq<uint32>))
    requires Finds(s, at, i, ws)
    ensures c == (Name(i), 4, ws)
  {
    var n := Get32(s, at + 8) / Get32(s, at + 4);
    var samples: seq<uint32> := [];
    for j := 0 to n
      invariant |samples| == j && samples == ws[..j]
    {
      samples := samples + [Get32(s, at + CHANNEL_HEADER + 4 * j)];
    }
    assert ws[..n] == ws;
    c := (Get32(s, at), Get32(s, at + 4), samples);
  }

  /** Two channels have the same name exactly when their numbers agree modulo 2^16. */
  lemma NamesCollideIff(i: nat, j: nat)
    ensures Name(i) == Name(j) <==> i % 0x1_0000 == j % 0x1_0000
  {
  }
}
