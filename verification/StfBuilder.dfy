/**
 The sub-time-frame builder: a stream of 40-bit words, cut into messages anywhere, is framed
 at heartbeats and spill ends. The builder works with offsets, slices and leftovers; `Step`
 is the machine that looks at one word at a time.
 */
module StfBuilder {
  import opened Outcomes
  import opened Bits

  type Word = x: int | 0 <= x < 0x100_0000_0000

  const DATA := 0xD
  const HEARTBEAT := 0xF
  const ERROR_RECOVERY := 0xE
  const SPILL_END := 0x4

  const WORD_BYTES := 5
  const STF_HEADER_BYTES := 32

  /** Bits 39 to 36. */
  function Head(w: Word): nat {
    w / 0x10_0000_0000
  }

  predicate IsData(w: Word) { Head(w) == DATA }
  predicate IsHeartbeat(w: Word) { Head(w) == HEARTBEAT || Head(w) == ERROR_RECOVERY }
  predicate IsSpillEnd(w: Word) { Head(w) == SPILL_END }
  predicate IsValid(w: Word) { IsData(w) || IsHeartbeat(w) || IsSpillEnd(w) }

  /** One part of a multipart message; `Null` holds the place of the header. */
  datatype Part =
    | Null
    | Header(timeFrameId: uint32, femId: uint64, length: uint32, numMessages: uint32)
    | Message(words: seq<Word>)

  function Size(p: Part): nat {
    match p
    case Null => 0
    case Header(_, _, _, _) => STF_HEADER_BYTES
    case Message(ws) => WORD_BYTES * |ws|
  }

  function Bytes(ps: seq<Part>): nat {
    if ps == [] then 0 else Bytes(ps[..|ps| - 1]) + Size(ps[|ps| - 1])
  }

  function WordsIn(p: Part): seq<Word> {
    if p.Message? then p.words else []
  }

  /** The words of a list of parts, in order. */
  function Flat(ps: seq<Part>): seq<Word> {
    if ps == [] then [] else Flat(ps[..|ps| - 1]) + WordsIn(ps[|ps| - 1])
  }

  // ----- the machine that reads one word at a time -----

  datatype Config = Config(maxHBF: int, split: int, femId: uint64) {
    ghost predicate Ok() {
      1 <= maxHBF < 0x8000_0000
    }
  }

  datatype State = State(input: seq<Word>, working: Option<seq<Part>>, output: seq<seq<Part>>, hbf: nat, id: uint64)

  function NewDataSpec(s: State): (r: State)
    ensures r.working.Some?
  {
    if s.working.None? then s.(working := Some([Null])) else s
  }

  function Put(s: State, p: Part): (r: State)
    requires s.working.Some?
    ensures r.working.Some? && r.working.value != []
  {
    s.(working := Some(s.working.value + [p]))
  }

  predicate HasFrame(s: State) {
    s.working.Some? && s.working.value != []
  }

  function NextId(id: uint64): uint64 {
    (id + 1) % 0x1_0000_0000_0000_0000
  }

  function FinalizeSpec(c: Config, s: State): State
    requires HasFrame(s)
  {
    var parts := s.working.value;
    var header := Header(Wrap32(s.id), c.femId, Wrap32(STF_HEADER_BYTES + Bytes(parts)), Wrap32(|parts|));
    s.(output := s.output + [parts[0 := header]], working := None, id := NextId(s.id), hbf := 0)
  }

  predicate AtLimit(c: Config, s: State)
    requires c.Ok()
  {
    s.hbf % c.maxHBF == 0 && s.hbf > 0
  }

  predicate WorkingOk(s: State) {
    s.working.Some? ==> s.working.value != []
  }

  /** The buffered words become a message, then perhaps a frame ends, then `tail` is a message of its own. */
  function FillSpec(c: Config, s: State, tail: Option<Word>): (r: State)
    requires c.Ok() && WorkingOk(s)
    ensures HasFrame(r)
  {
    var s1 := NewDataSpec(s.(input := []));
    var s2 := if s.input == [] then s1 else Put(s1, Message(s.input));
    var s3 := if c.split != 0 && AtLimit(c, s2) then NewDataSpec(FinalizeSpec(c, s2)) else s2;
    if tail.Some? then Put(s3, Message([tail.value])) else s3
  }

  function Step(c: Config, s: State, w: Word): (r: State)
    requires c.Ok() && WorkingOk(s)
    ensures WorkingOk(r)
  {
    if !IsValid(w) then s
    else if IsData(w) then s.(input := s.input + [w])
    else if IsHeartbeat(w) then
      var filled := FillSpec(c, s, Some(w));
      var counted := filled.(hbf := filled.hbf + 1);
      if c.split == 0 && AtLimit(c, counted) then FinalizeSpec(c, counted) else counted
    else
      var filled := FillSpec(c, s, None);
      FinalizeSpec(c, FillSpec(c, filled.(input := filled.input + [w]), None))
  }

  function Run(c: Config, s: State, ws: seq<Word>): (r: State)
    requires c.Ok() && WorkingOk(s)
    ensures WorkingOk(r)
  {
    if ws == [] then s else Step(c, Run(c, s, ws[..|ws| - 1]), ws[|ws| - 1])
  }

  const START := State([], None, [], 0, 0)

  // ----- the builder of the source -----

  class HulStrTdcSTFBuilder {
    const config: Config
    var fInputPayloads: seq<Word>
    var fWorkingPayloads: Option<seq<Part>>
    var fOutputPayloads: seq<seq<Part>>
    var fHBFCounter: nat
    var fSTFId: uint64

    constructor (c: Config)
      requires c.Ok()
      ensures config == c && Now() == START
    {
      config := c;
      fInputPayloads, fWorkingPayloads, fOutputPayloads := [], None, [];
      fHBFCounter, fSTFId := 0, 0;
    }

    ghost function Now(): State
      reads this
    {
      State(fInputPayloads, fWorkingPayloads, fOutputPayloads, fHBFCounter, fSTFId)
    }

    method NewData()
      modifies this
      ensures Now() == NewDataSpec(old(Now()))
    {
      if fWorkingPayloads.None? {
        fWorkingPayloads := Some([Null]);
      }
    }

    method FinalizeSTF()
      requires HasFrame(Now())
      modifies this
      ensures Now() == FinalizeSpec(config, old(Now()))
    {
      var parts := fWorkingPayloads.value;
      var header := Header(Wrap32(fSTFId), config.femId, Wrap32(STF_HEADER_BYTES + Bytes(parts)), Wrap32(|parts|));
      fOutputPayloads := fOutputPayloads + [parts[0 := header]];
      fWorkingPayloads := None;
      fSTFId := NextId(fSTFId);
      fHBFCounter := 0;
    }

    /** Moves the leftovers and the slice [first, last) into a message; `last` is the word after the slice. */
    method FillData(words: seq<Word>, first: nat, last: nat, isSpillEnd: bool)
      requires config.Ok() && WorkingOk(Now())
      requires first <= last <= |words| && (!isSpillEnd ==> last < |words|)
      modifies this
      ensures var before := old(Now());
        Now() == FillSpec(config, before.(input := before.input + words[first..last]),
                          if isSpillEnd then None else Some(words[last]))
    {
      var buf := fInputPayloads;
      fInputPayloads := [];
      if last != first {
        buf := buf + words[first..last];
      }
      assert buf == old(fInputPayloads) + words[first..last];
      NewData();
      if buf != [] {
        fWorkingPayloads := Some(fWorkingPayloads.value + [Message(buf)]);
      }
      if config.split != 0 {
        if fHBFCounter % config.maxHBF == 0 && fHBFCounter > 0 {
          FinalizeSTF();
          NewData();
        }
      }
      if !isSpillEnd {
        fWorkingPayloads := Some(fWorkingPayloads.value + [Message([words[last]])]);
      }
    }

    /** Offsets, slices and leftovers amount to the word-at-a-time machine. */
    method BuildFrame(words: seq<Word>)
      requires config.Ok() && WorkingOk(Now())
      modifies this
      ensures Now() == Run(config, old(Now()), words)
    {
      var offset: nat := 0;
      ghost var start := Now();
      assert fInputPayloads + words[0..0] == fInputPayloads;
      for i := 0 to |words|
        invariant offset <= i
        invariant WorkingOk(Now())
        invariant Now().(input := fInputPayloads + words[offset..i]) == Run(config, start, words[..i])
      {
        assert words[..i + 1][..i] == words[..i];
        offset := ScanWord(words, offset, i);
      }
      assert words[..|words|] == words;
      assert words[offset..] == words[offset..|words|];
      if offset < |words| {
        fInputPayloads := fInputPayloads + words[offset..];
      } else {
        assert fInputPayloads + [] == fInputPayloads;
      }
    }

    /** One round of the loop; the data words since `first` are still in the message. */
    method ScanWord(words: seq<Word>, first: nat, i: nat) returns (offset: nat)
      requires config.Ok() && WorkingOk(Now()) && first <= i < |words|
      modifies this
      ensures offset <= i + 1 && WorkingOk(Now())
      ensures var before := old(Now());
        Now().(input := fInputPayloads + words[offset..i + 1])
          == Step(config, before.(input := before.input + words[first..i]), words[i])
    {
      var w := words[i];
      offset := first;
      if !IsValid(w) {
        if i - offset > 0 {
          fInputPayloads := fInputPayloads + words[offset..i];
        }
        offset := i + 1;
        assert fInputPayloads + words[i + 1..i + 1] == old(fInputPayloads) + words[first..i];
      } else if IsData(w) {
        assert old(fInputPayloads) + words[first..i + 1] == old(fInputPayloads) + words[first..i] + [w];
      } else {
        offset := EndOfBlock(words, offset, i);
        assert fInputPayloads + words[i + 1..i + 1] == fInputPayloads;
      }
    }

    /** The part of the loop for a heartbeat, an error word or a spill end at position i. */
    method EndOfBlock(words: seq<Word>, first: nat, i: nat) returns (offset: nat)
      requires config.Ok() && WorkingOk(Now())
      requires first <= i < |words| && IsValid(words[i]) && !IsData(words[i])
      modifies this
      ensures offset == i + 1 && WorkingOk(Now())
      ensures var before := old(Now());
        Now() == Step(config, before.(input := before.input + words[first..i]), words[i])
    {
      var w := words[i];
      offset := i + 1;
      FillData(words, first, i, IsSpillEnd(w));
      if IsHeartbeat(w) {
        fHBFCounter := fHBFCounter + 1;
        if config.split == 0 {
          if fHBFCounter % config.maxHBF == 0 && fHBFCounter > 0 {
            FinalizeSTF();
          }
        }
      }
      if IsSpillEnd(w) {
        assert words[i..offset] == [w];
        FillData(words, i, offset, true);
        FinalizeSTF();
      }
    }

    /** Frames the words of one message, then sends every finished frame. */
    method HandleData(words: seq<Word>, numDestination: int, dqmExists: bool) returns (sent: seq<Sent>)
      requires config.Ok() && WorkingOk(Now()) && numDestination >= 1
      requires fOutputPayloads == []
      modifies this
      ensures Now() == Run(config, old(Now()), words).(output := [])
      ensures AllHeaded(Run(config, old(Now()), words).output)
      ensures sent == DeliverAll(Run(config, old(Now()), words).output, numDestination, dqmExists)
    {
      ghost var start := Now();
      assert AllHeaded(start.output);
      RunHeaders(config, start, words);
      BuildFrame(words);
      ghost var frames := fOutputPayloads;
      sent := [];
      while fOutputPayloads != []
        invariant AllHeaded(fOutputPayloads)
        invariant Now() == Run(config, start, words).(output := fOutputPayloads)
        invariant DeliverAll(frames, numDestination, dqmExists)
               == sent + DeliverAll(fOutputPayloads, numDestination, dqmExists)
        decreases |fOutputPayloads|
      {
        var one := SendFront(numDestination, dqmExists);
        sent := sent + [one];
      }
    }

    /** Moves the parts of the first finished frame into the two outgoing messages. */
    method SendFront(numDestination: int, dqmExists: bool) returns (one: Sent)
      requires fOutputPayloads != [] && HeadedFrame(fOutputPayloads[0]) && numDestination >= 1
      modifies this`fOutputPayloads
      ensures one == Deliver(old(fOutputPayloads[0]), numDestination, dqmExists)
      ensures fOutputPayloads == old(fOutputPayloads)[1..]
    {
      var payload := fOutputPayloads[0];
      var parts, dqm := [], [];
      for k := 0 to |payload|
        invariant parts == payload[..k]
        invariant dqm == if dqmExists then DqmParts(payload[..k]) else []
      {
        assert payload[..k + 1][..k] == payload[..k];
        if dqmExists && GoesToDqm(payload[k]) {
          dqm := dqm + [payload[k]];
        }
        parts := parts + [payload[k]];
      }
      assert payload[..|payload|] == payload;
      fOutputPayloads := fOutputPayloads[1..];
      one := Sent(parts, dqm, parts[0].timeFrameId % numDestination);
    }
  }

  // ----- sending -----

  datatype Sent = Sent(parts: seq<Part>, dqm: seq<Part>, direction: int)

  /** The monitoring copy takes parts of header size and parts that begin with a heartbeat, error word or spill end. */
  predicate GoesToDqm(p: Part) {
    Size(p) == STF_HEADER_BYTES
    || (p.Message? && p.words != [] && (IsHeartbeat(p.words[0]) || IsSpillEnd(p.words[0])))
  }

  function DqmParts(ps: seq<Part>): seq<Part> {
    if ps == [] then []
    else DqmParts(ps[..|ps| - 1]) + (if GoesToDqm(ps[|ps| - 1]) then [ps[|ps| - 1]] else [])
  }

  predicate HeadedFrame(f: seq<Part>) {
    f != [] && f[0].Header?
  }

  predicate AllHeaded(fs: seq<seq<Part>>) {
    forall k | 0 <= k < |fs| :: HeadedFrame(fs[k])
  }

  function Deliver(f: seq<Part>, n: int, dqmExists: bool): Sent
    requires HeadedFrame(f) && n >= 1
  {
    Sent(f, if dqmExists then DqmParts(f) else [], f[0].timeFrameId % n)
  }

  function DeliverAll(fs: seq<seq<Part>>, n: int, dqmExists: bool): seq<Sent>
    requires AllHeaded(fs) && n >= 1
  {
    if fs == [] then []
    else
      assert HeadedFrame(fs[0]);
      [Deliver(fs[0], n, dqmExists)] + DeliverAll(fs[1..], n, dqmExists)
  }

  lemma FillHeaders(c: Config, s: State, tail: Option<Word>)
    requires c.Ok() && WorkingOk(s) && AllHeaded(s.output)
    ensures AllHeaded(FillSpec(c, s, tail).output)
  {
  }

  lemma StepHeaders(c: Config, s: State, w: Word)
    requires c.Ok() && WorkingOk(s) && AllHeaded(s.output)
    ensures AllHeaded(Step(c, s, w).output)
  {
    if IsHeartbeat(w) {
      FillHeaders(c, s, Some(w));
    } else if IsSpillEnd(w) {
      FillHeaders(c, s, None);
      var filled := FillSpec(c, s, None);
      FillHeaders(c, filled.(input := filled.input + [w]), None);
    }
  }

  /** Every finished frame starts with its header. */
  lemma {:induction false} RunHeaders(c: Config, s: State, ws: seq<Word>)
    requires c.Ok() && WorkingOk(s) && AllHeaded(s.output)
    ensures AllHeaded(Run(c, s, ws).output)
  {
    if ws != [] {
      var front := ws[..|ws| - 1];
      RunHeaders(c, s, front);
      StepHeaders(c, Run(c, s, front), ws[|ws| - 1]);
    }
  }
}
