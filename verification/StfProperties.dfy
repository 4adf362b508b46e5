/**
 What the sub-time-frame builder keeps over whole runs: the cutting of the stream into
 messages is immaterial, no word is lost or reordered, every frame has the promised shape,
 and frames are numbered consecutively.
 */
module StfProperties {
  import opened Outcomes
  import opened Bits
  import opened StfBuilder

  // ----- cutting the stream -----

  function Concat(msgs: seq<seq<Word>>): seq<Word> {
    if msgs == [] then [] else Concat(msgs[..|msgs| - 1]) + msgs[|msgs| - 1]
  }

  /** Messages handled one by one, the finished frames sent after each: the frames sent and the state left. */
  function Serve(c: Config, s: State, msgs: seq<seq<Word>>): (r: (State, seq<seq<Part>>))
    requires c.Ok() && WorkingOk(s)
    ensures WorkingOk(r.0)
  {
    if msgs == [] then (s.(output := []), s.output)
    else
      var (before, sent) := Serve(c, s, msgs[..|msgs| - 1]);
      var after := Run(c, before, msgs[|msgs| - 1]);
      (after.(output := []), sent + after.output)
  }

  lemma {:induction false} RunAppend(c: Config, s: State, a: seq<Word>, b: seq<Word>)
    requires c.Ok() && WorkingOk(s)
    ensures Run(c, s, a + b) == Run(c, Run(c, s, a), b)
  {
    if b == [] {
      assert a + b == a;
    } else {
      assert (a + b)[..|a + b| - 1] == a + b[..|b| - 1];
      RunAppend(c, s, a, b[..|b| - 1]);
    }
  }

  function After(pre: seq<seq<Part>>, s: State): State {
    s.(output := pre + s.output)
  }

  lemma FinalizeAfter(c: Config, s: State, pre: seq<seq<Part>>)
    requires HasFrame(s)
    ensures FinalizeSpec(c, After(pre, s)) == After(pre, FinalizeSpec(c, s))
  {
    assert FinalizeSpec(c, After(pre, s)).output == After(pre, FinalizeSpec(c, s)).output;
  }

  lemma FillAfter(c: Config, s: State, tail: Option<Word>, pre: seq<seq<Part>>)
    requires c.Ok() && WorkingOk(s)
    ensures FillSpec(c, After(pre, s), tail) == After(pre, FillSpec(c, s, tail))
  {
    var s1 := NewDataSpec(s.(input := []));
    var s2 := if s.input == [] then s1 else Put(s1, Message(s.input));
    FinalizeAfter(c, s2, pre);
  }

  /** What was finished before does not influence a step. */
  lemma StepAfter(c: Config, s: State, w: Word, pre: seq<seq<Part>>)
    requires c.Ok() && WorkingOk(s)
    ensures Step(c, After(pre, s), w) == After(pre, Step(c, s, w))
  {
    if IsHeartbeat(w) {
      FillAfter(c, s, Some(w), pre);
      var filled := FillSpec(c, s, Some(w));
      FinalizeAfter(c, filled.(hbf := filled.hbf + 1), pre);
    } else if IsSpillEnd(w) {
      FillAfter(c, s, None, pre);
      var filled := FillSpec(c, s, None);
      var next := filled.(input := filled.input + [w]);
      FillAfter(c, next, None, pre);
      FinalizeAfter(c, FillSpec(c, next, None), pre);
    }
  }

  lemma {:induction false} RunAfter(c: Config, s: State, ws: seq<Word>, pre: seq<seq<Part>>)
    requires c.Ok() && WorkingOk(s)
    ensures Run(c, After(pre, s), ws) == After(pre, Run(c, s, ws))
  {
    if ws != [] {
      RunAfter(c, s, ws[..|ws| - 1], pre);
      StepAfter(c, Run(c, s, ws[..|ws| - 1]), ws[|ws| - 1], pre);
    }
  }

  lemma {:induction false} ServeIsRun(c: Config, s: State, msgs: seq<seq<Word>>)
    requires c.Ok() && WorkingOk(s)
    ensures After(Serve(c, s, msgs).1, Serve(c, s, msgs).0) == Run(c, s, Concat(msgs))
    ensures Serve(c, s, msgs).0.output == []
  {
    if msgs == [] {
      assert s.output + [] == s.output;
    } else {
      var front, last := msgs[..|msgs| - 1], msgs[|msgs| - 1];
      ServeIsRun(c, s, front);
      var (before, sent) := Serve(c, s, front);
      RunAppend(c, s, Concat(front), last);
      RunAfter(c, before, last, sent);
      assert sent + Run(c, before, last).output + [] == sent + Run(c, before, last).output;
    }
  }

  /** However the same words are cut into messages, the same frames are sent and the same state is left. */
  lemma CutsAreImmaterial(c: Config, s: State, p: seq<seq<Word>>, q: seq<seq<Word>>)
    requires c.Ok() && WorkingOk(s) && Concat(p) == Concat(q)
    ensures Serve(c, s, p) == Serve(c, s, q)
  {
    ServeIsRun(c, s, p);
    ServeIsRun(c, s, q);
    var (sp, fp) := Serve(c, s, p);
    var (sq, fq) := Serve(c, s, q);
    assert fp + [] == fp && fq + [] == fq;
    assert sp == After(fp, sp).(output := []) && sq == After(fq, sq).(output := []);
  }

  // ----- the shape of frames -----

  predicate IsMark(p: Part) {
    p.Message? && |p.words| == 1 && IsHeartbeat(p.words[0])
  }

  predicate AllData(ws: seq<Word>) {
    forall k | 0 <= k < |ws| :: IsData(ws[k])
  }

  predicate IsBlock(p: Part) {
    p.Message? && p.words != [] && AllData(p.words)
  }

  /** A body of a frame before its end: heartbeat marks and non-empty blocks of data. */
  predicate BodyOk(ps: seq<Part>) {
    forall k | 0 <= k < |ps| :: IsMark(ps[k]) || IsBlock(ps[k])
  }

  function Marks(ps: seq<Part>): nat {
    if ps == [] then 0 else Marks(ps[..|ps| - 1]) + (if IsMark(ps[|ps| - 1]) then 1 else 0)
  }

  /** The frame that `FinalizeSTF` makes of a body. */
  function Frame(c: Config, id: uint64, body: seq<Part>): seq<Part> {
    [Header(Wrap32(id), c.femId, Wrap32(STF_HEADER_BYTES + Bytes(body)), Wrap32(1 + |body|))] + body
  }

  /** A frame that was ended by the limit: exactly the maximal number of marks, no spill end. */
  predicate FullBody(c: Config, body: seq<Part>) {
    && BodyOk(body)
    && Marks(body) == c.maxHBF
    && (c.split == 0 ==> body != [] && IsMark(body[|body| - 1]))
  }

  /** A frame that was ended by a spill end, which is its last message and the only one of its kind. */
  predicate ClosedBody(c: Config, body: seq<Part>) {
    && body != []
    && BodyOk(body[..|body| - 1])
    && Marks(body[..|body| - 1]) < c.maxHBF
    && IsEndMark(body[|body| - 1])
  }

  predicate IsEndMark(p: Part) {
    p.Message? && |p.words| == 1 && IsSpillEnd(p.words[0])
  }

  predicate FrameOk(c: Config, id: uint64, f: seq<Part>) {
    f != [] && f == Frame(c, id, f[1..]) && (FullBody(c, f[1..]) || ClosedBody(c, f[1..]))
  }

  /** After a frame that the limit ended in split mode 1, the next one begins with a mark. */
  predicate StartsWithMark(body: seq<Part>) {
    body != [] && (IsMark(body[0]) || IsEndMark(body[0]))
  }

  function Body(s: State): seq<Part>
    requires WorkingOk(s)
  {
    if s.working.None? then [] else s.working.value[1..]
  }

  function Buffered(s: State): seq<Part> {
    if s.input == [] then [] else [Message(s.input)]
  }

  /** The body that follows frame k: the next frame's, or the one being built. */
  function Next(s: State, k: nat): seq<Part>
    requires WorkingOk(s) && k < |s.output| && AllHeaded(s.output)
  {
    if k + 1 < |s.output| then s.output[k + 1][1..] else Body(s)
  }

  ghost predicate FramesOk(c: Config, s: State, first: nat)
    requires WorkingOk(s)
  {
    && AllHeaded(s.output)
    && forall k | 0 <= k < |s.output| ::
         && FrameOk(c, (first + k) % 0x1_0000_0000_0000_0000, s.output[k])
         && (c.split != 0 && FullBody(c, s.output[k][1..]) ==> StartsWithMark(Next(s, k)))
  }

  /** The invariant; frames are numbered from `first`. */
  ghost predicate Inv(c: Config, s: State, first: nat) {
    && WorkingOk(s)
    && AllData(s.input)
    && (s.working.Some? ==> s.working.value[0] == Null)
    && (s.working.None? ==> s.hbf == 0)
    && BodyOk(Body(s)) && Marks(Body(s)) == s.hbf
    && (if c.split == 0 then s.hbf < c.maxHBF else s.hbf <= c.maxHBF)
    && s.id == (first + |s.output|) % 0x1_0000_0000_0000_0000
    && FramesOk(c, s, first)
  }

  lemma {:induction false} BytesOfTail(ps: seq<Part>)
    requires ps != []
    ensures Bytes(ps) == Size(ps[0]) + Bytes(ps[1..])
  {
    if |ps| > 1 {
      assert ps[..|ps| - 1][1..] == ps[1..][..|ps| - 2];
      BytesOfTail(ps[..|ps| - 1]);
    } else {
      assert ps[..0] == [] && ps[1..] == [];
    }
  }

  lemma FinalizeIsFrame(c: Config, s: State)
    requires HasFrame(s) && s.working.value[0] == Null
    ensures FinalizeSpec(c, s) == State(s.input, None, s.output + [Frame(c, s.id, s.working.value[1..])], 0,
                                        NextId(s.id))
  {
    var parts := s.working.value;
    BytesOfTail(parts);
    var f := FinalizeSpec(c, s).output[|s.output|];
    assert f == Frame(c, s.id, parts[1..]);
  }

  lemma LimitIs(c: Config, s: State)
    requires c.Ok() && s.hbf <= c.maxHBF
    ensures AtLimit(c, s) == (s.hbf == c.maxHBF)
  {
    if 0 < s.hbf < c.maxHBF {
      ModUnique(s.hbf, c.maxHBF, 0, s.hbf);
    } else if s.hbf == c.maxHBF {
      ModUnique(s.hbf, c.maxHBF, 1, 0);
    }
  }

  /** `FillData` spelled out. */
  lemma FillResult(c: Config, s: State, tail: Option<Word>)
    requires c.Ok() && WorkingOk(s) && s.hbf <= c.maxHBF
    requires s.working.Some? ==> s.working.value[0] == Null
    ensures
      var body := Body(s) + Buffered(s);
      var end := if tail.Some? then [Message([tail.value])] else [];
      FillSpec(c, s, tail) ==
        if c.split != 0 && s.hbf == c.maxHBF
        then State([], Some([Null] + end), s.output + [Frame(c, s.id, body)], 0, NextId(s.id))
        else State([], Some([Null] + body + end), s.output, s.hbf, s.id)
  {
    var body := Body(s) + Buffered(s);
    var s1 := NewDataSpec(s.(input := []));
    var s2 := if s.input == [] then s1 else Put(s1, Message(s.input));
    assert s1.working.value == [Null] + Body(s);
    assert s2.working.value == [Null] + body && s2.working.value[1..] == body;
    LimitIs(c, s2);
    if c.split != 0 && s.hbf == c.maxHBF {
      FinalizeIsFrame(c, s2);
    }
    assert [Null] + body + [] == [Null] + body && [Null] + [] == [Null];
  }

  lemma PartsAssoc(x: seq<Part>, y: seq<Part>, z: seq<Part>)
    ensures x + y + z == x + (y + z)
  {
  }

  /** A step on a heartbeat or error word spelled out. */
  lemma HeartbeatStep(c: Config, s: State, w: Word)
    requires c.Ok() && WorkingOk(s) && IsHeartbeat(w)
    requires s.working.Some? ==> s.working.value[0] == Null
    requires if c.split == 0 then s.hbf < c.maxHBF else s.hbf <= c.maxHBF
    ensures
      var body, mark := Body(s) + Buffered(s), [Message([w])];
      Step(c, s, w) ==
        if c.split != 0 && s.hbf == c.maxHBF
        then State([], Some([Null] + mark), s.output + [Frame(c, s.id, body)], 1, NextId(s.id))
        else if c.split == 0 && s.hbf + 1 == c.maxHBF
        then State([], None, s.output + [Frame(c, s.id, body + mark)], 0, NextId(s.id))
        else State([], Some([Null] + (body + mark)), s.output, s.hbf + 1, s.id)
  {
    FillResult(c, s, Some(w));
    var body, mark := Body(s) + Buffered(s), [Message([w])];
    PartsAssoc([Null], body, mark);
    if c.split == 0 {
      CountResult(c, State([], Some([Null] + (body + mark)), s.output, s.hbf, s.id));
    }
  }

  /** Split mode 0 counts the mark and ends the frame at the limit. */
  lemma CountResult(c: Config, filled: State)
    requires c.Ok() && HasFrame(filled) && filled.working.value[0] == Null && filled.hbf < c.maxHBF
    ensures
      var counted := filled.(hbf := filled.hbf + 1);
      (if AtLimit(c, counted) then FinalizeSpec(c, counted) else counted) ==
        if counted.hbf == c.maxHBF
        then State(filled.input, None, filled.output + [Frame(c, filled.id, filled.working.value[1..])], 0,
                   NextId(filled.id))
        else counted
  {
    var counted := filled.(hbf := filled.hbf + 1);
    LimitIs(c, counted);
    FinalizeIsFrame(c, counted);
  }

  /** A step on a spill end spelled out. */
  lemma SpillStep(c: Config, s: State, w: Word)
    requires c.Ok() && WorkingOk(s) && IsSpillEnd(w)
    requires s.working.Some? ==> s.working.value[0] == Null
    requires if c.split == 0 then s.hbf < c.maxHBF else s.hbf <= c.maxHBF
    ensures
      var body, mark := Body(s) + Buffered(s), [Message([w])];
      Step(c, s, w) ==
        if c.split != 0 && s.hbf == c.maxHBF
        then State([], None, s.output + [Frame(c, s.id, body)] + [Frame(c, NextId(s.id), mark)], 0,
                   NextId(NextId(s.id)))
        else State([], None, s.output + [Frame(c, s.id, body + mark)], 0, NextId(s.id))
  {
    FillResult(c, s, None);
    var body := Body(s) + Buffered(s);
    var filled := FillSpec(c, s, None);
    assert [Null] + body + [] == [Null] + body && [Null] + [] == [Null];
    assert ([Null] + body)[1..] == body && [Null][1..] == [];
    assert [] + [w] == [w] && [] + [Message([w])] == [Message([w])];
    CloseResult(c, filled, w);
  }

  /** The spill end becomes a message and ends the frame. */
  lemma CloseResult(c: Config, s: State, w: Word)
    requires c.Ok() && HasFrame(s) && s.working.value[0] == Null
    requires c.split == 0 || s.hbf < c.maxHBF
    requires s.hbf <= c.maxHBF
    ensures FinalizeSpec(c, FillSpec(c, s.(input := [w]), None))
         == State([], None, s.output + [Frame(c, s.id, Body(s) + [Message([w])])], 0, NextId(s.id))
  {
    var body, next := Body(s) + [Message([w])], s.(input := [w]);
    FillResult(c, next, None);
    var refilled := FillSpec(c, next, None);
    assert [Null] + body + [] == [Null] + body && ([Null] + body)[1..] == body;
    FinalizeIsFrame(c, refilled);
  }

  // ----- the invariant is kept -----

  lemma MarksMore(ps: seq<Part>, p: Part)
    ensures Marks(ps + [p]) == Marks(ps) + (if IsMark(p) then 1 else 0)
    ensures BodyOk(ps) && (IsMark(p) || IsBlock(p)) ==> BodyOk(ps + [p])
  {
    assert (ps + [p])[..|ps|] == ps;
  }

  /** The body with the buffered words still holds the same marks. */
  lemma BufferedKeeps(s: State)
    requires WorkingOk(s) && AllData(s.input) && BodyOk(Body(s))
    ensures BodyOk(Body(s) + Buffered(s)) && Marks(Body(s) + Buffered(s)) == Marks(Body(s))
    ensures Body(s) <= Body(s) + Buffered(s)
  {
    if s.input == [] {
      assert Body(s) + [] == Body(s);
    } else {
      assert IsData(s.input[0]);
      MarksMore(Body(s), Message(s.input));
    }
  }

  /** Growing the body being built leaves the finished frames in order. */
  lemma FramesGrow(c: Config, s: State, r: State, first: nat)
    requires WorkingOk(s) && FramesOk(c, s, first)
    requires WorkingOk(r) && r.output == s.output && Body(s) <= Body(r)
    ensures FramesOk(c, r, first)
  {
    forall k | 0 <= k < |r.output|
      ensures FrameOk(c, (first + k) % 0x1_0000_0000_0000_0000, r.output[k])
      ensures c.split != 0 && FullBody(c, r.output[k][1..]) ==> StartsWithMark(Next(r, k))
    {
      assert Next(s, k) <= Next(r, k);
    }
  }

  /** Finishing a frame that continues the body being built. */
  lemma FramesAppend(c: Config, s: State, r: State, first: nat, f: seq<Part>)
    requires WorkingOk(s) && FramesOk(c, s, first)
    requires WorkingOk(r) && r.output == s.output + [f]
    requires FrameOk(c, (first + |s.output|) % 0x1_0000_0000_0000_0000, f) && HeadedFrame(f) && Body(s) <= f[1..]
    requires c.split != 0 && FullBody(c, f[1..]) ==> StartsWithMark(Body(r))
    ensures FramesOk(c, r, first)
  {
    forall k | 0 <= k < |r.output| ensures HeadedFrame(r.output[k]) {
      if k < |s.output| { assert HeadedFrame(s.output[k]); }
    }
    forall k | 0 <= k < |r.output|
      ensures FrameOk(c, (first + k) % 0x1_0000_0000_0000_0000, r.output[k])
      ensures c.split != 0 && FullBody(c, r.output[k][1..]) ==> StartsWithMark(Next(r, k))
    {
      if k < |s.output| {
        assert r.output[k] == s.output[k];
        assert Next(s, k) <= Next(r, k);
      }
    }
  }

  lemma IdMore(first: nat, n: nat)
    ensures NextId((first + n) % 0x1_0000_0000_0000_0000) == (first + (n + 1)) % 0x1_0000_0000_0000_0000
  {
  }

  lemma HeartbeatKeeps(c: Config, s: State, w: Word, first: nat)
    requires c.Ok() && Inv(c, s, first) && IsHeartbeat(w)
    ensures Inv(c, Step(c, s, w), first)
  {
    HeartbeatStep(c, s, w);
    BufferedKeeps(s);
    if c.split != 0 && s.hbf == c.maxHBF {
      HeartbeatOpens(c, s, w, first);
    } else if c.split == 0 && s.hbf + 1 == c.maxHBF {
      HeartbeatCloses(c, s, w, first);
    } else {
      HeartbeatGrows(c, s, w, first);
    }
  }

  /** Split mode 1: the mark after the last one allowed opens the next frame. */
  lemma OpensFrame(c: Config, s: State, mark: Part, first: nat)
    requires c.Ok() && Inv(c, s, first) && c.split != 0 && s.hbf == c.maxHBF
    requires IsMark(mark) || IsEndMark(mark)
    requires BodyOk(Body(s) + Buffered(s)) && Marks(Body(s) + Buffered(s)) == s.hbf
    ensures FramesOk(c, State([], Some([Null] + [mark]), s.output + [Frame(c, s.id, Body(s) + Buffered(s))], 1,
                              NextId(s.id)), first)
  {
    var f := Frame(c, s.id, Body(s) + Buffered(s));
    var r := State([], Some([Null] + [mark]), s.output + [f], 1, NextId(s.id));
    assert f[1..] == Body(s) + Buffered(s) && Body(r) == [mark];
    FramesAppend(c, s, r, first, f);
  }

  lemma HeartbeatOpens(c: Config, s: State, w: Word, first: nat)
    requires c.Ok() && Inv(c, s, first) && c.split != 0 && s.hbf == c.maxHBF && IsHeartbeat(w)
    requires BodyOk(Body(s) + Buffered(s)) && Marks(Body(s) + Buffered(s)) == s.hbf
    ensures Inv(c, State([], Some([Null] + [Message([w])]), s.output + [Frame(c, s.id, Body(s) + Buffered(s))], 1,
                         NextId(s.id)), first)
  {
    var mark := Message([w]);
    OpensFrame(c, s, mark, first);
    IdMore(first, |s.output|);
    OneMark(mark);
  }

  lemma OneMark(mark: Part)
    requires IsMark(mark)
    ensures ([Null] + [mark])[1..] == [mark] && ([Null] + [mark])[0] == Null
    ensures BodyOk([mark]) && Marks([mark]) == 1
  {
    MarksMore([], mark);
    assert [] + [mark] == [mark];
  }

  /** Split mode 0: the last mark allowed ends its frame. */
  lemma HeartbeatCloses(c: Config, s: State, w: Word, first: nat)
    requires c.Ok() && Inv(c, s, first) && IsHeartbeat(w) && c.split == 0 && s.hbf + 1 == c.maxHBF
    requires BodyOk(Body(s) + Buffered(s)) && Marks(Body(s) + Buffered(s)) == s.hbf
    ensures
      var f := Frame(c, s.id, Body(s) + Buffered(s) + [Message([w])]);
      Inv(c, State([], None, s.output + [f], 0, NextId(s.id)), first)
  {
    var body, mark := Body(s) + Buffered(s), Message([w]);
    var f := Frame(c, s.id, body + [mark]);
    var r := State([], None, s.output + [f], 0, NextId(s.id));
    IdMore(first, |s.output|);
    FullFrame(c, s.id, body, mark);
    FramesAppend(c, s, r, first, f);
  }

  /** A body that one more mark fills makes a frame. */
  lemma FullFrame(c: Config, id: uint64, body: seq<Part>, mark: Part)
    requires BodyOk(body) && Marks(body) + 1 == c.maxHBF && IsMark(mark)
    ensures var f := Frame(c, id, body + [mark]);
      f[1..] == body + [mark] && HeadedFrame(f) && FrameOk(c, id, f)
  {
    MarksMore(body, mark);
  }

  lemma HeartbeatGrows(c: Config, s: State, w: Word, first: nat)
    requires c.Ok() && Inv(c, s, first) && IsHeartbeat(w)
    requires if c.split == 0 then s.hbf + 1 < c.maxHBF else s.hbf < c.maxHBF
    requires BodyOk(Body(s) + Buffered(s)) && Marks(Body(s) + Buffered(s)) == s.hbf
    ensures
      Inv(c, State([], Some([Null] + (Body(s) + Buffered(s) + [Message([w])])), s.output, s.hbf + 1, s.id), first)
  {
    var body, mark := Body(s) + Buffered(s), Message([w]);
    var r := State([], Some([Null] + (body + [mark])), s.output, s.hbf + 1, s.id);
    MarksMore(body, mark);
    assert Body(r) == body + [mark];
    FramesGrow(c, s, r, first);
  }

  lemma ClosedIs(c: Config, body: seq<Part>, end: Part)
    requires BodyOk(body) && Marks(body) < c.maxHBF && IsEndMark(end)
    ensures ClosedBody(c, body + [end])
  {
    assert (body + [end])[..|body|] == body;
  }

  lemma SpillKeeps(c: Config, s: State, w: Word, first: nat)
    requires c.Ok() && Inv(c, s, first) && IsSpillEnd(w)
    ensures Inv(c, Step(c, s, w), first)
  {
    SpillStep(c, s, w);
    BufferedKeeps(s);
    if c.split != 0 && s.hbf == c.maxHBF {
      SpillAtLimit(c, s, w, first);
    } else {
      SpillCloses(c, s, w, first);
    }
  }

  /** The spill end meets a full body: the body is a frame, and the spill end alone is another. */
  lemma SpillAtLimit(c: Config, s: State, w: Word, first: nat)
    requires c.Ok() && Inv(c, s, first) && IsSpillEnd(w) && c.split != 0 && s.hbf == c.maxHBF
    requires BodyOk(Body(s) + Buffered(s)) && Marks(Body(s) + Buffered(s)) == s.hbf
    ensures
      var f, g := Frame(c, s.id, Body(s) + Buffered(s)), Frame(c, NextId(s.id), [Message([w])]);
      Inv(c, State([], None, s.output + [f] + [g], 0, NextId(NextId(s.id))), first)
  {
    var end := Message([w]);
    var f, g := Frame(c, s.id, Body(s) + Buffered(s)), Frame(c, NextId(s.id), [end]);
    var mid := State([], Some([Null] + [end]), s.output + [f], 1, NextId(s.id));
    var r := State([], None, s.output + [f] + [g], 0, NextId(NextId(s.id)));
    OpensFrame(c, s, end, first);
    IdMore(first, |s.output|);
    IdMore(first, |s.output| + 1);
    assert g[1..] == [end] && Body(mid) == [end] && [] + [end] == [end];
    ClosedIs(c, [], end);
    ClosedIsNotFull(c, [end]);
    FramesAppend(c, mid, r, first, g);
  }

  lemma SpillCloses(c: Config, s: State, w: Word, first: nat)
    requires c.Ok() && Inv(c, s, first) && IsSpillEnd(w) && s.hbf < c.maxHBF
    requires BodyOk(Body(s) + Buffered(s)) && Marks(Body(s) + Buffered(s)) == s.hbf
    ensures
      var f := Frame(c, s.id, Body(s) + Buffered(s) + [Message([w])]);
      Inv(c, State([], None, s.output + [f], 0, NextId(s.id)), first)
  {
    IdMore(first, |s.output|);
    var body, end := Body(s) + Buffered(s), Message([w]);
    var f := Frame(c, s.id, body + [end]);
    var r := State([], None, s.output + [f], 0, NextId(s.id));
    assert f[1..] == body + [end];
    ClosedIs(c, body, end);
    ClosedIsNotFull(c, body + [end]);
    FramesAppend(c, s, r, first, f);
  }

  lemma ClosedIsNotFull(c: Config, body: seq<Part>)
    requires ClosedBody(c, body)
    ensures !FullBody(c, body)
  {
    var end := body[|body| - 1];
    assert !IsMark(end);
    assert !IsBlock(end) by { assert !IsData(end.words[0]); }
  }

  lemma {:induction false} RunKeeps(c: Config, s: State, ws: seq<Word>, first: nat)
    requires c.Ok() && Inv(c, s, first)
    ensures Inv(c, Run(c, s, ws), first)
  {
    if ws != [] {
      var front, w := ws[..|ws| - 1], ws[|ws| - 1];
      RunKeeps(c, s, front, first);
      var t := Run(c, s, front);
      if IsValid(w) && IsData(w) {
        FramesGrow(c, t, Step(c, t, w), first);
      } else if IsHeartbeat(w) {
        HeartbeatKeeps(c, t, w, first);
      } else if IsSpillEnd(w) {
        SpillKeeps(c, t, w, first);
      }
    }
  }

  /**
   Any run from the start: the n-th frame is numbered n, announces its own size and number of
   messages, and holds either exactly the maximal number of heartbeats or fewer and a spill end.
   */
  lemma FramesOfAnyRun(c: Config, ws: seq<Word>)
    requires c.Ok()
    ensures WorkingOk(Run(c, START, ws)) && FramesOk(c, Run(c, START, ws), 0)
    ensures Run(c, START, ws).hbf <= c.maxHBF
  {
    assert [Null][1..] == [];
    RunKeeps(c, START, ws, 0);
  }

  /** The header tells its frame's number, source, total bytes and number of messages, itself included. */
  lemma HeaderTells(c: Config, id: uint64, f: seq<Part>)
    requires c.Ok() && FrameOk(c, id, f)
    ensures f[0].Header? && f[0].femId == c.femId && f[0].timeFrameId == id % 0x1_0000_0000
    ensures f[0].length == Bytes(f) % 0x1_0000_0000 && f[0].numMessages == |f| % 0x1_0000_0000
  {
    HeaderOf(c, id, f);
  }

  lemma HeaderOf(c: Config, id: uint64, f: seq<Part>)
    requires f != [] && f == Frame(c, id, f[1..])
    ensures f[0] == Header(id % 0x1_0000_0000, c.femId, Bytes(f) % 0x1_0000_0000, |f| % 0x1_0000_0000)
  {
    var body := f[1..];
    assert f[0] == Frame(c, id, body)[0];
    BytesOfTail(f);
    assert Bytes(f) == STF_HEADER_BYTES + Bytes(body);
    assert |f| == 1 + |body|;
  }

  /** A frame carries at least one message besides its header, as the time-frame builder asserts. */
  lemma FrameHasMessage(c: Config, id: uint64, f: seq<Part>)
    requires c.Ok() && FrameOk(c, id, f)
    ensures |f| >= 2 && HeadedFrame(f) && f[0].timeFrameId == Wrap32(id)
  {
    var body := f[1..];
    assert body != [];
    assert f[0] == Frame(c, id, body)[0];
  }

  /** With fewer than 2^32 frames the identifier in the header is the frame's number. */
  lemma FrameCarriesNumber(c: Config, s: State, k: nat)
    requires c.Ok() && Inv(c, s, 0) && k < |s.output| && k < TWO32
    ensures |s.output[k]| >= 2 && HeadedFrame(s.output[k]) && s.output[k][0].timeFrameId == k
  {
    var f := s.output[k];
    assert FrameOk(c, (0 + k) % 0x1_0000_0000_0000_0000, f);
    FrameHasMessage(c, k, f);
  }

  // ----- no word is lost -----

  function Valids(ws: seq<Word>): seq<Word> {
    if ws == [] then []
    else Valids(ws[..|ws| - 1]) + (if IsValid(ws[|ws| - 1]) then [ws[|ws| - 1]] else [])
  }

  /** The parts of all finished frames, without their headers. */
  function Bodies(fs: seq<seq<Part>>): seq<Part> {
    if fs == [] then []
    else Bodies(fs[..|fs| - 1]) + (if fs[|fs| - 1] == [] then [] else fs[|fs| - 1][1..])
  }

  /** Everything the builder has taken in, in order: sent, being built, left over. */
  function Taken(s: State): seq<Word>
    requires WorkingOk(s)
  {
    Flat(Bodies(s.output) + Body(s)) + s.input
  }

  lemma FlatMore(ps: seq<Part>, p: Part)
    ensures Flat(ps + [p]) == Flat(ps) + WordsIn(p)
  {
    assert (ps + [p])[..|ps|] == ps;
  }

  lemma BodiesMore(fs: seq<seq<Part>>, f: seq<Part>)
    requires f != []
    ensures Bodies(fs + [f]) == Bodies(fs) + f[1..]
  {
    assert (fs + [f])[..|fs|] == fs;
  }

  /** Ending a frame moves the body into the finished frames and loses nothing. */
  lemma FrameParts(c: Config, output: seq<seq<Part>>, id: uint64, body: seq<Part>)
    ensures Bodies(output + [Frame(c, id, body)]) == Bodies(output) + body
  {
    BodiesMore(output, Frame(c, id, body));
    assert Frame(c, id, body)[1..] == body;
  }

  /** A word that is not data adds the buffered block and itself to the parts, wherever frames end. */
  lemma StepParts(c: Config, s: State, w: Word, first: nat)
    requires c.Ok() && Inv(c, s, first) && IsValid(w) && !IsData(w)
    ensures
      var r := Step(c, s, w);
      r.input == [] && Bodies(r.output) + Body(r) == (Bodies(s.output) + Body(s)) + Buffered(s) + [Message([w])]
  {
    PartsAssoc(Bodies(s.output), Body(s), Buffered(s));
    PartsAssoc(Bodies(s.output), Body(s) + Buffered(s), [Message([w])]);
    if IsHeartbeat(w) { HeartbeatParts(c, s, w, first); } else { SpillParts(c, s, w, first); }
  }

  lemma HeartbeatParts(c: Config, s: State, w: Word, first: nat)
    requires c.Ok() && Inv(c, s, first) && IsValid(w) && !IsData(w) && IsHeartbeat(w)
    ensures
      var r := Step(c, s, w);
      r.input == [] && Bodies(r.output) + Body(r) == Bodies(s.output) + (Body(s) + Buffered(s)) + [Message([w])]
  {
    var body, mark := Body(s) + Buffered(s), [Message([w])];
    FrameParts(c, s.output, s.id, body);
    FrameParts(c, s.output, s.id, body + mark);
    PartsAssoc(Bodies(s.output), body, mark);
    HeartbeatStep(c, s, w);
    assert ([Null] + mark)[1..] == mark && ([Null] + (body + mark))[1..] == body + mark;
  }

  lemma SpillParts(c: Config, s: State, w: Word, first: nat)
    requires c.Ok() && Inv(c, s, first) && IsValid(w) && !IsData(w) && !IsHeartbeat(w)
    ensures
      var r := Step(c, s, w);
      r.input == [] && Bodies(r.output) + Body(r) == Bodies(s.output) + (Body(s) + Buffered(s)) + [Message([w])]
  {
    var body, mark := Body(s) + Buffered(s), [Message([w])];
    FrameParts(c, s.output, s.id, body);
    FrameParts(c, s.output, s.id, body + mark);
    FrameParts(c, s.output + [Frame(c, s.id, body)], NextId(s.id), mark);
    PartsAssoc(Bodies(s.output), body, mark);
    SpillStep(c, s, w);
  }

  lemma TakenFromParts(s: State, r: State, w: Word)
    requires WorkingOk(s) && WorkingOk(r) && r.input == []
    requires Bodies(r.output) + Body(r) == (Bodies(s.output) + Body(s)) + Buffered(s) + [Message([w])]
    ensures Taken(r) == Taken(s) + [w]
  {
    var parts := Bodies(s.output) + Body(s);
    FlatMore(parts + Buffered(s), Message([w]));
    if s.input == [] {
      assert parts + [] == parts && Flat(parts) + [] == Flat(parts);
    } else {
      FlatMore(parts, Message(s.input));
    }
  }

  lemma StepTakes(c: Config, s: State, w: Word, first: nat)
    requires c.Ok() && Inv(c, s, first)
    ensures Taken(Step(c, s, w)) == Taken(s) + (if IsValid(w) then [w] else [])
  {
    if !IsValid(w) {
      assert Taken(s) + [] == Taken(s);
    } else if IsData(w) {
      SnocAssoc(Flat(Bodies(s.output) + Body(s)), s.input, [w]);
    } else {
      StepParts(c, s, w, first);
      TakenFromParts(s, Step(c, s, w), w);
    }
  }

  /** Conservation: sent, being built and left over together are the valid words of the stream, in order. */
  lemma {:induction false} NoWordLost(c: Config, s: State, ws: seq<Word>, first: nat)
    requires c.Ok() && Inv(c, s, first)
    ensures WorkingOk(Run(c, s, ws)) && Taken(Run(c, s, ws)) == Taken(s) + Valids(ws)
  {
    if ws == [] {
      assert Taken(s) + [] == Taken(s);
    } else {
      var front, w := ws[..|ws| - 1], ws[|ws| - 1];
      NoWordLost(c, s, front, first);
      RunKeeps(c, s, front, first);
      StepTakes(c, Run(c, s, front), w, first);
      SnocAssoc(Taken(s), Valids(front), if IsValid(w) then [w] else []);
    }
  }

  lemma SnocAssoc(x: seq<Word>, y: seq<Word>, z: seq<Word>)
    ensures x + y + z == x + (y + z)
  {
  }

  // ----- the monitoring copy -----

  function NonData(ws: seq<Word>): seq<Word> {
    if ws == [] then []
    else NonData(ws[..|ws| - 1]) + (if IsData(ws[|ws| - 1]) then [] else [ws[|ws| - 1]])
  }

  /** No message of words has the size of a header, so the size test selects the header alone. */
  lemma MonitorPart(p: Part)
    requires IsMark(p) || IsBlock(p) || IsEndMark(p)
    ensures GoesToDqm(p) <==> IsMark(p) || IsEndMark(p)
    ensures NonData(p.words) == if GoesToDqm(p) then p.words else []
  {
    assert Size(p) % 5 == 0;
    if IsBlock(p) {
      NoNonData(p.words);
      assert IsData(p.words[0]);
    } else {
      assert p.words == [p.words[0]] && p.words[..0] == [];
    }
  }

  lemma {:induction false} MonitorSelects(body: seq<Part>)
    requires forall k | 0 <= k < |body| :: IsMark(body[k]) || IsBlock(body[k]) || IsEndMark(body[k])
    ensures Flat(DqmParts(body)) == NonData(Flat(body))
  {
    if body != [] {
      var front, p := body[..|body| - 1], body[|body| - 1];
      MonitorSelects(front);
      MonitorPart(p);
      NonDataAppend(Flat(front), p.words);
      if GoesToDqm(p) {
        FlatMore(DqmParts(front), p);
      } else {
        assert DqmParts(front) + [] == DqmParts(front);
        assert NonData(Flat(front)) + [] == NonData(Flat(front));
      }
    }
  }

  lemma {:induction false} NoNonData(ws: seq<Word>)
    requires AllData(ws)
    ensures NonData(ws) == []
  {
    if ws != [] { NoNonData(ws[..|ws| - 1]); }
  }

  lemma {:induction false} NonDataAppend(a: seq<Word>, b: seq<Word>)
    ensures NonData(a + b) == NonData(a) + NonData(b)
  {
    if b == [] {
      assert a + b == a;
    } else {
      assert (a + b)[..|a + b| - 1] == a + b[..|b| - 1];
      NonDataAppend(a, b[..|b| - 1]);
    }
  }

  /** The monitoring copy of a frame: its header, then exactly its heartbeat, error and spill-end words. */
  lemma MonitorOfFrame(c: Config, id: uint64, f: seq<Part>)
    requires FrameOk(c, id, f)
    ensures DqmParts(f) == [f[0]] + DqmParts(f[1..])
    ensures Flat(DqmParts(f)) == NonData(Flat(f))
  {
    var body := f[1..];
    assert f == [f[0]] + body;
    DqmHead(f[0], body);
    forall k | 0 <= k < |body| ensures IsMark(body[k]) || IsBlock(body[k]) || IsEndMark(body[k]) {
      if ClosedBody(c, body) && k < |body| - 1 {
        assert body[k] == body[..|body| - 1][k];
      }
    }
    MonitorSelects(body);
    FlatFrame(f[0], body);
    FlatFrame(f[0], DqmParts(body));
  }

  lemma {:induction false} FlatFrame(h: Part, body: seq<Part>)
    requires !h.Message?
    ensures Flat([h] + body) == Flat(body)
  {
    if body == [] {
      assert [h] + body == [] + [h];
      FlatMore([], h);
    } else {
      assert ([h] + body)[..|body|] == [h] + body[..|body| - 1];
      FlatFrame(h, body[..|body| - 1]);
    }
  }

  lemma {:induction false} DqmHead(h: Part, body: seq<Part>)
    requires h.Header?
    ensures DqmParts([h] + body) == [h] + DqmParts(body)
  {
    if body == [] {
      assert [h] + body == [h] && [h][..0] == [];
    } else {
      assert ([h] + body)[..|body|] == [h] + body[..|body| - 1];
      DqmHead(h, body[..|body| - 1]);
    }
  }
}
