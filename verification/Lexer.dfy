/**
 The tokenizer of infix trigger formulas: a loop over the characters of a line,
 and what it means: spacing is immaterial, digits form maximal runs, and exactly
 the lines with a foreign character are refused.
 */
module Lexer {
  import opened Outcomes

  predicate IsSpace(c: char) {
    c == ' ' || '\t' <= c <= '\r'
  }

  predicate IsDigit(c: char) {
    '0' <= c <= '9'
  }

  predicate IsSymbol(c: char) {
    c == '(' || c == ')' || c == '|' || c == '&' || c == '!'
  }

  predicate AllDigits(s: string) {
    forall i | 0 <= i < |s| :: IsDigit(s[i])
  }

  predicate AllSpace(s: string) {
    forall i | 0 <= i < |s| :: IsSpace(s[i])
  }

  predicate IsNumber(t: string) {
    t != "" && AllDigits(t)
  }

  predicate IsToken(t: string) {
    IsNumber(t) || (|t| == 1 && IsSymbol(t[0]))
  }

  /** The digits at the front of a line. */
  function DigitRun(line: string): (n: nat)
    ensures n <= |line| && AllDigits(line[..n])
    ensures n < |line| ==> !IsDigit(line[n])
  {
    if line == "" || !IsDigit(line[0]) then 0 else 1 + DigitRun(line[1..])
  }

  function Prepend(ts: seq<string>, r: Result<seq<string>>): Result<seq<string>> {
    match r
    case Ok(more) => Ok(ts + more)
    case Throw(m) => Throw(m)
  }

  function InvalidChar(c: char): string {
    "invalid char: " + [c]
  }

  /** The tokens of a line, read from the left. */
  function Lex(line: string): Result<seq<string>> {
    if line == "" then Ok([])
    else if IsSpace(line[0]) then Lex(line[1..])
    else if IsSymbol(line[0]) then Prepend([[line[0]]], Lex(line[1..]))
    else if IsDigit(line[0]) then
      var n := DigitRun(line);
      Prepend([line[..n]], Lex(line[n..]))
    else Throw(InvalidChar(line[0]))
  }

  lemma PrependTwice(a: seq<string>, b: seq<string>, r: Result<seq<string>>)
    ensures Prepend(a, Prepend(b, r)) == Prepend(a + b, r)
  {
    if r.Ok? { assert a + (b + r.value) == a + b + r.value; }
  }

  lemma PrependNone(r: Result<seq<string>>)
    ensures Prepend([], r) == r
  {
    if r.Ok? { assert [] + r.value == r.value; }
  }

  lemma {:induction false} DigitRunIs(line: string, n: nat)
    requires n <= |line| && AllDigits(line[..n])
    requires n < |line| ==> !IsDigit(line[n])
    ensures DigitRun(line) == n
  {
    if n > 0 {
      assert line[..n][0] == line[0];
      assert line[1..][..n - 1] == line[..n][1..];
      DigitRunIs(line[1..], n - 1);
    }
  }

  /** The source's scanning loop computes `Lex`. */
  method Tokenize(line: string) returns (r: Result<seq<string>>)
    ensures r == Lex(line)
  {
    var tokens: seq<string> := [];
    var i := 0;
    assert line[0..] == line;
    PrependNone(Lex(line));
    while i != |line|
      invariant 0 <= i <= |line|
      invariant Lex(line) == Prepend(tokens, Lex(line[i..]))
    {
      i := SkipSpace(line, i);
      if i == |line| {
        break;
      }
      ghost var from := line[i..];
      ghost var before := tokens;
      var token: string;
      if IsSymbol(line[i]) {
        token := [line[i]];
        i := i + 1;
        assert from[1..] == line[i..];
      } else if IsDigit(line[i]) {
        token, i := ReadDigits(line, i);
      } else {
        return Throw(InvalidChar(line[i]));
      }
      assert Lex(from) == Prepend([token], Lex(line[i..]));
      tokens := tokens + [token];
      PrependTwice(before, [token], Lex(line[i..]));
    }
    assert line[|line|..] == "" && tokens + [] == tokens;
    r := Ok(tokens);
  }

  /** The inner loop over digits. */
  method ReadDigits(line: string, start: nat) returns (token: string, i: nat)
    requires start < |line| && IsDigit(line[start])
    ensures start < i <= |line|
    ensures Lex(line[start..]) == Prepend([token], Lex(line[i..]))
  {
    token, i := "", start;
    while i != |line| && IsDigit(line[i])
      invariant start <= i <= |line|
      invariant token == line[start..i] && AllDigits(token)
    {
      token := token + [line[i]];
      i := i + 1;
    }
    assert line[start..][..i - start] == token;
    assert line[start..][i - start..] == line[i..];
    DigitRunIs(line[start..], i - start);
  }

  /** The inner loop over blanks. */
  method SkipSpace(line: string, start: nat) returns (i: nat)
    requires start <= |line|
    ensures start <= i <= |line|
    ensures Lex(line[start..]) == Lex(line[i..])
    ensures i < |line| ==> !IsSpace(line[i])
  {
    i := start;
    while i != |line| && IsSpace(line[i])
      invariant start <= i <= |line|
      invariant Lex(line[start..]) == Lex(line[i..])
    {
      assert line[i..][1..] == line[i + 1..];
      i := i + 1;
    }
  }

  // ----- what the tokenizer promises -----

  /** Token list `ts` written with the given blanks in front of each token and at the end. */
  function Spell(ts: seq<string>, gaps: seq<string>): string
    requires |gaps| == |ts| + 1
  {
    if ts == [] then gaps[0] else gaps[0] + ts[0] + Spell(ts[1..], gaps[1..])
  }

  /** Only blanks in the gaps, and at least one between two numbers. */
  predicate Spaced(ts: seq<string>, gaps: seq<string>)
    requires |gaps| == |ts| + 1
  {
    && (forall k | 0 <= k < |gaps| :: AllSpace(gaps[k]))
    && (forall k | 1 <= k < |ts| :: IsNumber(ts[k - 1]) && IsNumber(ts[k]) ==> gaps[k] != "")
  }

  lemma {:induction false} LexSkips(gap: string, rest: string)
    requires AllSpace(gap)
    ensures Lex(gap + rest) == Lex(rest)
  {
    if gap == "" {
      assert gap + rest == rest;
    } else {
      assert (gap + rest)[1..] == gap[1..] + rest;
      LexSkips(gap[1..], rest);
    }
  }

  lemma LexToken(t: string, rest: string)
    requires IsToken(t)
    requires IsNumber(t) && rest != "" ==> !IsDigit(rest[0])
    ensures Lex(t + rest) == Prepend([t], Lex(rest))
  {
    if IsNumber(t) {
      assert (t + rest)[..|t|] == t && (t + rest)[|t|..] == rest;
      DigitRunIs(t + rest, |t|);
      assert IsDigit(t[0]);
    } else {
      assert (t + rest)[1..] == rest && [t[0]] == t;
    }
  }

  /** Round trip: however a token list is spaced, tokenizing the text gives the list back. */
  lemma {:induction false} LexSpell(ts: seq<string>, gaps: seq<string>)
    requires |gaps| == |ts| + 1 && Spaced(ts, gaps)
    requires forall k | 0 <= k < |ts| :: IsToken(ts[k])
    ensures Lex(Spell(ts, gaps)) == Ok(ts)
  {
    if ts == [] {
      assert gaps[0] + "" == gaps[0];
      LexSkips(gaps[0], "");
    } else {
      var rest := Spell(ts[1..], gaps[1..]);
      assert Spell(ts, gaps) == gaps[0] + (ts[0] + rest);
      LexSkips(gaps[0], ts[0] + rest);
      forall k | 0 <= k < |ts[1..]| ensures IsToken(ts[1..][k]) {
        assert ts[1..][k] == ts[k + 1];
      }
      assert Spaced(ts[1..], gaps[1..]) by {
        forall k | 1 <= k < |ts[1..]| && IsNumber(ts[1..][k - 1]) && IsNumber(ts[1..][k])
          ensures gaps[1..][k] != ""
        {
          assert ts[1..][k - 1] == ts[k] && ts[1..][k] == ts[k + 1];
        }
      }
      LexSpell(ts[1..], gaps[1..]);
      FirstOfSpell(ts[1..], gaps[1..]);
      assert |ts| > 1 && IsNumber(ts[1 - 1]) && IsNumber(ts[1]) ==> gaps[1] != "";
      LexToken(ts[0], rest);
      assert [ts[0]] + ts[1..] == ts;
    }
  }

  /** A text starts with a digit when its first token is a number with no blank before it. */
  lemma FirstOfSpell(ts: seq<string>, gaps: seq<string>)
    requires |gaps| == |ts| + 1 && Spaced(ts, gaps)
    requires forall k | 0 <= k < |ts| :: IsToken(ts[k])
    ensures Spell(ts, gaps) != "" && IsDigit(Spell(ts, gaps)[0])
       <==> gaps[0] == "" && ts != [] && IsNumber(ts[0])
  {
    if gaps[0] != "" {
      assert Spell(ts, gaps)[0] == gaps[0][0];
      assert IsSpace(gaps[0][0]);
    } else if ts != [] {
      assert Spell(ts, gaps)[0] == ts[0][0];
    }
  }

  /** Text `line` is a spelling of `ts`. */
  ghost predicate Spells(ts: seq<string>, gaps: seq<string>, line: string) {
    && |gaps| == |ts| + 1
    && Spaced(ts, gaps)
    && Spell(ts, gaps) == line
    && forall k | 0 <= k < |ts| :: IsToken(ts[k])
  }

  /** Every accepted line is a spelling of its tokens. */
  lemma {:induction false} LexIsSpelling(line: string) returns (gaps: seq<string>)
    requires Lex(line).Ok?
    ensures Spells(Lex(line).value, gaps, line)
    decreases |line|
  {
    if line == "" {
      gaps := [""];
    } else {
      var n := if IsSpace(line[0]) || IsSymbol(line[0]) then 1 else DigitRun(line);
      assert IsSymbol(line[0]) ==> line[..1] == [line[0]];
      var g := LexIsSpelling(line[n..]);
      assert line == line[..n] + line[n..];
      if IsSpace(line[0]) {
        gaps := SpellAfterBlank(line[..1], Lex(line[n..]).value, g, line[n..]);
      } else {
        gaps := SpellAfterToken(line[..n], Lex(line[n..]).value, g, line[n..]);
      }
    }
  }

  lemma SpellAfterBlank(blank: string, ts: seq<string>, g: seq<string>, rest: string) returns (gaps: seq<string>)
    requires AllSpace(blank) && Spells(ts, g, rest)
    ensures Spells(ts, gaps, blank + rest)
  {
    gaps := [blank + g[0]] + g[1..];
    assert gaps[1..] == g[1..];
    if ts == [] {
      assert rest == g[0];
    } else {
      var tail := Spell(ts[1..], g[1..]);
      assert blank + (g[0] + ts[0] + tail) == (blank + g[0]) + ts[0] + tail;
    }
  }

  lemma SpellAfterToken(t: string, ts: seq<string>, g: seq<string>, rest: string) returns (gaps: seq<string>)
    requires IsToken(t) && Spells(ts, g, rest)
    requires IsNumber(t) && rest != "" ==> !IsDigit(rest[0])
    ensures Spells([t] + ts, gaps, t + rest)
  {
    gaps := [""] + g;
    var all := [t] + ts;
    assert all[1..] == ts && gaps[1..] == g;
    assert "" + t + rest == t + rest;
    forall k | 1 <= k < |all| && IsNumber(all[k - 1]) && IsNumber(all[k]) ensures gaps[k] != "" {
      if k == 1 {
        FirstOfSpell(ts, g);
      } else {
        assert all[k - 1] == ts[k - 2] && all[k] == ts[k - 1];
      }
    }
  }

  /** Exactly the lines with a character that is neither blank, symbol nor digit are refused. */
  lemma {:induction false} LexRefuses(line: string)
    ensures Lex(line).Throw?
       <==> exists i | 0 <= i < |line| :: !IsSpace(line[i]) && !IsSymbol(line[i]) && !IsDigit(line[i])
    decreases |line|
  {
    if line != "" {
      var n := if IsSpace(line[0]) || IsSymbol(line[0]) then 1
               else if IsDigit(line[0]) then DigitRun(line)
               else 0;
      if n > 0 {
        LexRefuses(line[n..]);
        forall i | 0 <= i < n ensures IsSpace(line[i]) || IsSymbol(line[i]) || IsDigit(line[i]) {
          assert line[i] == line[..n][i];
        }
        forall i | n <= i < |line| ensures line[i] == line[n..][i - n] {}
      }
    }
  }

  predicate IsForeign(c: char) {
    !IsSpace(c) && !IsSymbol(c) && !IsDigit(c)
  }

  /** The error names the first foreign character. */
  lemma {:induction false} LexNamesFirst(line: string, i: nat)
    requires i < |line| && IsForeign(line[i]) && forall j | 0 <= j < i :: !IsForeign(line[j])
    ensures Lex(line) == Throw("invalid char: " + [line[i]])
    decreases |line|
  {
    if i > 0 {
      var n := if IsSpace(line[0]) || IsSymbol(line[0]) then 1 else DigitRun(line);
      forall j | 0 <= j < n ensures !IsForeign(line[j]) {
        assert line[j] == line[..n][j];
      }
      assert line[n..][i - n] == line[i];
      forall j | 0 <= j < i - n ensures !IsForeign(line[n..][j]) {
        assert line[n..][j] == line[n + j];
      }
      LexNamesFirst(line[n..], i - n);
    }
  }

  /** Blank, tabulator, line feed, vertical tabulator, form feed and carriage return separate tokens. */
  lemma SixBlanks(c: char, rest: string)
    ensures Lex([c] + rest) == Lex(rest) <== c as int == 32 || 9 <= c as int <= 13
    ensures IsForeign(c) <== c as int != 32 && !(9 <= c as int <= 13) && !IsSymbol(c) && !('0' <= c <= '9')
  {
    assert ([c] + rest)[1..] == rest;
  }
}
