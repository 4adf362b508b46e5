/**
 Postfix text as commands: the text is split at blanks, and the words that name a signal or a
 function are accepted.
 */
module Commands {
  import opened Outcomes
  import opened Lexer

  const SIGNALS := 32

  /** `atoi` on a word of digits, without its overflow. */
  function AtoI(word: string): nat
    requires AllDigits(word)
  {
    if word == "" then 0
    else 10 * AtoI(word[..|word| - 1]) + (word[|word| - 1] - '0') as nat
  }

  function WordLength(s: string): (n: nat)
    ensures n <= |s| && ' ' !in s[..n]
    ensures n < |s| ==> s[n] == ' '
  {
    if s == "" || s[0] == ' ' then 0 else 1 + WordLength(s[1..])
  }

  /** The maximal runs of non-blank characters of a text. */
  function Words(s: string): seq<string> {
    if s == "" then []
    else if s[0] == ' ' then Words(s[1..])
    else
      var n := WordLength(s);
      [s[..n]] + Words(s[n..])
  }

  predicate IsFunction(word: string) {
    word == "&" || word == "|" || word == "!" || word == "x" || word == "d"
  }

  predicate IsAccepted(word: string) {
    if AllDigits(word) then word != "" && AtoI(word) < SIGNALS else IsFunction(word)
  }

  function Accepted(words: seq<string>): seq<string> {
    if words == [] then []
    else (if IsAccepted(words[0]) then [words[0]] else []) + Accepted(words[1..])
  }

  /** What pushing a word, unless it is empty, adds to the commands. */
  function AcceptedWord(word: string): seq<string> {
    if word != "" then Accepted([word]) else []
  }

  /** The commands in the text from a position on. */
  function AcceptedFrom(s: string, from: nat): seq<string> {
    if from <= |s| then Accepted(Words(s[from..])) else []
  }

  /** The first blank at or after `from`, or the end of the text, is at `to`. */
  predicate BreaksAt(s: string, from: nat, to: nat) {
    from <= to <= |s| && ' ' !in s[from..to] && (to < |s| ==> s[to] == ' ')
  }

  /** Where the word before blank `pos` ends. */
  function EndOf(s: string, pos: Option<nat>): nat {
    if pos.None? then |s| else pos.value
  }

  /** The commands from `from` on are those of the word and those behind the blank at `to`. */
  predicate Splits(s: string, from: nat, word: string, to: nat) {
    AcceptedFrom(s, from) == AcceptedWord(word) + AcceptedFrom(s, to + 1)
  }

  /** One round of the splitting loop: the text up to the next blank is one word or nothing. */
  lemma NextWord(s: string, from: nat, to: nat)
    requires BreaksAt(s, from, to)
    ensures Splits(s, from, s[from..to], to)
  {
    var rest, k := s[from..], to - from;
    assert rest[..k] == s[from..to];
    assert to < |s| ==> rest[k + 1..] == s[to + 1..];
    AcceptedFirst(rest, k);
  }

  lemma WholeText(s: string)
    ensures AcceptedFrom(s, 0) == Accepted(Words(s)) && AcceptedFrom(s, |s| + 1) == []
  {
    assert s[0..] == s;
  }

  lemma CommandsAssoc(a: seq<string>, b: seq<string>, c: seq<string>)
    ensures a + (b + c) == (a + b) + c
  {
  }

  lemma AcceptedFirst(s: string, n: nat)
    requires n <= |s| && ' ' !in s[..n] && (n < |s| ==> s[n] == ' ')
    ensures Accepted(Words(s)) == AcceptedWord(s[..n]) + (if n < |s| then Accepted(Words(s[n + 1..])) else [])
  {
    FirstWord(s, n);
    var last: seq<string> := if n < |s| then Words(s[n + 1..]) else [];
    assert n < |s| ==> s[n..][1..] == s[n + 1..];
    assert n == |s| ==> s[n..] == "";
    assert Words(s[n..]) == last;
    assert |s[..n]| == n;
    if n > 0 {
      AcceptedAppend([s[..n]], last);
    } else {
      assert Words(s) == last && [] + Accepted(last) == Accepted(last);
    }
  }

  lemma WordThenMore(v: string, more: string)
    requires v != "" && ' ' !in v
    ensures Words(v + " " + more) == [v] + Words(more)
  {
    var tail := v + " " + more;
    assert tail[..|v|] == v && tail[|v|] == ' ' && tail[|v|..][1..] == more;
    FirstWord(tail, |v|);
  }

  lemma {:induction false} WordLengthIs(s: string, n: nat)
    requires n <= |s| && ' ' !in s[..n]
    requires n < |s| ==> s[n] == ' '
    ensures WordLength(s) == n
  {
    if n > 0 {
      assert s[0] in s[..n] && s[1..][..n - 1] == s[..n][1..];
      WordLengthIs(s[1..], n - 1);
    }
  }

  lemma FirstWord(s: string, n: nat)
    requires n <= |s| && ' ' !in s[..n]
    requires n < |s| ==> s[n] == ' '
    ensures n > 0 ==> Words(s) == [s[..n]] + Words(s[n..])
    ensures n < |s| ==> Words(s[n..]) == Words(s[n..][1..])
    ensures n == 0 ==> Words(s) == Words(s[n..])
  {
    if n > 0 {
      assert s[0] in s[..n];
      WordLengthIs(s, n);
    } else {
      assert s[0..] == s;
    }
  }

  lemma {:induction false} AcceptedAppend(xs: seq<string>, ys: seq<string>)
    ensures Accepted(xs + ys) == Accepted(xs) + Accepted(ys)
  {
    if xs == [] {
      assert xs + ys == ys;
    } else {
      assert (xs + ys)[1..] == xs[1..] + ys;
      AcceptedAppend(xs[1..], ys);
    }
  }
}
