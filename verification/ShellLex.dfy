/**
 * Tokens of a shell command line: where they start, where they end, and which
 * stretches of the line are words.
 */
module ShellLex {
  const NUL := '\0'
  const WORD := 'a'
  const APPEND := '+'

  /** A stretch `[lo, hi)` of the line. */
  datatype Span = Span(lo: nat, hi: nat)

  /** A token and its stretch; `kind` is the symbol itself, `APPEND` for ">>" and `WORD` for a word. */
  datatype Token = Token(kind: char, span: Span)

  predicate White(c: char) {
    c == ' ' || c == '\t' || c == '\r' || c == '\n' || c == '\U{0B}'
  }

  predicate Symbol(c: char) {
    c == '<' || c == '|' || c == '>' || c == '&' || c == ';' || c == '(' || c == ')'
  }

  predicate Plain(c: char) {
    !White(c) && !Symbol(c)
  }

  /** The first position from `i` on that is not white space. */
  function Skip(line: string, i: nat): (j: nat)
    requires i <= |line|
    ensures i <= j <= |line|
    ensures forall k :: i <= k < j ==> White(line[k])
    ensures j < |line| ==> !White(line[j])
    decreases |line| - i
  {
    if i < |line| && White(line[i]) then Skip(line, i + 1) else i
  }

  /** The first position from `i` on that cannot belong to a word. */
  function RunEnd(line: string, i: nat): (j: nat)
    requires i <= |line|
    ensures i <= j <= |line|
    ensures forall k :: i <= k < j ==> Plain(line[k])
    ensures j < |line| ==> !Plain(line[j])
    decreases |line| - i
  {
    if i < |line| && Plain(line[i]) then RunEnd(line, i + 1) else i
  }

  predicate Doubled(line: string, s: nat) {
    s + 1 < |line| && line[s] == '>' && line[s + 1] == '>'
  }

  /** The token that starts at `s`. */
  function TokenAt(line: string, s: nat): (t: Token)
    requires s < |line| && !White(line[s])
    ensures t.span.lo == s < t.span.hi <= |line|
  {
    if Doubled(line, s) then Token(APPEND, Span(s, s + 2))
    else if Symbol(line[s]) then Token(line[s], Span(s, s + 1))
    else Token(WORD, Span(s, RunEnd(line, s)))
  }

  /** The tokens from position `i` on. */
  function Lex(line: string, i: nat): seq<Token>
    requires i <= |line|
    decreases |line| - i
  {
    var s := Skip(line, i);
    if s == |line| then [] else
      var t := TokenAt(line, s);
      [t] + Lex(line, t.span.hi)
  }

  lemma {:induction false} SkipAgain(line: string, i: nat)
    requires i <= |line|
    ensures Skip(line, Skip(line, i)) == Skip(line, i)
    ensures Lex(line, Skip(line, i)) == Lex(line, i)
  {
  }

  // ----- words

  function WordSpans(ts: seq<Token>): seq<Span> {
    if ts == [] then []
    else (if ts[0].kind == WORD then [ts[0].span] else []) + WordSpans(ts[1..])
  }

  /** A stretch of word characters that cannot be made longer on either side. */
  ghost predicate MaximalRun(line: string, w: Span) {
    && w.lo < w.hi <= |line|
    && (forall k :: w.lo <= k < w.hi ==> Plain(line[k]))
    && (w.lo > 0 ==> !Plain(line[w.lo - 1]))
    && (w.hi < |line| ==> !Plain(line[w.hi]))
  }

  predicate Ascending(ws: seq<Span>, from: nat) {
    ws == [] || (from <= ws[0].lo < ws[0].hi && Ascending(ws[1..], ws[0].hi))
  }

  /** The words of the token stream are exactly the maximal runs of the line, in order. */
  lemma {:induction false} WordsAreRuns(line: string, i: nat)
    requires i <= |line| && (i > 0 && i < |line| ==> !Plain(line[i - 1]) || !Plain(line[i]))
    ensures Ascending(WordSpans(Lex(line, i)), i)
    ensures forall w :: w in WordSpans(Lex(line, i)) <==> MaximalRun(line, w) && i <= w.lo
    decreases |line| - i
  {
    var s := Skip(line, i);
    if s < |line| {
      var t := TokenAt(line, s);
      var e := t.span.hi;
      var rest := WordSpans(Lex(line, e));
      WordsAreRuns(line, e);
      assert Lex(line, i)[1..] == Lex(line, e);
      forall w ensures w in WordSpans(Lex(line, i)) <==> MaximalRun(line, w) && i <= w.lo {
        RunFrom(line, i, w);
      }
      if t.kind == WORD {
        assert ([t.span] + rest)[1..] == rest;
      } else {
        assert [] + rest == rest;
        AscendingFrom(rest, e, i);
      }
    } else {
      forall w ensures !(MaximalRun(line, w) && i <= w.lo) {
        assert i <= w.lo < |line| ==> White(line[w.lo]);
      }
    }
  }

  /** A run that starts at or after `i` is the first token or starts after it. */
  lemma {:induction false} RunFrom(line: string, i: nat, w: Span)
    requires i <= |line| && Skip(line, i) < |line|
    requires i > 0 ==> !Plain(line[i - 1]) || !Plain(line[i])
    ensures var t := TokenAt(line, Skip(line, i));
            MaximalRun(line, w) && i <= w.lo <==>
            (MaximalRun(line, w) && t.span.hi <= w.lo) || (t.kind == WORD && w == t.span)
  {
    var s := Skip(line, i);
    var t := TokenAt(line, s);
    if MaximalRun(line, w) && i <= w.lo && w.lo < t.span.hi {
      assert !White(line[w.lo]);
      assert w.lo >= s;
    }
    if t.kind == WORD {
      assert s > i ==> White(line[s - 1]);
      assert MaximalRun(line, t.span);
    }
  }

  lemma {:induction false} AscendingFrom(ws: seq<Span>, from: nat, low: nat)
    requires Ascending(ws, from) && low <= from
    ensures Ascending(ws, low)
  {
  }

  /** Ascending stretches never repeat. */
  lemma {:induction false} AscendingOnce(ws: seq<Span>, from: nat, w: Span)
    requires Ascending(ws, from)
    ensures w in ws ==> from <= w.lo && multiset(ws)[w] == 1
  {
    if ws != [] {
      assert ws == [ws[0]] + ws[1..];
      AscendingOnce(ws[1..], ws[0].hi, w);
    }
  }
}
