/**
 * Commands against the characters of the line: which operator stands in front of each
 * redirect, where pipes, lists and background jobs are divided, and in which order words come.
 */
module ShellText {
  import opened ShellLex
  import opened ShellGrammar
  import opened ShellTree

  predicate Blank(line: string, lo: nat, hi: nat) {
    forall k :: lo <= k < hi && k < |line| ==> White(line[k])
  }

  // ----- what the characters say about a command

  /** The characters that end at position `e`, followed by nothing but white space up to the word `file`:
      '<' opens it for reading on descriptor 0, ">>" for appending and a single '>' for truncation on 1. */
  predicate RedirectedAt(line: string, file: Span, mode: Mode, fd: nat, e: nat) {
    && 0 < e <= file.lo < file.hi <= |line| && Blank(line, e, file.lo)
    && if line[e - 1] == '<' then mode.ReadOnly? && fd == 0
       else line[e - 1] == '>' && fd == 1 && if e >= 2 && line[e - 2] == '>' then mode.Append? else mode.Truncate?
  }

  ghost predicate Redirected(line: string, file: Span, mode: Mode, fd: nat) {
    exists e :: RedirectedAt(line, file, mode, fd, e)
  }

  /** All words of the command end by position `m`, or start from there on. */
  ghost predicate UpTo(c: Cmd, m: nat) {
    forall w :: w in Spans(c) ==> w.hi <= m
  }

  ghost predicate From(c: Cmd, m: nat) {
    forall w :: w in Spans(c) ==> m <= w.lo
  }

  /** The symbol `t` at position `m` stands between the two commands. */
  ghost predicate Divides(line: string, t: char, l: Cmd, r: Cmd, m: nat) {
    m < |line| && line[m] == t && UpTo(l, m) && From(r, m + 1)
  }

  /** The '&' at position `m` stands behind the command, whose text is taken from position `s` on. */
  ghost predicate Ampersand(line: string, c: Cmd, pick: string, m: nat, s: nat) {
    m < |line| && line[m] == '&' && UpTo(c, m) && s <= |line| && From(c, s) && pick == line[s..]
  }

  predicate Rising(ws: seq<Span>) {
    forall i :: 0 < i < |ws| ==> ws[i - 1].hi <= ws[i].lo
  }

  /** The command is what the line shows: arguments in order, redirects by their operators and the later
      ones outside, '|' between the parts of a pipe, ';' between those of a list, '&' behind a job. */
  ghost predicate Shown(line: string, c: Cmd) {
    match c
    case ExecCmd(args) => Rising(args)
    case RedirCmd(d, file, mode, fd) =>
      Shown(line, d) && Redirected(line, file, mode, fd) && (d.RedirCmd? ==> d.file.hi <= file.lo)
    case PipeCmd(l, r) => Shown(line, l) && Shown(line, r) && exists m :: Divides(line, '|', l, r, m)
    case ListCmd(l, r) => Shown(line, l) && Shown(line, r) && exists m :: Divides(line, ';', l, r, m)
    case BackCmd(d, pick) => Shown(line, d) && exists m, s :: Ampersand(line, d, pick, m, s)
  }

  // ----- tokens as they stand in the line

  predicate Spelled(line: string, t: Token) {
    && t.span.lo < t.span.hi <= |line| && !White(line[t.span.lo])
    && if t.kind == WORD then forall k :: t.span.lo <= k < t.span.hi ==> Plain(line[k])
       else if t.kind == APPEND then t.span.hi == t.span.lo + 2 && line[t.span.lo] == line[t.span.lo + 1] == '>'
       else t.span.hi == t.span.lo + 1 && line[t.span.lo] == t.kind && Symbol(t.kind)
  }

  /** Spelled tokens in order, with only white space before the first, from position `i`, and in between. */
  ghost predicate Scanned(line: string, ts: seq<Token>, i: nat) {
    && (forall k :: 0 <= k < |ts| ==> Spelled(line, ts[k]))
    && (ts != [] ==> i <= ts[0].span.lo && Blank(line, i, ts[0].span.lo))
    && forall k :: 0 < k < |ts| ==> ts[k - 1].span.hi <= ts[k].span.lo && Blank(line, ts[k - 1].span.hi, ts[k].span.lo)
  }

  lemma {:induction false} LexScanned(line: string, i: nat)
    requires i <= |line|
    ensures Scanned(line, Lex(line, i), i)
    decreases |line| - i
  {
    var s := Skip(line, i);
    if s < |line| {
      var t := TokenAt(line, s);
      LexScanned(line, t.span.hi);
    }
  }

  lemma {:induction false} Ordered(line: string, ts: seq<Token>, i: nat, a: nat, b: nat)
    requires Scanned(line, ts, i) && a < b < |ts|
    ensures ts[a].span.hi <= ts[b].span.lo
    decreases b
  {
    assert ts[b - 1].span.hi <= ts[b].span.lo;
    if a < b - 1 {
      Ordered(line, ts, i, a, b - 1);
      assert Spelled(line, ts[b - 1]);
    }
  }

  /** Every operator is followed by a word. */
  predicate Followed(ts: seq<Token>) {
    forall k :: 0 <= k < |ts| && IsOp(ts[k]) ==> k + 1 < |ts| && ts[k + 1].kind == WORD
  }

  lemma {:induction false} FollowedBoth(a: seq<Token>, b: seq<Token>)
    requires Followed(a) && Followed(b)
    ensures Followed(a + b)
  {
    var ts := a + b;
    forall k | 0 <= k < |ts| && IsOp(ts[k]) ensures k + 1 < |ts| && ts[k + 1].kind == WORD {
      if k < |a| {
        assert a[k] == ts[k] && a[k + 1] == ts[k + 1];
      } else {
        assert b[k - |a|] == ts[k] && b[k - |a| + 1] == ts[k + 1];
      }
    }
  }

  lemma {:induction false} FollowedRedirects(rs: seq<Redirect>)
    requires forall i :: 0 <= i < |rs| ==> GoodRedirect(rs[i])
    ensures Followed(YieldRedirects(rs))
  {
    if rs != [] {
      FollowedRedirects(rs[1..]);
      FollowedBoth([rs[0].op, rs[0].file], YieldRedirects(rs[1..]));
    }
  }

  lemma {:induction false} FollowedItems(items: seq<Item>)
    requires GoodItems(items)
    ensures Followed(YieldItems(items))
  {
    if items != [] {
      assert GoodItem(items[0]);
      FollowedItems(items[1..]);
      FollowedBoth(YieldItem(items[0]), YieldItems(items[1..]));
    }
  }

  lemma {:induction false} FollowedExec(x: Exec)
    requires GoodExec(x)
    ensures Followed(YieldExec(x))
    decreases x, 1
  {
    match x
    case Simple(items) => FollowedItems(items);
    case Block(open, l, close, rs) =>
      FollowedLine(l);
      FollowedRedirects(rs);
      FollowedBoth([open], YieldLine(l));
      FollowedBoth([open] + YieldLine(l), [close]);
      FollowedBoth([open] + YieldLine(l) + [close], YieldRedirects(rs));
  }

  lemma {:induction false} FollowedPipe(p: Pipe)
    requires GoodPipe(p)
    ensures Followed(YieldPipe(p))
    decreases p
  {
    match p
    case Last(x) => FollowedExec(x);
    case Piped(x, bar, q) =>
      FollowedExec(x);
      FollowedPipe(q);
      FollowedBoth(YieldExec(x), [bar]);
      FollowedBoth(YieldExec(x) + [bar], YieldPipe(q));
  }

  lemma {:induction false} FollowedLine(l: Line)
    requires GoodLine(l)
    ensures Followed(YieldLine(l))
    decreases l
  {
    FollowedPipe(l.pipe);
    FollowedBoth(YieldPipe(l.pipe), l.amps);
    match l.next
    case End => assert YieldPipe(l.pipe) + l.amps + [] == YieldPipe(l.pipe) + l.amps;
    case Then(semi, m) =>
      FollowedLine(m);
      FollowedBoth([semi], YieldLine(m));
      FollowedBoth(YieldPipe(l.pipe) + l.amps, [semi] + YieldLine(m));
  }

  /** The mode and descriptor of every operator are those its characters stand for. */
  ghost predicate Fit(line: string, ts: seq<Token>) {
    forall k :: 0 <= k && k + 1 < |ts| && IsOp(ts[k]) ==> Redirected(line, ts[k + 1].span, ModeOf(ts[k]), FdOf(ts[k]))
  }

  lemma {:induction false} OperatorFits(line: string, ts: seq<Token>, i: nat, k: nat)
    requires Scanned(line, ts, i) && i == 0 && Followed(ts) && k + 1 < |ts| && IsOp(ts[k])
    ensures RedirectedAt(line, ts[k + 1].span, ModeOf(ts[k]), FdOf(ts[k]), ts[k].span.hi)
  {
    var t, w := ts[k], ts[k + 1];
    assert Spelled(line, t) && Spelled(line, w);
    assert ts[k + 1 - 1].span.hi <= ts[k + 1].span.lo && Blank(line, ts[k + 1 - 1].span.hi, ts[k + 1].span.lo);
    if t.kind == '>' && t.span.lo > 0 {
      if k == 0 {
        assert White(line[t.span.lo - 1]);
      } else {
        var u := ts[k - 1];
        assert Spelled(line, u) && !IsOp(u);
        assert u.span.hi == t.span.lo || White(line[t.span.lo - 1]);
      }
    }
  }

  lemma {:induction false} LexFits(line: string, l: Line)
    requires GoodLine(l) && YieldLine(l) == Lex(line, 0)
    ensures Fit(line, Lex(line, 0))
  {
    hide Lex, YieldLine, GoodLine, Scanned, Followed;
    LexScanned(line, 0);
    FollowedLine(l);
    var ts := Lex(line, 0);
    forall k | 0 <= k && k + 1 < |ts| && IsOp(ts[k]) ensures Redirected(line, ts[k + 1].span, ModeOf(ts[k]), FdOf(ts[k])) {
      OperatorFits(line, ts, 0, k);
    }
  }

  // ----- parts of the token string

  ghost predicate Legible(line: string, ts: seq<Token>, i: nat) {
    Scanned(line, ts, i) && Fit(line, ts)
  }

  /** All tokens end by position `m`, or start from there on. */
  ghost predicate Ends(ts: seq<Token>, m: nat) {
    forall t :: t in ts ==> t.span.hi <= m
  }

  ghost predicate Starts(ts: seq<Token>, m: nat) {
    forall t :: t in ts ==> m <= t.span.lo
  }

  /** The front and the back of the token string. */
  lemma {:induction false} Front(line: string, a: seq<Token>, b: seq<Token>, i: nat)
    requires Legible(line, a + b, i)
    ensures Legible(line, a, i)
  {
    hide Spelled, Blank, Redirected, ModeOf, FdOf;
    var ts := a + b;
    assert forall k :: 0 <= k < |a| ==> a[k] == ts[k];
  }

  lemma {:induction false} Back(line: string, a: seq<Token>, b: seq<Token>, i: nat)
    requires Legible(line, a + b, i) && a != []
    ensures Legible(line, b, a[|a| - 1].span.hi)
  {
    hide Spelled, Blank, Redirected, ModeOf, FdOf;
    var ts, n := a + b, |a|;
    assert forall k :: 0 <= k < |b| ==> b[k] == ts[n + k];
    forall k | 0 < k < |b| ensures b[k - 1].span.hi <= b[k].span.lo && Blank(line, b[k - 1].span.hi, b[k].span.lo) {
      assert ts[n + k - 1].span.hi <= ts[n + k].span.lo && Blank(line, ts[n + k - 1].span.hi, ts[n + k].span.lo);
    }
    forall k | 0 <= k && k + 1 < |b| && IsOp(b[k]) ensures Redirected(line, b[k + 1].span, ModeOf(b[k]), FdOf(b[k])) {
      assert Redirected(line, ts[n + k + 1].span, ModeOf(ts[n + k]), FdOf(ts[n + k]));
    }
    if b != [] {
      assert ts[n - 1].span.hi <= ts[n].span.lo && Blank(line, ts[n - 1].span.hi, ts[n].span.lo);
    }
  }

  /** A token and what stands in front of it. */
  lemma {:induction false} Upto(line: string, a: seq<Token>, t: Token, i: nat)
    requires Legible(line, a + [t], i)
    ensures Legible(line, a, i) && Spelled(line, t) && Ends(a, t.span.lo)
  {
    hide Spelled, Blank, Redirected;
    var ts, n := a + [t], |a|;
    Front(line, a, [t], i);
    assert ts[n] == t && Spelled(line, ts[n]);
    forall u | u in a ensures u.span.hi <= t.span.lo {
      var k :| 0 <= k < |a| && a[k] == u;
      Ordered(line, ts, i, k, n);
    }
  }

  /** A token and what stands behind it. */
  lemma {:induction false} Onward(line: string, t: Token, b: seq<Token>, i: nat)
    requires Legible(line, [t] + b, i)
    ensures Legible(line, b, t.span.hi) && Spelled(line, t) && Starts(b, After(line, t.span.hi))
    ensures t.span.hi <= After(line, t.span.hi) <= |line|
  {
    hide Blank, Redirected;
    var ts := [t] + b;
    Back(line, [t], b, i);
    assert ts[0] == t && Spelled(line, ts[0]);
    forall u | u in b ensures After(line, t.span.hi) <= u.span.lo {
      var k :| 0 <= k < |b| && b[k] == u;
      Ordered(line, ts, i, 0, k + 1);
      assert Spelled(line, ts[k + 1]);
    }
  }

  // ----- from tokens to commands

  lemma {:induction false} WordsIn(ts: seq<Token>, w: Span)
    requires w in WordSpans(ts)
    ensures exists t :: t in ts && t.span == w
  {
    if ts[0].kind == WORD && ts[0].span == w {
      assert ts[0] in ts;
    } else {
      WordsIn(ts[1..], w);
    }
  }

  lemma {:induction false} CommandEnds(c: Cmd, ts: seq<Token>, m: nat)
    requires Spans(c) == multiset(WordSpans(ts))
    ensures Ends(ts, m) ==> UpTo(c, m)
    ensures Starts(ts, m) ==> From(c, m)
  {
    hide Spans, WordSpans;
    forall w | w in Spans(c) ensures (Ends(ts, m) ==> w.hi <= m) && (Starts(ts, m) ==> m <= w.lo) {
      assert w in WordSpans(ts);
      WordsIn(ts, w);
    }
  }

  /** Redirects with the operators in front of their files, in order. */
  ghost predicate Listed(line: string, rs: seq<Redirect>) {
    && (forall i :: 0 <= i < |rs| ==> Redirected(line, rs[i].file.span, ModeOf(rs[i].op), FdOf(rs[i].op)))
    && forall i :: 0 < i < |rs| ==> rs[i - 1].file.span.hi <= rs[i].file.span.lo
  }

  /** Files of the redirects start behind position `m`. */
  ghost predicate Behind(rs: seq<Redirect>, m: nat) {
    forall i :: 0 <= i < |rs| ==> m <= rs[i].file.span.lo
  }

  lemma {:induction false} ListedCons(line: string, r: Redirect, rs: seq<Redirect>)
    requires Redirected(line, r.file.span, ModeOf(r.op), FdOf(r.op)) && Listed(line, rs) && Behind(rs, r.file.span.hi)
    ensures Listed(line, [r] + rs)
  {
  }

  lemma {:induction false} ListedNone(line: string)
    ensures Listed(line, []) && (forall i :: Behind([], i) && FromOn([], i)) && Rising([])
  {
  }

  /** One redirect in front of other tokens. */
  lemma {:induction false} RedirectFirst(line: string, r: Redirect, b: seq<Token>, i: nat)
    requires GoodRedirect(r) && Legible(line, [r.op, r.file] + b, i)
    ensures Redirected(line, r.file.span, ModeOf(r.op), FdOf(r.op)) && i <= r.file.span.lo < r.file.span.hi
    ensures Legible(line, b, r.file.span.hi)
  {
    hide Redirected, ModeOf, FdOf, Blank;
    var ts := [r.op, r.file] + b;
    assert ts[0] == r.op && ts[1] == r.file;
    assert Spelled(line, ts[0]) && Spelled(line, ts[1]) && ts[0].span.hi <= ts[1].span.lo;
    Back(line, [r.op, r.file], b, i);
  }

  lemma {:induction false} WordFirst(line: string, w: Token, b: seq<Token>, i: nat)
    requires Legible(line, [w] + b, i)
    ensures i <= w.span.lo < w.span.hi && Legible(line, b, w.span.hi)
  {
    hide Redirected, Blank;
    var ts := [w] + b;
    assert ts[0] == w && Spelled(line, ts[0]);
    Back(line, [w], b, i);
  }

  lemma {:induction false} BehindLess(rs: seq<Redirect>, m: nat, i: nat)
    requires Behind(rs, m) && i <= m
    ensures Behind(rs, i)
  {
  }

  lemma {:induction false} RedirectsListed(line: string, rs: seq<Redirect>, i: nat)
    requires (forall j :: 0 <= j < |rs| ==> GoodRedirect(rs[j])) && Legible(line, YieldRedirects(rs), i)
    ensures Listed(line, rs) && Behind(rs, i)
  {
    hide Legible, Redirected;
    if rs != [] {
      RedirectFirst(line, rs[0], YieldRedirects(rs[1..]), i);
      RedirectsListed(line, rs[1..], rs[0].file.span.hi);
      ListedCons(line, rs[0], rs[1..]);
      assert [rs[0]] + rs[1..] == rs;
    }
  }

  ghost predicate FromOn(ws: seq<Span>, m: nat) {
    forall w :: w in ws ==> m <= w.lo
  }

  lemma {:induction false} RisingCons(w: Span, ws: seq<Span>, i: nat)
    requires Rising(ws) && FromOn(ws, w.hi) && i <= w.lo < w.hi
    ensures Rising([w] + ws) && FromOn([w] + ws, i)
  {
    var all := [w] + ws;
    forall k | 0 < k < |all| ensures all[k - 1].hi <= all[k].lo {
      assert all[k] == ws[k - 1] && ws[k - 1] in ws;
    }
  }

  lemma {:induction false} FromOnLess(ws: seq<Span>, m: nat, i: nat)
    requires FromOn(ws, m) && i <= m
    ensures FromOn(ws, i)
  {
  }

  lemma {:induction false} BehindCons(r: Redirect, rs: seq<Redirect>, i: nat)
    requires Behind(rs, r.file.span.hi) && i <= r.file.span.lo < r.file.span.hi
    ensures Behind([r] + rs, i)
  {
  }

  /** Arguments and redirects of a simple command. */
  lemma {:induction false} ItemsListed(line: string, items: seq<Item>, i: nat)
    requires GoodItems(items) && Legible(line, YieldItems(items), i)
    ensures Listed(line, Redirs(items)) && Behind(Redirs(items), i)
    ensures Rising(Args(items)) && FromOn(Args(items), i)
  {
    hide Legible, Redirected, Listed, Behind, Rising, FromOn, ModeOf, FdOf;
    if items == [] {
      ListedNone(line);
    } else {
      assert GoodItem(items[0]);
      var rest := items[1..];
      match items[0]
      case Arg(w) =>
        WordFirst(line, w, YieldItems(rest), i);
        ItemsListed(line, rest, w.span.hi);
        BehindLess(Redirs(rest), w.span.hi, i);
        RisingCons(w.span, Args(rest), i);
        Empty(Redirs(rest));
      case Into(r) =>
        RedirectFirst(line, r, YieldItems(rest), i);
        ItemsListed(line, rest, r.file.span.hi);
        ListedCons(line, r, Redirs(rest));
        BehindCons(r, Redirs(rest), i);
        FromOnLess(Args(rest), r.file.span.hi, i);
        Empty(Args(rest));
    }
  }

  lemma {:induction false} WrapShown(line: string, c: Cmd, rs: seq<Redirect>)
    requires Shown(line, c) && Listed(line, rs) && (c.RedirCmd? ==> Behind(rs, c.file.hi))
    ensures Shown(line, Wrap(c, rs))
    ensures rs != [] ==> Wrap(c, rs).RedirCmd? && Wrap(c, rs).file == rs[|rs| - 1].file.span
  {
    hide Redirected;
    if rs != [] {
      var k := |rs| - 1;
      WrapShown(line, c, rs[..k]);
      assert Redirected(line, rs[k].file.span, ModeOf(rs[k].op), FdOf(rs[k].op));
      assert k > 0 ==> rs[k - 1].file.span.hi <= rs[k].file.span.lo;
    }
  }

  lemma {:induction false} ExecShown(line: string, x: Exec, i: nat)
    requires GoodExec(x) && Legible(line, YieldExec(x), i)
    ensures Shown(line, TreeExec(line, x))
    decreases x, 1
  {
    hide Legible, Wrap, Listed, Behind, TreeLine, YieldLine, YieldItems, YieldRedirects, Spans, WordSpans, Rising;
    match x
    case Simple(items) =>
      ItemsListed(line, items, i);
      WrapShown(line, ExecCmd(Args(items)), Redirs(items));
    case Block(open, l, close, rs) =>
      var at, c := After(line, open.span.hi), TreeLine(line, l, After(line, open.span.hi));
      Front(line, [open] + YieldLine(l) + [close], YieldRedirects(rs), i);
      Back(line, [open] + YieldLine(l) + [close], YieldRedirects(rs), i);
      Upto(line, [open] + YieldLine(l), close, i);
      Onward(line, open, YieldLine(l), i);
      LineShown(line, l, at, open.span.hi);
      RedirectsListed(line, rs, close.span.hi);
      LineWords(line, l, at);
      EndsPart([open], YieldLine(l), close.span.lo);
      CommandEnds(c, YieldLine(l), close.span.lo);
      WrapBehind(line, c, rs, close);
      WrapShown(line, c, rs);
  }

  lemma {:induction false} EndsPart(a: seq<Token>, b: seq<Token>, m: nat)
    requires Ends(a + b, m)
    ensures Ends(a, m) && Ends(b, m)
  {
    assert forall t :: t in a || t in b ==> t in a + b;
  }

  lemma {:induction false} StartsPart(a: seq<Token>, b: seq<Token>, m: nat)
    requires Starts(a + b, m)
    ensures Starts(a, m) && Starts(b, m)
  {
    assert forall t :: t in a || t in b ==> t in a + b;
  }

  lemma {:induction false} WrapBehind(line: string, c: Cmd, rs: seq<Redirect>, close: Token)
    requires UpTo(c, close.span.lo) && Spelled(line, close) && Behind(rs, close.span.hi)
    ensures c.RedirCmd? ==> Behind(rs, c.file.hi)
  {
    if c.RedirCmd? {
      assert c.file in Spans(c);
    }
  }

  lemma {:induction false} PipeShown(line: string, p: Pipe, i: nat)
    requires GoodPipe(p) && Legible(line, YieldPipe(p), i)
    ensures Shown(line, TreePipe(line, p))
    decreases p
  {
    hide Legible, TreeExec, YieldExec, Spans, WordSpans, GoodExec, UpTo, From;
    match p
    case Last(x) => ExecShown(line, x, i);
    case Piped(x, bar, q) =>
      Front(line, YieldExec(x) + [bar], YieldPipe(q), i);
      Assoc([bar], YieldPipe(q), YieldExec(x));
      Upto(line, YieldExec(x), bar, i);
      BackFrom(line, YieldExec(x), [bar] + YieldPipe(q), i);
      var j := if YieldExec(x) == [] then i else YieldExec(x)[|YieldExec(x)| - 1].span.hi;
      Onward(line, bar, YieldPipe(q), j);
      ExecShown(line, x, i);
      PipeShown(line, q, bar.span.hi);
      ExecWords(line, x);
      PipeWords(line, q);
      CommandEnds(TreeExec(line, x), YieldExec(x), bar.span.lo);
      StartsLess(YieldPipe(q), After(line, bar.span.hi), bar.span.hi);
      CommandEnds(TreePipe(line, q), YieldPipe(q), bar.span.hi);
      assert Divides(line, '|', TreeExec(line, x), TreePipe(line, q), bar.span.lo);
  }

  lemma {:induction false} StartsLess(ts: seq<Token>, m: nat, i: nat)
    requires Starts(ts, m) && i <= m
    ensures Starts(ts, i)
  {
  }

  /** The back of the token string, whatever the front is. */
  lemma {:induction false} BackFrom(line: string, a: seq<Token>, b: seq<Token>, i: nat)
    requires Legible(line, a + b, i)
    ensures Legible(line, b, if a == [] then i else a[|a| - 1].span.hi)
  {
    hide Scanned, Fit;
    if a == [] {
      Empty(b);
    } else {
      Back(line, a, b, i);
    }
  }

  /** The command of a line that starts at position `at`. */
  lemma {:induction false} LineShown(line: string, l: Line, at: nat, i: nat)
    requires GoodLine(l) && Legible(line, YieldLine(l), i) && Starts(YieldLine(l), at) && at <= |line|
    ensures Shown(line, TreeLine(line, l, at))
    decreases l
  {
    hide Legible, TreePipe, YieldPipe, Spans, WordSpans, GoodPipe, UpTo, From, Backs, GoodAmps;
    var c, pick, n := TreePipe(line, l.pipe), TextFrom(line, at), |l.amps|;
    var front := YieldPipe(l.pipe) + l.amps;
    Front(line, front, YieldNext(l.next), i);
    Front(line, YieldPipe(l.pipe), l.amps, i);
    StartsPart(front, YieldNext(l.next), at);
    StartsPart(YieldPipe(l.pipe), l.amps, at);
    PipeShown(line, l.pipe, i);
    BacksShown(line, l, at, i, n);
    match l.next
    case End =>
    case Then(semi, m) =>
      BackFrom(line, front, [semi] + YieldLine(m), i);
      Assoc([semi], YieldLine(m), front);
      Front(line, front + [semi], YieldLine(m), i);
      Upto(line, front, semi, i);
      Onward(line, semi, YieldLine(m), if front == [] then i else front[|front| - 1].span.hi);
      var after := After(line, semi.span.hi);
      LineShown(line, m, after, semi.span.hi);
      LineWords(line, m, after);
      StartsLess(YieldLine(m), after, semi.span.hi);
      CommandEnds(TreeLine(line, m, after), YieldLine(m), semi.span.hi);
      PipeWords(line, l.pipe);
      EndsPart(YieldPipe(l.pipe), l.amps, semi.span.lo);
      CommandEnds(c, YieldPipe(l.pipe), semi.span.lo);
      BacksSpans(c, n, pick);
      SameSpans(c, Backs(c, n, pick), semi.span.lo);
      assert Divides(line, ';', Backs(c, n, pick), TreeLine(line, m, after), semi.span.lo);
  }

  lemma {:induction false} SameSpans(c: Cmd, d: Cmd, m: nat)
    requires Spans(c) == Spans(d)
    ensures UpTo(c, m) <==> UpTo(d, m)
    ensures From(c, m) <==> From(d, m)
  {
  }

  lemma {:induction false} BacksShown(line: string, l: Line, at: nat, i: nat, n: nat)
    requires GoodLine(l) && Legible(line, YieldPipe(l.pipe) + l.amps, i) && Starts(YieldPipe(l.pipe), at) && at <= |line|
    requires Shown(line, TreePipe(line, l.pipe)) && n <= |l.amps|
    ensures Shown(line, Backs(TreePipe(line, l.pipe), n, TextFrom(line, at)))
    decreases n
  {
    hide Legible, TreePipe, YieldPipe, Spans, WordSpans, GoodPipe, UpTo, From;
    if n > 0 {
      BacksShown(line, l, at, i, n - 1);
      var c, pick := TreePipe(line, l.pipe), TextFrom(line, at);
      var d, t := Backs(c, n - 1, pick), l.amps[n - 1];
      var a, b := YieldPipe(l.pipe) + l.amps[..n - 1], l.amps[n..];
      assert YieldPipe(l.pipe) + l.amps == a + [t] + b;
      Front(line, a + [t], b, i);
      Upto(line, a, t, i);
      PipeWords(line, l.pipe);
      EndsPart(YieldPipe(l.pipe), l.amps[..n - 1], t.span.lo);
      CommandEnds(c, YieldPipe(l.pipe), t.span.lo);
      CommandEnds(c, YieldPipe(l.pipe), at);
      BacksSpans(c, n - 1, pick);
      SameSpans(c, d, t.span.lo);
      SameSpans(c, d, at);
      assert Ampersand(line, d, pick, t.span.lo, at);
    }
  }

  /** The command of the whole line is what the line shows. */
  lemma {:induction false} WholeShown(line: string, l: Line)
    requires GoodLine(l) && YieldLine(l) == Lex(line, 0)
    ensures Shown(line, TreeLine(line, l, 0))
  {
    hide Lex, TreeLine, YieldLine, GoodLine, Scanned, Fit, Shown;
    LexScanned(line, 0);
    LexFits(line, l);
    LineShown(line, l, 0, 0);
  }
}
