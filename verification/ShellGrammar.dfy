/**
 * The grammar of command lines and its recursive-descent parser over tokens.
 *
 *   line ::= pipe '&'* [ ';' line ]
 *   pipe ::= exec [ '|' pipe ]
 *   exec ::= '(' line ')' redirect* | (word | redirect)*     with fewer than MAXARGS words
 *   redirect ::= ('<' | '>' | '>>') word
 */
module ShellGrammar {
  import opened ShellLex

  const MAXARGS := 10

  // ----- derivations

  datatype Redirect = Redirect(op: Token, file: Token)
  datatype Item = Arg(word: Token) | Into(redirect: Redirect)
  datatype Exec = Simple(items: seq<Item>) | Block(open: Token, line: Line, close: Token, redirects: seq<Redirect>)
  datatype Pipe = Last(exec: Exec) | Piped(exec: Exec, bar: Token, pipe: Pipe)
  datatype Line = Line(pipe: Pipe, amps: seq<Token>, next: Next)
  datatype Next = End | Then(semi: Token, line: Line)

  predicate IsOp(t: Token) {
    t.kind == '<' || t.kind == '>' || t.kind == APPEND
  }

  predicate GoodRedirect(r: Redirect) {
    IsOp(r.op) && r.file.kind == WORD
  }

  predicate GoodItem(it: Item) {
    match it
    case Arg(w) => w.kind == WORD
    case Into(r) => GoodRedirect(r)
  }

  predicate GoodItems(items: seq<Item>) {
    forall i :: 0 <= i < |items| ==> GoodItem(items[i])
  }

  predicate GoodAmps(amps: seq<Token>) {
    forall i :: 0 <= i < |amps| ==> amps[i].kind == '&'
  }

  function Count(items: seq<Item>): nat {
    if items == [] then 0 else (if items[0].Arg? then 1 else 0) + Count(items[1..])
  }

  predicate GoodExec(x: Exec) {
    match x
    case Simple(items) => GoodItems(items) && Count(items) < MAXARGS
    case Block(open, line, close, rs) =>
      open.kind == '(' && GoodLine(line) && close.kind == ')' && (forall i :: 0 <= i < |rs| ==> GoodRedirect(rs[i]))
  }

  predicate GoodPipe(p: Pipe) {
    match p
    case Last(x) => GoodExec(x)
    case Piped(x, bar, q) => GoodExec(x) && bar.kind == '|' && GoodPipe(q)
  }

  predicate GoodLine(l: Line) {
    GoodPipe(l.pipe) && GoodAmps(l.amps) && GoodNext(l.next)
  }

  predicate GoodNext(n: Next) {
    match n
    case End => true
    case Then(semi, l) => semi.kind == ';' && GoodLine(l)
  }

  // ----- the tokens a derivation stands for

  function YieldRedirects(rs: seq<Redirect>): seq<Token> {
    if rs == [] then [] else [rs[0].op, rs[0].file] + YieldRedirects(rs[1..])
  }

  function YieldItem(it: Item): seq<Token> {
    match it
    case Arg(w) => [w]
    case Into(r) => [r.op, r.file]
  }

  function YieldItems(items: seq<Item>): seq<Token> {
    if items == [] then [] else YieldItem(items[0]) + YieldItems(items[1..])
  }

  function YieldExec(x: Exec): seq<Token> {
    match x
    case Simple(items) => YieldItems(items)
    case Block(open, line, close, rs) => [open] + YieldLine(line) + [close] + YieldRedirects(rs)
  }

  function YieldPipe(p: Pipe): seq<Token> {
    match p
    case Last(x) => YieldExec(x)
    case Piped(x, bar, q) => YieldExec(x) + [bar] + YieldPipe(q)
  }

  function YieldLine(l: Line): seq<Token> {
    YieldPipe(l.pipe) + l.amps + YieldNext(l.next)
  }

  function YieldNext(n: Next): seq<Token> {
    match n
    case End => []
    case Then(semi, l) => [semi] + YieldLine(l)
  }

  // ----- the parser

  datatype Parsed<T> = Fail | Done(tree: T, rest: seq<Token>)

  predicate Head(ts: seq<Token>, c: char) {
    ts != [] && ts[0].kind == c
  }

  /** The tokens at which an argument list stops. */
  predicate Stops(ts: seq<Token>) {
    ts == [] || ts[0].kind == '|' || ts[0].kind == ')' || ts[0].kind == '&' || ts[0].kind == ';'
  }

  function PRedirects(ts: seq<Token>): (r: Parsed<seq<Redirect>>)
    ensures r.Done? ==> |r.rest| <= |ts|
  {
    if ts == [] || !IsOp(ts[0]) then Done([], ts)
    else if !Head(ts[1..], WORD) then Fail
    else match PRedirects(ts[2..])
      case Fail => Fail
      case Done(rs, rest) => Done([Redirect(ts[0], ts[1])] + rs, rest)
  }

  /** The items from `ts` on, when `argc` arguments have been seen. */
  function PItems(ts: seq<Token>, argc: nat): (r: Parsed<seq<Item>>)
    ensures r.Done? ==> |r.rest| <= |ts|
    decreases |ts|
  {
    if Stops(ts) then Done([], ts)
    else if IsOp(ts[0]) then
      if !Head(ts[1..], WORD) then Fail else Before(Into(Redirect(ts[0], ts[1])), PItems(ts[2..], argc))
    else if ts[0].kind != WORD || argc + 1 >= MAXARGS then Fail
    else Before(Arg(ts[0]), PItems(ts[1..], argc + 1))
  }

  function Before<T>(x: T, r: Parsed<seq<T>>): Parsed<seq<T>> {
    match r
    case Fail => Fail
    case Done(xs, rest) => Done([x] + xs, rest)
  }

  function PExec(ts: seq<Token>): (r: Parsed<Exec>)
    ensures r.Done? ==> |r.rest| <= |ts|
    decreases |ts|, 1
  {
    if Head(ts, '(') then
      match PLine(ts[1..])
      case Fail => Fail
      case Done(l, ts1) => PClose(ts[0], l, ts1)
    else
      match PItems(ts, 0)
      case Fail => Fail
      case Done(items, rest) => Done(Simple(items), rest)
  }

  /** The closing parenthesis and the redirects after it. */
  function PClose(open: Token, l: Line, ts: seq<Token>): (r: Parsed<Exec>)
    ensures r.Done? ==> |r.rest| <= |ts|
  {
    if !Head(ts, ')') then Fail
    else match PRedirects(ts[1..])
      case Fail => Fail
      case Done(rs, rest) => Done(Block(open, l, ts[0], rs), rest)
  }

  function PPipe(ts: seq<Token>): (r: Parsed<Pipe>)
    ensures r.Done? ==> |r.rest| <= |ts|
    decreases |ts|, 2
  {
    match PExec(ts)
    case Fail => Fail
    case Done(x, ts1) =>
      if !Head(ts1, '|') then Done(Last(x), ts1)
      else match PPipe(ts1[1..])
        case Fail => Fail
        case Done(p, rest) => Done(Piped(x, ts1[0], p), rest)
  }

  function Amps(ts: seq<Token>): (n: nat)
    ensures n <= |ts| && GoodAmps(ts[..n]) && !Head(ts[n..], '&')
  {
    if Head(ts, '&') then 1 + Amps(ts[1..]) else 0
  }

  function PLine(ts: seq<Token>): (r: Parsed<Line>)
    ensures r.Done? ==> |r.rest| <= |ts|
    decreases |ts|, 3
  {
    match PPipe(ts)
    case Fail => Fail
    case Done(p, ts1) =>
      var n := Amps(ts1);
      var ts2 := ts1[n..];
      if !Head(ts2, ';') then Done(Line(p, ts1[..n], End), ts2)
      else match PLine(ts2[1..])
        case Fail => Fail
        case Done(l, rest) => Done(Line(p, ts1[..n], Then(ts2[0], l)), rest)
  }

  // ----- token strings

  lemma {:induction false} Assoc<T>(b: seq<T>, c: seq<T>, a: seq<T>)
    ensures a + (b + c) == a + b + c
  {
  }

  /** The two parts of a concatenation. */
  lemma {:induction false} Parts<T>(a: seq<T>, b: seq<T>)
    ensures (a + b)[..|a|] == a && (a + b)[|a|..] == b
  {
  }

  lemma {:induction false} Empty<T>(a: seq<T>)
    ensures a + [] == a && [] + a == a
  {
  }

  /** A non-empty string is its first token and the rest. */
  lemma {:induction false} Split<T>(a: seq<T>)
    requires a != []
    ensures [a[0]] + a[1..] == a
  {
  }

  // ----- what the parser returns is a derivation of what it consumed

  lemma {:induction false} RedirectsSound(ts: seq<Token>)
    ensures PRedirects(ts).Done? ==>
      var r := PRedirects(ts);
      (forall i :: 0 <= i < |r.tree| ==> GoodRedirect(r.tree[i])) && ts == YieldRedirects(r.tree) + r.rest
  {
    var r := PRedirects(ts);
    if r.Done? && r.tree != [] {
      RedirectsSound(ts[2..]);
      assert r.tree[1..] == PRedirects(ts[2..]).tree;
      assert ts == [ts[0], ts[1]] + ts[2..];
    }
  }

  lemma {:induction false} ItemsCons(it: Item, items: seq<Item>)
    ensures YieldItems([it] + items) == YieldItem(it) + YieldItems(items)
    ensures Count([it] + items) == (if it.Arg? then 1 else 0) + Count(items)
    ensures GoodItems([it] + items) <==> GoodItem(it) && GoodItems(items)
  {
    assert ([it] + items)[1..] == items;
    if GoodItems([it] + items) {
      assert ([it] + items)[0] == it;
      forall i | 0 <= i < |items| ensures GoodItem(items[i]) {
        assert ([it] + items)[i + 1] == items[i];
      }
    }
  }

  lemma {:induction false} ItemsSound(ts: seq<Token>, argc: nat)
    requires argc < MAXARGS
    ensures PItems(ts, argc).Done? ==>
      var r := PItems(ts, argc);
      && GoodItems(r.tree) && argc + Count(r.tree) < MAXARGS
      && ts == YieldItems(r.tree) + r.rest && Stops(r.rest)
    decreases |ts|
  {
    hide YieldItems, Count, GoodItems;
    var r := PItems(ts, argc);
    if Stops(ts) {
      NoItems();
      assert [] + ts == ts;
    } else if r.Done? {
      if IsOp(ts[0]) {
        ItemsSound(ts[2..], argc);
        ItemsCons(Into(Redirect(ts[0], ts[1])), PItems(ts[2..], argc).tree);
        assert ts == [ts[0], ts[1]] + ts[2..];
        Assoc(YieldItems(PItems(ts[2..], argc).tree), r.rest, [ts[0], ts[1]]);
      } else {
        ItemsSound(ts[1..], argc + 1);
        ItemsCons(Arg(ts[0]), PItems(ts[1..], argc + 1).tree);
        assert ts == [ts[0]] + ts[1..];
        Assoc(YieldItems(PItems(ts[1..], argc + 1).tree), r.rest, [ts[0]]);
      }
    }
  }

  lemma {:induction false} NoItems()
    ensures YieldItems([]) == [] && Count([]) == 0 && GoodItems([])
  {
  }

  lemma {:induction false} CloseSound(open: Token, l: Line, ts: seq<Token>)
    requires open.kind == '(' && GoodLine(l)
    ensures PClose(open, l, ts).Done? ==>
      var r := PClose(open, l, ts);
      GoodExec(r.tree) && [open] + YieldLine(l) + ts == YieldExec(r.tree) + r.rest
  {
    hide YieldLine, GoodLine, PRedirects, YieldRedirects;
    if Head(ts, ')') {
      RedirectsSound(ts[1..]);
      assert ts == [ts[0]] + ts[1..];
      var r := PRedirects(ts[1..]);
      if r.Done? {
        Assoc(YieldRedirects(r.tree), r.rest, [ts[0]]);
        Assoc([ts[0]] + YieldRedirects(r.tree), r.rest, [open] + YieldLine(l));
        Assoc([ts[0]], YieldRedirects(r.tree), [open] + YieldLine(l));
      }
    }
  }

  lemma {:induction false} ExecSound(ts: seq<Token>)
    ensures PExec(ts).Done? ==> var r := PExec(ts); GoodExec(r.tree) && ts == YieldExec(r.tree) + r.rest
    decreases |ts|, 1
  {
    hide YieldLine, GoodLine, PClose, PItems, YieldItems;
    if Head(ts, '(') {
      LineSound(ts[1..]);
      if PLine(ts[1..]).Done? {
        CloseSound(ts[0], PLine(ts[1..]).tree, PLine(ts[1..]).rest);
        assert ts == [ts[0]] + ts[1..];
      }
    } else {
      ItemsSound(ts, 0);
    }
  }

  lemma {:induction false} PipeSound(ts: seq<Token>)
    ensures PPipe(ts).Done? ==> var r := PPipe(ts); GoodPipe(r.tree) && ts == YieldPipe(r.tree) + r.rest
    decreases |ts|, 2
  {
    hide YieldExec, GoodExec, PExec;
    ExecSound(ts);
    if PExec(ts).Done? {
      var ts1 := PExec(ts).rest;
      if Head(ts1, '|') {
        PipeSound(ts1[1..]);
        assert ts1 == [ts1[0]] + ts1[1..];
      }
    }
  }

  /** A parse is a derivation: it is well formed and yields exactly the tokens consumed. */
  lemma {:induction false} LineSound(ts: seq<Token>)
    ensures PLine(ts).Done? ==> var r := PLine(ts); GoodLine(r.tree) && ts == YieldLine(r.tree) + r.rest
    decreases |ts|, 3
  {
    hide YieldPipe, GoodPipe, PPipe, Amps, GoodAmps;
    PipeSound(ts);
    if PPipe(ts).Done? {
      var p, ts1 := YieldPipe(PPipe(ts).tree), PPipe(ts).rest;
      var n := Amps(ts1);
      var ts2 := ts1[n..];
      assert ts1 == ts1[..n] + ts2;
      Assoc(ts1[..n], ts2, p);
      if !Head(ts2, ';') {
        Empty(p + ts1[..n]);
      } else {
        LineSound(ts2[1..]);
        Split(ts2);
        var r := PLine(ts2[1..]);
        if r.Done? {
          Assoc(YieldLine(r.tree), r.rest, [ts2[0]]);
          Assoc([ts2[0]] + YieldLine(r.tree), r.rest, p + ts1[..n]);
        }
      }
    }
  }

  // ----- every derivation is found

  lemma {:induction false} RedirectsComplete(rs: seq<Redirect>, rest: seq<Token>)
    requires forall i :: 0 <= i < |rs| ==> GoodRedirect(rs[i])
    requires rest == [] || !IsOp(rest[0])
    ensures PRedirects(YieldRedirects(rs) + rest) == Done(rs, rest)
  {
    if rs == [] {
      Empty(rest);
    } else {
      RedirectsComplete(rs[1..], rest);
      Assoc(YieldRedirects(rs[1..]), rest, [rs[0].op, rs[0].file]);
      Parts([rs[0].op, rs[0].file], YieldRedirects(rs[1..]) + rest);
      Split(rs);
    }
  }

  lemma {:induction false} ItemsComplete(items: seq<Item>, argc: nat, rest: seq<Token>)
    requires GoodItems(items) && argc + Count(items) < MAXARGS
    requires Stops(rest)
    ensures PItems(YieldItems(items) + rest, argc) == Done(items, rest)
    decreases items
  {
    hide YieldItems, Count, GoodItems;
    var ts := YieldItems(items) + rest;
    if items == [] {
      NoItems();
      Empty(rest);
    } else {
      Split(items);
      ItemsCons(items[0], items[1..]);
      var more := YieldItems(items[1..]) + rest;
      Assoc(YieldItems(items[1..]), rest, YieldItem(items[0]));
      Parts(YieldItem(items[0]), more);
      match items[0]
      case Arg(w) => ItemsComplete(items[1..], argc + 1, rest);
      case Into(r) => ItemsComplete(items[1..], argc, rest);
    }
  }

  lemma {:induction false} ExecComplete(x: Exec, rest: seq<Token>)
    requires GoodExec(x) && Stops(rest)
    ensures PExec(YieldExec(x) + rest) == Done(x, rest)
    decreases x, 1
  {
    hide PRedirects, YieldRedirects, PItems, YieldItems, YieldLine;
    match x
    case Simple(items) =>
      ItemsComplete(items, 0, rest);
      NoParen(items, rest);
    case Block(open, line, close, rs) =>
      var more := YieldRedirects(rs) + rest;
      var after := [close] + more;
      BlockTokens([open], YieldLine(line), [close], YieldRedirects(rs), rest);
      Parts([open], YieldLine(line) + after);
      Parts([close], more);
      LineComplete(line, after);
      RedirectsComplete(rs, rest);
  }

  lemma {:induction false} BlockTokens<T>(a: seq<T>, b: seq<T>, c: seq<T>, d: seq<T>, e: seq<T>)
    ensures a + b + c + d + e == a + (b + (c + (d + e)))
  {
    Assoc(d, e, a + b + c);
    Assoc(c, d + e, a + b);
    Assoc(b, c + (d + e), a);
  }

  lemma {:induction false} NoParen(items: seq<Item>, rest: seq<Token>)
    requires GoodItems(items) && Stops(rest)
    ensures !Head(YieldItems(items) + rest, '(')
  {
  }

  lemma {:induction false} PipeComplete(p: Pipe, rest: seq<Token>)
    requires GoodPipe(p) && Stops(rest) && !Head(rest, '|')
    ensures PPipe(YieldPipe(p) + rest) == Done(p, rest)
    decreases p
  {
    hide PExec, YieldExec, GoodExec;
    match p
    case Last(x) =>
      ExecComplete(x, rest);
    case Piped(x, bar, q) =>
      var after := [bar] + (YieldPipe(q) + rest);
      Assoc(YieldPipe(q), rest, YieldExec(x) + [bar]);
      Assoc([bar], YieldPipe(q) + rest, YieldExec(x));
      ExecComplete(x, after);
      Parts([bar], YieldPipe(q) + rest);
      PipeComplete(q, rest);
  }

  /** Every well-formed derivation, followed by the end of the line or a closing
      parenthesis, is what the parser returns for its tokens. */
  lemma {:induction false} LineComplete(l: Line, rest: seq<Token>)
    requires GoodLine(l) && (rest == [] || Head(rest, ')'))
    ensures PLine(YieldLine(l) + rest) == Done(l, rest)
    decreases l
  {
    hide PPipe, YieldPipe, GoodPipe, Amps;
    var tail := YieldNext(l.next) + rest;
    var after := l.amps + tail;
    Assoc(YieldNext(l.next), rest, YieldPipe(l.pipe) + l.amps);
    Assoc(l.amps, tail, YieldPipe(l.pipe));
    assert l.amps != [] ==> after[0].kind == '&';
    PipeComplete(l.pipe, after);
    AmpsOf(l.amps, tail);
    Parts(l.amps, tail);
    match l.next
    case End => Empty(rest);
    case Then(semi, m) =>
      Assoc(YieldLine(m), rest, [semi]);
      Parts([semi], YieldLine(m) + rest);
      LineComplete(m, rest);
  }

  lemma {:induction false} AmpsOf(amps: seq<Token>, tail: seq<Token>)
    requires GoodAmps(amps) && !Head(tail, '&')
    ensures Amps(amps + tail) == |amps|
  {
    if amps == [] {
      assert amps + tail == tail;
    } else {
      assert (amps + tail)[1..] == amps[1..] + tail;
      AmpsOf(amps[1..], tail);
    }
  }

  /** A token string is a command line. */
  ghost predicate Derivable(ts: seq<Token>) {
    exists l :: GoodLine(l) && YieldLine(l) == ts
  }

  /** The parser accepts exactly the grammar, and no token string has two derivations. */
  lemma {:induction false} AcceptsGrammar(ts: seq<Token>)
    ensures Derivable(ts) <==> PLine(ts).Done? && PLine(ts).rest == []
    ensures forall l :: GoodLine(l) && YieldLine(l) == ts ==> PLine(ts) == Done(l, [])
  {
    LineSound(ts);
    var r := PLine(ts);
    if r.Done? && r.rest == [] {
      assert YieldLine(r.tree) + r.rest == YieldLine(r.tree);
    }
    forall l | GoodLine(l) && YieldLine(l) == ts ensures PLine(ts) == Done(l, []) {
      LineComplete(l, []);
      assert YieldLine(l) + [] == ts;
    }
  }
}
