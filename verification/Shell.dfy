/**
 * The shell's parser: a cursor that moves through the line, nodes that point into
 * the line, and the pass that overwrites the end of every word with a NUL.
 */
module Shell {
  import opened ShellLex
  import opened ShellGrammar
  import opened ShellTree
  import ShellText

  /** The next token starts with one of the symbols in `toks`. */
  predicate Starts(ts: seq<Token>, toks: string) {
    ts != [] && ts[0].kind != WORD && (if ts[0].kind == APPEND then '>' else ts[0].kind) in toks
  }

  /** What is known of the token at a position that is not white. */
  lemma {:induction false} FirstToken(line: string, i: nat)
    requires i <= |line|
    ensures var s := Skip(line, i);
      if s == |line| then Lex(line, i) == []
      else Lex(line, i) == [TokenAt(line, s)] + Lex(line, TokenAt(line, s).span.hi)
    ensures var s := Skip(line, i); s < |line| ==> Lex(line, i)[1..] == Lex(line, TokenAt(line, s).span.hi)
  {
  }

  // ----- NUL writes

  /** Some word of the command ends at `i`. */
  ghost predicate EndsAt(c: Cmd, i: nat) {
    match c
    case ExecCmd(args) => ArgEnds(args, i)
    case RedirCmd(d, file, _, _) => EndsAt(d, i) || file.hi == i
    case PipeCmd(l, r) => EndsAt(l, i) || EndsAt(r, i)
    case ListCmd(l, r) => EndsAt(l, i) || EndsAt(r, i)
    case BackCmd(d, _) => EndsAt(d, i)
  }

  ghost predicate ArgEnds(args: seq<Span>, i: nat) {
    exists k :: 0 <= k < |args| && args[k].hi == i
  }

  lemma {:induction false} EndsExactly(c: Cmd, i: nat)
    ensures EndsAt(c, i) <==> exists w :: w in Spans(c) && w.hi == i
  {
    match c
    case ExecCmd(args) =>
      if ArgEnds(args, i) {
        var k :| 0 <= k < |args| && args[k].hi == i;
        assert args[k] in Spans(c);
      }
    case RedirCmd(d, file, _, _) =>
      EndsExactly(d, i);
      assert file in Spans(c);
      assert forall w :: w in Spans(c) <==> w in Spans(d) || w == file;
    case PipeCmd(l, r) => EndsExactly(l, i); EndsExactly(r, i);
    case ListCmd(l, r) => EndsExactly(l, i); EndsExactly(r, i);
    case BackCmd(d, _) => EndsExactly(d, i);
  }

  ghost predicate EndsWithin(c: Cmd, n: nat) {
    forall i: nat :: EndsAt(c, i) ==> i < n
  }

  /** The buffer after the ends of all words of `c` are overwritten. */
  ghost predicate Nulled(b: seq<char>, after: seq<char>, c: Cmd) {
    && |after| == |b|
    && forall i :: 0 <= i < |b| ==> after[i] == if EndsAt(c, i) then NUL else b[i]
  }

  /** The string at `a`, up to its terminator. */
  function CString(b: seq<char>, a: nat): string
    decreases |b| - a
  {
    if a >= |b| || b[a] == NUL then "" else [b[a]] + CString(b, a + 1)
  }

  lemma {:induction false} CStringIs(b: seq<char>, a: nat, s: string)
    requires a + |s| < |b| && b[a + |s|] == NUL && NUL !in s
    requires b[a..a + |s|] == s
    ensures CString(b, a) == s
    decreases s
  {
    if s != [] {
      assert b[a] == b[a..a + |s|][0] == s[0];
      assert b[a + 1..a + |s|] == b[a..a + |s|][1..];
      CStringIs(b, a + 1, s[1..]);
    }
  }

  /** No NUL write damages a word: each one reads back as it stood in the line. */
  lemma {:induction false} WordsSurvive(line: string, b: seq<char>, after: seq<char>, c: Cmd, w: Span)
    requires |line| < |b| && b[..|line|] == line && NUL !in line && Nulled(b, after, c)
    requires forall v :: v in Spans(c) ==> MaximalRun(line, v)
    requires w in Spans(c)
    ensures w.lo <= w.hi <= |line| && CString(after, w.lo) == line[w.lo..w.hi]
  {
    hide EndsAt, CString, Spans;
    assert EndsAt(c, w.hi) by {
      EndsExactly(c, w.hi);
    }
    forall i | w.lo <= i < w.hi ensures after[i] == line[i] {
      NotAnEnd(line, c, w, i);
      assert b[..|line|][i] == line[i];
    }
    assert after[w.lo..w.hi] == line[w.lo..w.hi];
    CStringIs(after, w.lo, line[w.lo..w.hi]);
  }

  /** Words end where no word character stands. */
  lemma {:induction false} NotAnEnd(line: string, c: Cmd, w: Span, i: nat)
    requires (forall v :: v in Spans(c) ==> MaximalRun(line, v)) && MaximalRun(line, w) && w.lo <= i < w.hi
    ensures !EndsAt(c, i)
  {
    hide EndsAt, Spans;
    EndsExactly(c, i);
    assert Plain(line[i]);
  }

  // ----- the parser

  class Parser {
    const buf: array<char>
    const es: nat
    const junk: seq<Slot>     // what a freshly allocated argument vector happens to hold
    var ps: nat
    var nodes: seq<Node>

    /** A parser for the string in `line`, which ends at its first NUL. */
    constructor (line: array<char>, end: nat, garbage: seq<Slot>)
      requires end < line.Length && line[end] == NUL && NUL !in line[..end] && |garbage| == MAXARGS
      ensures Valid() && buf == line && es == end && ps == 0 && nodes == []
    {
      buf, es, junk, ps, nodes := line, end, garbage, 0, [];
    }

    ghost predicate Valid()
      reads this, buf
    {
      es < buf.Length && buf[es] == NUL && NUL !in buf[..es] && |junk| == MAXARGS && ps <= es && Closed(nodes)
    }

    ghost function Text(): string
      reads this, buf
      requires Valid()
    {
      buf[..es]
    }

    /** The tokens the cursor has not passed. */
    ghost function Ahead(): seq<Token>
      reads this, buf
      requires Valid()
    {
      Lex(Text(), ps)
    }

    method SkipWhite(from: nat) returns (s: nat)
      requires Valid() && from <= es
      ensures s == Skip(Text(), from)
    {
      s := from;
      while s < es && White(buf[s])
        invariant from <= s <= es && Skip(Text(), s) == Skip(Text(), from)
      {
        s := s + 1;
      }
    }

    /** The token at a position that is not white, or the end of the line. */
    method Scan(q: nat) returns (tok: char, eq: nat)
      requires Valid() && q <= es && (q < es ==> !White(buf[q]))
      ensures q == es ==> tok == NUL && eq == es
      ensures q < es ==> TokenAt(Text(), q) == Token(tok, Span(q, eq)) && tok != NUL
    {
      ghost var line := Text();
      var s := q;
      tok := buf[s];
      assert q < es ==> buf[q] == line[q] && line[q] in line;
      if tok == NUL {
      } else if tok == '|' || tok == '(' || tok == ')' || tok == ';' || tok == '&' || tok == '<' {
        s := s + 1;
      } else if tok == '>' {
        s := s + 1;
        if buf[s] == '>' {
          tok := APPEND;
          s := s + 1;
        }
      } else {
        tok := WORD;
        while s < es && !White(buf[s]) && !Symbol(buf[s])
          invariant q <= s <= es && RunEnd(line, s) == RunEnd(line, q)
        {
          s := s + 1;
        }
      }
      eq := s;
    }

    /** Takes the next token, if there is one, and the white space around it. */
    method GetToken() returns (tok: char, q: nat, eq: nat)
      requires Valid()
      modifies `ps
      ensures Valid() && q <= eq <= es && ps == Skip(Text(), eq) && ps >= old(ps)
      ensures if old(Ahead()) == [] then tok == NUL && ps == es && Ahead() == []
              else old(Ahead()[0]) == Token(tok, Span(q, eq)) && Ahead() == old(Ahead())[1..] && ps > old(ps) && tok != NUL
    {
      hide Lex, TokenAt;
      q := SkipWhite(ps);
      tok, eq := Scan(q);
      FirstToken(Text(), ps);
      FirstToken(Text(), eq);
      SkipAgain(Text(), eq);
      var s := SkipWhite(eq);
      ps := s;
    }

    /** Looks at the next token without taking it. */
    method Peek(toks: string) returns (r: bool)
      requires Valid() && (forall c :: c in toks ==> Symbol(c))
      modifies `ps
      ensures Valid() && ps == Skip(Text(), old(ps)) && Ahead() == old(Ahead())
      ensures r <==> Starts(Ahead(), toks)
    {
      hide Lex;
      var s := SkipWhite(ps);
      FirstToken(Text(), ps);
      SkipAgain(Text(), ps);
      ps := s;
      r := buf[s] != NUL && buf[s] in toks;
    }

    method Alloc(n: Node) returns (r: nat)
      requires Valid() && Below(n, |nodes|)
      modifies `nodes
      ensures Valid() && nodes == old(nodes) + [n] && r == |old(nodes)|
    {
      r := |nodes|;
      nodes := nodes + [n];
    }

    method ParseRedirs(cmd: nat) returns (ok: bool, r: nat)
      requires Valid() && cmd < |nodes|
      modifies `ps, `nodes
      ensures Valid() && ps >= old(ps) && old(nodes) <= nodes
      ensures RedirsResult(old(Ahead()), nodes, cmd, ok, r, Ahead())
    {
      hide Lex, PRedirects, Tree, Closed, Wraps;
      ghost var ts0, n0 := Ahead(), nodes;
      ghost var rs := [];
      r := cmd;
      FollowingNone(PRedirects(ts0));
      WrapsNone(nodes, cmd);
      var more := Peek("<>");
      while more
        invariant Valid() && ps >= old(ps) && n0 <= nodes && r < |nodes|
        invariant more <==> Starts(Ahead(), "<>")
        invariant Wraps(nodes, cmd, r, rs) && cmd <= r
        invariant PRedirects(ts0) == Following(rs, PRedirects(Ahead()))
        decreases es - ps
      {
        ghost var ts := Ahead();
        var tok, _, _ := GetToken();
        var file, q, eq := GetToken();
        RedirectsStep(ts);
        if file != WORD {
          return false, r;
        }
        ghost var z := Redirect(ts[0], ts[1]);
        ghost var before := nodes;
        if tok == '<' {
          r := Alloc(RedirNode(r, Span(q, eq), ReadOnly, 0));
        } else if tok == '>' {
          r := Alloc(RedirNode(r, Span(q, eq), Truncate, 1));
        } else {
          r := Alloc(RedirNode(r, Span(q, eq), Append, 1));
        }
        WrapsSnoc(before, nodes, cmd, r, rs, z);
        FollowingTwice(rs, [z], PRedirects(Ahead()));
        rs := rs + [z];
        more := Peek("<>");
      }
      NoRedirects(Ahead());
      Empty(rs);
      ok := true;
    }

    /** Stores an argument, checks that the vector still has room for the null pointer, and
        reads the redirects that follow. */
    method StoreArg(e: nat, cmd: nat, argc: nat, q: nat, eq: nat,
                    ghost ts0: seq<Token>, ghost ts: seq<Token>, ghost items: seq<Item>)
        returns (ok: bool, r: nat, ghost more: seq<Item>)
      requires Valid() && Filling(nodes, e, cmd, items, argc) && argc < MAXARGS && cmd < |nodes|
      requires ts != [] && ts[0] == Token(WORD, Span(q, eq)) && Ahead() == ts[1..]
      requires !Starts(ts, "<>") && !Starts(ts, "|)&;") && PItems(ts0, 0) == Following(items, PItems(ts, argc))
      modifies `ps, `nodes
      ensures Valid() && ps >= old(ps) && Grown(old(nodes), nodes, e)
      ensures !ok ==> PItems(ts0, 0).Fail?
      ensures ok ==> argc + 1 < MAXARGS && cmd <= r < |nodes| && Filling(nodes, e, r, more, argc + 1)
      ensures ok ==> !Starts(Ahead(), "<>") && PItems(ts0, 0) == Following(more, PItems(Ahead(), argc + 1))
    {
      hide Lex, PItems, PExec, PRedirects, Tree, Filling, Wraps, RedirsResult;
      ghost var n0 := nodes;
      FillingNode(nodes, e, cmd, items, argc);
      nodes := nodes[e := ExecNode(nodes[e].argv[argc := Ptr(Span(q, eq))])];
      FillArg(n0, nodes, e, cmd, items, argc, ts[0]);
      ItemStep(ts, argc);
      if argc + 1 >= MAXARGS {
        return false, cmd, items;
      }
      FollowingTwice(items, [Arg(ts[0])], PItems(Ahead(), argc + 1));
      more := items + [Arg(ts[0])];
      ghost var n1, ts1 := nodes, Ahead();
      ok, r := ParseRedirs(cmd);
      FillRedirects(n1, nodes, e, cmd, r, more, argc + 1, ts0, ts1, ok, Ahead());
      if ok {
        RedirsNode(ts1, nodes, cmd, r, Ahead());
        more := more + IntoAll(PRedirects(ts1).tree);
      }
    }

    /** Arguments and redirects up to the end of the command. */
    method ParseArgs(e: nat, cmd: nat, ghost ts0: seq<Token>, ghost items: seq<Item>)
        returns (ok: bool, r: nat, argc: nat, ghost all: seq<Item>)
      requires Valid() && cmd < |nodes| && Filling(nodes, e, cmd, items, 0) && !Starts(Ahead(), "<>")
      requires PItems(ts0, 0) == Following(items, PItems(Ahead(), 0))
      modifies `ps, `nodes
      ensures Valid() && ps >= old(ps) && Grown(old(nodes), nodes, e)
      ensures !ok ==> PItems(ts0, 0).Fail?
      ensures ok ==> Filling(nodes, e, r, all, argc) && argc < MAXARGS && PItems(ts0, 0) == Done(all, Ahead())
    {
      hide Lex, PItems, Tree, Closed, Filling, Wraps, Grown, Starts;
      r, argc, all := cmd, 0, items;
      GrownNot(nodes, e);
      var stop := Peek("|)&;");
      while !stop
        invariant Valid() && ps >= old(ps) && Grown(old(nodes), nodes, e) && r < |nodes|
        invariant stop <==> Starts(Ahead(), "|)&;")
        invariant Filling(nodes, e, r, all, argc) && argc < MAXARGS && !Starts(Ahead(), "<>")
        invariant PItems(ts0, 0) == Following(all, PItems(Ahead(), argc))
        decreases es - ps
      {
        ghost var ts, n0 := Ahead(), nodes;
        var tok, q, eq := GetToken();
        if tok == NUL {
          break;
        }
        ItemStep(ts, argc);
        if tok != WORD {
          return false, r, argc, all;
        }
        ok, r, all := StoreArg(e, r, argc, q, eq, ts0, ts, all);
        GrownTwice(old(nodes), n0, nodes, e);
        if !ok {
          return;
        }
        argc := argc + 1;
        stop := Peek("|)&;");
      }
      NoItem(Ahead(), argc);
      Empty(all);
      ok := true;
    }

    /** A command with its arguments: the node is allocated first, wrapped in redirects as
        they come, and its argument vector filled in underneath them. */
    method ParseSimple() returns (ok: bool, r: nat)
      requires Valid() && !Head(Ahead(), '(')
      modifies `ps, `nodes
      ensures Valid() && ps >= old(ps) && old(nodes) <= nodes
      ensures ExecResult(Text(), old(Ahead()), nodes, ok, r, Ahead())
    {
      hide Lex, PItems, PExec, PRedirects, Tree, Filling, Wraps, ExecResult, RedirsResult, Starts, IntoAll;
      ghost var ts0 := Ahead();
      var e := Alloc(ExecNode(junk));
      FillStart(nodes, e, ts0);
      ok, r := ParseRedirs(e);
      FillRedirects(old(nodes) + [ExecNode(junk)], nodes, e, e, r, [], 0, ts0, ts0, ok, Ahead());
      SimpleFails(Text(), ts0, nodes, r, Ahead());
      if !ok {
        return;
      }
      RedirsNode(ts0, nodes, e, r, Ahead());
      var argc;
      ghost var items;
      ok, r, argc, items := ParseArgs(e, r, ts0, [] + IntoAll(PRedirects(ts0).tree));
      SimpleFails(Text(), ts0, nodes, r, Ahead());
      if !ok {
        return;
      }
      ghost var n0 := nodes;
      FillingNode(nodes, e, r, items, argc);
      nodes := nodes[e := ExecNode(nodes[e].argv[argc := Null])];
      FillDone(n0, nodes, e, r, items, argc);
      SimpleDone(Text(), ts0, nodes, r, items, Ahead());
    }

    method ParseExec() returns (ok: bool, r: nat)
      requires Valid()
      modifies `ps, `nodes
      ensures Valid() && ps >= old(ps) && old(nodes) <= nodes
      ensures ExecResult(Text(), old(Ahead()), nodes, ok, r, Ahead())
      decreases es - ps, 1
    {
      hide Lex, PExec, Tree, ExecResult;
      var block := Peek("(");
      if block {
        ok, r := ParseBlock();
      } else {
        ok, r := ParseSimple();
      }
    }

    /** A line in parentheses and the redirects around it. */
    method ParseBlock() returns (ok: bool, r: nat)
      requires Valid() && Head(Ahead(), '(')
      modifies `ps, `nodes
      ensures Valid() && ps >= old(ps) && old(nodes) <= nodes
      ensures ExecResult(Text(), old(Ahead()), nodes, ok, r, Ahead())
      decreases es - ps, 0
    {
      hide Lex, PLine, PRedirects, Tree, ExecResult, RedirsResult, LineResult;
      ghost var ts0 := Ahead();
      var _, _, open := GetToken();
      ghost var at, ts1 := ps, Ahead();
      ok, r := ParseLine();
      BlockFails(Text(), ts0, nodes, ok, r, Ahead(), at);
      if !ok {
        return;
      }
      LineNode(Text(), ts1, nodes, r, Ahead(), at);
      var close := Peek(")");
      if !close {
        return false, r;
      }
      ghost var n2, r2, ts2 := nodes, r, Ahead();
      var _, _, _ := GetToken();
      ok, r := ParseRedirs(r);
      BlockDone(Text(), ts0, at, n2, r2, ts2, nodes, ok, r, Ahead());
    }

    method ParsePipe() returns (ok: bool, r: nat)
      requires Valid()
      modifies `ps, `nodes
      ensures Valid() && ps >= old(ps) && old(nodes) <= nodes
      ensures PipeResult(Text(), old(Ahead()), nodes, ok, r, Ahead())
      decreases es - ps, 2
    {
      hide Lex, PExec, PPipe, Tree, ExecResult, PipeResult;
      ghost var ts0 := Ahead();
      ok, r := ParseExec();
      PipeFails(Text(), ts0, nodes, ok, r, Ahead());
      if !ok {
        return;
      }
      ghost var n1, r1, ts1 := nodes, r, Ahead();
      ExecNodeOk(Text(), ts0, nodes, r, Ahead());
      var bar := Peek("|");
      if bar {
        var right;
        var _, _, _ := GetToken();
        ok, right := ParsePipe();
        PipeRight(Text(), ts0, n1, r1, ts1, nodes, ok, right, Ahead());
        if !ok {
          return;
        }
        ghost var n2 := nodes;
        r := Alloc(PipeNode(r, right));
        PipeDone(Text(), ts0, n1, r1, ts1, n2, right, nodes, r, Ahead());
      } else {
        PipeLast(Text(), ts0, nodes, r, ts1);
      }
    }

    method ParseLine() returns (ok: bool, r: nat)
      requires Valid()
      modifies `ps, `nodes
      ensures Valid() && ps >= old(ps) && old(nodes) <= nodes
      ensures LineResult(Text(), old(Ahead()), nodes, ok, r, Ahead(), old(ps))
      decreases es - ps, 3
    {
      hide Lex, PPipe, PLine, Tree, PipeResult, LineResult, Amps, BackTo;
      ghost var ts0 := Ahead();
      var backl := ps;
      ok, r := ParsePipe();
      LineFails(Text(), ts0, nodes, ok, r, Ahead(), backl);
      if !ok {
        return;
      }
      PipeNodeOk(Text(), ts0, nodes, r, Ahead(), backl);
      ghost var n := 0;
      var amp := Peek("&");
      while amp
        invariant Valid() && ps >= old(ps) && old(nodes) <= nodes && r < |nodes|
        invariant amp <==> Starts(Ahead(), "&")
        invariant BackTo(Text(), ts0, nodes, r, Ahead(), backl, n)
        decreases es - ps
      {
        ghost var n0, r0, ts := nodes, r, Ahead();
        var _, _, _ := GetToken();
        r := Alloc(BackNode(r, buf[backl..es]));
        BackStep(Text(), ts0, n0, r0, ts, nodes, r, backl, n);
        n := n + 1;
        amp := Peek("&");
      }
      ghost var n1, r1, ts1 := nodes, r, Ahead();
      var semi := Peek(";");
      if semi {
        var _, _, end := GetToken();
        ghost var at := ps;
        var right;
        ok, right := ParseLine();
        LineRight(Text(), ts0, n1, r1, ts1, backl, n, nodes, ok, right, Ahead(), at);
        if !ok {
          return;
        }
        ghost var n2 := nodes;
        r := Alloc(ListNode(r, right));
        LineDone(Text(), ts0, n1, r1, ts1, backl, n, n2, right, nodes, r, Ahead(), at);
      } else {
        LineLast(Text(), ts0, nodes, r, ts1, backl, n);
      }
      ok := true;
    }

    /** Overwrites the end of every word of command `c`. */
    method NulTerminate(c: nat)
      requires Closed(nodes) && c < |nodes| && EndsWithin(Tree(nodes, c), buf.Length)
      modifies buf
      ensures Nulled(old(buf[..]), buf[..], Tree(nodes, c))
      decreases c
    {
      hide Closed, Nulled;
      ghost var b0 := buf[..];
      CommandParts(nodes, c, buf.Length);
      match nodes[c]
      case ExecNode(argv) =>
        NulArgs(c);
        NulledExec(b0, buf[..], nodes, c);
      case RedirNode(d, file, _, _) =>
        NulTerminate(d);
        ghost var b1 := buf[..];
        buf[file.hi] := NUL;
        NulledOne(b0, b1, buf[..], nodes, c);
      case PipeNode(l, r) =>
        NulTerminate(l);
        ghost var b1 := buf[..];
        NulTerminate(r);
        NulledTwo(b0, b1, buf[..], Tree(nodes, l), Tree(nodes, r), Tree(nodes, c));
      case ListNode(l, r) =>
        NulTerminate(l);
        ghost var b1 := buf[..];
        NulTerminate(r);
        NulledTwo(b0, b1, buf[..], Tree(nodes, l), Tree(nodes, r), Tree(nodes, c));
      case BackNode(d, _) =>
        NulTerminate(d);
        NulledBack(b0, buf[..], Tree(nodes, d), Tree(nodes, c));
    }

    /** The argument vector of node `c`, up to its null pointer. */
    method NulArgs(c: nat)
      requires c < |nodes| && nodes[c].ExecNode?
      requires forall k :: 0 <= k < |Terminated(nodes[c].argv)| ==> Terminated(nodes[c].argv)[k].hi < buf.Length
      modifies buf
      ensures forall i :: 0 <= i < buf.Length ==>
                buf[i] == if ArgEnds(Terminated(nodes[c].argv), i) then NUL else old(buf[i])
    {
      var argv := nodes[c].argv;
      ghost var args := Terminated(argv);
      var i := 0;
      TerminatedEnd(argv, 0);
      while i < |argv| && argv[i].Ptr?
        invariant 0 <= i <= |args| && i <= |argv|
        invariant Terminated(argv[i..]) == args[i..]
        invariant forall j :: 0 <= j < buf.Length ==> buf[j] == if ArgEnds(args[..i], j) then NUL else old(buf[j])
      {
        TerminatedEnd(argv, i);
        assert args[i] == args[i..][0] == argv[i].span;
        buf[argv[i].span.hi] := NUL;
        ArgEndsSnoc(args, i);
        i := i + 1;
      }
      TerminatedEnd(argv, i);
      assert args[..i] == args;
    }

    /** Parses the line and terminates its words in place. */
    method ParseCmd() returns (ok: bool, r: nat)
      requires Valid() && ps == 0
      modifies this, buf
      ensures ok <==> Derivable(Lex(old(Text()), 0))
      ensures !ok ==> buf[..] == old(buf[..])
      ensures ok ==> r < |nodes| && Closed(nodes) && Parses(old(Text()), Tree(nodes, r))
      ensures ok && |old(Text())| <= PICK ==> PicksFit(Tree(nodes, r))
      ensures ok ==> Nulled(old(buf[..]), buf[..], Tree(nodes, r))
      ensures ok ==> forall w :: w in Spans(Tree(nodes, r)) ==>
                w.lo <= w.hi <= |old(Text())| && CString(buf[..], w.lo) == old(Text())[w.lo..w.hi]
    {
      hide Lex, PLine, Tree, Closed, LineResult, Nulled, Derivable, Parses, PicksFit, MaximalRun, YieldLine, GoodLine, CString;
      ghost var line, b0 := Text(), buf[..];
      assert b0[..es] == line;
      ok, r := ParseLine();
      var _ := Peek("");
      FirstToken(line, ps);
      SkipAgain(line, ps);
      LineTop(line, nodes, ok, r, Ahead());
      if !ok || ps != es {
        return false, r;
      }
      NulTerminate(r);
      forall w | w in Spans(Tree(nodes, r))
        ensures w.lo <= w.hi <= |line| && CString(buf[..], w.lo) == line[w.lo..w.hi]
      {
        WordsSurvive(line, b0, buf[..], Tree(nodes, r), w);
      }
    }
  }

  // ----- the whole line

  /** `c` is the command of a derivation of the whole line, is what its characters show, holds each word of
      it exactly once, and the texts of its background jobs fit exactly when their lines start late enough. */
  ghost predicate Parses(line: string, c: Cmd) {
    && (exists l :: GoodLine(l) && YieldLine(l) == Lex(line, 0) && c == TreeLine(line, l, 0)
          && (PicksFit(c) <==> Late(line, BacksLine(line, l, 0))))
    && ShellText.Shown(line, c)
    && (forall w :: Spans(c)[w] == if MaximalRun(line, w) then 1 else 0)
  }

  /** What is known of the command of a derivation of the whole line. */
  lemma {:induction false} WholeLine(line: string, l: Line)
    requires GoodLine(l) && YieldLine(l) == Lex(line, 0)
    ensures var c := TreeLine(line, l, 0);
      && Parses(line, c) && (|line| <= PICK ==> PicksFit(c))
      && (forall v :: v in Spans(c) ==> MaximalRun(line, v)) && EndsWithin(c, |line| + 1)
  {
    hide Lex, TreeLine, YieldLine, GoodLine, MaximalRun, Spans, PicksFit, Late, BacksLine, EndsAt, ShellText.Shown;
    var c := TreeLine(line, l, 0);
    LineWords(line, l, 0);
    LineFits(line, l, 0);
    LongBackground(line, l);
    ShellText.WholeShown(line, l);
    WordsAreRuns(line, 0);
    forall w ensures Spans(c)[w] == if MaximalRun(line, w) then 1 else 0 {
      AscendingOnce(WordSpans(Lex(line, 0)), 0, w);
    }
    forall i: nat | EndsAt(c, i) ensures i < |line| + 1 {
      EndsExactly(c, i);
      var w :| w in Spans(c) && w.hi == i;
      RunBound(line, w);
    }
  }

  lemma {:induction false} LineTop(line: string, nodes: seq<Node>, ok: bool, r: nat, rest: seq<Token>)
    requires LineResult(line, Lex(line, 0), nodes, ok, r, rest, 0)
    ensures ok && rest == [] <==> Derivable(Lex(line, 0))
    ensures ok && rest == [] ==>
      && r < |nodes| && Closed(nodes)
      && Parses(line, Tree(nodes, r)) && (|line| <= PICK ==> PicksFit(Tree(nodes, r)))
      && (forall v :: v in Spans(Tree(nodes, r)) ==> MaximalRun(line, v)) && EndsWithin(Tree(nodes, r), |line| + 1)
  {
    hide Lex, PLine, Tree, TreeLine, Closed, YieldLine, GoodLine, MaximalRun, Spans, PicksFit, EndsWithin, Parses;
    var ts := Lex(line, 0);
    AcceptsGrammar(ts);
    LineSound(ts);
    if ok && rest == [] {
      Empty(YieldLine(PLine(ts).tree));
      WholeLine(line, PLine(ts).tree);
    }
  }

  lemma {:induction false} RunBound(line: string, w: Span)
    requires MaximalRun(line, w)
    ensures w.hi <= |line|
  {
  }

  /** What the children of a node may write. */
  lemma {:induction false} CommandParts(nodes: seq<Node>, c: nat, n: nat)
    requires Closed(nodes) && c < |nodes| && EndsWithin(Tree(nodes, c), n)
    ensures Below(nodes[c], c)
    ensures match nodes[c]
            case ExecNode(argv) => forall k :: 0 <= k < |Terminated(argv)| ==> Terminated(argv)[k].hi < n
            case RedirNode(d, file, _, _) => EndsWithin(Tree(nodes, d), n) && file.hi < n
            case PipeNode(l, r) => EndsWithin(Tree(nodes, l), n) && EndsWithin(Tree(nodes, r), n)
            case ListNode(l, r) => EndsWithin(Tree(nodes, l), n) && EndsWithin(Tree(nodes, r), n)
            case BackNode(d, _) => EndsWithin(Tree(nodes, d), n)
  {
    var t := Tree(nodes, c);
    match nodes[c]
    case ExecNode(argv) =>
      forall k | 0 <= k < |Terminated(argv)| ensures Terminated(argv)[k].hi < n {
        assert EndsAt(t, Terminated(argv)[k].hi);
      }
    case RedirNode(d, file, _, _) =>
      assert EndsAt(t, file.hi);
      forall i: nat | EndsAt(Tree(nodes, d), i) ensures i < n { assert EndsAt(t, i); }
    case PipeNode(l, r) =>
      forall i: nat | EndsAt(Tree(nodes, l), i) || EndsAt(Tree(nodes, r), i) ensures i < n { assert EndsAt(t, i); }
    case ListNode(l, r) =>
      forall i: nat | EndsAt(Tree(nodes, l), i) || EndsAt(Tree(nodes, r), i) ensures i < n { assert EndsAt(t, i); }
    case BackNode(d, _) =>
      forall i: nat | EndsAt(Tree(nodes, d), i) ensures i < n { assert EndsAt(t, i); }
  }

  lemma {:induction false} TerminatedEnd(argv: seq<Slot>, i: nat)
    requires i <= |argv|
    ensures argv[0..] == argv
    ensures if i < |argv| && argv[i].Ptr? then Terminated(argv[i..]) == [argv[i].span] + Terminated(argv[i + 1..])
            else Terminated(argv[i..]) == []
  {
    if i < |argv| {
      assert argv[i..][1..] == argv[i + 1..];
    }
  }

  lemma {:induction false} ArgEndsSnoc(args: seq<Span>, i: nat)
    requires i < |args|
    ensures args[i..][1..] == args[i + 1..]
    ensures forall j: nat :: ArgEnds(args[..i + 1], j) <==> ArgEnds(args[..i], j) || args[i].hi == j
  {
    forall j: nat ensures ArgEnds(args[..i + 1], j) <==> ArgEnds(args[..i], j) || args[i].hi == j {
      if ArgEnds(args[..i], j) {
        var k :| 0 <= k < |args[..i]| && args[..i][k].hi == j;
        assert args[..i + 1][k].hi == j;
      }
      if args[i].hi == j {
        assert args[..i + 1][i].hi == j;
      }
      if ArgEnds(args[..i + 1], j) {
        var k :| 0 <= k < |args[..i + 1]| && args[..i + 1][k].hi == j;
        assert k < i ==> args[..i][k].hi == j;
      }
    }
  }

  lemma {:induction false} NulledExec(b: seq<char>, after: seq<char>, nodes: seq<Node>, c: nat)
    requires Closed(nodes) && c < |nodes| && nodes[c].ExecNode? && |after| == |b|
    requires forall i :: 0 <= i < |b| ==> after[i] == if ArgEnds(Terminated(nodes[c].argv), i) then NUL else b[i]
    ensures Nulled(b, after, Tree(nodes, c))
  {
  }

  lemma {:induction false} NulledOne(b: seq<char>, mid: seq<char>, after: seq<char>, nodes: seq<Node>, c: nat)
    requires Closed(nodes) && c < |nodes| && nodes[c].RedirNode? && nodes[c].cmd < c && nodes[c].file.hi < |b|
    requires Nulled(b, mid, Tree(nodes, nodes[c].cmd)) && after == mid[nodes[c].file.hi := NUL]
    ensures Nulled(b, after, Tree(nodes, c))
  {
  }

  lemma {:induction false} NulledTwo(b: seq<char>, mid: seq<char>, after: seq<char>, l: Cmd, r: Cmd, c: Cmd)
    requires Nulled(b, mid, l) && Nulled(mid, after, r) && (c == PipeCmd(l, r) || c == ListCmd(l, r))
    ensures Nulled(b, after, c)
  {
  }

  lemma {:induction false} NulledBack(b: seq<char>, after: seq<char>, d: Cmd, c: Cmd)
    requires Nulled(b, after, d) && c.BackCmd? && c.cmd == d
    ensures Nulled(b, after, c)
  {
  }

  // ----- blocks, pipes and lines

  ghost predicate PipeResult(line: string, ts: seq<Token>, nodes: seq<Node>, ok: bool, r: nat, rest: seq<Token>) {
    && (ok <==> PPipe(ts).Done?)
    && (ok ==> r < |nodes| && Closed(nodes) && rest == PPipe(ts).rest && Tree(nodes, r) == TreePipe(line, PPipe(ts).tree))
  }

  ghost predicate LineResult(line: string, ts: seq<Token>, nodes: seq<Node>, ok: bool, r: nat, rest: seq<Token>, at: nat) {
    && (ok <==> PLine(ts).Done?)
    && (ok ==> r < |nodes| && Closed(nodes) && rest == PLine(ts).rest && Tree(nodes, r) == TreeLine(line, PLine(ts).tree, at))
  }

  /** Node `r` is the pipe that was read, sent to the background `n` times so far. */
  ghost predicate BackTo(line: string, ts: seq<Token>, nodes: seq<Node>, r: nat, rest: seq<Token>, at: nat, n: nat) {
    && PPipe(ts).Done? && n <= |PPipe(ts).rest| && rest == PPipe(ts).rest[n..] && GoodAmps(PPipe(ts).rest[..n])
    && r < |nodes| && Closed(nodes)
    && Tree(nodes, r) == Backs(TreePipe(line, PPipe(ts).tree), n, TextFrom(line, at))
  }

  lemma {:induction false} BlockFails(line: string, ts: seq<Token>, nodes: seq<Node>, ok: bool, r: nat, rest: seq<Token>, at: nat)
    requires Head(ts, '(') && LineResult(line, ts[1..], nodes, ok, r, rest, at)
    ensures !ok || !Head(rest, ')') ==> forall n, q, z :: ExecResult(line, ts, n, false, q, z)
  {
    hide PLine, Tree, TreeLine, Closed;
  }

  lemma {:induction false} LineNode(line: string, ts: seq<Token>, nodes: seq<Node>, r: nat, rest: seq<Token>, at: nat)
    requires LineResult(line, ts, nodes, true, r, rest, at)
    ensures r < |nodes|
  {
  }

  lemma {:induction false} BlockDone(line: string, ts: seq<Token>, at: nat, a: seq<Node>, l: nat, ts2: seq<Token>,
                                     b: seq<Node>, ok: bool, r: nat, rest: seq<Token>)
    requires Head(ts, '(') && LineResult(line, ts[1..], a, true, l, ts2, at) && Head(ts2, ')')
    requires at == After(line, ts[0].span.hi)
    requires a <= b && Closed(b) && RedirsResult(ts2[1..], b, l, ok, r, rest)
    ensures ExecResult(line, ts, b, ok, r, rest)
  {
    hide PLine, PRedirects, Tree, TreeLine, Closed, Wraps, Wrap;
    if ok {
      TreeKept(a, b, l);
      WrapsTree(b, l, r, PRedirects(ts2[1..]).tree);
    }
  }

  lemma {:induction false} PipeFails(line: string, ts: seq<Token>, nodes: seq<Node>, ok: bool, r: nat, rest: seq<Token>)
    requires ExecResult(line, ts, nodes, ok, r, rest)
    ensures !ok ==> PipeResult(line, ts, nodes, false, r, rest)
  {
    hide PExec, Tree, TreeExec, Closed;
  }

  lemma {:induction false} ExecNodeOk(line: string, ts: seq<Token>, nodes: seq<Node>, r: nat, rest: seq<Token>)
    requires ExecResult(line, ts, nodes, true, r, rest)
    ensures r < |nodes|
  {
  }

  lemma {:induction false} PipeLast(line: string, ts: seq<Token>, nodes: seq<Node>, r: nat, rest: seq<Token>)
    requires ExecResult(line, ts, nodes, true, r, rest) && !Head(rest, '|')
    ensures PipeResult(line, ts, nodes, true, r, rest)
  {
    hide PExec, Tree, TreeExec, Closed;
  }

  lemma {:induction false} PipeRight(line: string, ts: seq<Token>, a: seq<Node>, l: nat, ts1: seq<Token>,
                                     b: seq<Node>, ok: bool, r: nat, rest: seq<Token>)
    requires ExecResult(line, ts, a, true, l, ts1) && Head(ts1, '|') && PipeResult(line, ts1[1..], b, ok, r, rest)
    ensures ok ==> r < |b|
    ensures !ok ==> forall q :: PipeResult(line, ts, b, false, q, rest)
  {
    hide PExec, Tree, TreeExec, TreePipe, Closed;
  }

  lemma {:induction false} PipeDone(line: string, ts: seq<Token>, a: seq<Node>, l: nat, ts1: seq<Token>,
                                    b: seq<Node>, r: nat, c: seq<Node>, p: nat, rest: seq<Token>)
    requires ExecResult(line, ts, a, true, l, ts1) && Head(ts1, '|') && PipeResult(line, ts1[1..], b, true, r, rest)
    requires a <= b && c == b + [PipeNode(l, r)] && p == |b| && Closed(c)
    ensures PipeResult(line, ts, c, true, p, rest)
  {
    hide PExec, TreeExec, Closed;
    TreeKept(a, c, l);
    TreeKept(b, c, r);
  }

  lemma {:induction false} LineFails(line: string, ts: seq<Token>, nodes: seq<Node>, ok: bool, r: nat, rest: seq<Token>, at: nat)
    requires PipeResult(line, ts, nodes, ok, r, rest)
    ensures !ok ==> LineResult(line, ts, nodes, false, r, rest, at)
  {
    hide PPipe, Tree, TreePipe, Closed;
  }

  lemma {:induction false} PipeNodeOk(line: string, ts: seq<Token>, nodes: seq<Node>, r: nat, rest: seq<Token>, at: nat)
    requires PipeResult(line, ts, nodes, true, r, rest)
    ensures r < |nodes| && BackTo(line, ts, nodes, r, rest, at, 0)
  {
    hide PPipe, Tree, TreePipe, Closed;
    assert rest[0..] == rest;
  }

  lemma {:induction false} BackStep(line: string, ts: seq<Token>, a: seq<Node>, c: nat, rest: seq<Token>,
                                    b: seq<Node>, r: nat, at: nat, n: nat)
    requires BackTo(line, ts, a, c, rest, at, n) && Head(rest, '&') && at <= |line|
    requires b == a + [BackNode(c, line[at..])] && r == |a| && Closed(b)
    ensures BackTo(line, ts, b, r, rest[1..], at, n + 1)
  {
    hide PPipe, TreePipe, Closed;
    var all := PPipe(ts).rest;
    assert all[n] == rest[0] && all[..n + 1] == all[..n] + [all[n]];
    assert rest[1..] == all[n + 1..];
    TreeKept(a, b, c);
  }

  lemma {:induction false} AmpsAre(ts: seq<Token>, n: nat)
    requires n <= |ts| && GoodAmps(ts[..n]) && !Head(ts[n..], '&')
    ensures Amps(ts) == n
  {
    assert ts == ts[..n] + ts[n..];
    AmpsOf(ts[..n], ts[n..]);
  }

  lemma {:induction false} LineLast(line: string, ts: seq<Token>, nodes: seq<Node>, r: nat, rest: seq<Token>, at: nat, n: nat)
    requires BackTo(line, ts, nodes, r, rest, at, n) && !Head(rest, '&') && !Head(rest, ';')
    ensures LineResult(line, ts, nodes, true, r, rest, at)
  {
    hide PPipe, Tree, TreePipe, Closed, Backs, Amps, GoodAmps;
    AmpsAre(PPipe(ts).rest, n);
  }

  lemma {:induction false} LineRight(line: string, ts: seq<Token>, a: seq<Node>, l: nat, ts1: seq<Token>, backl: nat, n: nat,
                                     b: seq<Node>, ok: bool, r: nat, rest: seq<Token>, at: nat)
    requires BackTo(line, ts, a, l, ts1, backl, n) && Head(ts1, ';')
    requires LineResult(line, ts1[1..], b, ok, r, rest, at)
    ensures l < |a| && (ok ==> r < |b|)
    ensures !ok ==> forall q :: LineResult(line, ts, b, false, q, rest, backl)
  {
    hide PPipe, Tree, TreePipe, Closed, Backs, Amps, GoodAmps, TreeLine;
    AmpsAre(PPipe(ts).rest, n);
  }

  lemma {:induction false} LineDone(line: string, ts: seq<Token>, a: seq<Node>, l: nat, ts1: seq<Token>, backl: nat, n: nat,
                                    b: seq<Node>, r: nat, c: seq<Node>, p: nat, rest: seq<Token>, at: nat)
    requires BackTo(line, ts, a, l, ts1, backl, n) && Head(ts1, ';')
    requires LineResult(line, ts1[1..], b, true, r, rest, at) && at == After(line, ts1[0].span.hi)
    requires a <= b && c == b + [ListNode(l, r)] && p == |b| && Closed(c)
    ensures LineResult(line, ts, c, true, p, rest, backl)
  {
    hide PPipe, TreePipe, Closed, Backs, Amps, GoodAmps;
    AmpsAre(PPipe(ts).rest, n);
    TreeKept(a, c, l);
    TreeKept(b, c, r);
  }

  /** All nodes but `e` are as they were, and there may be more. */
  ghost predicate Grown(a: seq<Node>, b: seq<Node>, e: nat) {
    |a| <= |b| && forall i :: 0 <= i < |a| && i != e ==> a[i] == b[i]
  }

  lemma {:induction false} GrownNot(a: seq<Node>, e: nat)
    ensures Grown(a, a, e)
  {
  }

  lemma {:induction false} GrownTwice(a: seq<Node>, b: seq<Node>, c: seq<Node>, e: nat)
    requires Grown(a, b, e) && Grown(b, c, e)
    ensures Grown(a, c, e)
  {
  }

  // ----- filling in an argument vector

  /** Node `e` holds the arguments of `items`, and node `r` is `e` inside their redirects. */
  ghost predicate Filling(nodes: seq<Node>, e: nat, r: nat, items: seq<Item>, argc: nat) {
    && e <= r < |nodes| && nodes[e].ExecNode? && |nodes[e].argv| == MAXARGS
    && argc == |Args(items)| <= MAXARGS
    && (forall i :: 0 <= i < argc ==> nodes[e].argv[i] == Ptr(Args(items)[i]))
    && Wraps(nodes, e, r, Redirs(items))
  }

  lemma {:induction false} FillingNode(nodes: seq<Node>, e: nat, r: nat, items: seq<Item>, argc: nat)
    requires Filling(nodes, e, r, items, argc)
    ensures e < |nodes| && nodes[e].ExecNode? && |nodes[e].argv| == MAXARGS
  {
  }

  lemma {:induction false} FillStart(nodes: seq<Node>, e: nat, ts: seq<Token>)
    requires e < |nodes| && nodes[e].ExecNode? && |nodes[e].argv| == MAXARGS
    ensures Filling(nodes, e, e, [], 0)
    ensures PItems(ts, 0) == Following([], PItems(ts, 0))
  {
    FollowingNone(PItems(ts, 0));
  }

  lemma {:induction false} FillArg(a: seq<Node>, b: seq<Node>, e: nat, r: nat, items: seq<Item>, argc: nat, w: Token)
    requires Filling(a, e, r, items, argc) && argc < MAXARGS
    requires b == a[e := ExecNode(a[e].argv[argc := Ptr(w.span)])]
    ensures Filling(b, e, r, items + [Arg(w)], argc + 1)
    ensures Closed(a) ==> Closed(b)
  {
    hide Wraps, Args, Redirs;
    ArgsConcat(items, [Arg(w)]);
    RedirsConcat(items, [Arg(w)]);
    OneArg(w);
    WrapsKept(a, b, e, r, Redirs(items));
  }

  lemma {:induction false} OneArg(w: Token)
    ensures Args([Arg(w)]) == [w.span]
    ensures forall rs :: rs + Redirs([Arg(w)]) == rs
  {
    assert [Arg(w)][1..] == [];
  }

  lemma {:induction false} FillRedirects(a: seq<Node>, b: seq<Node>, e: nat, r: nat, r1: nat, items: seq<Item>, argc: nat,
                                         ts0: seq<Token>, ts: seq<Token>, ok: bool, rest: seq<Token>)
    requires Filling(a, e, r, items, argc) && a <= b
    requires RedirsResult(ts, b, r, ok, r1, rest)
    requires PItems(ts0, 0) == Following(items, PItems(ts, argc))
    ensures !ok ==> PItems(ts0, 0) == Fail
    ensures ok ==> var more := items + IntoAll(PRedirects(ts).tree);
                   Filling(b, e, r1, more, argc) && PItems(ts0, 0) == Following(more, PItems(rest, argc))
  {
    hide Wraps, Args, Redirs, IntoAll, PItems, PRedirects;
    RedirectsThenItems(ts, argc);
    if ok {
      var rs := PRedirects(ts).tree;
      FollowingTwice(items, IntoAll(rs), PItems(rest, argc));
      ArgsConcat(items, IntoAll(rs));
      RedirsConcat(items, IntoAll(rs));
      IntoAllArgs(rs);
      Empty(Args(items));
      WrapsKept(a, b, e, r, Redirs(items));
      WrapsTwice(b, e, r, r1, Redirs(items), rs);
    }
  }

  lemma {:induction false} FillDone(a: seq<Node>, b: seq<Node>, e: nat, r: nat, items: seq<Item>, argc: nat)
    requires Filling(a, e, r, items, argc) && argc < MAXARGS && Closed(a)
    requires b == a[e := ExecNode(a[e].argv[argc := Null])]
    ensures Closed(b) && r < |b|
    ensures Tree(b, r) == Wrap(ExecCmd(Args(items)), Redirs(items))
  {
    hide Wraps, Args, Redirs;
    TerminatedAt(b[e].argv, Args(items));
    WrapsKept(a, b, e, r, Redirs(items));
    WrapsTree(b, e, r, Redirs(items));
  }

  /** What the next token means for an argument list that goes on. */
  lemma {:induction false} ItemStep(ts: seq<Token>, argc: nat)
    requires ts != [] && !Starts(ts, "|)&;") && !Starts(ts, "<>")
    ensures if ts[0].kind != WORD || argc + 1 >= MAXARGS then PItems(ts, argc) == Fail
            else PItems(ts, argc) == Following([Arg(ts[0])], PItems(ts[1..], argc + 1))
  {
    assert '|' in "|)&;" && ')' in "|)&;" && '&' in "|)&;" && ';' in "|)&;" && '<' in "<>" && '>' in "<>";
  }

  lemma {:induction false} NoItem(ts: seq<Token>, argc: nat)
    requires ts == [] || Starts(ts, "|)&;")
    ensures PItems(ts, argc) == Done([], ts)
  {
  }

  // ----- what each part of the parser comes to

  ghost predicate ExecResult(line: string, ts: seq<Token>, nodes: seq<Node>, ok: bool, r: nat, rest: seq<Token>) {
    && (ok <==> PExec(ts).Done?)
    && (ok ==> r < |nodes| && Closed(nodes) && rest == PExec(ts).rest && Tree(nodes, r) == TreeExec(line, PExec(ts).tree))
  }

  lemma {:induction false} SimpleFails(line: string, ts: seq<Token>, nodes: seq<Node>, r: nat, rest: seq<Token>)
    requires !Head(ts, '(')
    ensures PItems(ts, 0).Fail? ==> ExecResult(line, ts, nodes, false, r, rest)
  {
    hide PItems;
  }

  lemma {:induction false} SimpleDone(line: string, ts: seq<Token>, nodes: seq<Node>, r: nat, items: seq<Item>, rest: seq<Token>)
    requires !Head(ts, '(') && PItems(ts, 0) == Done(items, rest)
    requires r < |nodes| && Closed(nodes) && Tree(nodes, r) == Wrap(ExecCmd(Args(items)), Redirs(items))
    ensures ExecResult(line, ts, nodes, true, r, rest)
  {
    hide PItems, Tree, Closed, Wrap, Args, Redirs;
  }

  lemma {:induction false} RedirsNode(ts: seq<Token>, nodes: seq<Node>, cmd: nat, r: nat, rest: seq<Token>)
    requires RedirsResult(ts, nodes, cmd, true, r, rest)
    ensures PRedirects(ts).Done? && cmd <= r < |nodes| && !Starts(rest, "<>")
  {
  }

  /** What reading redirects around node `cmd` comes to. */
  ghost predicate RedirsResult(ts: seq<Token>, nodes: seq<Node>, cmd: nat, ok: bool, r: nat, rest: seq<Token>) {
    && (ok <==> PRedirects(ts).Done?)
    && (ok ==> r < |nodes| && cmd <= r && rest == PRedirects(ts).rest && Wraps(nodes, cmd, r, PRedirects(ts).tree)
               && !Starts(rest, "<>"))
  }

  lemma {:induction false} RedirectsStep(ts: seq<Token>)
    requires Starts(ts, "<>")
    ensures IsOp(ts[0])
    ensures if Head(ts[1..], WORD) then PRedirects(ts) == Following([Redirect(ts[0], ts[1])], PRedirects(ts[2..]))
            else PRedirects(ts) == Fail
  {
    assert IsOp(ts[0]);
  }

  lemma {:induction false} NoRedirects(ts: seq<Token>)
    requires !Starts(ts, "<>")
    ensures PRedirects(ts) == Done([], ts)
  {
    assert '<' in "<>" && '>' in "<>";
  }
}
