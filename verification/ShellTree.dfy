/**
 * Command trees: what a derivation means, the nodes the parser allocates for it,
 * and where the words of the line end up.
 */
module ShellTree {
  import opened ShellLex
  import opened ShellGrammar

  datatype Mode = ReadOnly | Truncate | Append

  /** A command; the words are stretches of the line, `pick` is the text of a background job. */
  datatype Cmd =
    | ExecCmd(args: seq<Span>)
    | RedirCmd(cmd: Cmd, file: Span, mode: Mode, fd: nat)
    | PipeCmd(left: Cmd, right: Cmd)
    | ListCmd(left: Cmd, right: Cmd)
    | BackCmd(cmd: Cmd, pick: string)

  // ----- the command a derivation stands for

  function ModeOf(op: Token): Mode {
    if op.kind == '<' then ReadOnly else if op.kind == '>' then Truncate else Append
  }

  function FdOf(op: Token): nat {
    if op.kind == '<' then 0 else 1
  }

  function Args(items: seq<Item>): seq<Span> {
    if items == [] then [] else (if items[0].Arg? then [items[0].word.span] else []) + Args(items[1..])
  }

  function Redirs(items: seq<Item>): seq<Redirect> {
    if items == [] then [] else (if items[0].Into? then [items[0].redirect] else []) + Redirs(items[1..])
  }

  /** Redirections around a command, the first one innermost. */
  function Wrap(c: Cmd, rs: seq<Redirect>): Cmd {
    if rs == [] then c else
      var r := rs[|rs| - 1];
      RedirCmd(Wrap(c, rs[..|rs| - 1]), r.file.span, ModeOf(r.op), FdOf(r.op))
  }

  function Backs(c: Cmd, n: nat, pick: string): Cmd {
    if n == 0 then c else BackCmd(Backs(c, n - 1, pick), pick)
  }

  /** Where the cursor stands after a token that ends at `i`. */
  function After(line: string, i: nat): nat {
    if i <= |line| then Skip(line, i) else i
  }

  /** The rest of the line from position `at`. */
  function TextFrom(line: string, at: nat): string {
    if at <= |line| then line[at..] else ""
  }

  function TreeExec(line: string, x: Exec): Cmd {
    match x
    case Simple(items) => Wrap(ExecCmd(Args(items)), Redirs(items))
    case Block(open, l, close, rs) => Wrap(TreeLine(line, l, After(line, open.span.hi)), rs)
  }

  function TreePipe(line: string, p: Pipe): Cmd {
    match p
    case Last(x) => TreeExec(line, x)
    case Piped(x, bar, q) => PipeCmd(TreeExec(line, x), TreePipe(line, q))
  }

  /** The command of a line that starts at position `at`. */
  function TreeLine(line: string, l: Line, at: nat): Cmd {
    var c := Backs(TreePipe(line, l.pipe), |l.amps|, TextFrom(line, at));
    match l.next
    case End => c
    case Then(semi, m) => ListCmd(c, TreeLine(line, m, After(line, semi.span.hi)))
  }

  // ----- every word of a derivation occurs exactly once in its command

  function Spans(c: Cmd): multiset<Span> {
    match c
    case ExecCmd(args) => multiset(args)
    case RedirCmd(d, file, _, _) => Spans(d) + multiset{file}
    case PipeCmd(l, r) => Spans(l) + Spans(r)
    case ListCmd(l, r) => Spans(l) + Spans(r)
    case BackCmd(d, _) => Spans(d)
  }

  lemma {:induction false} ConcatTail<T>(a: seq<T>, b: seq<T>)
    requires a != []
    ensures (a + b)[1..] == a[1..] + b
  {
  }

  lemma {:induction false} WordSpansConcat(a: seq<Token>, b: seq<Token>)
    ensures WordSpans(a + b) == WordSpans(a) + WordSpans(b)
  {
    if a == [] {
      Empty(b);
    } else {
      ConcatTail(a, b);
      WordSpansConcat(a[1..], b);
      Assoc(WordSpans(a[1..]), WordSpans(b), if a[0].kind == WORD then [a[0].span] else []);
    }
  }

  lemma {:induction false} NoWord(t: Token)
    requires t.kind != WORD
    ensures WordSpans([t]) == []
  {
    assert [t][1..] == [];
  }

  lemma {:induction false} OneWord(t: Token)
    requires t.kind == WORD
    ensures WordSpans([t]) == [t.span]
  {
    assert [t][1..] == [];
  }

  lemma {:induction false} RedirectWords(r: Redirect)
    requires GoodRedirect(r)
    ensures WordSpans([r.op, r.file]) == [r.file.span]
  {
    assert [r.op, r.file] == [r.op] + [r.file];
    WordSpansConcat([r.op], [r.file]);
    NoWord(r.op);
    OneWord(r.file);
  }

  lemma {:induction false} AmpWords(amps: seq<Token>)
    requires GoodAmps(amps)
    ensures WordSpans(amps) == []
  {
    if amps != [] {
      assert amps[0].kind == '&';
      AmpWords(amps[1..]);
    }
  }

  function Files(rs: seq<Redirect>): seq<Span> {
    if rs == [] then [] else [rs[0].file.span] + Files(rs[1..])
  }

  lemma {:induction false} RedirectsWords(rs: seq<Redirect>)
    requires forall i :: 0 <= i < |rs| ==> GoodRedirect(rs[i])
    ensures WordSpans(YieldRedirects(rs)) == Files(rs)
  {
    if rs != [] {
      WordSpansConcat([rs[0].op, rs[0].file], YieldRedirects(rs[1..]));
      RedirectWords(rs[0]);
      RedirectsWords(rs[1..]);
    }
  }

  lemma {:induction false} ItemsWords(items: seq<Item>)
    requires GoodItems(items)
    ensures multiset(WordSpans(YieldItems(items))) == multiset(Args(items)) + multiset(Files(Redirs(items)))
  {
    hide WordSpans, Args, Redirs, Files;
    if items == [] {
      NoTokens();
    } else {
      assert GoodItem(items[0]);
      WordSpansConcat(YieldItem(items[0]), YieldItems(items[1..]));
      ItemsWords(items[1..]);
      ItemsStep(items);
      match items[0]
      case Arg(w) => OneWord(w);
      case Into(r) => RedirectWords(r);
    }
  }

  lemma {:induction false} ItemsStep(items: seq<Item>)
    requires items != []
    ensures var rest := items[1..];
      if items[0].Arg? then Args(items) == [items[0].word.span] + Args(rest) && Redirs(items) == Redirs(rest)
      else Args(items) == Args(rest) && Files(Redirs(items)) == [items[0].redirect.file.span] + Files(Redirs(rest))
  {
    var rest := items[1..];
    if items[0].Arg? {
      assert [] + Redirs(rest) == Redirs(rest);
    } else {
      assert [] + Args(rest) == Args(rest);
      assert ([items[0].redirect] + Redirs(rest))[1..] == Redirs(rest);
    }
  }

  lemma {:induction false} NoTokens()
    ensures WordSpans([]) == [] && Args([]) == [] && Files(Redirs([])) == []
  {
  }

  lemma {:induction false} FilesSnoc(rs: seq<Redirect>, r: Redirect)
    ensures Files(rs + [r]) == Files(rs) + [r.file.span]
  {
    if rs == [] {
      assert rs + [r] == [r] && [r][1..] == [];
    } else {
      assert (rs + [r])[1..] == rs[1..] + [r];
      FilesSnoc(rs[1..], r);
    }
  }

  lemma {:induction false} WrapSpans(c: Cmd, rs: seq<Redirect>)
    ensures Spans(Wrap(c, rs)) == Spans(c) + multiset(Files(rs))
  {
    if rs != [] {
      var k := |rs| - 1;
      assert rs == rs[..k] + [rs[k]];
      FilesSnoc(rs[..k], rs[k]);
      WrapSpans(c, rs[..k]);
    }
  }

  lemma {:induction false} BacksSpans(c: Cmd, n: nat, pick: string)
    ensures Spans(Backs(c, n, pick)) == Spans(c)
  {
    if n > 0 {
      BacksSpans(c, n - 1, pick);
    }
  }

  lemma {:induction false} ExecWords(line: string, x: Exec)
    requires GoodExec(x)
    ensures Spans(TreeExec(line, x)) == multiset(WordSpans(YieldExec(x)))
    decreases x, 1
  {
    hide Spans, WordSpans, Wrap, YieldLine, YieldItems, YieldRedirects, Files, TreeLine;
    match x
    case Simple(items) =>
      ItemsWords(items);
      WrapSpans(ExecCmd(Args(items)), Redirs(items));
      ExecSpans(Args(items));
    case Block(open, l, close, rs) =>
      var at := After(line, open.span.hi);
      LineWords(line, l, at);
      WrapSpans(TreeLine(line, l, at), rs);
      RedirectsWords(rs);
      WordSpansConcat([open], YieldLine(l));
      WordSpansConcat([open] + YieldLine(l), [close]);
      WordSpansConcat([open] + YieldLine(l) + [close], YieldRedirects(rs));
      NoWord(open);
      NoWord(close);
  }

  lemma {:induction false} ExecSpans(args: seq<Span>)
    ensures Spans(ExecCmd(args)) == multiset(args)
  {
  }

  lemma {:induction false} PipeWords(line: string, p: Pipe)
    requires GoodPipe(p)
    ensures Spans(TreePipe(line, p)) == multiset(WordSpans(YieldPipe(p)))
    decreases p
  {
    hide WordSpans, YieldExec, TreeExec, GoodExec;
    match p
    case Last(x) => ExecWords(line, x);
    case Piped(x, bar, q) =>
      ExecWords(line, x);
      PipeWords(line, q);
      WordSpansConcat(YieldExec(x), [bar]);
      WordSpansConcat(YieldExec(x) + [bar], YieldPipe(q));
      NoWord(bar);
  }

  /** The words in a command are those of its derivation, each as often. */
  lemma {:induction false} LineWords(line: string, l: Line, at: nat)
    requires GoodLine(l)
    ensures Spans(TreeLine(line, l, at)) == multiset(WordSpans(YieldLine(l)))
    decreases l
  {
    hide WordSpans, YieldPipe, TreePipe, GoodPipe, GoodAmps, Backs;
    PipeWords(line, l.pipe);
    BacksSpans(TreePipe(line, l.pipe), |l.amps|, TextFrom(line, at));
    AmpWords(l.amps);
    WordSpansConcat(YieldPipe(l.pipe), l.amps);
    WordSpansConcat(YieldPipe(l.pipe) + l.amps, YieldNext(l.next));
    match l.next
    case End => NoTokens();
    case Then(semi, m) =>
      LineWords(line, m, After(line, semi.span.hi));
      WordSpansConcat([semi], YieldLine(m));
      NoWord(semi);
  }

  // ----- the texts of background jobs

  /** Bytes for the text of a background job; `strncpy` fills as many as it is told to. */
  const PICK := 100

  predicate PicksFit(c: Cmd) {
    match c
    case ExecCmd(_) => true
    case RedirCmd(d, _, _, _) => PicksFit(d)
    case PipeCmd(l, r) => PicksFit(l) && PicksFit(r)
    case ListCmd(l, r) => PicksFit(l) && PicksFit(r)
    case BackCmd(d, pick) => PicksFit(d) && |pick| <= PICK
  }

  /** Where the lines with an '&' start, the ones in parentheses included. */
  function BacksExec(line: string, x: Exec): set<nat> {
    match x
    case Simple(_) => {}
    case Block(open, l, _, _) => BacksLine(line, l, After(line, open.span.hi))
  }

  function BacksPipe(line: string, p: Pipe): set<nat> {
    match p
    case Last(x) => BacksExec(line, x)
    case Piped(x, _, q) => BacksExec(line, x) + BacksPipe(line, q)
  }

  function BacksLine(line: string, l: Line, at: nat): set<nat> {
    (if l.amps == [] then {} else {at}) + BacksPipe(line, l.pipe) +
    match l.next
    case End => {}
    case Then(semi, m) => BacksLine(line, m, After(line, semi.span.hi))
  }

  /** None of them starts more than a hundred bytes before the end of the line. */
  ghost predicate Late(line: string, starts: set<nat>) {
    forall s :: s in starts ==> |line| - s <= PICK
  }

  lemma {:induction false} LateBoth(line: string, a: set<nat>, b: set<nat>)
    ensures Late(line, a + b) <==> Late(line, a) && Late(line, b)
  {
    assert forall s :: s in a || s in b ==> s in a + b;
  }

  lemma {:induction false} WrapFits(c: Cmd, rs: seq<Redirect>)
    ensures PicksFit(Wrap(c, rs)) <==> PicksFit(c)
  {
    if rs != [] {
      WrapFits(c, rs[..|rs| - 1]);
    }
  }

  lemma {:induction false} BacksFit(c: Cmd, n: nat, pick: string)
    ensures PicksFit(Backs(c, n, pick)) <==> PicksFit(c) && (n > 0 ==> |pick| <= PICK)
  {
    if n > 0 {
      BacksFit(c, n - 1, pick);
    }
  }

  lemma {:induction false} ExecFits(line: string, x: Exec)
    ensures PicksFit(TreeExec(line, x)) <==> Late(line, BacksExec(line, x))
    decreases x, 1
  {
    hide TreeLine, Wrap, BacksLine;
    match x
    case Simple(items) => WrapFits(ExecCmd(Args(items)), Redirs(items));
    case Block(open, l, _, rs) =>
      LineFits(line, l, After(line, open.span.hi));
      WrapFits(TreeLine(line, l, After(line, open.span.hi)), rs);
  }

  lemma {:induction false} PipeFits(line: string, p: Pipe)
    ensures PicksFit(TreePipe(line, p)) <==> Late(line, BacksPipe(line, p))
    decreases p
  {
    hide TreeExec, BacksExec, Late;
    match p
    case Last(x) => ExecFits(line, x);
    case Piped(x, _, q) =>
      ExecFits(line, x);
      PipeFits(line, q);
      LateBoth(line, BacksExec(line, x), BacksPipe(line, q));
  }

  /** The texts of all background jobs fit if and only if each of their lines starts late enough. */
  lemma {:induction false} LineFits(line: string, l: Line, at: nat)
    ensures PicksFit(TreeLine(line, l, at)) <==> Late(line, BacksLine(line, l, at))
    decreases l
  {
    hide TreePipe, BacksPipe, Backs;
    var own: set<nat> := if l.amps == [] then {} else {at};
    PipeFits(line, l.pipe);
    BacksFit(TreePipe(line, l.pipe), |l.amps|, TextFrom(line, at));
    LateBoth(line, own, BacksPipe(line, l.pipe));
    assert Late(line, own) <==> l.amps == [] || |TextFrom(line, at)| <= PICK;
    match l.next
    case End =>
      assert own + BacksPipe(line, l.pipe) + {} == own + BacksPipe(line, l.pipe);
    case Then(semi, m) =>
      LineFits(line, m, After(line, semi.span.hi));
      LateBoth(line, own + BacksPipe(line, l.pipe), BacksLine(line, m, After(line, semi.span.hi)));
  }

  /** Every line of up to a hundred bytes is short enough; a longer one is not if it is sent to the background as a whole. */
  lemma {:induction false} LongBackground(line: string, l: Line)
    ensures |line| <= PICK ==> PicksFit(TreeLine(line, l, 0))
    ensures |line| > PICK && l.amps != [] ==> !PicksFit(TreeLine(line, l, 0))
  {
    hide BacksPipe, TreeLine;
    LineFits(line, l, 0);
    assert l.amps != [] ==> 0 in BacksLine(line, l, 0);
  }

  // ----- argument lists are built in the order of the items

  lemma {:induction false} ArgsConcat(a: seq<Item>, b: seq<Item>)
    ensures Args(a + b) == Args(a) + Args(b)
  {
    if a == [] {
      Empty(b);
    } else {
      ConcatTail(a, b);
      ArgsConcat(a[1..], b);
      Assoc(Args(a[1..]), Args(b), (if a[0].Arg? then [a[0].word.span] else []));
    }
  }

  lemma {:induction false} RedirsConcat(a: seq<Item>, b: seq<Item>)
    ensures Redirs(a + b) == Redirs(a) + Redirs(b)
  {
    if a == [] {
      Empty(b);
    } else {
      ConcatTail(a, b);
      RedirsConcat(a[1..], b);
      Assoc(Redirs(a[1..]), Redirs(b), (if a[0].Into? then [a[0].redirect] else []));
    }
  }

  function IntoAll(rs: seq<Redirect>): seq<Item> {
    if rs == [] then [] else [Into(rs[0])] + IntoAll(rs[1..])
  }

  lemma {:induction false} IntoAllArgs(rs: seq<Redirect>)
    ensures Args(IntoAll(rs)) == [] && Redirs(IntoAll(rs)) == rs
  {
    if rs != [] {
      IntoAllArgs(rs[1..]);
      assert IntoAll(rs)[1..] == IntoAll(rs[1..]);
    }
  }

  /** A parse with `xs` in front of what it found. */
  function Following<T>(xs: seq<T>, r: Parsed<seq<T>>): Parsed<seq<T>> {
    match r
    case Fail => Fail
    case Done(ys, rest) => Done(xs + ys, rest)
  }

  lemma {:induction false} FollowingTwice<T>(a: seq<T>, b: seq<T>, r: Parsed<seq<T>>)
    ensures Following(a, Following(b, r)) == Following(a + b, r)
  {
    if r.Done? {
      assert a + (b + r.tree) == a + b + r.tree;
    }
  }

  /** Reading redirects first changes nothing about the items. */
  lemma {:induction false} RedirectsThenItems(ts: seq<Token>, argc: nat)
    ensures PItems(ts, argc) ==
            match PRedirects(ts)
            case Fail => Fail
            case Done(rs, rest) => Following(IntoAll(rs), PItems(rest, argc))
  {
    var r := PRedirects(ts);
    if ts == [] || !IsOp(ts[0]) {
      FollowingNone(PItems(ts, argc));
    } else if Head(ts[1..], WORD) {
      RedirectsThenItems(ts[2..], argc);
      if r.Done? {
        var first := Redirect(ts[0], ts[1]);
        assert r.tree[1..] == PRedirects(ts[2..]).tree;
        FollowingTwice([Into(first)], IntoAll(r.tree[1..]), PItems(r.rest, argc));
      }
    }
  }

  lemma {:induction false} FollowingNone<T>(r: Parsed<seq<T>>)
    ensures Following([], r) == r
  {
    if r.Done? {
      assert [] + r.tree == r.tree;
    }
  }

  // ----- the nodes the parser allocates

  /** A slot of an argument vector: a null pointer, or the two ends of a word. */
  datatype Slot = Null | Ptr(span: Span)

  datatype Node =
    | ExecNode(argv: seq<Slot>)
    | RedirNode(cmd: nat, file: Span, mode: Mode, fd: nat)
    | PipeNode(left: nat, right: nat)
    | ListNode(left: nat, right: nat)
    | BackNode(cmd: nat, pick: string)

  predicate Below(n: Node, i: nat) {
    match n
    case ExecNode(argv) => |argv| == MAXARGS
    case RedirNode(c, _, _, _) => c < i
    case PipeNode(l, r) => l < i && r < i
    case ListNode(l, r) => l < i && r < i
    case BackNode(c, _) => c < i
  }

  /** Nodes point only to nodes allocated before them. */
  ghost predicate Closed(nodes: seq<Node>) {
    forall i :: 0 <= i < |nodes| ==> Below(nodes[i], i)
  }

  /** The arguments before the null pointer. */
  function Terminated(argv: seq<Slot>): seq<Span> {
    if argv == [] || argv[0].Null? then [] else [argv[0].span] + Terminated(argv[1..])
  }

  /** The command a node stands for. */
  ghost function Tree(nodes: seq<Node>, i: nat): Cmd
    requires Closed(nodes) && i < |nodes|
    decreases i
  {
    match nodes[i]
    case ExecNode(argv) => ExecCmd(Terminated(argv))
    case RedirNode(c, f, m, fd) => RedirCmd(Tree(nodes, c), f, m, fd)
    case PipeNode(l, r) => PipeCmd(Tree(nodes, l), Tree(nodes, r))
    case ListNode(l, r) => ListCmd(Tree(nodes, l), Tree(nodes, r))
    case BackNode(c, p) => BackCmd(Tree(nodes, c), p)
  }

  /** New nodes do not change old commands. */
  lemma {:induction false} TreeKept(a: seq<Node>, b: seq<Node>, i: nat)
    requires Closed(a) && Closed(b) && a <= b && i < |a|
    ensures Tree(b, i) == Tree(a, i)
    decreases i
  {
    assert a[i] == b[i];
    match a[i]
    case ExecNode(_) =>
    case RedirNode(c, _, _, _) => TreeKept(a, b, c);
    case PipeNode(l, r) => TreeKept(a, b, l); TreeKept(a, b, r);
    case ListNode(l, r) => TreeKept(a, b, l); TreeKept(a, b, r);
    case BackNode(c, _) => TreeKept(a, b, c);
  }

  /** Node `r` is node `base` with the redirects `rs` around it. */
  ghost predicate Wraps(nodes: seq<Node>, base: nat, r: nat, rs: seq<Redirect>)
    decreases rs
  {
    if rs == [] then r == base else
      var z := rs[|rs| - 1];
      && base < r < |nodes|
      && nodes[r].RedirNode? && nodes[r] == RedirNode(nodes[r].cmd, z.file.span, ModeOf(z.op), FdOf(z.op))
      && Wraps(nodes, base, nodes[r].cmd, rs[..|rs| - 1])
  }

  lemma {:induction false} WrapsTree(nodes: seq<Node>, base: nat, r: nat, rs: seq<Redirect>)
    requires Closed(nodes) && base < |nodes| && r < |nodes| && Wraps(nodes, base, r, rs)
    ensures Tree(nodes, r) == Wrap(Tree(nodes, base), rs)
    decreases rs
  {
    if rs != [] {
      WrapsTree(nodes, base, nodes[r].cmd, rs[..|rs| - 1]);
    }
  }

  /** Filling in the innermost node, or allocating more, leaves the wrapping alone. */
  lemma {:induction false} WrapsKept(a: seq<Node>, b: seq<Node>, base: nat, r: nat, rs: seq<Redirect>)
    requires Wraps(a, base, r, rs) && |a| <= |b|
    requires forall i :: base < i < |a| ==> a[i] == b[i]
    ensures Wraps(b, base, r, rs)
    decreases rs
  {
    if rs != [] {
      WrapsKept(a, b, base, a[r].cmd, rs[..|rs| - 1]);
    }
  }

  lemma {:induction false} WrapsNone(nodes: seq<Node>, base: nat)
    ensures Wraps(nodes, base, base, [])
  {
  }

  /** One more redirect around the command. */
  lemma {:induction false} WrapsSnoc(a: seq<Node>, b: seq<Node>, base: nat, r: nat, rs: seq<Redirect>, z: Redirect)
    requires a <= b && base < |a| <= r < |b| && b[r].RedirNode? && Wraps(a, base, b[r].cmd, rs)
    requires b[r] == RedirNode(b[r].cmd, z.file.span, ModeOf(z.op), FdOf(z.op))
    ensures Wraps(b, base, r, rs + [z])
  {
    WrapsKept(a, b, base, b[r].cmd, rs);
    assert (rs + [z])[..|rs|] == rs;
  }

  lemma {:induction false} WrapsTwice(nodes: seq<Node>, base: nat, c: nat, r: nat, rs: seq<Redirect>, more: seq<Redirect>)
    requires Wraps(nodes, base, c, rs) && Wraps(nodes, c, r, more) && base <= c
    ensures Wraps(nodes, base, r, rs + more)
    decreases more
  {
    if more == [] {
      assert rs + more == rs;
    } else {
      var k := |more| - 1;
      WrapsTwice(nodes, base, c, nodes[r].cmd, rs, more[..k]);
      var all := rs + more;
      assert all[..|all| - 1] == rs + more[..k];
    }
  }

  /** A vector filled up to `n` and then terminated holds those `n` words. */
  lemma {:induction false} TerminatedAt(argv: seq<Slot>, args: seq<Span>)
    requires |args| < |argv| && argv[|args|] == Null
    requires forall i :: 0 <= i < |args| ==> argv[i] == Ptr(args[i])
    ensures Terminated(argv) == args
  {
    if args != [] {
      TerminatedAt(argv[1..], args[1..]);
    }
  }
}
