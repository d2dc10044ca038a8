/** The initial user stack: built by src/kernel/user/exec.c, read back by
    src/app/libc/base/libc.c and src/app/libc/misc/auxv.c. The format is that of
    section 3.4.1 of the System V AMD64 psABI. */
module ExecStack {
  import opened Basics
  import opened UserStack

  /** `align`: up to a multiple of the word size. */
  function Align8(x: nat): nat {
    (x + 7) / 8 * 8
  }

  /** What the auxiliary vector reports. */
  datatype Exe = Exe(path: CString, phdr: nat, phent: nat, phnum: nat, base: nat, entry: nat, notelf: nat,
                     uid: nat, euid: nat, gid: nat, egid: nat)

  predicate Fits(e: Exe) {
    && e.phdr < WORD && e.phent < WORD && e.phnum < WORD && e.base < WORD && e.entry < WORD && e.notelf < WORD
    && e.uid < WORD && e.euid < WORD && e.gid < WORD && e.egid < WORD
  }

  const AT_NULL: nat := 0
  const AT_PHDR: nat := 3
  const AT_PHENT: nat := 4
  const AT_PHNUM: nat := 5
  const AT_PAGESZ: nat := 6
  const AT_BASE: nat := 7
  const AT_ENTRY: nat := 9
  const AT_NOTELF: nat := 10
  const AT_UID: nat := 11
  const AT_EUID: nat := 12
  const AT_GID: nat := 13
  const AT_EGID: nat := 14
  const AT_PLATFORM: nat := 15
  const AT_EXECFN: nat := 31

  /** "x86_64". */
  const ARCH: seq<Byte> := [120, 56, 54, 95, 54, 52]

  /** The auxiliary vector in memory order, from low to high addresses. */
  function AuxList(e: Exe, path: nat, arch: nat): seq<(nat, nat)> {
    [(AT_EGID, e.egid), (AT_GID, e.gid), (AT_EUID, e.euid), (AT_UID, e.uid),
     (AT_EXECFN, path), (AT_PLATFORM, arch), (AT_NOTELF, e.notelf), (AT_ENTRY, e.entry),
     (AT_BASE, e.base), (AT_PAGESZ, 4096), (AT_PHNUM, e.phnum), (AT_PHENT, e.phent),
     (AT_PHDR, e.phdr), (AT_NULL, 0)]
  }

  function AuxWords(l: seq<(nat, nat)>): (ws: seq<nat>)
    ensures |ws| == 2 * |l|
  {
    if l == [] then [] else [l[0].0, l[0].1] + AuxWords(l[1..])
  }

  function AuxSize(e: Exe): nat {
    Align8(|e.path|) + 8 + 14 * 16
  }

  /** Nothing changed outside two stretches. */
  ghost predicate Within2(m: Memory, m': Memory, lo: nat, hi: nat, lo2: nat, hi2: nat) {
    |m'| == |m| && forall i :: 0 <= i < |m| && !(lo <= i < hi) && !(lo2 <= i < hi2) ==> m'[i] == m[i]
  }

  class UserMemory {
    var mem: Memory

    /** One entry of the auxiliary vector, below those already there. `m` is memory
        before the first of them, and `top` where they begin. */
    method Put(sp: nat, t: nat, v: nat, put: bool, ghost l: seq<(nat, nat)>, ghost k: nat, ghost m: Memory, ghost top: nat)
        returns (sp': nat)
      requires sp >= 16 && k < |l| && l[k] == (t, v)
      requires put ==> At(mem, sp, Words(AuxWords(l[k + 1..]))) && sp <= top && Within(m, mem, sp, top)
      modifies this
      ensures sp' == sp - 16
      ensures !put ==> mem == old(mem)
      ensures put ==> At(mem, sp', Words(AuxWords(l[k..]))) && Within(m, mem, sp', top)
    {
      sp' := sp - 16;
      if put {
        AtBounds(mem, sp, Words(AuxWords(l[k + 1..])));
        ghost var m0 := mem;
        WriteAt(mem, sp', Word(t));
        mem := Write(mem, sp', Word(t));
        WriteAt(mem, sp' + 8, Word(v));
        ghost var m1 := mem;
        mem := Write(mem, sp' + 8, Word(v));
        PutTwo(m0, m1, mem, sp', t, v, l[k + 1..]);
        assert [(t, v)] + l[k + 1..] == l[k..];
      }
    }

    /** `auxv`: two strings and the auxiliary vector below `sp0`, or, with `put` off,
        only the space they take. The path gets no room for its terminator when its
        length is a multiple of 8, so the byte at `sp0` may be overwritten; if there is
        no such byte, that write fails. */
    method Auxv(sp0: nat, e: Exe, put: bool) returns (sp: nat, fault: bool)
      requires sp0 >= AuxSize(e) && (put ==> sp0 <= |mem|)
      modifies this
      ensures fault <==> put && sp0 == old(|mem|) && Tight(e)
      ensures sp == sp0 - AuxSize(e)
      ensures !put ==> mem == old(mem)
      ensures put && !fault ==> AuxBuilt(old(mem), mem, sp0, e)
    {
      hide At, Word, Words, AuxWords, Write, Within, Align8;
      AlignBounds(|e.path|);
      AlignArch();
      var path := sp0 - Align8(|e.path|);
      var arch := path - Align8(|ARCH|);
      ghost var m0 := mem;
      fault := false;
      if put {
        fault := PutStrings(path, arch, sp0, e);
        if fault {
          return sp0 - Align8(|e.path|) - Align8(|ARCH|) - 16 * 14, true;
        }
      }
      ghost var m2 := mem;
      sp := PutPairs(arch, path, e, put);
      if put {
        AuxDone(m0, m2, mem, sp0, e);
      }
    }

    /** The platform name and the path. */
    method PutStrings(path: nat, arch: nat, ghost sp0: nat, e: Exe) returns (fault: bool)
      requires sp0 >= AuxSize(e) && sp0 <= |mem| && path == sp0 - Align8(|e.path|) && arch == path - 8
      modifies this
      ensures fault <==> sp0 == old(|mem|) && Tight(e)
      ensures !fault ==> At(mem, path, Terminated(e.path)) && At(mem, arch, Terminated(ARCH))
      ensures !fault ==> Within(old(mem), mem, arch, path + |e.path| + 1) && arch <= |mem|
    {
      hide At, Write, Within, Align8;
      AlignBounds(|e.path|);
      ghost var m0 := mem;
      fault := path + |e.path| >= |mem|;
      if fault {
        return;
      }
      WriteAt(mem, path, Terminated(e.path));
      mem := Write(mem, path, Terminated(e.path));
      ghost var m1 := mem;
      WithinLen(m0, m1, path, path + |e.path| + 1);
      WriteAt(mem, arch, Terminated(ARCH));
      mem := Write(mem, arch, Terminated(ARCH));
      StringsBuilt(m0, m1, mem, sp0, e);
    }

    /** The key/value pairs, from the last one down. */
    method PutPairs(arch: nat, path: nat, e: Exe, put: bool) returns (sp: nat)
      requires arch >= 16 * 14 && (put ==> arch <= |mem|)
      modifies this
      ensures sp == arch - 16 * 14
      ensures !put ==> mem == old(mem)
      ensures put ==> At(mem, sp, Words(AuxWords(AuxList(e, path, arch)))) && Within(old(mem), mem, sp, arch)
    {
      hide At, Word, Words, AuxWords, Write, Within;
      ghost var m, l := mem, AuxList(e, path, arch);
      AllPairs(l);
      sp := PutUpper(arch, path, e, put);
      sp := Put(sp, AT_NOTELF, e.notelf, put, l, 6, m, arch);
      sp := Put(sp, AT_PLATFORM, arch, put, l, 5, m, arch);
      sp := Put(sp, AT_EXECFN, path, put, l, 4, m, arch);
      sp := Put(sp, AT_UID, e.uid, put, l, 3, m, arch);
      sp := Put(sp, AT_EUID, e.euid, put, l, 2, m, arch);
      sp := Put(sp, AT_GID, e.gid, put, l, 1, m, arch);
      sp := Put(sp, AT_EGID, e.egid, put, l, 0, m, arch);
    }

    method PutUpper(arch: nat, ghost path: nat, e: Exe, put: bool) returns (sp: nat)
      requires arch >= 16 * 7 && (put ==> arch <= |mem|)
      modifies this
      ensures sp == arch - 16 * 7
      ensures !put ==> mem == old(mem)
      ensures put ==> At(mem, sp, Words(AuxWords(AuxList(e, path, arch)[7..]))) && Within(old(mem), mem, sp, arch)
    {
      hide At, Word, Words, AuxWords, Write, Within;
      sp := arch;
      ghost var m, l := mem, AuxList(e, path, arch);
      AllPairs(l);
      if put {
        NoWords(mem, sp);
      }
      sp := Put(sp, AT_NULL, 0, put, l, 13, m, arch);
      sp := Put(sp, AT_PHDR, e.phdr, put, l, 12, m, arch);
      sp := Put(sp, AT_PHENT, e.phent, put, l, 11, m, arch);
      sp := Put(sp, AT_PHNUM, e.phnum, put, l, 10, m, arch);
      sp := Put(sp, AT_PAGESZ, 4096, put, l, 9, m, arch);
      sp := Put(sp, AT_BASE, e.base, put, l, 8, m, arch);
      sp := Put(sp, AT_ENTRY, e.entry, put, l, 7, m, arch);
    }

    /** `copyarg`: counts the strings, and with `idx` also copies them to `new_` and
        fills the pointer array. */
    method CopyArg(idx: Option<nat>, new_: nat, arr: seq<CString>) returns (len: nat, cnt: nat)
      requires idx.Some? ==> idx.value + 8 * |arr| + 8 <= new_ && new_ + TotalLen(arr) <= |mem|
      modifies this
      ensures len == Align8(TotalLen(arr)) && cnt == |arr|
      ensures idx.None? ==> mem == old(mem)
      ensures idx.Some? ==> Copied(old(mem), mem, idx.value, Addresses(new_, arr) + [0], new_, arr)
    {
      hide At, Word, Words, Write, Within, Flat, Addresses, Copied;
      var l, i, p := 0, 0, new_;
      assert arr[..0] == [];
      if idx.Some? {
        CopyNone(mem, idx.value, new_);
      }
      while i < |arr|
        invariant 0 <= i <= |arr|
        invariant l == TotalLen(arr[..i])
        invariant |mem| == |old(mem)|
        invariant idx.None? ==> mem == old(mem)
        invariant idx.Some? ==> p == new_ + l && Copied(old(mem), mem, idx.value, Addresses(new_, arr[..i]), new_, arr[..i])
      {
        assert arr[..i + 1] == arr[..i] + [arr[i]];
        FlatSnoc(new_, arr[..i], arr[i]);
        PrefixLen(arr, i + 1);
        var x := |arr[i]| + 1;
        l := l + x;
        if idx.Some? {
          ghost var m := mem;
          WriteAt(mem, idx.value + 8 * i, Word(p));
          mem := Write(mem, idx.value + 8 * i, Word(p));
          ghost var m1 := mem;
          WithinLen(m, m1, idx.value + 8 * i, idx.value + 8 * i + 8);
          WriteAt(mem, p, Terminated(arr[i]));
          mem := Write(mem, p, Terminated(arr[i]));
          WithinLen(m1, mem, p, p + |Terminated(arr[i])|);
          CopyMore(old(mem), m, m1, mem, idx.value, new_, arr[..i], arr[i]);
          p := p + x;
        }
        i := i + 1;
      }
      assert arr[..i] == arr;
      if idx.Some? {
        ghost var m := mem;
        WriteAt(mem, idx.value + 8 * i, Word(0));
        mem := Write(mem, idx.value + 8 * i, Word(0));
        CopyEnd(old(mem), m, mem, idx.value, new_, arr);
      }
      len, cnt := Align8(l), i;
    }

    /** The first half of `build`: where the strings go and where the auxiliary vector begins, with
        padding so that the stack ends 16-byte aligned. */
    method Measure(sp0: nat, argv: seq<CString>, envp: seq<CString>, e: Exe)
        returns (sp: nat, strEnvp: nat, strArgv: nat, nenvc: nat, nargc: nat)
      requires sp0 % 8 == 0 && StackNeed(argv, envp, e) <= sp0 <= |mem|
      modifies this
      ensures mem == old(mem) && sp == AuxBase(sp0, argv, envp, e)
      ensures strEnvp == EnvStrings(sp0, envp) && strArgv == ArgStrings(sp0, argv, envp)
      ensures nenvc == |envp| && nargc == |argv|
    {
      hide At, Word, Words, Write, Within, Flat, Addresses, Copied, AuxBuilt, TotalLen, AuxList, Align8, Tight;
      Spaces(sp0, argv, envp, e);
      var len;
      len, nenvc := CopyArg(None, 0, envp);
      sp := sp0 - len;
      strEnvp := sp;
      len, nargc := CopyArg(None, 0, argv);
      sp := sp - len;
      strArgv := sp;
      var below, measured := Auxv(sp, e, false);
      var lauxv := sp - below;
      var rem := 1 + nargc + 1 + nenvc + 1;
      if (sp - rem * 8 - lauxv) % 16 != 0 {
        sp := sp - 8;
      }
    }

    /** `build`: lays out strings, auxiliary vector, environment, arguments and their
        count below `sp0`, and returns the final, 16-byte aligned stack pointer. It fails if
        and only if the path's terminator overruns `sp0` and nothing is mapped there. */
    method Build(sp0: nat, argv: seq<CString>, envp: seq<CString>, e: Exe) returns (sp: nat, fault: bool)
      requires sp0 % 8 == 0 && StackNeed(argv, envp, e) <= sp0 <= |mem|
      modifies this
      ensures fault <==> sp0 == old(|mem|) && Overruns(sp0, argv, envp, e)
      ensures !fault ==> sp == StackTop(sp0, argv, envp, e) && sp % 16 == 0
      ensures !fault ==> Built(old(mem), mem, sp0, argv, envp, e)
    {
      hide At, Word, Words, Write, Within, Within2, Flat, Addresses, Copied, AuxBuilt, Built, TotalLen, AuxList, Align8, Tight;
      Spaces(sp0, argv, envp, e);
      var strEnvp, strArgv, nenvc, nargc, len;
      sp, strEnvp, strArgv, nenvc, nargc := Measure(sp0, argv, envp, e);
      ghost var m0 := mem;
      sp, fault := Auxv(sp, e, true);
      if fault {
        return;
      }
      ghost var m1 := mem;
      AuxLen(m0, m1, AuxBase(sp0, argv, envp, e), e);
      sp := sp - 8 * (nenvc + 1);
      len, nenvc := CopyArg(Some(sp), strEnvp, envp);
      ghost var m2, nenvp := mem, sp;
      CopiedLen(m1, m2, nenvp, Addresses(strEnvp, envp) + [0], strEnvp, envp);
      sp := sp - 8 * (nargc + 1);
      len, nargc := CopyArg(Some(sp), strArgv, argv);
      ghost var m3, nargv := mem, sp;
      CopiedLen(m2, m3, nargv, Addresses(strArgv, argv) + [0], strArgv, argv);
      sp := sp - 8;
      WriteAt(mem, sp, Word(nargc));
      mem := Write(mem, sp, Word(nargc));
      assert sp % 16 == 0;
      BuiltFrom(m0, m1, m2, m3, mem, sp0, argv, envp, e);
    }
  }

  // ----- where everything goes

  function EnvStrings(sp0: nat, envp: seq<CString>): int {
    sp0 - Align8(TotalLen(envp))
  }

  function ArgStrings(sp0: nat, argv: seq<CString>, envp: seq<CString>): int {
    EnvStrings(sp0, envp) - Align8(TotalLen(argv))
  }

  /** Bytes of pointers and counters between the auxiliary vector and the top of stack. */
  function Pointers(argv: seq<CString>, envp: seq<CString>): nat {
    8 * (3 + |argv| + |envp|)
  }

  /** One word is skipped when the result would not be 16-byte aligned. */
  predicate Padded(sp0: nat, argv: seq<CString>, envp: seq<CString>, e: Exe) {
    (ArgStrings(sp0, argv, envp) - Pointers(argv, envp) - AuxSize(e)) % 16 != 0
  }

  function AuxBase(sp0: nat, argv: seq<CString>, envp: seq<CString>, e: Exe): int {
    ArgStrings(sp0, argv, envp) - if Padded(sp0, argv, envp, e) then 8 else 0
  }

  function StackTop(sp0: nat, argv: seq<CString>, envp: seq<CString>, e: Exe): int {
    AuxBase(sp0, argv, envp, e) - AuxSize(e) - Pointers(argv, envp)
  }

  /** Room for everything, with the padding word. */
  function StackNeed(argv: seq<CString>, envp: seq<CString>, e: Exe): nat {
    Align8(TotalLen(envp)) + Align8(TotalLen(argv)) + 8 + AuxSize(e) + Pointers(argv, envp)
  }

  lemma {:induction false} Spaces(sp0: nat, argv: seq<CString>, envp: seq<CString>, e: Exe)
    requires sp0 % 8 == 0 && StackNeed(argv, envp, e) <= sp0
    ensures 0 <= StackTop(sp0, argv, envp, e)
    ensures StackTop(sp0, argv, envp, e) % 16 == 0
    ensures EnvStrings(sp0, envp) + TotalLen(envp) <= sp0
    ensures ArgStrings(sp0, argv, envp) + TotalLen(argv) <= EnvStrings(sp0, envp)
    ensures AuxBase(sp0, argv, envp, e) >= AuxSize(e)
  {
    AlignBounds(TotalLen(envp));
    AlignBounds(TotalLen(argv));
    AlignBounds(|e.path|);
    var x := ArgStrings(sp0, argv, envp) - Pointers(argv, envp) - AuxSize(e);
    EightOrZero(sp0, Align8(TotalLen(envp)), Align8(TotalLen(argv)), Align8(|e.path|), |argv| + |envp| + 3, x);
  }

  lemma {:induction false} EightOrZero(a: nat, b: nat, c: nat, d: nat, n: nat, x: int)
    requires a % 8 == 0 && b % 8 == 0 && c % 8 == 0 && d % 8 == 0
    requires x == a - b - c - 8 * n - (d + 8 + 14 * 16)
    ensures x % 16 == 0 || (x - 8) % 16 == 0
  {
    var y := a / 8 - b / 8 - c / 8 - n - d / 8 - 29;
    assert x == 8 * y;
    var q, r := y / 2, y % 2;
    assert x == 16 * q + 8 * r;
  }

  /** The strings of `arr` stand at `p`, the words `ws` at `x`, and nothing else changed. */
  ghost predicate Copied(m0: Memory, m: Memory, x: nat, ws: seq<nat>, p: nat, arr: seq<CString>) {
    && At(m, x, Words(ws)) && At(m, p, Flat(arr))
    && Within2(m0, m, x, x + 8 * |ws|, p, p + TotalLen(arr))
  }

  lemma {:induction false} PrefixLen(arr: seq<CString>, i: nat)
    requires i <= |arr|
    ensures TotalLen(arr[..i]) <= TotalLen(arr)
    decreases |arr| - i
  {
    if i == |arr| {
      assert arr[..i] == arr;
    } else {
      assert arr[..i + 1] == arr[..i] + [arr[i]];
      FlatSnoc(0, arr[..i], arr[i]);
      PrefixLen(arr, i + 1);
    }
  }

  lemma {:induction false} CopyNone(m: Memory, x: nat, p: nat)
    requires x <= |m| && p <= |m|
    ensures Copied(m, m, x, Addresses(p, []), p, [])
  {
  }

  /** One more string, and one more pointer to it. */
  lemma {:induction false} CopyMore(m0: Memory, m: Memory, m1: Memory, m2: Memory, x: nat, p: nat, arr: seq<CString>, s: CString)
    requires Copied(m0, m, x, Addresses(p, arr), p, arr) && x + 8 * |arr| + 8 <= p
    requires var q := p + TotalLen(arr);
             && Within(m, m1, x + 8 * |arr|, x + 8 * |arr| + 8) && At(m1, x + 8 * |arr|, Word(q))
             && Within(m1, m2, q, q + |Terminated(s)|) && At(m2, q, Terminated(s))
    ensures Copied(m0, m2, x, Addresses(p, arr + [s]), p, arr + [s])
  {
    hide At, Word, Words, Flat, Addresses, Within, Within2;
    var ws, y, q := Addresses(p, arr), x + 8 * |arr|, p + TotalLen(arr);
    FlatSnoc(p, arr, s);
    CopyKeeps(m, m1, m2, x, Words(ws), y, p, Flat(arr), q, Word(q), |Terminated(s)|);
    WithinGrows(m0, m, m1, m2, x, y, p, q, |s| + 1);
    AtSplit(m2, p, Flat(arr), Terminated(s));
    WordsSplit(ws, [q]);
    OneWord(q);
    AtSplit(m2, x, Words(ws), Word(q));
  }

  lemma {:induction false} WithinGrows(m0: Memory, m: Memory, m1: Memory, m2: Memory, x: nat, y: nat, p: nat, q: nat, n: nat)
    requires Within2(m0, m, x, y, p, q) && x <= y && p <= q
    requires Within(m, m1, y, y + 8) && Within(m1, m2, q, q + n)
    ensures Within2(m0, m2, x, y + 8, p, q + n)
  {
  }

  lemma {:induction false} CopyKeeps(m: Memory, m1: Memory, m2: Memory, x: nat, a: seq<Byte>, y: nat, p: nat, b: seq<Byte>, q: nat,
                                     w: seq<Byte>, n: nat)
    requires At(m, x, a) && y == x + |a| && At(m, p, b) && q == p + |b| && y + |w| <= p
    requires Within(m, m1, y, y + |w|) && At(m1, y, w) && Within(m1, m2, q, q + n)
    ensures At(m2, x, a) && At(m2, p, b) && At(m2, y, w)
  {
    AtKept(m, m1, y, y + |w|, x, a);
    AtKept(m, m1, y, y + |w|, p, b);
    AtKept(m1, m2, q, q + n, x, a);
    AtKept(m1, m2, q, q + n, p, b);
    AtKept(m1, m2, q, q + n, y, w);
  }

  /** The closing null pointer. */
  lemma {:induction false} CopyEnd(m0: Memory, m: Memory, m1: Memory, x: nat, p: nat, arr: seq<CString>)
    requires Copied(m0, m, x, Addresses(p, arr), p, arr) && x + 8 * |arr| + 8 <= p
    requires Within(m, m1, x + 8 * |arr|, x + 8 * |arr| + 8) && At(m1, x + 8 * |arr|, Word(0))
    ensures Copied(m0, m1, x, Addresses(p, arr) + [0], p, arr)
  {
    hide Word, Words, Flat, Addresses, At, TotalLen, Within, Within2;
    var ws, y := Addresses(p, arr), x + 8 * |arr|;
    AtKept(m, m1, y, y + 8, x, Words(ws));
    AtKept(m, m1, y, y + 8, p, Flat(arr));
    WordsSplit(ws, [0]);
    OneWord(0);
    AtSplit(m1, x, Words(ws), Word(0));
    WidenFirst(m0, m, m1, x, y, p, p + TotalLen(arr));
  }

  lemma {:induction false} WidenFirst(m0: Memory, m: Memory, m1: Memory, x: nat, y: nat, lo: nat, hi: nat)
    requires Within2(m0, m, x, y, lo, hi) && Within(m, m1, y, y + 8) && x <= y
    ensures Within2(m0, m1, x, y + 8, lo, hi)
  {
  }

  lemma {:induction false} AlignBounds(x: nat)
    ensures x <= Align8(x) < x + 8 && Align8(x) % 8 == 0
    ensures Align8(x) == x <==> x % 8 == 0
  {
    var q, r := (x + 7) / 8, (x + 7) % 8;
    assert x + 7 == 8 * q + r;
  }

  lemma {:induction false} AllPairs(l: seq<(nat, nat)>)
    ensures l[0..] == l && l[|l|..] == []
  {
  }

  lemma {:induction false} AlignArch()
    ensures Align8(|ARCH|) == 8
  {
  }

  lemma {:induction false} WithinLen(m: Memory, m': Memory, lo: nat, hi: nat)
    requires Within(m, m', lo, hi)
    ensures |m'| == |m|
  {
  }

  lemma {:induction false} NoWords(m: Memory, a: nat)
    requires a <= |m|
    ensures At(m, a, Words(AuxWords([]))) && Within(m, m, a, a)
  {
  }

  /** What `auxv` leaves behind below `sp0`. */
  ghost predicate AuxBuilt(m0: Memory, m: Memory, sp0: nat, e: Exe)
    requires sp0 >= AuxSize(e)
  {
    var path := sp0 - Align8(|e.path|);
    var arch, sp := path - 8, sp0 - AuxSize(e);
    && At(m, sp, Words(AuxWords(AuxList(e, path, arch))))
    && At(m, path, Terminated(e.path)) && At(m, arch, Terminated(ARCH))
    && Within(m0, m, sp, path + |e.path| + 1)
  }

  lemma {:induction false} StringsBuilt(m0: Memory, m1: Memory, m2: Memory, sp0: nat, e: Exe)
    requires sp0 >= AuxSize(e) && sp0 <= |m0|
    requires var path := sp0 - Align8(|e.path|);
             && Within(m0, m1, path, path + |Terminated(e.path)|) && At(m1, path, Terminated(e.path))
             && Within(m1, m2, path - 8, path - 8 + |Terminated(ARCH)|) && At(m2, path - 8, Terminated(ARCH))
    ensures var path := sp0 - Align8(|e.path|);
            && At(m2, path, Terminated(e.path)) && At(m2, path - 8, Terminated(ARCH))
            && Within(m0, m2, path - 8, path + |e.path| + 1)
            && |m2| == |m0| && path - 8 <= |m2|
  {
    AlignBounds(|e.path|);
    var path := sp0 - Align8(|e.path|);
    AtKept(m1, m2, path - 8, path - 1, path, Terminated(e.path));
  }

  lemma {:induction false} AuxDone(m0: Memory, m2: Memory, m: Memory, sp0: nat, e: Exe)
    requires sp0 >= AuxSize(e)
    requires var path := sp0 - Align8(|e.path|);
             && At(m2, path, Terminated(e.path)) && At(m2, path - 8, Terminated(ARCH))
             && Within(m0, m2, path - 8, path + |e.path| + 1)
             && Within(m2, m, sp0 - AuxSize(e), path - 8)
             && At(m, sp0 - AuxSize(e), Words(AuxWords(AuxList(e, path, path - 8))))
    ensures AuxBuilt(m0, m, sp0, e)
  {
    hide Words, AuxWords;
    var path := sp0 - Align8(|e.path|);
    AtKept(m2, m, sp0 - AuxSize(e), path - 8, path, Terminated(e.path));
    AtKept(m2, m, sp0 - AuxSize(e), path - 8, path - 8, Terminated(ARCH));
  }

  lemma {:induction false} PutTwo(m0: Memory, m1: Memory, m2: Memory, a: nat, t: nat, v: nat, l: seq<(nat, nat)>)
    requires Within(m0, m1, a, a + 8) && At(m1, a, Word(t))
    requires Within(m1, m2, a + 8, a + 16) && At(m2, a + 8, Word(v))
    requires At(m0, a + 16, Words(AuxWords(l)))
    ensures At(m2, a, Words(AuxWords([(t, v)] + l))) && Within(m0, m2, a, a + 16)
  {
    AtKept(m1, m2, a + 8, a + 16, a, Word(t));
    AtKept(m0, m1, a, a + 8, a + 16, Words(AuxWords(l)));
    AtKept(m1, m2, a + 8, a + 16, a + 16, Words(AuxWords(l)));
    hide At, Word, Words, AuxWords;
    AuxCons(t, v, l);
    AtSplit(m2, a, Word(t), Word(v));
    AtSplit(m2, a, Word(t) + Word(v), Words(AuxWords(l)));
  }

  lemma {:induction false} AuxCons(t: nat, v: nat, l: seq<(nat, nat)>)
    ensures Words(AuxWords([(t, v)] + l)) == Word(t) + Word(v) + Words(AuxWords(l))
  {
    assert ([(t, v)] + l)[1..] == l;
    WordsSplit([t, v], AuxWords(l));
    assert [t, v] == [t] + [v];
    WordsSplit([t], [v]);
    OneWord(t);
    OneWord(v);
  }

  lemma {:induction false} AuxLen(m0: Memory, m: Memory, sp0: nat, e: Exe)
    requires sp0 >= AuxSize(e) && AuxBuilt(m0, m, sp0, e)
    ensures |m| == |m0|
  {
  }

  lemma {:induction false} CopiedLen(m0: Memory, m: Memory, x: nat, ws: seq<nat>, p: nat, arr: seq<CString>)
    requires Copied(m0, m, x, ws, p, arr)
    ensures |m| == |m0|
  {
  }

  /** The words from the stack pointer up: count, arguments, environment, and the
      auxiliary vector. */
  function Vector(sp0: nat, argv: seq<CString>, envp: seq<CString>, e: Exe): seq<nat>
    requires sp0 % 8 == 0 && StackNeed(argv, envp, e) <= sp0
  {
    Spaces(sp0, argv, envp, e);
    var path := AuxBase(sp0, argv, envp, e) - Align8(|e.path|);
    [|argv|] + (Addresses(ArgStrings(sp0, argv, envp), argv) + [0]) + (Addresses(EnvStrings(sp0, envp), envp) + [0])
    + AuxWords(AuxList(e, path, path - 8))
  }

  lemma {:induction false} AtKept2(m: Memory, m': Memory, lo: nat, hi: nat, lo2: nat, hi2: nat, a: nat, bs: seq<Byte>)
    requires At(m, a, bs) && Within2(m, m', lo, hi, lo2, hi2)
    requires (a + |bs| <= lo || hi <= a) && (a + |bs| <= lo2 || hi2 <= a)
    ensures At(m', a, bs)
  {
  }

  /** A copy of strings leaves other stretches alone. */
  lemma {:induction false} CopyKept(m0: Memory, m: Memory, x: nat, ws: seq<nat>, p: nat, arr: seq<CString>, a: nat, bs: seq<Byte>)
    requires Copied(m0, m, x, ws, p, arr) && At(m0, a, bs)
    requires a + |bs| <= x || x + 8 * |ws| <= a
    requires a + |bs| <= p || p + TotalLen(arr) <= a
    ensures At(m, a, bs)
  {
    AtKept2(m0, m, x, x + 8 * |ws|, p, p + TotalLen(arr), a, bs);
  }

  lemma {:induction false} CopyGives(m0: Memory, m: Memory, x: nat, ws: seq<nat>, p: nat, arr: seq<CString>)
    requires Copied(m0, m, x, ws, p, arr)
    ensures At(m, x, Words(ws)) && At(m, p, Flat(arr))
  {
  }

  lemma {:induction false} AuxGives(m0: Memory, m: Memory, sp0: nat, e: Exe)
    requires sp0 >= AuxSize(e) && AuxBuilt(m0, m, sp0, e)
    ensures sp0 - Align8(|e.path|) - 8 >= 0
    ensures var path := sp0 - Align8(|e.path|);
            && At(m, sp0 - AuxSize(e), Words(AuxWords(AuxList(e, path, path - 8))))
            && At(m, path, e.path) && At(m, path + |e.path|, [0]) && At(m, path - 8, Terminated(ARCH))
  {
    hide At, Words, AuxWords, AuxList, Within, Align8;
    AtSplit(m, sp0 - Align8(|e.path|), e.path, [0]);
  }

  /** The steps of `build` in memory: auxiliary vector, environment, arguments, count. */
  ghost predicate Steps(m0: Memory, m1: Memory, m2: Memory, m3: Memory, m4: Memory,
                        sp0: nat, argv: seq<CString>, envp: seq<CString>, e: Exe)
  {
    && sp0 % 8 == 0 && StackNeed(argv, envp, e) <= sp0
    && AuxBase(sp0, argv, envp, e) >= AuxSize(e) && 0 <= StackTop(sp0, argv, envp, e)
    && AuxBuilt(m0, m1, AuxBase(sp0, argv, envp, e), e)
    && EnvStrings(sp0, envp) >= 0 && ArgStrings(sp0, argv, envp) >= 0
    && var top := StackTop(sp0, argv, envp, e);
    && Copied(m1, m2, top + 16 + 8 * |argv|, Addresses(EnvStrings(sp0, envp), envp) + [0], EnvStrings(sp0, envp), envp)
    && Copied(m2, m3, top + 8, Addresses(ArgStrings(sp0, argv, envp), argv) + [0], ArgStrings(sp0, argv, envp), argv)
    && Within(m3, m4, top, top + 8) && At(m4, top, Word(|argv|))
  }

  lemma {:induction false} BuiltFrom(m0: Memory, m1: Memory, m2: Memory, m3: Memory, m4: Memory,
                                     sp0: nat, argv: seq<CString>, envp: seq<CString>, e: Exe)
    requires Steps(m0, m1, m2, m3, m4, sp0, argv, envp, e)
    ensures Built(m0, m4, sp0, argv, envp, e)
  {
    hide At, Word, Words, Flat, Addresses, Copied, AuxBuilt, TotalLen, AuxList, AuxWords, Align8, Within;
    Spaces(sp0, argv, envp, e);
    var top, base := StackTop(sp0, argv, envp, e), AuxBase(sp0, argv, envp, e);
    var sa, se := ArgStrings(sp0, argv, envp), EnvStrings(sp0, envp);
    var path := base - Align8(|e.path|);
    AuxGives(m0, m1, base, e);
    var aw := Addresses(sa, argv) + [0];
    var ew := Addresses(se, envp) + [0];
    var xw := AuxWords(AuxList(e, path, path - 8));
    var nargv, nenvp, aux := top + 8, top + 16 + 8 * |argv|, base - AuxSize(e);
    assert |aw| == |argv| + 1 && |ew| == |envp| + 1 && aux == nenvp + 8 * |ew|;
    CopyGives(m1, m2, nenvp, ew, se, envp);
    CopyGives(m2, m3, nargv, aw, sa, argv);
    AuxListLen(e, path, path - 8);
    CopyKept(m1, m2, nenvp, ew, se, envp, aux, Words(xw));
    CopyKept(m2, m3, nargv, aw, sa, argv, aux, Words(xw));
    CopyKept(m2, m3, nargv, aw, sa, argv, nenvp, Words(ew));
    CopyKept(m2, m3, nargv, aw, sa, argv, se, Flat(envp));
    AtKept(m3, m4, top, nargv, aux, Words(xw));
    AtKept(m3, m4, top, nargv, nenvp, Words(ew));
    AtKept(m3, m4, top, nargv, nargv, Words(aw));
    AtKept(m3, m4, top, nargv, se, Flat(envp));
    AtKept(m3, m4, top, nargv, sa, Flat(argv));
    VectorJoins(m4, top, |argv|, aw, ew, xw);
    PathRoom(sp0, argv, envp, e);
    PathSurvives(m0, m1, m2, m3, m4, sp0, argv, envp, e);
    FrameFrom(m0, m1, m2, m3, m4, sp0, argv, envp, e);
  }

  /** The bytes of the path and of the platform name are below everything that is written later. */
  lemma {:induction false} PathSurvives(m0: Memory, m1: Memory, m2: Memory, m3: Memory, m4: Memory,
                                        sp0: nat, argv: seq<CString>, envp: seq<CString>, e: Exe)
    requires Steps(m0, m1, m2, m3, m4, sp0, argv, envp, e)
    ensures PathAddress(sp0, argv, envp, e) >= 8
    ensures At(m4, PathAddress(sp0, argv, envp, e), e.path) && At(m4, PathAddress(sp0, argv, envp, e) - 8, Terminated(ARCH))
  {
    hide At, Word, Words, Flat, Addresses, Copied, AuxBuilt, TotalLen, AuxList, AuxWords, Align8, Within;
    Spaces(sp0, argv, envp, e);
    PathRoom(sp0, argv, envp, e);
    AlignBounds(|e.path|);
    var top, base, path := StackTop(sp0, argv, envp, e), AuxBase(sp0, argv, envp, e), PathAddress(sp0, argv, envp, e);
    var sa, se := ArgStrings(sp0, argv, envp), EnvStrings(sp0, envp);
    AuxGives(m0, m1, base, e);
    CopyKept(m1, m2, top + 16 + 8 * |argv|, Addresses(se, envp) + [0], se, envp, path, e.path);
    CopyKept(m2, m3, top + 8, Addresses(sa, argv) + [0], sa, argv, path, e.path);
    AtKept(m3, m4, top, top + 8, path, e.path);
    var name := Terminated(ARCH);
    CopyKept(m1, m2, top + 16 + 8 * |argv|, Addresses(se, envp) + [0], se, envp, path - 8, name);
    CopyKept(m2, m3, top + 8, Addresses(sa, argv) + [0], sa, argv, path - 8, name);
    AtKept(m3, m4, top, top + 8, path - 8, name);
  }

  lemma {:induction false} FrameFrom(m0: Memory, m1: Memory, m2: Memory, m3: Memory, m4: Memory,
                                     sp0: nat, argv: seq<CString>, envp: seq<CString>, e: Exe)
    requires Steps(m0, m1, m2, m3, m4, sp0, argv, envp, e)
    ensures Framed(m0, m4, sp0, argv, envp, e)
  {
    hide Word, Words, Addresses, TotalLen, AuxList, AuxWords, Align8, Flat, At;
    Spaces(sp0, argv, envp, e);
    PathRoom(sp0, argv, envp, e);
    AlignBounds(|e.path|);
    var top, base, path := StackTop(sp0, argv, envp, e), AuxBase(sp0, argv, envp, e), PathAddress(sp0, argv, envp, e);
    var sa, se := ArgStrings(sp0, argv, envp), EnvStrings(sp0, envp);
    AuxGives(m0, m1, base, e);
    FirstByte(m1, path + |e.path|, [0]);
    FirstString(m2, se, envp);
    FirstString(m3, sa, argv);
    StringSpace(argv);
    StringSpace(envp);
  }

  lemma {:induction false} FirstByte(m: Memory, a: nat, bs: seq<Byte>)
    requires At(m, a, bs) && bs != []
    ensures a < |m| && m[a] == bs[0]
  {
    assert m[a..a + |bs|][0] == bs[0];
  }

  lemma {:induction false} FirstString(m: Memory, p: nat, arr: seq<CString>)
    requires At(m, p, Flat(arr))
    ensures arr != [] ==> p < |m| && (m[p] == 0 <==> arr[0] == [])
  {
    if arr != [] {
      FirstByte(m, p, Flat(arr));
      assert Flat(arr)[0] == Terminated(arr[0])[0];
    }
  }

  lemma {:induction false} StringSpace(arr: seq<CString>)
    ensures TotalLen(arr) == 0 <==> arr == []
    ensures Align8(TotalLen(arr)) == 0 <==> arr == []
    ensures Align8(TotalLen(arr)) >= TotalLen(arr)
  {
    AlignBounds(TotalLen(arr));
  }

  lemma {:induction false} AuxListLen(e: Exe, path: nat, arch: nat)
    ensures |AuxList(e, path, arch)| == 14
  {
  }

  lemma {:induction false} VectorJoins(m: Memory, a: nat, n: nat, aw: seq<nat>, ew: seq<nat>, xw: seq<nat>)
    requires At(m, a, Word(n)) && At(m, a + 8, Words(aw)) && At(m, a + 8 + 8 * |aw|, Words(ew))
    requires At(m, a + 8 + 8 * |aw| + 8 * |ew|, Words(xw))
    ensures At(m, a, Words([n] + aw + ew + xw))
  {
    hide At, Word, Words;
    OneWord(n);
    WordsSplit([n], aw);
    WordsSplit([n] + aw, ew);
    WordsSplit([n] + aw + ew, xw);
    AtSplit(m, a, Word(n), Words(aw));
    AtSplit(m, a, Words([n] + aw), Words(ew));
    AtSplit(m, a, Words([n] + aw + ew), Words(xw));
  }

  /** The finished stack. */
  ghost predicate Built(m0: Memory, m: Memory, sp0: nat, argv: seq<CString>, envp: seq<CString>, e: Exe)
    requires sp0 % 8 == 0 && StackNeed(argv, envp, e) <= sp0
  {
    Spaces(sp0, argv, envp, e);
    PathRoom(sp0, argv, envp, e);
    && At(m, StackTop(sp0, argv, envp, e), Words(Vector(sp0, argv, envp, e)))
    && At(m, ArgStrings(sp0, argv, envp), Flat(argv))
    && At(m, EnvStrings(sp0, envp), Flat(envp))
    && At(m, PathAddress(sp0, argv, envp, e), e.path)
    && At(m, PathAddress(sp0, argv, envp, e) - 8, Terminated(ARCH))
    && Framed(m0, m, sp0, argv, envp, e)
  }

  /** The path of the executable takes up its whole space, so that its terminator
      falls on the next byte above. */
  predicate Tight(e: Exe) {
    |e.path| % 8 == 0
  }

  /** That next byte is the one at `sp0`, above the stack. */
  predicate Overruns(sp0: nat, argv: seq<CString>, envp: seq<CString>, e: Exe) {
    AuxBase(sp0, argv, envp, e) == sp0 && Tight(e)
  }

  /** That next byte belongs to a string that is written later and is not empty. */
  predicate Clobbered(sp0: nat, argv: seq<CString>, envp: seq<CString>, e: Exe) {
    Tight(e) && !Padded(sp0, argv, envp, e) &&
    if argv != [] then argv[0] != [] else envp != [] && envp[0] != []
  }

  /** What `build` leaves alone, and where the path's terminator ends up. */
  ghost predicate Framed(m0: Memory, m: Memory, sp0: nat, argv: seq<CString>, envp: seq<CString>, e: Exe)
    requires sp0 % 8 == 0 && StackNeed(argv, envp, e) <= sp0
  {
    Spaces(sp0, argv, envp, e);
    PathRoom(sp0, argv, envp, e);
    var stop := PathAddress(sp0, argv, envp, e) + |e.path|;
    && |m| == |m0|
    && (forall i :: 0 <= i < |m| && (i < StackTop(sp0, argv, envp, e) || i > sp0) ==> m[i] == m0[i])
    && (sp0 < |m| ==> m[sp0] == if Overruns(sp0, argv, envp, e) then 0 else m0[sp0])
    && stop < |m|
    && (m[stop] == 0 <==> !Clobbered(sp0, argv, envp, e))
  }

  lemma {:induction false} BuiltLen(m0: Memory, m: Memory, sp0: nat, argv: seq<CString>, envp: seq<CString>, e: Exe)
    requires sp0 % 8 == 0 && StackNeed(argv, envp, e) <= sp0
    requires Built(m0, m, sp0, argv, envp, e)
    ensures |m| == |m0|
  {
  }

  /** Memory from `sp0` on is left alone, if and only if the path's terminator does not fall on
      `sp0`, or finds a zero there. */
  lemma {:induction false} AboveUntouched(m0: Memory, m: Memory, sp0: nat, argv: seq<CString>, envp: seq<CString>, e: Exe)
    requires sp0 % 8 == 0 && StackNeed(argv, envp, e) <= sp0 <= |m0|
    requires Built(m0, m, sp0, argv, envp, e)
    ensures |m| == |m0|
    ensures m[sp0..] == m0[sp0..] <==>
            !Overruns(sp0, argv, envp, e) || (sp0 < |m0| && m0[sp0] == 0)
  {
    PathRoom(sp0, argv, envp, e);
    AlignBounds(|e.path|);
    if m[sp0..] == m0[sp0..] && sp0 < |m| {
      assert m[sp0] == m[sp0..][0] == m0[sp0];
    }
  }

  /** For instance, a path of sixteen bytes without arguments or environment: the terminator is
      written past the end of any 16-aligned stack. */
  lemma {:induction false} TerminatorPastStack(q: nat, none: seq<CString>, e: Exe)
    requires q >= 64 && none == [] && |e.path| == 16
    ensures StackNeed(none, none, e) <= 16 * q && Overruns(16 * q, none, none, e)
  {
    hide Align8, TotalLen, AuxBase, Tight, AuxSize, Pointers, ArgStrings;
    NoStrings(16 * q, none, e);
    NotPadded(16 * q, none, none, e, q - 17);
    IsTight(e, 2);
  }

  lemma {:induction false} NoStrings(sp0: nat, none: seq<CString>, e: Exe)
    requires none == [] && |e.path| == 16
    ensures ArgStrings(sp0, none, none) == sp0 && Pointers(none, none) == 24 && AuxSize(e) == 248
    ensures StackNeed(none, none, e) == 280
  {
    assert Align8(0) == 0 && Align8(16) == 16;
  }

  lemma {:induction false} NotPadded(sp0: nat, argv: seq<CString>, envp: seq<CString>, e: Exe, k: nat)
    requires ArgStrings(sp0, argv, envp) - Pointers(argv, envp) - AuxSize(e) == 16 * k
    ensures AuxBase(sp0, argv, envp, e) == ArgStrings(sp0, argv, envp)
  {
    hide ArgStrings, Pointers, AuxSize;
  }

  lemma {:induction false} IsTight(e: Exe, k: nat)
    requires |e.path| == 8 * k
    ensures Tight(e)
  {
  }

  lemma {:induction false} AlignValues()
    ensures Align8(0) == 0 && Align8(4) == 8 && Align8(8) == 8 && Align8(16) == 16
    ensures TotalLen([]) == 0 && TotalLen([[97], [98]]) == 4
  {
    assert [[97], [98]][1..] == [[98]] && [[98]][1..] == [];
  }

  /** For instance, "/bin/cat" called with "a" and "b": the first argument overwrites the terminator. */
  lemma {:induction false} PathRunsOn(m0: Memory, m: Memory, e: Exe)
    requires e.path == [47, 98, 105, 110, 47, 99, 97, 116]
    requires StackNeed([[97], [98]], [], e) <= 4096 && Built(m0, m, 4096, [[97], [98]], [], e)
    ensures PathAddress(4096, [[97], [98]], [], e) >= 0
    ensures ReadString(m, PathAddress(4096, [[97], [98]], [], e)) != e.path
  {
    CatClobbered(e);
    ExecFnReads(m0, m, 4096, [[97], [98]], [], e);
  }

  lemma {:induction false} CatClobbered(e: Exe)
    requires |e.path| == 8
    ensures StackNeed([[97], [98]], [], e) <= 4096 && Clobbered(4096, [[97], [98]], [], e)
  {
    hide Align8, TotalLen;
    AlignValues();
    var argv: seq<CString> := [[97], [98]];
    assert Pointers(argv, []) == 40 && AuxSize(e) == 240;
    assert EnvStrings(4096, []) == 4096 && ArgStrings(4096, argv, []) == 4088;
    assert 3808 % 16 == 0;
  }

  /** The path behind AT_EXECFN reads back exactly when its terminator survives. */
  lemma {:induction false} ExecFnReads(m0: Memory, m: Memory, sp0: nat, argv: seq<CString>, envp: seq<CString>, e: Exe)
    requires sp0 % 8 == 0 && StackNeed(argv, envp, e) <= sp0
    requires Built(m0, m, sp0, argv, envp, e)
    ensures PathAddress(sp0, argv, envp, e) >= 0
    ensures ReadString(m, PathAddress(sp0, argv, envp, e)) == e.path <==> !Clobbered(sp0, argv, envp, e)
  {
    PathRoom(sp0, argv, envp, e);
    var path := PathAddress(sp0, argv, envp, e);
    var stop := path + |e.path|;
    if m[stop] == 0 {
      AtSplit(m, path, e.path, [0]);
      ReadStored(m, path, e.path);
    } else {
      ReadsOn(m, path, e.path);
    }
  }

  /** The platform name behind AT_PLATFORM reads back. */
  lemma {:induction false} PlatformReads(m0: Memory, m: Memory, sp0: nat, argv: seq<CString>, envp: seq<CString>, e: Exe)
    requires sp0 % 8 == 0 && StackNeed(argv, envp, e) <= sp0
    requires Built(m0, m, sp0, argv, envp, e)
    ensures PathAddress(sp0, argv, envp, e) >= 8 && ReadString(m, PathAddress(sp0, argv, envp, e) - 8) == ARCH
  {
    hide At, Words, Vector, Flat, Align8, AuxBase, ArgStrings, EnvStrings, StackTop, StackNeed, Framed, ReadString;
    PathRoom(sp0, argv, envp, e);
    ReadStored(m, PathAddress(sp0, argv, envp, e) - 8, ARCH);
  }

  lemma {:induction false} ReadsOn(m: Memory, a: nat, s: CString)
    requires At(m, a, s) && a + |s| < |m| && m[a + |s|] != 0
    ensures |ReadString(m, a)| > |s|
    decreases s
  {
    if s != [] {
      assert m[a] == m[a..a + |s|][0] == s[0];
      assert s == [s[0]] + s[1..];
      AtSplit(m, a, [s[0]], s[1..]);
      ReadsOn(m, a + 1, s[1..]);
    }
  }

  // ----- reading it back

  /** Conversion of a `long` to `int`. */
  function AsInt(v: nat): int {
    var low := v % 0x1_0000_0000;
    if low < 0x8000_0000 then low else low - 0x1_0000_0000
  }

  /** Word `k` of the table at `a`, when it is mapped. */
  function WordAt(m: Memory, a: nat, k: nat): Option<nat> {
    if a + 8 * k + 8 <= |m| then Some(Load(m, a + 8 * k)) else None
  }

  /** The first null word of the table at `a` is word `n`. */
  ghost predicate NullAt(m: Memory, a: nat, n: nat) {
    && WordAt(m, a, n) == Some(0)
    && forall k :: 0 <= k < n ==> WordAt(m, a, k).Some? && WordAt(m, a, k) != Some(0)
  }

  /** `__libc_start_main`: finds arguments, environment and auxiliary vector. */
  method LibcStart(m: Memory, args: nat, ghost n: nat) returns (argc: int, argv: nat, envp: nat, auxv: nat)
    requires args + 8 <= |m| && AsInt(Load(m, args)) >= 0
    requires NullAt(m, args + 8 * (2 + AsInt(Load(m, args))), n)
    ensures argc == AsInt(Load(m, args))
    ensures argv == args + 8 && envp == args + 8 * (2 + argc)
    ensures auxv == envp + 8 * (n + 1)
  {
    argc := AsInt(Load(m, args));
    argv := args + 8;
    envp := args + 8 * (1 + argc + 1);
    auxv := envp;
    ghost var k := 0;
    assert WordAt(m, envp, k).Some?;
    while Load(m, auxv) != 0
      invariant 0 <= k <= n && auxv == envp + 8 * k && auxv + 8 <= |m|
      invariant WordAt(m, envp, k) == Some(Load(m, auxv))
      decreases n - k
    {
      auxv := auxv + 8;
      k := k + 1;
      assert WordAt(m, envp, k).Some?;
    }
    auxv := auxv + 8;
  }

  /** The value of the first pair with key `t`; zero when there is none. */
  function Lookup(l: seq<(nat, nat)>, t: nat): nat {
    if l == [] || l[0].0 == 0 then 0
    else if l[0].0 == t then l[0].1
    else Lookup(l[1..], t)
  }

  ghost predicate PairsFit(l: seq<(nat, nat)>) {
    forall i :: 0 <= i < |l| ==> l[i].0 < WORD && l[i].1 < WORD
  }

  /** `getauxval`: the value of the first entry of that type. */
  method GetAuxVal(m: Memory, auxv: nat, t: nat, ghost l: seq<(nat, nat)>) returns (v: nat)
    requires At(m, auxv, Words(AuxWords(l))) && PairsFit(l)
    requires l != [] && l[|l| - 1].0 == 0
    ensures v == Lookup(l, t)
  {
    hide At, Words, Load;
    var aux := auxv;
    ghost var i := 0;
    assert l[0..] == l;
    LoadPair(m, auxv, l, 0);
    while Load(m, aux) != 0
      invariant 0 <= i < |l| && aux == auxv + 16 * i && aux + 16 <= |m|
      invariant Load(m, aux) == l[i].0 && Load(m, aux + 8) == l[i].1
      invariant Lookup(l, t) == Lookup(l[i..], t)
      decreases |l| - i
    {
      if Load(m, aux) == t {
        return Load(m, aux + 8);
      }
      assert l[i..][1..] == l[i + 1..];
      aux := aux + 16;
      i := i + 1;
      LoadPair(m, auxv, l, i);
    }
    return 0;
  }

  lemma {:induction false} AuxWordsAt(l: seq<(nat, nat)>, i: nat)
    requires i < |l|
    ensures AuxWords(l)[2 * i] == l[i].0 && AuxWords(l)[2 * i + 1] == l[i].1
  {
    if i > 0 {
      AuxWordsAt(l[1..], i - 1);
    }
  }

  lemma {:induction false} LoadPair(m: Memory, a: nat, l: seq<(nat, nat)>, i: nat)
    requires At(m, a, Words(AuxWords(l))) && PairsFit(l) && i < |l|
    ensures a + 16 * i + 16 <= |m| && Load(m, a + 16 * i) == l[i].0 && Load(m, a + 16 * i + 8) == l[i].1
  {
    hide At, Words, Load;
    AuxWordsAt(l, i);
    LoadWords(m, a, AuxWords(l), 2 * i);
    LoadWords(m, a, AuxWords(l), 2 * i + 1);
  }

  // ----- what the reader finds

  /** The strings behind a null-terminated table of pointers. */
  ghost predicate ReadsAs(m: Memory, table: nat, arr: seq<CString>) {
    && NullAt(m, table, |arr|)
    && forall i :: 0 <= i < |arr| ==> WordAt(m, table, i).Some? && ReadString(m, WordAt(m, table, i).value) == arr[i]
  }

  /** A table of string addresses over its strings reads back as those strings. */
  lemma {:induction false} TableReads(m: Memory, table: nat, p: nat, arr: seq<CString>)
    requires At(m, table, Words(Addresses(p, arr) + [0])) && At(m, p, Flat(arr))
    requires 0 < p && |m| <= WORD
    ensures ReadsAs(m, table, arr)
  {
    hide At, Words, Load, Flat, ReadString;
    var ws := Addresses(p, arr) + [0];
    forall i | 0 <= i < |arr|
      ensures WordAt(m, table, i).Some? && WordAt(m, table, i) != Some(0)
      ensures ReadString(m, WordAt(m, table, i).value) == arr[i]
    {
      FlatAt(m, p, arr, i);
      AtBounds(m, Addresses(p, arr)[i], Terminated(arr[i]));
      assert ws[i] == Addresses(p, arr)[i];
      LoadWords(m, table, ws, i);
      ReadStored(m, ws[i], arr[i]);
    }
    LoadWords(m, table, ws, |arr|);
  }

  /** The main theorem: from the stack that `build` leaves, start-up recovers the
      argument count, every argument and environment string in order, and the
      auxiliary vector. */
  lemma {:induction false} ReadsBack(m0: Memory, m: Memory, sp0: nat, argv: seq<CString>, envp: seq<CString>, e: Exe)
    requires sp0 % 8 == 0 && StackNeed(argv, envp, e) <= sp0 <= |m| <= WORD && |argv| < 0x8000_0000
    requires Built(m0, m, sp0, argv, envp, e)
    ensures 0 <= StackTop(sp0, argv, envp, e)
    ensures var sp := StackTop(sp0, argv, envp, e);
            && sp + 8 <= |m| && AsInt(Load(m, sp)) == |argv|
            && ReadsAs(m, sp + 8, argv)
            && ReadsAs(m, sp + 8 * (2 + |argv|), envp)
            && 0 <= AuxBase(sp0, argv, envp, e) - Align8(|e.path|) - 8
            && var path := AuxBase(sp0, argv, envp, e) - Align8(|e.path|);
            && At(m, sp + 8 * (2 + |argv|) + 8 * (|envp| + 1), Words(AuxWords(AuxList(e, path, path - 8))))
  {
    hide At, Words, Load, Flat, Align8, TotalLen, AuxList, AuxWords, Addresses, ReadsAs;
    Spaces(sp0, argv, envp, e);
    var sp, sa, se := StackTop(sp0, argv, envp, e), ArgStrings(sp0, argv, envp), EnvStrings(sp0, envp);
    var path := AuxBase(sp0, argv, envp, e) - Align8(|e.path|);
    PathRoom(sp0, argv, envp, e);
    var aw, ew, xw := Addresses(sa, argv) + [0], Addresses(se, envp) + [0], AuxWords(AuxList(e, path, path - 8));
    VectorParts(m, sp, |argv|, aw, ew, xw);
    LoadWords(m, sp, [|argv|], 0);
    TableReads(m, sp + 8, sa, argv);
    TableReads(m, sp + 8 + 8 * |aw|, se, envp);
  }

  lemma {:induction false} PathRoom(sp0: nat, argv: seq<CString>, envp: seq<CString>, e: Exe)
    requires sp0 % 8 == 0 && StackNeed(argv, envp, e) <= sp0
    ensures AuxBase(sp0, argv, envp, e) - Align8(|e.path|) - 8 >= 0
    ensures 0 < ArgStrings(sp0, argv, envp) <= EnvStrings(sp0, envp)
  {
    Spaces(sp0, argv, envp, e);
  }

  lemma {:induction false} VectorParts(m: Memory, a: nat, n: nat, aw: seq<nat>, ew: seq<nat>, xw: seq<nat>)
    requires At(m, a, Words([n] + aw + ew + xw))
    ensures At(m, a, Words([n])) && At(m, a + 8, Words(aw)) && At(m, a + 8 + 8 * |aw|, Words(ew))
    ensures At(m, a + 8 + 8 * |aw| + 8 * |ew|, Words(xw))
  {
    hide At, Word, Words;
    WordsSplit([n], aw);
    WordsSplit([n] + aw, ew);
    WordsSplit([n] + aw + ew, xw);
    AtSplit(m, a, Words([n] + aw + ew), Words(xw));
    AtSplit(m, a, Words([n] + aw), Words(ew));
    AtSplit(m, a, Words([n]), Words(aw));
  }

  /** With distinct keys, a lookup finds the value stored under each of them. */
  lemma {:induction false} LookupFinds(l: seq<(nat, nat)>, i: nat)
    requires i < |l| && (forall j :: 0 <= j <= i ==> l[j].0 != 0)
    requires forall j :: 0 <= j < i ==> l[j].0 != l[i].0
    ensures Lookup(l, l[i].0) == l[i].1
  {
    if i > 0 {
      LookupFinds(l[1..], i - 1);
    }
  }

  lemma {:induction false} LookupMisses(l: seq<(nat, nat)>, t: nat)
    requires forall j :: 0 <= j < |l| ==> l[j].0 != t || t == 0
    ensures Lookup(l, t) == 0
  {
    if l != [] && l[0].0 != 0 {
      LookupMisses(l[1..], t);
    }
  }

  /** The value `v` a program is to find under type `t`, the types of section 3.4.3 of the System V AMD64
      psABI written out; nothing under any other. */
  predicate Reports(e: Exe, path: nat, arch: nat, t: nat, v: nat) {
    && (t == 3 ==> v == e.phdr) && (t == 4 ==> v == e.phent) && (t == 5 ==> v == e.phnum)
    && (t == 6 ==> v == 4096) && (t == 7 ==> v == e.base) && (t == 9 ==> v == e.entry) && (t == 10 ==> v == e.notelf)
    && (t == 11 ==> v == e.uid) && (t == 12 ==> v == e.euid) && (t == 13 ==> v == e.gid) && (t == 14 ==> v == e.egid)
    && (t == 15 ==> v == arch) && (t == 31 ==> v == path)
    && (t !in {3, 4, 5, 6, 7, 9, 10, 11, 12, 13, 14, 15, 31} ==> v == 0)
  }

  /** Every type is looked up to its own value. */
  lemma {:induction false} AuxFound(e: Exe, path: nat, arch: nat, t: nat)
    ensures Reports(e, path, arch, t, Lookup(AuxList(e, path, arch), t))
  {
    hide Lookup;
    var l := AuxList(e, path, arch);
    if i :| 0 <= i < 13 && l[i].0 == t {
      LookupFinds(l, i);
    } else {
      assert t !in {l[0].0, l[1].0, l[2].0, l[3].0, l[4].0, l[5].0, l[6].0, l[7].0, l[8].0, l[9].0, l[10].0, l[11].0, l[12].0};
      LookupMisses(l, t);
    }
  }

  lemma {:induction false} AuxFits(e: Exe, path: nat, arch: nat)
    requires Fits(e) && path < WORD && arch < WORD
    ensures PairsFit(AuxList(e, path, arch))
  {
  }

  /** Build, then start up: what a program sees is what `execve` was given, unless the build fails. */
  method ExecThenStart(u: UserMemory, sp0: nat, argv: seq<CString>, envp: seq<CString>, e: Exe, t: nat)
      returns (fault: bool, argc: int, pargv: nat, penvp: nat, aux: nat)
    requires sp0 % 8 == 0 && StackNeed(argv, envp, e) <= sp0 <= |u.mem| <= WORD && |argv| < 0x8000_0000
    requires Fits(e)
    modifies u
    ensures fault <==> sp0 == old(|u.mem|) && Overruns(sp0, argv, envp, e)
    ensures !fault ==> argc == |argv|
    ensures !fault ==> ReadsAs(u.mem, pargv, argv) && ReadsAs(u.mem, penvp, envp)
    ensures !fault ==> PathRoomOk(sp0, argv, envp, e)
    ensures !fault ==> Reports(e, PathAddress(sp0, argv, envp, e), PathAddress(sp0, argv, envp, e) - 8, t, aux)
    ensures !fault && t == 15 ==> ReadString(u.mem, aux) == ARCH
    ensures !fault && t == 31 ==> (ReadString(u.mem, aux) == e.path <==> !Clobbered(sp0, argv, envp, e))
  {
    hide At, Words, Load, AuxWords, Built, StackNeed, NullAt, Align8, AuxBase, StackTop, Lookup, Clobbered, ReadString;
    ghost var m0 := u.mem;
    argc, pargv, penvp, aux := 0, 0, 0, 0;
    var sp;
    sp, fault := u.Build(sp0, argv, envp, e);
    if fault {
      return;
    }
    BuiltLen(m0, u.mem, sp0, argv, envp, e);
    ReadsBack(m0, u.mem, sp0, argv, envp, e);
    var auxv;
    argc, pargv, penvp, auxv := LibcStart(u.mem, sp, |envp|);
    PathFits(sp0, argv, envp, e);
    ghost var path := PathAddress(sp0, argv, envp, e);
    AuxFits(e, path, path - 8);
    aux := GetAuxVal(u.mem, auxv, t, AuxList(e, path, path - 8));
    AuxFound(e, path, path - 8, t);
    ExecFnReads(m0, u.mem, sp0, argv, envp, e);
    PlatformReads(m0, u.mem, sp0, argv, envp, e);
  }

  function PathAddress(sp0: nat, argv: seq<CString>, envp: seq<CString>, e: Exe): int {
    AuxBase(sp0, argv, envp, e) - Align8(|e.path|)
  }

  predicate PathRoomOk(sp0: nat, argv: seq<CString>, envp: seq<CString>, e: Exe) {
    PathAddress(sp0, argv, envp, e) >= 8
  }

  lemma {:induction false} PathFits(sp0: nat, argv: seq<CString>, envp: seq<CString>, e: Exe)
    requires sp0 % 8 == 0 && StackNeed(argv, envp, e) <= sp0 <= WORD
    requires sp0 == WORD ==> !Overruns(sp0, argv, envp, e)
    ensures PathRoomOk(sp0, argv, envp, e) && PathAddress(sp0, argv, envp, e) < WORD
  {
    Spaces(sp0, argv, envp, e);
    PathRoom(sp0, argv, envp, e);
    AlignBounds(|e.path|);
  }
}
