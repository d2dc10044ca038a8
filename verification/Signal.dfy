/**
 * Signal delivery: the frame the kernel pushes on the user stack, what `sigreturn`
 * makes of it, and nested handlers over whole runs.
 */
module Signal {
  import opened Basics
  import opened UserStack

  const NSIG := 64
  const SIGKILL := 9
  const SIGSTKFLT := 16
  const SIGSTOP := 19
  const EINTR: nat := 4
  const RED_ZONE := 128

  // ----- registers, in the order of the frame

  const NREGS := 22
  const RDI := 8
  const RAX := 14
  const RIP := 17
  const CS := 18
  const RFLAGS := 19
  const RSP := 20
  const SS := 21

  const KERNEL_CS := 0x08
  const USER_CS := 0x2B
  const USER_SS := 0x23

  type Regs = seq<nat>

  predicate GoodRegs(r: Regs) {
    |r| == NREGS && forall i :: 0 <= i < NREGS ==> r[i] < WORD
  }

  /** User segments, and interrupts enabled. */
  predicate UserMode(r: Regs)
    requires |r| == NREGS
  {
    r[CS] == USER_CS && r[SS] == USER_SS && r[RFLAGS] / 512 % 2 == 1
  }

  // ----- signal sets

  /** Signals are numbered from 1; signal `i` is bit `i - 1` of the stored word. */
  type SigSet = set<nat>

  ghost predicate GoodSet(s: SigSet) {
    forall i :: i in s ==> 1 <= i <= NSIG
  }

  function Pow2(n: nat): (p: nat)
    ensures p > 0
  {
    if n == 0 then 1 else 2 * Pow2(n - 1)
  }

  function Bits(s: SigSet, n: nat): (v: nat)
    ensures v < Pow2(n)
  {
    if n == 0 then 0 else (if n in s then Pow2(n - 1) else 0) + Bits(s, n - 1)
  }

  function Unbits(v: nat, n: nat): SigSet {
    if n == 0 then {}
    else if v >= Pow2(n - 1) then Unbits(v - Pow2(n - 1), n - 1) + {n} else Unbits(v, n - 1)
  }

  lemma {:induction false} BitsRoundTrip(s: SigSet, n: nat)
    ensures forall i :: i in Unbits(Bits(s, n), n) <==> i in s && 1 <= i <= n
  {
    if n > 0 {
      BitsRoundTrip(s, n - 1);
    }
  }

  /** Signal `i` is bit `i - 1`. */
  lemma {:induction false} OneBit(i: nat, n: nat)
    requires 1 <= i
    ensures Bits({i}, n) == if i <= n then Pow2(i - 1) else 0
  {
    if n > 0 {
      OneBit(i, n - 1);
    }
  }

  lemma {:induction false} EightBits(n: nat)
    ensures Pow2(n + 8) == 256 * Pow2(n)
  {
    assert Pow2(n + 2) == 4 * Pow2(n);
    assert Pow2(n + 4) == 4 * Pow2(n + 2);
    assert Pow2(n + 6) == 4 * Pow2(n + 4);
    assert Pow2(n + 8) == 4 * Pow2(n + 6);
  }

  lemma {:induction false} WordBits()
    ensures Pow2(NSIG) == WORD
  {
    hide Pow2;
    NoBits();
    EightBits(0);
    EightBits(8);
    EightBits(16);
    EightBits(24);
    EightBits(32);
    EightBits(40);
    EightBits(48);
    EightBits(56);
  }

  lemma {:induction false} NoBits()
    ensures Pow2(0) == 1
  {
  }

  /** A set fits a word and reads back from it. */
  lemma {:induction false} SetRoundTrip(s: SigSet)
    requires GoodSet(s)
    ensures Bits(s, NSIG) < WORD && Unbits(Bits(s, NSIG), NSIG) == s
  {
    hide Pow2, Bits, Unbits;
    WordBits();
    BitsRoundTrip(s, NSIG);
  }

  // ----- frames

  /** What is saved when signal `sig` interrupts a task: its registers, mask and current signal,
      whether it was in a system call, and which one to restart (-1 for none). */
  datatype Saved = Saved(at: nat, restorer: nat, sig: nat, cur: nat, mask: SigSet, sysret: bool, nr: int, regs: Regs)

  const HEAD := 5                        // words before the registers
  const FRAME := 8 * (HEAD + NREGS)      // bytes of a frame

  /** The flag bit and, in the upper half, the 32-bit system call number. */
  function Flags(sysret: bool, nr: int): nat
    requires -1 <= nr < 0x8000_0000
  {
    (if sysret then 1 else 0) + 0x1_0000_0000 * (if nr < 0 then 0xFFFF_FFFF else nr)
  }

  function SyscallOf(flags: nat): int {
    var u := flags / 0x1_0000_0000 % 0x1_0000_0000;
    if u < 0x8000_0000 then u else u - 0x1_0000_0000
  }

  lemma {:induction false} FlagsRoundTrip(sysret: bool, nr: int)
    requires -1 <= nr < 0x8000_0000
    ensures Flags(sysret, nr) < WORD && SyscallOf(Flags(sysret, nr)) == nr
    ensures Flags(sysret, nr) % 2 == if sysret then 1 else 0
  {
    var u: nat := if nr < 0 then 0xFFFF_FFFF else nr;
    var b: nat := if sysret then 1 else 0;
    UpperHalf(b, u);
    LowBit(b, 0x8000_0000 * u);
  }

  lemma {:induction false} UpperHalf(b: nat, u: nat)
    requires b < 2 && u < 0x1_0000_0000
    ensures (b + 0x1_0000_0000 * u) / 0x1_0000_0000 == u && u % 0x1_0000_0000 == u
  {
  }

  lemma {:induction false} LowBit(b: nat, k: nat)
    requires b < 2
    ensures (b + 2 * k) % 2 == b
  {
  }

  ghost predicate GoodSaved(f: Saved) {
    && f.restorer < WORD && f.sig < WORD && f.cur < WORD && GoodSet(f.mask) && -1 <= f.nr < 0x8000_0000
    && GoodRegs(f.regs) && f.at + FRAME + RED_ZONE == f.regs[RSP]
  }

  function Header(f: Saved): seq<nat>
    requires -1 <= f.nr < 0x8000_0000
  {
    [f.restorer, f.sig, f.cur, Bits(f.mask, NSIG), Flags(f.sysret, f.nr)]
  }

  /** The frame stands in memory. */
  ghost predicate Stored(m: Memory, f: Saved)
    requires GoodSaved(f)
  {
    At(m, f.at, Words(Header(f))) && At(m, f.at + 8 * HEAD, Words(f.regs))
  }

  lemma {:induction false} StoreFrame(m: Memory, f: Saved)
    requires GoodSaved(f) && f.at + FRAME <= |m|
    ensures |Words(Header(f) + f.regs)| == FRAME
    ensures Stored(Write(m, f.at, Words(Header(f) + f.regs)), f)
  {
    hide At, Words, Write, Header;
    HeaderSize(f);
    WordsSplit(Header(f), f.regs);
    WriteAt(m, f.at, Words(Header(f) + f.regs));
    AtSplit(Write(m, f.at, Words(Header(f) + f.regs)), f.at, Words(Header(f)), Words(f.regs));
  }

  lemma {:induction false} HeaderSize(f: Saved)
    requires -1 <= f.nr < 0x8000_0000
    ensures |Header(f)| == HEAD
  {
  }

  /** The header reads back. */
  lemma {:induction false} ReadHeader(m: Memory, f: Saved)
    requires GoodSaved(f) && Stored(m, f)
    ensures f.at + FRAME <= |m|
    ensures Load(m, f.at + 8) == f.sig && Load(m, f.at + 16) == f.cur
    ensures Load(m, f.at + 24) == Bits(f.mask, NSIG) && Load(m, f.at + 32) == Flags(f.sysret, f.nr)
  {
    hide At, Words, Load, Flags;
    FlagsRoundTrip(f.sysret, f.nr);
    SetRoundTrip(f.mask);
    LoadWords(m, f.at, Header(f), 1);
    LoadWords(m, f.at, Header(f), 2);
    LoadWords(m, f.at, Header(f), 3);
    LoadWords(m, f.at, Header(f), 4);
    AtBounds(m, f.at + 8 * HEAD, Words(f.regs));
  }

  // ----- nested frames

  /** All frames stand in memory, each below the stack pointer of the handler it interrupts. */
  ghost predicate FramesHold(m: Memory, fs: seq<Saved>) {
    && (forall k :: 0 <= k < |fs| ==> GoodSaved(fs[k]) && Stored(m, fs[k]))
    && Nested(fs)
  }

  ghost predicate Nested(fs: seq<Saved>) {
    && (forall k :: 0 <= k < |fs| ==> GoodSaved(fs[k]))
    && forall k :: 0 < k < |fs| ==> fs[k].regs[RSP] <= fs[k - 1].at + 8 && fs[k].cur == fs[k - 1].sig
  }

  /** An inner frame ends more than a hundred bytes below every outer one. */
  lemma {:induction false} FramesApart(fs: seq<Saved>, j: nat, k: nat)
    requires Nested(fs) && j < k < |fs|
    ensures fs[k].at + FRAME + RED_ZONE - 8 <= fs[j].at
    decreases k
  {
    assert fs[k].regs[RSP] <= fs[k - 1].at + 8;
    if j < k - 1 {
      FramesApart(fs, j, k - 1);
    }
  }

  /** Writing a new frame leaves the others alone. */
  lemma {:induction false} PushFrame(m: Memory, m': Memory, fs: seq<Saved>, f: Saved)
    requires FramesHold(m, fs) && GoodSaved(f) && Stored(m', f) && Within(m, m', f.at, f.at + FRAME)
    requires fs != [] ==> f.regs[RSP] <= fs[|fs| - 1].at + 8 && f.cur == fs[|fs| - 1].sig
    ensures FramesHold(m', fs + [f])
  {
    hide At, Words, GoodRegs, Header, Within;
    var all := fs + [f];
    assert Nested(all);
    forall k | 0 <= k < |fs| ensures Stored(m', fs[k]) {
      FramesApart(all, k, |fs|);
      FrameKept(m, m', f.at, f.at + FRAME, fs[k]);
    }
  }

  lemma {:induction false} FrameKept(m: Memory, m': Memory, lo: nat, hi: nat, f: Saved)
    requires GoodSaved(f) && Stored(m, f) && Within(m, m', lo, hi) && (hi <= f.at || f.at + FRAME <= lo)
    ensures Stored(m', f)
  {
    hide At, Words, Within;
    HeaderSize(f);
    AtKept(m, m', lo, hi, f.at, Words(Header(f)));
    AtKept(m, m', lo, hi, f.at + 8 * HEAD, Words(f.regs));
  }

  /** Changing the topmost frame leaves the others alone. */
  lemma {:induction false} PopFrame(m: Memory, m': Memory, fs: seq<Saved>, f: Saved)
    requires fs != [] && f == fs[|fs| - 1] && FramesHold(m, fs) && Within(m, m', f.at, f.at + FRAME)
    ensures FramesHold(m', fs[..|fs| - 1])
  {
    hide At, Words, GoodRegs, Header, Within;
    var n := |fs| - 1;
    forall k | 0 <= k < n ensures Stored(m', fs[k]) {
      FramesApart(fs, k, n);
      FrameKept(m, m', fs[n].at, fs[n].at + FRAME, fs[k]);
    }
  }

  // ----- restarting a system call

  /** The saved registers, with the system call instruction to be executed again if asked for. */
  function Restored(f: Saved): Regs
    requires |f.regs| == NREGS && -1 <= f.nr
  {
    if f.nr < 0 then f.regs else f.regs[RIP := Back(f.regs[RIP])][RAX := f.nr]
  }

  /** Two bytes back, as unsigned 64-bit numbers go. */
  function Back(rip: nat): nat {
    if rip >= 2 then rip - 2 else rip + WORD - 2
  }

  /** What a return makes of the registers at delivery: the same, or, to restart system call `nr`, the same with
      `nr` in `rax` and the instruction pointer two bytes before. */
  ghost predicate Resumes(was: Regs, nr: int, now: Regs) {
    && |was| == |now| == NREGS
    && (nr < 0 ==> now == was)
    && (nr >= 0 ==>
          && now[RAX] == nr && (now[RIP] + 2) % WORD == was[RIP] % WORD
          && forall i :: 0 <= i < NREGS && i != RAX && i != RIP ==> now[i] == was[i])
  }

  lemma {:induction false} RestoredResumes(f: Saved)
    requires |f.regs| == NREGS && -1 <= f.nr
    ensures Resumes(f.regs, f.nr, Restored(f))
  {
    var rip := f.regs[RIP];
    if rip < 2 {
      Wraps(rip);
    }
  }

  lemma {:induction false} Wraps(r: nat)
    ensures (r + WORD) % WORD == r % WORD
  {
  }

  lemma {:induction false} RestoredGood(f: Saved)
    requires GoodSaved(f)
    ensures GoodRegs(Restored(f)) && Restored(f)[RSP] == f.regs[RSP]
  {
  }

  /** Overwriting one word of a table of words. */
  lemma {:induction false} SetWord(m: Memory, a: nat, vs: seq<nat>, i: nat, v: nat)
    requires At(m, a, Words(vs)) && i < |vs|
    ensures a + 8 * i + 8 <= |m|
    ensures At(Write(m, a + 8 * i, Word(v)), a, Words(vs[i := v]))
    ensures Within(m, Write(m, a + 8 * i, Word(v)), a, a + 8 * |vs|)
  {
    hide At, Words, Word, Write, Within;
    var x, y := vs[..i], vs[i + 1..];
    assert vs == x + ([vs[i]] + y) && vs[i := v] == x + ([v] + y);
    WordsSplit(x, [vs[i]] + y);
    WordsSplit([vs[i]], y);
    WordsSplit(x, [v] + y);
    WordsSplit([v], y);
    OneWord(v);
    OneWord(vs[i]);
    AtSplit(m, a, Words(x), Words([vs[i]] + y));
    AtSplit(m, a + 8 * i, Word(vs[i]), Words(y));
    AtBounds(m, a + 8 * i, Word(vs[i]));
    var m' := Write(m, a + 8 * i, Word(v));
    WriteAt(m, a + 8 * i, Word(v));
    AtKept(m, m', a + 8 * i, a + 8 * i + 8, a, Words(x));
    AtKept(m, m', a + 8 * i, a + 8 * i + 8, a + 8 * i + 8, Words(y));
    AtSplit(m', a + 8 * i, Word(v), Words(y));
    AtSplit(m', a, Words(x), Words([v] + y));
    Wider(m, m', a + 8 * i, a + 8 * i + 8, a, a + 8 * |vs|);
  }

  lemma {:induction false} ReadRegisters(m: Memory, f: Saved)
    requires GoodSaved(f) && Stored(m, f)
    ensures f.at + FRAME <= |m|
    ensures Load(m, f.at + 8 * (HEAD + CS)) == f.regs[CS] && Load(m, f.at + 8 * (HEAD + SS)) == f.regs[SS]
    ensures Load(m, f.at + 8 * (HEAD + RFLAGS)) == f.regs[RFLAGS] && Load(m, f.at + 8 * (HEAD + RIP)) == f.regs[RIP]
  {
    hide At, Words, Load, Header;
    AtBounds(m, f.at + 8 * HEAD, Words(f.regs));
    LoadWords(m, f.at + 8 * HEAD, f.regs, CS);
    LoadWords(m, f.at + 8 * HEAD, f.regs, SS);
    LoadWords(m, f.at + 8 * HEAD, f.regs, RFLAGS);
    LoadWords(m, f.at + 8 * HEAD, f.regs, RIP);
  }

  /** The checks of `sigreturn` on the frame at an address: its signal, its segments and the interrupt flag. */
  predicate Refused(m: Memory, frame: nat, cur: nat)
    requires frame + FRAME <= |m|
  {
    || Load(m, frame + 8) != cur
    || Load(m, frame + 8 * (HEAD + CS)) != USER_CS || Load(m, frame + 8 * (HEAD + SS)) != USER_SS
    || Load(m, frame + 8 * (HEAD + RFLAGS)) / 512 % 2 == 0
  }

  /** A frame of the current signal is refused if and only if it was not pushed on a user context. */
  lemma {:induction false} RefusedExactly(m: Memory, f: Saved)
    requires GoodSaved(f) && Stored(m, f)
    ensures f.at + FRAME <= |m|
    ensures Refused(m, f.at, f.sig) <==> !UserMode(f.regs)
  {
    hide Words, At, Load, Stored, Flags, Bits;
    ReadHeader(m, f);
    ReadRegisters(m, f);
  }

  /** For instance, a frame pushed when an interrupt was taken in the kernel. */
  function KernelFrame(): Saved {
    Saved(0, 0, 10, 0, {}, false, -1, seq(NREGS, i => if i == CS then KERNEL_CS else if i == RSP then FRAME + RED_ZONE else 0))
  }

  lemma {:induction false} KernelFrameRefused(m: Memory)
    requires |m| == FRAME + RED_ZONE
    ensures GoodSaved(KernelFrame()) && |Words(Header(KernelFrame()) + KernelFrame().regs)| == FRAME
    ensures var m' := Write(m, 0, Words(Header(KernelFrame()) + KernelFrame().regs)); |m'| == |m| && Refused(m', 0, 10)
  {
    hide Words, At, Load, Header, Refused, Write, Stored;
    var f := KernelFrame();
    StoreFrame(m, f);
    WriteLength(m, 0, Words(Header(f) + f.regs));
    RefusedExactly(Write(m, 0, Words(Header(f) + f.regs)), f);
  }

  /** The two stores that restart a system call leave its registers in the frame. */
  lemma {:induction false} RestartFrame(m: Memory, f: Saved)
    requires GoodSaved(f) && Stored(m, f) && f.nr >= 0
    ensures f.at + FRAME <= |m|
    ensures var m1 := Write(m, f.at + 8 * (HEAD + RIP), Word(Back(f.regs[RIP])));
      && |m1| == |m|
      && var m2 := Write(m1, f.at + 8 * (HEAD + RAX), Word(f.nr));
      At(m2, f.at + 8 * HEAD, Words(Restored(f))) && Within(m, m2, f.at, f.at + FRAME)
  {
    hide At, Words, Word, Write, Header;
    var a := f.at + 8 * HEAD;
    AtBounds(m, a, Words(f.regs));
    var r1 := f.regs[RIP := Back(f.regs[RIP])];
    var m1 := Write(m, a + 8 * RIP, Word(Back(f.regs[RIP])));
    SetWord(m, a, f.regs, RIP, Back(f.regs[RIP]));
    SetWord(m1, a, r1, RAX, f.nr);
  }

  lemma {:induction false} NoRestart(m: Memory, f: Saved)
    requires GoodSaved(f) && Stored(m, f) && f.nr < 0
    ensures At(m, f.at + 8 * HEAD, Words(Restored(f))) && Within(m, m, f.at, f.at + FRAME)
  {
  }

  lemma {:induction false} Wider(m: Memory, m': Memory, lo: nat, hi: nat, lo': nat, hi': nat)
    requires Within(m, m', lo, hi) && lo' <= lo && hi <= hi'
    ensures Within(m, m', lo', hi')
  {
  }

  // ----- runs

  /** What a run shows of a task. */
  datatype View = View(regs: Regs, mask: SigSet, cur: nat, frames: seq<Saved>)

  ghost predicate Delivered(v: View, v': View, sig: nat, handler: nat, blk: SigSet) {
    && |v'.frames| == |v.frames| + 1 && |v.regs| == NREGS
    && var f := v'.frames[|v.frames|];
    && v'.frames == v.frames + [f] && f.regs == v.regs && f.mask == v.mask && f.cur == v.cur && f.sig == sig
    && v' == View(v.regs[RDI := sig][RIP := handler][RSP := f.at], v.mask + blk, sig, v'.frames)
  }

  ghost predicate Returned(v: View, v': View) {
    && v.frames != []
    && var f := v.frames[|v.frames| - 1];
    && |f.regs| == NREGS && UserMode(f.regs) && -1 <= f.nr
    && v' == View(Restored(f), f.mask, f.cur, v.frames[..|v.frames| - 1])
  }

  /** User code, a change of mask, or anything else that leaves the frames as they are. */
  ghost predicate Ran(v: View, v': View) {
    v'.frames == v.frames && v'.cur == v.cur
  }

  ghost predicate Run(vs: seq<View>) {
    forall i :: 0 < i < |vs| ==> Ran(vs[i - 1], vs[i]) || Returned(vs[i - 1], vs[i]) || SomeDelivered(vs[i - 1], vs[i])
  }

  ghost predicate SomeDelivered(v: View, v': View) {
    exists sig, handler, blk :: Delivered(v, v', sig, handler, blk)
  }

  /** While more frames are on the stack than before a delivery, its frame stays where it is. */
  lemma {:induction false} FrameStays(vs: seq<View>, a: nat, k: nat)
    requires Run(vs) && a < k < |vs|
    requires |vs[a + 1].frames| == |vs[a].frames| + 1
    requires forall j :: a < j <= k ==> |vs[j].frames| > |vs[a].frames|
    ensures vs[k].frames[..|vs[a].frames| + 1] == vs[a + 1].frames
    decreases k
  {
    if k > a + 1 {
      FrameStays(vs, a, k - 1);
      assert |vs[k - 1].frames| > |vs[a].frames|;
      if Returned(vs[k - 1], vs[k]) {
        var fs, n := vs[k - 1].frames, |vs[a].frames| + 1;
        assert fs[..|fs| - 1][..n] == fs[..n];
      }
    }
  }

  /** The return that matches a delivery brings back the interrupted registers, mask and current
      signal, or the registers of a restarted system call. Only a delivery on a user context has one. */
  lemma {:induction false} MatchingReturn(vs: seq<View>, a: nat, b: nat, sig: nat, handler: nat, blk: SigSet)
    requires Run(vs) && a < b && b + 1 < |vs| && Delivered(vs[a], vs[a + 1], sig, handler, blk)
    requires forall j :: a < j <= b ==> |vs[j].frames| > |vs[a].frames|
    requires |vs[b + 1].frames| == |vs[a].frames|
    ensures vs[b + 1].mask == vs[a].mask && vs[b + 1].cur == vs[a].cur && vs[b + 1].frames == vs[a].frames
    ensures |vs[a].regs| == NREGS && UserMode(vs[a].regs)
    ensures var f := vs[a + 1].frames[|vs[a].frames|];
      f.regs == vs[a].regs && f.nr >= -1 && vs[b + 1].regs == Restored(f) && Resumes(vs[a].regs, f.nr, vs[b + 1].regs)
  {
    FrameStays(vs, a, b);
    assert |vs[b].frames| > |vs[a].frames|;
    assert Returned(vs[b], vs[b + 1]);
    var n := |vs[a].frames|;
    assert vs[b].frames[n] == vs[b].frames[..n + 1][n];
    assert vs[b].frames[..n] == vs[b].frames[..n + 1][..n];
    RestoredResumes(vs[b].frames[n]);
  }

  // ----- the code

  datatype Disposition = Ignore | Default | Catch(handler: nat)

  datatype Action = Action(disposition: Disposition, restart: bool, nodefer: bool, resethand: bool, restorer: nat, mask: SigSet)

  datatype Outcome = Nothing | Killed | Ignored(ignored: nat) | Defaulted(defaulted: nat) | Astray(strayed: nat) | Caught(sig: nat)

  /** Signals with an entry in the table of default actions. */
  predicate HasDefault(i: nat) {
    1 <= i <= 31 && i !in {SIGKILL, SIGSTKFLT, SIGSTOP}
  }

  /** The signal to be handled has no handler, and no entry in the table of default actions either. */
  ghost predicate Strays(live: SigSet, acts: seq<Action>)
    requires |acts| == NSIG
  {
    SIGKILL !in live && exists i :: First(live, i) && acts[i - 1].disposition == Default && !HasDefault(i)
  }

  /** For instance SIGSTOP, whose default no task can change. */
  lemma {:induction false} StopStrays(acts: seq<Action>)
    requires |acts| == NSIG && acts[SIGSTOP - 1].disposition == Default
    ensures Strays({SIGSTOP}, acts)
  {
    assert First({SIGSTOP}, SIGSTOP);
  }

  /** How pending signals are dealt with: none live, SIGKILL first, else the lowest live one. */
  ghost predicate Handles(pend: SigSet, mask: SigSet, out: Outcome, pend': SigSet) {
    var live := pend - mask;
    && (out.Killed? <==> SIGKILL in live)
    && (out.Nothing? <==> live == {})
    && match out
       case Nothing => pend' == {}
       case Killed => pend' == live
       case Ignored(i) => First(live, i) && pend' == live - {i}
       case Defaulted(i) => First(live, i) && pend' == live - {i}
       case Astray(i) => First(live, i) && pend' == live - {i}
       case Caught(i) => First(live, i) && pend' == live - {i}
  }

  /** The signal an outcome is about. */
  predicate Concerns(out: Outcome, i: nat) {
    match out
    case Nothing => false
    case Killed => i == SIGKILL
    case Ignored(j) => i == j
    case Defaulted(j) => i == j
    case Astray(j) => i == j
    case Caught(j) => i == j
  }

  /** Every signal that was pending is still pending, or is the one that was handled. */
  ghost predicate NoneLost(pend: SigSet, out: Outcome, pend': SigSet) {
    forall i :: i in pend ==> i in pend' || Concerns(out, i)
  }

  /** No signal is lost if and only if none that is pending is blocked. */
  lemma {:induction false} LostExactly(pend: SigSet, mask: SigSet, out: Outcome, pend': SigSet)
    ensures Handles(pend, mask, out, pend') ==> (NoneLost(pend, out, pend') <==> pend * mask == {})
  {
    if Handles(pend, mask, out, pend') {
      if pend * mask != {} {
        var i :| i in pend * mask;
        assert i in pend && i !in pend' && !Concerns(out, i);
      } else {
        forall i | i in pend ensures i in pend' || Concerns(out, i) {
          assert i in mask ==> i in pend * mask;
        }
      }
    }
  }

  /** For instance, a blocked SIGKILL: nothing is done about it, and it is gone. */
  lemma {:induction false} BlockedKillLost(out: Outcome, pend': SigSet)
    requires Handles({SIGKILL}, {SIGKILL}, out, pend')
    ensures out == Nothing && pend' == {} && !NoneLost({SIGKILL}, out, pend')
  {
    LostExactly({SIGKILL}, {SIGKILL}, out, pend');
    assert SIGKILL in {SIGKILL} * {SIGKILL};
  }

  class Process {
    var mem: Memory
    var regs: Regs
    var pend: SigSet
    var mask: SigSet
    var cur: nat
    var acts: seq<Action>
    ghost var frames: seq<Saved>

    ghost function Seen(): View
      reads this
    {
      View(regs, mask, cur, frames)
    }

    ghost predicate Valid()
      reads this
    {
      && |regs| == NREGS && GoodRegs(regs) && cur < WORD && |acts| == NSIG && GoodActions(acts)
      && GoodSet(mask) && GoodSet(pend)
      && FramesHold(mem, frames)
      && (frames != [] ==> regs[RSP] <= frames[|frames| - 1].at + 8 && cur == frames[|frames| - 1].sig)
    }

    /** A process with no signal in progress. */
    constructor (m: Memory, r: Regs, actions: seq<Action>)
      requires GoodRegs(r) && |actions| == NSIG && GoodActions(actions)
      ensures Valid() && frames == [] && cur == 0 && mask == {} && pend == {}
    {
      mem, regs, pend, mask, cur, acts, frames := m, r, {}, {}, 0, actions, [];
    }

    /** Pushes a frame for signal `i` and enters its handler; `nr` is the interrupted system call or -1. */
    method Deliver(i: nat, handler: nat, act: Action, nr: int)
      requires Valid() && 1 <= i <= NSIG && GoodAction(act) && handler < WORD && -1 <= nr < 0x8000_0000
      requires FRAME + RED_ZONE <= regs[RSP] <= |mem|
      modifies `mem, `regs, `mask, `cur, `frames
      ensures Valid() && |mem| == old(|mem|)
      ensures Delivered(old(Seen()), Seen(), i, handler, if act.nodefer then act.mask else act.mask + {i})
      ensures |frames| == |old(frames)| + 1 && Saves(frames[|old(frames)|], old(regs), act, nr)
      ensures var f := frames[|old(frames)|]; Within(old(mem), mem, f.at, f.at + FRAME)
    {
      hide FramesHold, Within, GoodRegs, GoodActions, GoodAction, GoodSaved;
      var blk := if act.nodefer then act.mask else act.mask + {i};
      var again := if nr >= 0 && regs[RAX] == WORD - EINTR && act.restart then nr else -1;
      RegsFit(regs);
      var at := regs[RSP] - FRAME - RED_ZONE;
      var f := Saved(at, act.restorer, i, cur, mask, nr >= 0, again, regs);
      SavedIsGood(f, act);
      EnterRegs(regs, i, handler, at);
      Push(f);
      regs := regs[RDI := i][RIP := handler][RSP := at];
      cur := i;
      mask := mask + blk;
    }

    /** Writes a frame to the user stack. */
    method Push(f: Saved)
      requires GoodSaved(f) && f.at + FRAME <= |mem| && FramesHold(mem, frames)
      requires frames != [] ==> f.regs[RSP] <= frames[|frames| - 1].at + 8 && f.cur == frames[|frames| - 1].sig
      modifies `mem, `frames
      ensures FramesHold(mem, frames) && frames == old(frames) + [f]
      ensures |mem| == |old(mem)| && Within(old(mem), mem, f.at, f.at + FRAME)
    {
      hide FramesHold, Words, At, Write, Within, Header, Stored, GoodRegs;
      StoreFrame(mem, f);
      var m := Write(mem, f.at, Words(Header(f) + f.regs));
      WriteAt(mem, f.at, Words(Header(f) + f.regs));
      WriteLength(mem, f.at, Words(Header(f) + f.regs));
      PushFrame(mem, m, frames, f);
      mem := m;
      frames := frames + [f];
    }

    /** Looks for the first pending signal that is not blocked, and acts on it. Blocked pending
        signals are dropped. */
    method HandleSignal(nr: int) returns (out: Outcome)
      requires Valid() && -1 <= nr < 0x8000_0000 && FRAME + RED_ZONE <= regs[RSP] <= |mem|
      modifies this
      ensures Valid()
      ensures !out.Caught? ==> Seen() == old(Seen()) && mem == old(mem) && acts == old(acts)
      ensures Handles(old(pend), old(mask), out, pend)
      ensures NoneLost(old(pend), out, pend) <==> old(pend) * old(mask) == {}
      ensures out.Astray? <==> Strays(old(pend) - old(mask), old(acts))
      ensures match out
        case Nothing => true
        case Killed => true
        case Ignored(i) => old(acts)[i - 1].disposition == Ignore
        case Defaulted(i) => old(acts)[i - 1].disposition == Default
        case Astray(i) => old(acts)[i - 1].disposition == Default
        case Caught(i) =>
          && old(acts)[i - 1].disposition.Catch?
          && acts == (if old(acts)[i - 1].resethand then old(acts)[i - 1 := old(acts)[i - 1].(disposition := Default)] else old(acts))
          && Delivered(old(Seen()), Seen(), i, old(acts)[i - 1].disposition.handler,
                       if old(acts)[i - 1].nodefer then old(acts)[i - 1].mask else old(acts)[i - 1].mask + {i})
          && |frames| == |old(frames)| + 1 && Saves(frames[|old(frames)|], old(regs), old(acts)[i - 1], nr)
          && var f := frames[|old(frames)|]; Within(old(mem), mem, f.at, f.at + FRAME)
    {
      hide FramesHold, GoodRegs, GoodActions, GoodAction, Delivered, NoneLost;
      ghost var all := pend;
      pend := pend - mask;
      ghost var live := pend;
      if pend == {} {
        LostExactly(all, mask, Nothing, pend);
        return Nothing;
      }
      if SIGKILL in pend {
        LostExactly(all, mask, Killed, pend);
        return Killed;
      }
      var i := 1;
      while i <= NSIG
        invariant 1 <= i <= NSIG + 1 && pend == live && Valid() && acts == old(acts)
        invariant Seen() == old(Seen()) && mem == old(mem)
        invariant forall j :: 1 <= j < i ==> j !in live
      {
        if i !in pend {
          i := i + 1;
          continue;
        }
        pend := pend - {i};
        LostExactly(all, mask, Ignored(i), pend);
        LostExactly(all, mask, Defaulted(i), pend);
        LostExactly(all, mask, Astray(i), pend);
        LostExactly(all, mask, Caught(i), pend);
        var act := acts[i - 1];
        ActionsAt(acts, i - 1);
        match act.disposition {
          case Ignore => return Ignored(i);
          case Default =>
            if HasDefault(i) {
              return Defaulted(i);
            }
            return Astray(i);
          case Catch(handler) =>
            if act.resethand {
              acts := acts[i - 1 := act.(disposition := Default)];
            }
            Deliver(i, handler, act, nr);
            return Caught(i);
        }
      }
      LostExactly(all, mask, Nothing, pend);
      out := Nothing;
    }

    /** The system call at the end of a handler, entered just above the word the handler returned through.
        It panics if and only if the frame was pushed on something else than a user context. */
    method SigReturn() returns (panic: bool, viaSyscall: bool)
      requires Valid() && frames != [] && regs[RSP] == frames[|frames| - 1].at + 8
      modifies `mem, `regs, `mask, `cur, `frames
      ensures |old(frames[|frames| - 1].regs)| == NREGS && Valid()
      ensures panic <==> !UserMode(old(frames[|frames| - 1].regs))
      ensures panic ==> Seen() == old(Seen()) && mem == old(mem)
      ensures !panic ==> Returned(old(Seen()), Seen()) && viaSyscall == old(frames[|frames| - 1].sysret)
      ensures !panic ==> Resumes(old(frames[|frames| - 1].regs), old(frames[|frames| - 1].nr), regs)
    {
      hide FramesHold, Nested, Within, Stored, GoodRegs, GoodActions, GoodSet, UserMode, GoodSaved, Restored, Resumes;
      ghost var f, m0 := frames[|frames| - 1], mem;
      var frame := regs[RSP] - 8;
      TopFrame(mem, frames);
      PopNested(frames);
      SavedParts(f);
      panic := Refuses(frame, f);
      if panic {
        return true, false;
      }
      viaSyscall := Resume(frame, f);
      PopFrame(m0, mem, frames, f);
      RestoredGood(f);
      RestoredResumes(f);
      frames := frames[..|frames| - 1];
    }

    /** Takes the context back from a frame. */
    method Resume(frame: nat, ghost f: Saved) returns (viaSyscall: bool)
      requires GoodSaved(f) && Stored(mem, f) && frame == f.at
      modifies `mem, `regs, `mask, `cur
      ensures regs == Restored(f) && mask == f.mask && cur == f.cur && viaSyscall == f.sysret
      ensures Within(old(mem), mem, f.at, f.at + FRAME)
    {
      hide Words, Word, At, Write, Within, Load, Stored, Flags, SyscallOf, GoodRegs, GoodSet, UserMode, Bits, Unbits,
        GoodSaved, Restored;
      SavedParts(f);
      ReadHeader(mem, f);
      FlagsRoundTrip(f.sysret, f.nr);
      SetRoundTrip(f.mask);
      RestoredGood(f);
      var flags := Load(mem, frame + 32);
      cur := Load(mem, frame + 16);
      mask := Unbits(Load(mem, frame + 24), NSIG);
      Restart(frame, SyscallOf(flags), f);
      viaSyscall := flags % 2 == 1;
      regs := LoadRegs(frame + 8 * HEAD, Restored(f));
    }

    /** The checks on a frame: its signal, its segments and the interrupt flag. */
    method Refuses(frame: nat, ghost f: Saved) returns (panic: bool)
      requires GoodSaved(f) && Stored(mem, f) && frame == f.at && f.sig == cur
      ensures panic <==> !UserMode(f.regs)
    {
      hide Refused, Stored;
      RefusedExactly(mem, f);
      panic := Refused(mem, frame, cur);
    }

    /** Points the saved registers back at the system call, if there is one to restart. */
    method Restart(frame: nat, nr: int, ghost f: Saved)
      requires GoodSaved(f) && Stored(mem, f) && frame == f.at && nr == f.nr
      modifies `mem
      ensures At(mem, frame + 8 * HEAD, Words(Restored(f))) && Within(old(mem), mem, f.at, f.at + FRAME)
    {
      hide Words, Word, At, Write, Within, Load, Stored;
      if nr >= 0 {
        ReadRegisters(mem, f);
        RestartFrame(mem, f);
        mem := Write(mem, frame + 8 * (HEAD + RIP), Word(Back(Load(mem, frame + 8 * (HEAD + RIP)))));
        mem := Write(mem, frame + 8 * (HEAD + RAX), Word(nr));
      } else {
        NoRestart(mem, f);
      }
    }

    method LoadRegs(a: nat, ghost vs: Regs) returns (r: Regs)
      requires At(mem, a, Words(vs)) && GoodRegs(vs)
      ensures r == vs
    {
      hide At, Words, Load;
      r := [];
      var i := 0;
      while i < NREGS
        invariant 0 <= i <= NREGS && r == vs[..i]
      {
        LoadWords(mem, a, vs, i);
        r := r + [Load(mem, a + 8 * i)];
        i := i + 1;
      }
    }

    /** Anything else: any registers and any memory, as long as the frames on the stack stay intact and
        the stack pointer below the topmost one. */
    method UserRuns(r: Regs, m: Memory)
      requires Valid() && GoodRegs(r) && FramesHold(m, frames)
      requires frames != [] ==> r[RSP] <= frames[|frames| - 1].at + 8
      modifies `mem, `regs
      ensures Valid() && Ran(old(Seen()), Seen())
    {
      mem, regs := m, r;
    }

    /** Changes the mask as `how` says; only what is blocked changes. */
    method SigProcMask(how: int, set': SigSet) returns (was: SigSet)
      requires Valid() && GoodSet(set')
      modifies `mask
      ensures Valid() && Ran(old(Seen()), Seen()) && was == old(mask)
      ensures forall i :: i in mask <==> if how == 0 then i in was || i in set'
                                         else if how == 1 then i in was && i !in set'
                                         else if how == 2 then i in set' else i in was
    {
      hide FramesHold, GoodRegs, GoodActions;
      was := mask;
      if how == 0 {
        mask := mask + set';
      } else if how == 1 {
        mask := mask - set';
      } else if how == 2 {
        mask := set';
      }
    }
  }

  ghost predicate GoodActions(acts: seq<Action>) {
    forall i :: 0 <= i < |acts| ==> GoodAction(acts[i])
  }

  ghost predicate GoodAction(a: Action) {
    GoodSet(a.mask) && a.restorer < WORD && (a.disposition.Catch? ==> a.disposition.handler < WORD)
  }

  /** The rest of a frame: below the red zone, with the handler's restorer, and with the system call
      `nr` to restart if it was interrupted and the action asks for it. */
  ghost predicate Saves(f: Saved, regs: Regs, act: Action, nr: int)
    requires |regs| == NREGS
  {
    && f.at + FRAME + RED_ZONE == regs[RSP] && f.restorer == act.restorer && f.sysret == (nr >= 0)
    && f.nr == if nr >= 0 && regs[RAX] == WORD - EINTR && act.restart then nr else -1
  }

  /** Signal `i` is the lowest in the set. */
  predicate First(s: SigSet, i: nat) {
    1 <= i <= NSIG && i in s && forall j :: 1 <= j < i ==> j !in s
  }

  lemma {:induction false} SavedIsGood(f: Saved, act: Action)
    requires GoodAction(act) && f.restorer == act.restorer && f.sig < WORD && f.cur < WORD && -1 <= f.nr < 0x8000_0000
    requires GoodRegs(f.regs) && f.at + FRAME + RED_ZONE == f.regs[RSP] && GoodSet(f.mask)
    ensures GoodSaved(f) && GoodSet(act.mask)
  {
  }

  /** Registers on entry to a handler. */
  lemma {:induction false} EnterRegs(r: Regs, sig: nat, handler: nat, at: nat)
    requires GoodRegs(r) && sig < WORD && handler < WORD && at < WORD
    ensures var r' := r[RDI := sig][RIP := handler][RSP := at]; GoodRegs(r') && r'[RSP] == at
  {
  }

  lemma {:induction false} RegsFit(r: Regs)
    requires GoodRegs(r)
    ensures |r| == NREGS && r[RSP] < WORD
  {
  }

  lemma {:induction false} ActionsAt(acts: seq<Action>, i: nat)
    requires GoodActions(acts) && i < |acts|
    ensures GoodAction(acts[i]) && GoodActions(acts[i := acts[i].(disposition := Default)])
    ensures acts[i].disposition.Catch? ==> acts[i].disposition.handler < WORD
  {
  }

  lemma {:induction false} WriteLength(m: Memory, a: nat, bs: seq<Byte>)
    requires a + |bs| <= |m|
    ensures |Write(m, a, bs)| == |m|
  {
  }

  lemma {:induction false} TopFrame(m: Memory, fs: seq<Saved>)
    requires fs != [] && FramesHold(m, fs)
    ensures GoodSaved(fs[|fs| - 1]) && Stored(m, fs[|fs| - 1]) && Nested(fs)
    ensures |fs[|fs| - 1].regs| == NREGS
  {
  }

  lemma {:induction false} SavedParts(f: Saved)
    requires GoodSaved(f)
    ensures f.cur < WORD && GoodSet(f.mask) && -1 <= f.nr < 0x8000_0000 && |f.regs| == NREGS
  {
  }

  lemma {:induction false} PopNested(fs: seq<Saved>)
    requires fs != [] && Nested(fs)
    ensures |fs| > 1 ==> fs[|fs| - 1].cur == fs[|fs| - 2].sig && fs[|fs| - 1].regs[RSP] <= fs[|fs| - 2].at + 8
  {
  }
}
