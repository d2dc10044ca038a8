/**
 * Descriptor tables and the reference counts of open files, over all tasks.
 */
module FileTable {
  import opened Basics

  type Pid = nat
  type File = nat            // the address of a file object; never used twice
  type Slots = seq<Option<File>>
  type Tasks = map<Pid, Slots>

  const MAX_FILE := 32
  const EBADF := 9
  const EINVAL := 22
  const EMFILE := 24

  ghost predicate Shaped(tasks: Tasks) {
    forall p :: p in tasks ==> |tasks[p]| == MAX_FILE
  }

  /** Every descriptor, of any task, that refers to `f`. */
  ghost function Referring(tasks: Tasks, f: File): set<(Pid, nat)> {
    set p, i | p in tasks && 0 <= i < |tasks[p]| && tasks[p][i] == Some(f) :: (p, i)
  }

  function SetSlot(tasks: Tasks, p: Pid, i: nat, v: Option<File>): Tasks
    requires p in tasks && i < |tasks[p]|
  {
    tasks[p := tasks[p][i := v]]
  }

  /** Descriptors other than slot `i` of task `p` keep their files. */
  lemma {:induction false} ReferringSet(tasks: Tasks, p: Pid, i: nat, v: Option<File>, f: File)
    requires p in tasks && i < |tasks[p]|
    ensures Referring(SetSlot(tasks, p, i, v), f) ==
            (if v == Some(f) then Referring(tasks, f) + {(p, i)} else Referring(tasks, f) - {(p, i)})
  {
    var t := SetSlot(tasks, p, i, v);
    forall q, j ensures (q, j) in Referring(t, f) <==>
      (if v == Some(f) then (q, j) in Referring(tasks, f) + {(p, i)} else (q, j) in Referring(tasks, f) - {(p, i)})
    {
      if q in tasks && 0 <= j < |tasks[q]| {
        assert q != p ==> t[q] == tasks[q];
        assert q == p && j != i ==> t[q][j] == tasks[q][j];
      }
    }
  }

  /** Each live file counts exactly the descriptors that refer to it, and no descriptor
      refers to a file that is gone. */
  ghost predicate Counted(tasks: Tasks, refer: map<File, int>) {
    && (forall f :: f in refer ==> refer[f] == |Referring(tasks, f)| && refer[f] > 0)
    && (forall f :: Referring(tasks, f) != {} ==> f in refer)
  }

  /** Every file that was opened is closed once if it is gone, and not at all while it lives. */
  ghost predicate ClosedOnce(refer: map<File, int>, ever: set<File>, closes: multiset<File>) {
    && (forall f :: f in refer ==> f in ever)
    && (forall f :: closes[f] == if f in ever && f !in refer then 1 else 0)
  }

  /** The counts after slot `i` of task `p` lets go of its file. */
  function Dropped(refer: map<File, int>, f: File): map<File, int>
    requires f in refer
  {
    if refer[f] > 1 then refer[f := refer[f] - 1] else refer - {f}
  }

  lemma {:induction false} DropCounted(tasks: Tasks, refer: map<File, int>, p: Pid, i: nat)
    requires Counted(tasks, refer) && p in tasks && i < |tasks[p]| && tasks[p][i].Some?
    ensures tasks[p][i].value in refer
    ensures refer[tasks[p][i].value] == |Referring(tasks, tasks[p][i].value)| >= 1
    ensures Counted(SetSlot(tasks, p, i, None), Dropped(refer, tasks[p][i].value))
  {
    var f := tasks[p][i].value;
    assert (p, i) in Referring(tasks, f);
    var t := SetSlot(tasks, p, i, None);
    forall g ensures Referring(t, g) == if g == f then Referring(tasks, g) - {(p, i)} else Referring(tasks, g) {
      ReferringSet(tasks, p, i, None, g);
      assert g != f ==> (p, i) !in Referring(tasks, g);
    }
    DropSize(tasks, t, refer, f, (p, i));
  }

  lemma {:induction false} DropSize(tasks: Tasks, t: Tasks, refer: map<File, int>, f: File, d: (Pid, nat))
    requires Counted(tasks, refer) && d in Referring(tasks, f)
    requires forall g :: Referring(t, g) == if g == f then Referring(tasks, g) - {d} else Referring(tasks, g)
    ensures f in refer && Counted(t, Dropped(refer, f))
  {
    hide Referring;
    var before, after := Referring(tasks, f), Referring(t, f);
    assert after == before - {d};
    assert before == after + {d} && |before| == |after| + 1;
  }

  lemma {:induction false} PointCounted(tasks: Tasks, refer: map<File, int>, p: Pid, i: nat, f: File)
    requires Counted(tasks, refer) && p in tasks && i < |tasks[p]| && tasks[p][i] == None
    ensures var n := if f in refer then refer[f] + 1 else 1;
            Counted(SetSlot(tasks, p, i, Some(f)), refer[f := n])
  {
    var t := SetSlot(tasks, p, i, Some(f));
    forall g ensures Referring(t, g) == if g == f then Referring(tasks, g) + {(p, i)} else Referring(tasks, g) {
      ReferringSet(tasks, p, i, Some(f), g);
      assert (p, i) !in Referring(tasks, g);
    }
    PointSize(tasks, t, refer, f, (p, i));
  }

  lemma {:induction false} PointSize(tasks: Tasks, t: Tasks, refer: map<File, int>, f: File, d: (Pid, nat))
    requires Counted(tasks, refer) && d !in Referring(tasks, f)
    requires forall g :: Referring(t, g) == if g == f then Referring(tasks, g) + {d} else Referring(tasks, g)
    ensures Counted(t, refer[f := if f in refer then refer[f] + 1 else 1])
  {
    hide Referring;
    assert Referring(t, f) == Referring(tasks, f) + {d};
    if f !in refer {
      assert Referring(tasks, f) == {};
    }
  }

  lemma {:induction false} LiveFile(tasks: Tasks, refer: map<File, int>, p: Pid, i: nat)
    requires Counted(tasks, refer) && p in tasks && i < |tasks[p]| && tasks[p][i].Some?
    ensures tasks[p][i].value in refer
  {
    assert (p, i) in Referring(tasks, tasks[p][i].value);
  }

  // ----- slots

  lemma {:induction false} SetSlotShaped(tasks: Tasks, p: Pid, i: nat, v: Option<File>)
    requires Shaped(tasks) && p in tasks && i < MAX_FILE
    ensures Shaped(SetSlot(tasks, p, i, v)) && SetSlot(tasks, p, i, v)[p][i] == v
    ensures forall j :: 0 <= j < MAX_FILE && j != i ==> SetSlot(tasks, p, i, v)[p][j] == tasks[p][j]
  {
  }

  lemma {:induction false} SetSlotTwice(tasks: Tasks, p: Pid, i: nat, v: Option<File>, w: Option<File>)
    requires p in tasks && i < |tasks[p]|
    ensures SetSlot(SetSlot(tasks, p, i, v), p, i, w) == SetSlot(tasks, p, i, w)
  {
    assert tasks[p][i := v][i := w] == tasks[p][i := w];
  }

  lemma {:induction false} SetSlotSame(tasks: Tasks, p: Pid, i: nat)
    requires p in tasks && i < |tasks[p]|
    ensures SetSlot(tasks, p, i, tasks[p][i]) == tasks
  {
    assert tasks[p][i := tasks[p][i]] == tasks[p];
  }

  /** An empty slot that is filled and emptied again. */
  lemma {:induction false} SetSlotBack(tasks: Tasks, p: Pid, i: nat, v: Option<File>)
    requires p in tasks && i < |tasks[p]| && tasks[p][i] == None
    ensures SetSlot(SetSlot(tasks, p, i, v), p, i, None) == tasks
  {
    SetSlotTwice(tasks, p, i, v, None);
    SetSlotSame(tasks, p, i);
  }

  // ----- closing

  lemma {:induction false} DropClosed(refer: map<File, int>, ever: set<File>, closes: multiset<File>, f: File)
    requires ClosedOnce(refer, ever, closes) && f in refer
    ensures ClosedOnce(Dropped(refer, f), ever, if refer[f] > 1 then closes else closes + multiset{f})
  {
  }

  lemma {:induction false} BumpClosed(refer: map<File, int>, ever: set<File>, closes: multiset<File>, f: File, n: int)
    requires ClosedOnce(refer, ever, closes) && f in refer
    ensures ClosedOnce(refer[f := n], ever, closes)
  {
  }

  lemma {:induction false} OpenClosed(refer: map<File, int>, ever: set<File>, closes: multiset<File>, f: File)
    requires ClosedOnce(refer, ever, closes) && f !in ever
    ensures f !in refer && ClosedOnce(refer[f := 1], ever + {f}, closes)
    ensures ClosedOnce(refer, ever + {f}, closes + multiset{f})
  {
  }

  /** A task without files adds nothing. */
  lemma {:induction false} EmptyTask(tasks: Tasks, refer: map<File, int>, c: Pid, none: Slots)
    requires Counted(tasks, refer) && c !in tasks && (forall i :: 0 <= i < |none| ==> none[i] == None)
    ensures Counted(tasks[c := none], refer)
  {
    var t := tasks[c := none];
    forall f ensures Referring(t, f) == Referring(tasks, f) {
      forall q, j ensures (q, j) in Referring(t, f) <==> (q, j) in Referring(tasks, f) {
        assert q in tasks ==> t[q] == tasks[q];
      }
    }
  }

  lemma {:induction false} RemoveTask(tasks: Tasks, refer: map<File, int>, c: Pid)
    requires Counted(tasks, refer) && c in tasks && (forall i :: 0 <= i < |tasks[c]| ==> tasks[c][i] == None)
    ensures Counted(tasks - {c}, refer)
  {
    var t := tasks - {c};
    forall f ensures Referring(t, f) == Referring(tasks, f) {
      forall q, j ensures (q, j) in Referring(t, f) <==> (q, j) in Referring(tasks, f) {
        assert q in t ==> t[q] == tasks[q];
      }
    }
  }

  function Nothing(n: nat): (s: Slots)
    ensures |s| == n && forall i :: 0 <= i < n ==> s[i] == None
  {
    if n == 0 then [] else Nothing(n - 1) + [None]
  }

  /** The table with the first `n` slots of task `p` let go. */
  function Cleared(tasks: Tasks, p: Pid, n: nat): Tasks
    requires p in tasks && n <= |tasks[p]|
  {
    tasks[p := Nothing(n) + tasks[p][n..]]
  }

  lemma {:induction false} ClearNone(tasks: Tasks, p: Pid)
    requires p in tasks
    ensures Cleared(tasks, p, 0) == tasks
  {
    assert Nothing(0) + tasks[p][0..] == tasks[p];
  }

  lemma {:induction false} ClearAll(tasks: Tasks, refer: map<File, int>, p: Pid)
    requires p in tasks && Counted(Cleared(tasks, p, |tasks[p]|), refer)
    ensures Counted(tasks - {p}, refer)
  {
    hide Counted;
    var t := Cleared(tasks, p, |tasks[p]|);
    RemoveTask(t, refer, p);
    assert t - {p} == tasks - {p};
  }

  /** The child's table when `n` slots have been copied. */
  function Forked(tasks: Tasks, p: Pid, c: Pid, n: nat): Tasks
    requires p in tasks && |tasks[p]| == MAX_FILE && n <= MAX_FILE
  {
    tasks[c := tasks[p][..n] + Nothing(MAX_FILE - n)]
  }

  lemma {:induction false} ForkNext(tasks: Tasks, p: Pid, c: Pid, n: nat)
    requires p in tasks && |tasks[p]| == MAX_FILE && n < MAX_FILE && p != c
    ensures var t := Forked(tasks, p, c, n);
      && p in t && t[p] == tasks[p] && c in t && |t[c]| == MAX_FILE && t[c][n] == None
      && SetSlot(t, c, n, tasks[p][n]) == Forked(tasks, p, c, n + 1)
  {
    var t := Forked(tasks, p, c, n);
    assert t[c][n := tasks[p][n]] == Forked(tasks, p, c, n + 1)[c];
  }

  lemma {:induction false} ForkEnds(tasks: Tasks, p: Pid, c: Pid)
    requires p in tasks && |tasks[p]| == MAX_FILE
    ensures Forked(tasks, p, c, 0) == tasks[c := Nothing(MAX_FILE)]
    ensures Forked(tasks, p, c, MAX_FILE) == tasks[c := tasks[p]]
  {
    assert tasks[p][..0] + Nothing(MAX_FILE) == Nothing(MAX_FILE);
    assert tasks[p][..MAX_FILE] + Nothing(0) == tasks[p];
  }

  lemma {:induction false} ClearedSlot(tasks: Tasks, p: Pid, n: nat)
    requires p in tasks && n <= |tasks[p]|
    ensures p in Cleared(tasks, p, n) && |Cleared(tasks, p, n)[p]| == |tasks[p]|
  {
  }

  lemma {:induction false} ClearNext(tasks: Tasks, p: Pid, n: nat)
    requires p in tasks && n < |tasks[p]|
    ensures Cleared(tasks, p, n + 1) == SetSlot(Cleared(tasks, p, n), p, n, None)
    ensures Cleared(tasks, p, n)[p][n] == tasks[p][n]
    ensures tasks[p][n] == None ==> Cleared(tasks, p, n + 1) == Cleared(tasks, p, n)
  {
    SetSlotSame(Cleared(tasks, p, n), p, n);
    assert Cleared(tasks, p, n + 1)[p] == Cleared(tasks, p, n)[p][n := None];
  }

  /** No descriptor is free. */
  predicate Full(ft: seq<Option<File>>)
    requires |ft| == MAX_FILE
  {
    forall i :: 0 <= i < MAX_FILE ==> ft[i].Some?
  }

  predicate TwoFree(ft: seq<Option<File>>)
    requires |ft| == MAX_FILE
  {
    exists i, j :: 0 <= i < j < MAX_FILE && ft[i] == None && ft[j] == None
  }

  lemma {:induction false} FullButOne(ft: seq<Option<File>>, k: nat, f: Option<File>)
    requires |ft| == MAX_FILE && k < MAX_FILE && ft[k] == None && f.Some?
    ensures Full(ft[k := f]) <==> !TwoFree(ft)
  {
    if TwoFree(ft) {
      var i, j :| 0 <= i < j < MAX_FILE && ft[i] == None && ft[j] == None;
      assert ft[k := f][if i == k then j else i] == None;
    } else {
      var now := ft[k := f];
      forall i | 0 <= i < MAX_FILE ensures now[i].Some? {
        assert i < k ==> ft[i].Some?;
        assert i > k ==> ft[i].Some?;
      }
    }
  }

  class Kernel {
    var tasks: Tasks
    var refer: map<File, int>      // the live file objects
    var next: File                 // the next address an allocation returns
    ghost var ever: set<File>      // every file that was opened
    ghost var closes: multiset<File>

    ghost predicate Valid()
      reads this
    {
      && Shaped(tasks) && Counted(tasks, refer) && ClosedOnce(refer, ever, closes)
      && (forall f :: f in ever ==> f < next)
    }

    constructor (p: Pid)
      ensures Valid() && tasks == map[p := Nothing(MAX_FILE)] && refer == map[]
    {
      tasks, refer, next, ever, closes := map[p := Nothing(MAX_FILE)], map[], 0, {}, multiset{};
      new;
      assert Counted(map[], map[]);
      EmptyTask(map[], map[], p, tasks[p]);
      assert map[][p := tasks[p]] == tasks;
    }

    /** The first free descriptor from `min` on. */
    method FdGet(p: Pid, min: nat) returns (fd: int)
      requires Shaped(tasks) && p in tasks && min <= MAX_FILE
      ensures fd == -EMFILE || min <= fd < MAX_FILE
      ensures fd >= 0 ==> tasks[p][fd] == None && forall i :: min <= i < fd ==> tasks[p][i].Some?
      ensures fd < 0 ==> forall i :: min <= i < MAX_FILE ==> tasks[p][i].Some?
    {
      fd := min;
      while fd < MAX_FILE
        invariant min <= fd <= MAX_FILE && forall i :: min <= i < fd ==> tasks[p][i].Some?
      {
        if tasks[p][fd] == None {
          return;
        }
        fd := fd + 1;
      }
      fd := -EMFILE;
    }

    predicate FdVerify(p: Pid, fd: int)
      reads this
      requires p in tasks && |tasks[p]| == MAX_FILE
    {
      0 <= fd < MAX_FILE && tasks[p][fd].Some?
    }

    /** One descriptor less; the last one closes the file and frees it. */
    method DecRef(f: File, vfs: int) returns (ret: int)
      requires f in refer
      modifies `refer, `closes
      ensures refer == Dropped(old(refer), f)
      ensures closes == if old(refer[f]) > 1 then old(closes) else old(closes) + multiset{f}
      ensures ret == if old(refer[f]) > 1 then 0 else vfs
    {
      refer := refer[f := refer[f] - 1];
      if refer[f] > 0 {
        return 0;
      }
      closes := closes + multiset{f};
      refer := refer - {f};
      assert refer == old(refer) - {f};
      ret := vfs;
    }

    /** Closes a descriptor; `vfs` is what closing the node would return. */
    method Close(p: Pid, fd: int, vfs: int) returns (ret: int)
      requires Valid() && p in tasks
      modifies `tasks, `refer, `closes
      ensures Valid()
      ensures !old(FdVerify(p, fd)) ==> ret == -EBADF && tasks == old(tasks) && refer == old(refer) && closes == old(closes)
      ensures old(FdVerify(p, fd)) ==>
        var f := old(tasks)[p][fd].value;
        var last := |Referring(old(tasks), f)| == 1;
        && tasks == SetSlot(old(tasks), p, fd, None) && f in old(refer) && refer == Dropped(old(refer), f)
        && closes == (if last then old(closes) + multiset{f} else old(closes)) && ret == (if last then vfs else 0)
    {
      hide Counted, ClosedOnce, Referring;
      if !FdVerify(p, fd) {
        return -EBADF;
      }
      var f := tasks[p][fd].value;
      DropCounted(tasks, refer, p, fd);
      DropClosed(refer, ever, closes, f);
      SetSlotShaped(tasks, p, fd, None);
      ret := DecRef(f, vfs);
      tasks := SetSlot(tasks, p, fd, None);
    }

    /** Makes `to` refer to the file of `from`, closing what it referred to. It reads and writes beyond
        the table if and only if `from` is open and `to` is not a descriptor at all. */
    method Dup2(p: Pid, from: int, to: int, vfs: int) returns (ret: int, astray: bool)
      requires Valid() && p in tasks
      modifies `tasks, `refer, `closes
      ensures Valid()
      ensures astray <==> old(FdVerify(p, from)) && !(0 <= to < MAX_FILE)
      ensures astray ==> tasks == old(tasks) && refer == old(refer) && closes == old(closes)
      ensures !old(FdVerify(p, from)) ==> ret == -EBADF && tasks == old(tasks) && refer == old(refer) && closes == old(closes)
      ensures old(FdVerify(p, from)) && from == to ==>
                ret == -EINVAL && tasks == old(tasks) && refer == old(refer) && closes == old(closes)
      ensures old(FdVerify(p, from)) && from != to && !astray ==>
                ret == to && tasks == SetSlot(old(tasks), p, to, old(tasks)[p][from])
      ensures old(FdVerify(p, from)) && from != to && !astray ==>
                closes == match old(tasks)[p][to]
                          case None => old(closes)
                          case Some(g) => if |Referring(old(tasks), g)| == 1 then old(closes) + multiset{g} else old(closes)
    {
      hide Counted, ClosedOnce, Referring;
      if !FdVerify(p, from) {
        return -EBADF, false;
      }
      var file := tasks[p][from];
      if from == to {
        return -EINVAL, false;
      }
      if !(0 <= to < MAX_FILE) {
        return to, true;
      }
      if tasks[p][to].Some? {
        var _ := Close(p, to, vfs);
      } else {
        SetSlotSame(tasks, p, to);
      }
      SetSlotShaped(old(tasks), p, to, None);
      SetSlotTwice(old(tasks), p, to, None, file);
      LiveFile(tasks, refer, p, from);
      Point(p, to, file.value);
      ret, astray := to, false;
    }

    /** A free slot comes to refer to a live file. */
    method Point(p: Pid, i: nat, f: File)
      requires Valid() && p in tasks && i < MAX_FILE && tasks[p][i] == None && f in refer
      modifies `tasks, `refer
      ensures Valid() && tasks == SetSlot(old(tasks), p, i, Some(f))
    {
      hide Counted, ClosedOnce, Referring;
      PointCounted(tasks, refer, p, i, f);
      BumpClosed(refer, ever, closes, f, refer[f] + 1);
      SetSlotShaped(tasks, p, i, Some(f));
      refer := refer[f := refer[f] + 1];
      tasks := SetSlot(tasks, p, i, Some(f));
    }

    method Dup(p: Pid, fd: int) returns (ret: int)
      requires Valid() && p in tasks
      modifies `tasks, `refer, `closes
      ensures Valid() && closes == old(closes)
      ensures ret < 0 ==> tasks == old(tasks) && refer == old(refer)
      ensures ret == -EMFILE || ret == -EBADF || 0 <= ret < MAX_FILE
      ensures ret == -EMFILE <==> forall i :: 0 <= i < MAX_FILE ==> old(tasks)[p][i].Some?
      ensures ret >= 0 <==> ret != -EMFILE && old(FdVerify(p, fd))
      ensures ret >= 0 ==> old(tasks)[p][ret] == None && forall i :: 0 <= i < ret ==> old(tasks)[p][i].Some?
      ensures ret >= 0 ==> tasks == SetSlot(old(tasks), p, ret, old(tasks)[p][fd])
    {
      hide Counted, ClosedOnce, Referring;
      var free := FdGet(p, 0);
      if free < 0 {
        return -EMFILE;
      }
      var astray;
      ret, astray := Dup2(p, fd, free, 0);
    }

    /** Opens a file in the first free descriptor. `vfs` is the result of opening the node, and
        `refused` says that the flags ask to append without asking to write. When no descriptor is
        free, the new file object is stored through the error number. */
    method Open(p: Pid, vfs: int, refused: bool) returns (ret: int, astray: bool, ghost f: File)
      requires Valid() && p in tasks
      modifies this
      ensures Valid() && f == old(next) && f !in old(ever)
      ensures astray <==> Full(old(tasks)[p])
      ensures astray ==> tasks == old(tasks) && refer == old(refer) && ever == old(ever) && closes == old(closes)
      ensures !astray && vfs < 0 ==> ret == vfs && tasks == old(tasks) && refer == old(refer) && ever == old(ever) && closes == old(closes)
      ensures !astray && vfs >= 0 && refused ==>
                && ret == -EINVAL && tasks == old(tasks) && refer == old(refer)
                && ever == old(ever) + {f} && closes == old(closes) + multiset{f}
      ensures !astray && vfs >= 0 && !refused ==>
                && 0 <= ret < MAX_FILE && old(tasks)[p][ret] == None && (forall i :: 0 <= i < ret ==> old(tasks)[p][i].Some?)
                && tasks == SetSlot(old(tasks), p, ret, Some(f)) && refer == old(refer)[f := 1]
                && ever == old(ever) + {f} && closes == old(closes)
    {
      hide Counted, ClosedOnce, Referring;
      f := next;
      var fd, file;
      fd, file, astray := FileGet(p);
      if astray {
        return -EMFILE, true, f;
      }
      SetSlotBack(old(tasks), p, fd, Some(f));
      OpenClosed(refer, ever, closes, f);
      PointCounted(old(tasks), refer, p, fd, f);
      if vfs < 0 {
        FilePut(p, fd);
        return vfs, false, f;
      }
      ever := ever + {f};
      if refused {
        closes := closes + multiset{f};
        FilePut(p, fd);
        return -EINVAL, false, f;
      }
      refer := refer[file := 1];
      ret := fd;
    }

    /** Allocates a file object in the first free descriptor, or astray when there is none. */
    method FileGet(p: Pid) returns (fd: nat, file: File, astray: bool)
      requires Shaped(tasks) && p in tasks
      modifies `tasks, `next
      ensures Shaped(tasks) && file == old(next) && next == old(next) + 1
      ensures astray <==> Full(old(tasks)[p])
      ensures astray ==> tasks == old(tasks)
      ensures !astray ==> fd < MAX_FILE && old(tasks)[p][fd] == None && (forall i :: 0 <= i < fd ==> old(tasks)[p][i].Some?)
                          && tasks == SetSlot(old(tasks), p, fd, Some(file))
    {
      var i := FdGet(p, 0);
      file, next := next, next + 1;
      if i < 0 {
        return 0, file, true;
      }
      fd, astray := i, false;
      SetSlotShaped(tasks, p, fd, Some(file));
      tasks := SetSlot(tasks, p, fd, Some(file));
    }

    method FilePut(p: Pid, fd: nat)
      requires Shaped(tasks) && p in tasks && fd < MAX_FILE
      modifies `tasks
      ensures Shaped(tasks) && tasks == SetSlot(old(tasks), p, fd, None)
    {
      SetSlotShaped(tasks, p, fd, None);
      tasks := SetSlot(tasks, p, fd, None);
    }

    /** Two descriptors for the ends of a pipe; `vfs` is the result of creating it. */
    method Pipe(p: Pid, vfs: int) returns (ret: int, astray: bool, fd0: nat, fd1: nat)
      requires Valid() && p in tasks
      modifies this
      ensures astray <==> !TwoFree(old(tasks)[p])
      ensures closes == old(closes) && (!astray ==> Valid())
      ensures astray ==> refer == old(refer) && ever == old(ever)
      ensures !astray && vfs < 0 ==> ret == vfs && tasks == old(tasks) && refer == old(refer) && ever == old(ever)
      ensures !astray && vfs >= 0 ==>
        var f0, f1 := old(next), old(next) + 1;
        && ret == 0 && fd0 < fd1 < MAX_FILE && old(tasks)[p][fd0] == None && old(tasks)[p][fd1] == None
        && (forall i :: 0 <= i < fd1 && i != fd0 ==> old(tasks)[p][i].Some?)
        && tasks == SetSlot(SetSlot(old(tasks), p, fd0, Some(f0)), p, fd1, Some(f1))
        && refer == old(refer)[f0 := 1][f1 := 1] && ever == old(ever) + {f0} + {f1}
    {
      hide Counted, ClosedOnce, Referring;
      var f0, f1;
      ret, fd1 := -EMFILE, 0;
      fd0, f0, astray := FileGet(p);
      if astray {
        return;
      }
      ghost var t1 := tasks;
      SetSlotShaped(old(tasks), p, fd0, Some(f0));
      FullButOne(old(tasks)[p], fd0, Some(f0));
      fd1, f1, astray := FileGet(p);
      if astray {
        return;
      }
      assert fd0 < fd1;
      SetSlotBack(t1, p, fd1, Some(f1));
      SetSlotBack(old(tasks), p, fd0, Some(f0));
      if vfs < 0 {
        FilePut(p, fd1);
        FilePut(p, fd0);
        return vfs, false, fd0, fd1;
      }
      OpenClosed(refer, ever, closes, f0);
      PointCounted(old(tasks), refer, p, fd0, f0);
      refer, ever := refer[f0 := 1], ever + {f0};
      OpenClosed(refer, ever, closes, f1);
      PointCounted(t1, refer, p, fd1, f1);
      refer, ever := refer[f1 := 1], ever + {f1};
      ret := 0;
    }

    /** The child shares every file of its parent. */
    method Fork(p: Pid, c: Pid)
      requires Valid() && p in tasks && c !in tasks
      modifies `tasks, `refer
      ensures Valid() && tasks == old(tasks)[c := old(tasks)[p]]
    {
      hide Counted, ClosedOnce, Referring, Forked, Nothing;
      ghost var was := tasks;
      tasks := tasks[c := Nothing(MAX_FILE)];
      EmptyTask(was, refer, c, Nothing(MAX_FILE));
      ForkEnds(was, p, c);
      var i := 0;
      while i < MAX_FILE
        invariant 0 <= i <= MAX_FILE && Valid() && tasks == Forked(was, p, c, i)
      {
        ForkNext(was, p, c, i);
        var file := tasks[p][i];
        if file.Some? {
          LiveFile(tasks, refer, p, i);
          Point(c, i, file.value);
        } else {
          SetSlotSame(tasks, c, i);
        }
        i := i + 1;
      }
    }

    /** A dead task lets go of all its files before it leaves the table. */
    method Reap(p: Pid)
      requires Valid() && p in tasks
      modifies `tasks, `refer, `closes
      ensures Valid() && tasks == old(tasks) - {p}
    {
      hide Counted, ClosedOnce, Referring, Cleared;
      var i := 0;
      ClearNone(tasks, p);
      while i < MAX_FILE
        invariant 0 <= i <= MAX_FILE && tasks == old(tasks)
        invariant Counted(Cleared(tasks, p, i), refer) && ClosedOnce(refer, ever, closes)
      {
        ClearNext(tasks, p, i);
        if tasks[p][i].Some? {
          ClearedSlot(tasks, p, i);
          DropCounted(Cleared(tasks, p, i), refer, p, i);
          DropClosed(refer, ever, closes, tasks[p][i].value);
          var _ := DecRef(tasks[p][i].value, 0);
        }
        i := i + 1;
      }
      ClearAll(tasks, refer, p);
      tasks := tasks - {p};
    }
  }
}
