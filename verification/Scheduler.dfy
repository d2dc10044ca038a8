/**
 * The round-robin scheduler: which task runs, and how long a ready task waits.
 */
module Scheduler {
  import opened Basics

  datatype Stat = Ready | Running | Blocked | Dead

  /** The task table: a free slot or the state of its task. */
  type Table = seq<Option<Stat>>

  /** `d` slots after slot `c`, going around. */
  function Around(c: nat, d: nat, n: nat): (i: nat)
    requires c < n && d < n
    ensures i < n
  {
    if c + d < n then c + d else c + d - n
  }

  /** The next slot. */
  lemma {:induction false} NextSlot(i: nat, n: nat)
    requires i < n
    ensures (i + 1) % n == if i + 1 < n then i + 1 else 0
  {
    if i + 1 < n {
      Remainder(i + 1, 0, i + 1, n);
    } else {
      Remainder(n, 1, 0, n);
    }
  }

  lemma {:induction false} Remainder(x: nat, q: nat, r: nat, n: nat)
    requires r < n && x == q * n + r
    ensures x % n == r
  {
    var d := x / n - q;
    assert x == (x / n) * n + x % n;
    assert d * n == r - x % n by {
      assert d * n == (x / n) * n - q * n;
    }
    assert d > 0 ==> d * n >= n;
    assert d < 0 ==> d * n <= -1 * n;
  }

  /** How many slots `t` is after `c`. */
  function Distance(c: nat, t: nat, n: nat): (d: nat)
    requires c < n && t < n
    ensures d < n && Around(c, d, n) == t && (d == 0 <==> c == t)
  {
    if c <= t then t - c else t + n - c
  }

  predicate IsReady(table: Table, i: nat) {
    i < |table| && table[i] == Some(Ready)
  }

  /** The nearest ready slot from `c` on is `d` slots away. */
  predicate Nearest(table: Table, c: nat, d: nat)
    requires c < |table|
  {
    d < |table| && IsReady(table, Around(c, d, |table|))
    && forall e :: 0 <= e < d ==> !IsReady(table, Around(c, e, |table|))
  }

  /** No slot is ready. */
  predicate Idle(table: Table) {
    forall i :: 0 <= i < |table| ==> !IsReady(table, i)
  }

  lemma {:induction false} AllAround(table: Table, c: nat)
    requires c < |table| && forall e :: 0 <= e < |table| ==> !IsReady(table, Around(c, e, |table|))
    ensures Idle(table)
  {
    forall i | 0 <= i < |table| ensures !IsReady(table, i) {
      assert Around(c, Distance(c, i, |table|), |table|) == i;
    }
  }

  // ----- events

  datatype Sched = Sched(table: Table, curr: nat)

  predicate Shaped(s: Sched) {
    s.curr < |s.table|
  }

  /** Only the current task is running. */
  predicate OneRuns(s: Sched) {
    Shaped(s) && forall i :: 0 <= i < |s.table| && s.table[i] == Some(Running) ==> i == s.curr
  }

  /** The state after task `next` is switched to. */
  function Switch(s: Sched, next: nat): Sched
    requires Shaped(s) && next < |s.table|
  {
    var table := if s.table[s.curr] == Some(Running) then s.table[s.curr := Some(Ready)] else s.table;
    Sched(table[next := Some(Running)], next)
  }

  datatype Event = Schedule | Block(task: nat) | Unblock(task: nat) | Create(task: nat) | Exit | Reap(task: nat)

  ghost predicate Step(s: Sched, e: Event, s': Sched) {
    && Shaped(s)
    && match e
       case Schedule =>
         if s.table[s.curr] == None || Idle(s.table) then s' == s
         else exists d :: Nearest(s.table, s.curr, d) && s' == Switch(s, Around(s.curr, d, |s.table|))
       case Block(t) => t < |s.table| && s.table[t].Some? && s' == s.(table := s.table[t := Some(Blocked)])
       case Unblock(t) => t < |s.table| && s.table[t].Some? && s' == s.(table := s.table[t := Some(Ready)])
       case Create(t) => t < |s.table| && s.table[t] == None && s' == s.(table := s.table[t := Some(Ready)])
       case Exit => s.table[s.curr].Some? && s' == s.(table := s.table[s.curr := Some(Dead)])
       case Reap(t) => t < |s.table| && s.table[t] == Some(Dead) && s' == s.(table := s.table[t := None])
  }

  ghost predicate Steps(ss: seq<Sched>, es: seq<Event>) {
    |ss| == |es| + 1 && forall i :: 0 <= i < |es| ==> Step(ss[i], es[i], ss[i + 1])
  }

  /** No event ever leaves a second task running. */
  lemma {:induction false} OnlyCurrentRuns(ss: seq<Sched>, es: seq<Event>, i: nat)
    requires Steps(ss, es) && OneRuns(ss[0]) && i < |ss|
    ensures OneRuns(ss[i]) && |ss[i].table| == |ss[0].table|
  {
    if i > 0 {
      OnlyCurrentRuns(ss, es, i - 1);
      assert Step(ss[i - 1], es[i - 1], ss[i]);
    }
  }

  function Calls(es: seq<Event>): nat {
    if es == [] then 0 else Calls(es[..|es| - 1]) + if es[|es| - 1] == Schedule then 1 else 0
  }

  /** A call that passes over a ready task comes strictly nearer to it. */
  lemma {:induction false} Nearer(s: Sched, s': Sched, t: nat)
    requires OneRuns(s) && Step(s, Schedule, s') && IsReady(s.table, t) && IsReady(s'.table, t)
    requires Yields(s)
    ensures Shaped(s') && |s'.table| == |s.table| && s'.curr != t
    ensures Distance(s'.curr, t, |s.table|) < Distance(s.curr, t, |s.table|)
  {
    var n := |s.table|;
    var d :| Nearest(s.table, s.curr, d) && s' == Switch(s, Around(s.curr, d, n));
    var far := Distance(s.curr, t, n);
    assert IsReady(s.table, Around(s.curr, far, n));
    assert d > 0 by {
      assert Around(s.curr, 0, n) == s.curr;
    }
    assert s'.table[s'.curr] == Some(Running);
  }

  /** Nothing else moves the current slot. */
  lemma {:induction false} Stays(s: Sched, e: Event, s': Sched)
    requires Step(s, e, s') && e != Schedule
    ensures s'.curr == s.curr && |s'.table| == |s.table|
  {
  }

  /** Throughout the run, task `t` is ready, and every call finds a current task that is not. */
  ghost predicate Waits(ss: seq<Sched>, es: seq<Event>, t: nat) {
    && Steps(ss, es) && (forall i :: 0 <= i < |ss| ==> IsReady(ss[i].table, t))
    && forall i :: 0 <= i < |es| && es[i] == Schedule ==> Yields(ss[i])
  }

  /** There is a current task, and it is not ready. */
  predicate Yields(s: Sched) {
    Shaped(s) && s.table[s.curr].Some? && !IsReady(s.table, s.curr)
  }

  /** The distance to a waiting task drops by one with every call. */
  lemma {:induction false} DistanceDrops(ss: seq<Sched>, es: seq<Event>, t: nat)
    requires Waits(ss, es, t) && OneRuns(ss[0])
    ensures OneRuns(ss[|es|]) && |ss[|es|].table| == |ss[0].table|
    ensures t != ss[0].curr ==> t != ss[|es|].curr
    ensures Calls(es) + Distance(ss[|es|].curr, t, |ss[0].table|) <= Distance(ss[0].curr, t, |ss[0].table|)
    decreases |es|
  {
    OnlyCurrentRuns(ss, es, |es|);
    if es != [] {
      var k := |es| - 1;
      var before := ss[..|es|];
      assert Waits(before, es[..k], t) by {
        forall i | 0 <= i < k ensures Step(before[i], es[..k][i], before[i + 1]) {
          assert Step(ss[i], es[i], ss[i + 1]);
        }
      }
      DistanceDrops(before, es[..k], t);
      OnlyCurrentRuns(ss, es, k);
      assert Step(ss[k], es[k], ss[k + 1]);
      if es[k] == Schedule {
        Nearer(ss[k], ss[k + 1], t);
      } else {
        Stays(ss[k], es[k], ss[k + 1]);
      }
    }
  }

  /** A task that stays ready sees at most N - 2 calls. */
  lemma {:induction false} WaitsBriefly(ss: seq<Sched>, es: seq<Event>, t: nat)
    requires Waits(ss, es, t) && OneRuns(ss[0])
    requires t != ss[0].curr
    ensures Calls(es) <= |ss[0].table| - 2
  {
    DistanceDrops(ss, es, t);
  }

  /** Call `i` of the run makes `t` the current task. */
  ghost predicate PickedAt(ss: seq<Sched>, es: seq<Event>, t: nat, i: nat) {
    && i < |es| && |ss| == |es| + 1 && es[i] == Schedule && ss[i + 1].curr == t
    && t < |ss[i + 1].table| && ss[i + 1].table[t] == Some(Running)
  }

  /** A ready task that is not blocked stays ready until it is picked. */
  lemma {:induction false} ReadyUntilPicked(ss: seq<Sched>, es: seq<Event>, t: nat, i: nat)
    requires Steps(ss, es) && OneRuns(ss[0]) && t != ss[0].curr && IsReady(ss[0].table, t) && Block(t) !in es
    requires i < |ss| && forall j :: 0 <= j < i ==> !PickedAt(ss, es, t, j)
    ensures IsReady(ss[i].table, t) && ss[i].curr != t
  {
    if i > 0 {
      var k := i - 1;
      ReadyUntilPicked(ss, es, t, k);
      OnlyCurrentRuns(ss, es, k);
      assert Step(ss[k], es[k], ss[i]) && es[k] in es && !PickedAt(ss, es, t, k);
      if es[k] == Schedule {
        CallKeepsReady(ss[k], ss[i], t);
      }
    }
  }

  /** A call leaves a ready task ready, or switches to it. */
  lemma {:induction false} CallKeepsReady(s: Sched, s': Sched, t: nat)
    requires OneRuns(s) && Step(s, Schedule, s') && IsReady(s.table, t) && s.curr != t
    ensures if s'.curr == t then t < |s'.table| && s'.table[t] == Some(Running) else IsReady(s'.table, t)
  {
  }

  /** A ready task that nobody blocks is picked within N - 1 calls, if every call finds a current
      task that is not ready. */
  lemma {:induction false} PickedSoon(ss: seq<Sched>, es: seq<Event>, t: nat)
    requires Steps(ss, es) && OneRuns(ss[0]) && t != ss[0].curr && IsReady(ss[0].table, t) && Block(t) !in es
    requires forall i :: 0 <= i < |es| && es[i] == Schedule ==> Yields(ss[i])
    requires Calls(es) >= |ss[0].table| - 1
    ensures exists i :: PickedAt(ss, es, t, i)
  {
    if forall i :: !PickedAt(ss, es, t, i) {
      forall i | 0 <= i < |ss| ensures IsReady(ss[i].table, t) {
        ReadyUntilPicked(ss, es, t, i);
      }
      WaitsBriefly(ss, es, t);
    }
  }

  /** What a call does, slot by slot: the task it switches to was ready and runs, a running task it switches
      away from is ready, and every other slot is as it was. */
  ghost predicate Hands(s: Sched, s': Sched)
    requires Shaped(s)
  {
    && Shaped(s') && |s'.table| == |s.table|
    && (forall i :: 0 <= i < |s.table| && i != s.curr && i != s'.curr ==> s'.table[i] == s.table[i])
    && (s'.curr != s.curr ==>
          && s.table[s'.curr] == Some(Ready) && s'.table[s'.curr] == Some(Running)
          && s'.table[s.curr] == if s.table[s.curr] == Some(Running) then Some(Ready) else s.table[s.curr])
    && (s'.curr == s.curr ==>
          s'.table[s.curr] == if s.table[s.curr] == Some(Ready) then Some(Running) else s.table[s.curr])
  }

  lemma {:induction false} CallHands(s: Sched, s': Sched)
    requires Step(s, Schedule, s')
    ensures Hands(s, s')
  {
    if !(s.table[s.curr] == None || Idle(s.table)) {
      var d :| Nearest(s.table, s.curr, d) && s' == Switch(s, Around(s.curr, d, |s.table|));
    } else {
      assert !IsReady(s.table, s.curr);
    }
  }

  lemma {:induction false} Later(ss: seq<Sched>, es: seq<Event>)
    requires Steps(ss, es) && es != []
    ensures Steps(ss[1..], es[1..])
  {
    var rs, fs := ss[1..], es[1..];
    forall i | 0 <= i < |fs| ensures Step(rs[i], fs[i], rs[i + 1]) {
      assert Step(ss[i + 1], es[i + 1], ss[i + 1 + 1]);
    }
  }

  /** Once task `t` is ready after the first event, it is picked by one of the next N - 1 calls. */
  lemma {:induction false} PickedAfter(ss: seq<Sched>, es: seq<Event>, t: nat)
    requires Steps(ss, es) && OneRuns(ss[0]) && es != [] && t != ss[1].curr && IsReady(ss[1].table, t) && Block(t) !in es
    requires forall i :: 0 < i < |es| && es[i] == Schedule ==> Yields(ss[i])
    requires Calls(es[1..]) >= |ss[0].table| - 1
    ensures exists i :: i > 0 && PickedAt(ss, es, t, i)
  {
    hide Calls, Yields;
    OnlyCurrentRuns(ss, es, 1);
    Later(ss, es);
    var rs, fs := ss[1..], es[1..];
    PickedSoon(rs, fs, t);
    var i: nat :| PickedAt(rs, fs, t, i);
    assert PickedAt(ss, es, t, i + 1);
  }

  /** A running task that is switched away from and that nobody blocks runs again after at most N - 1
      further calls. */
  lemma {:induction false} RunsAgain(ss: seq<Sched>, es: seq<Event>)
    requires Steps(ss, es) && OneRuns(ss[0]) && es != [] && es[0] == Schedule
    requires ss[0].table[ss[0].curr] == Some(Running) && ss[1].curr != ss[0].curr && Block(ss[0].curr) !in es
    requires forall i :: 0 < i < |es| && es[i] == Schedule ==> Yields(ss[i])
    requires Calls(es[1..]) >= |ss[0].table| - 1
    ensures exists i :: i > 0 && PickedAt(ss, es, ss[0].curr, i)
  {
    hide Calls, Yields;
    assert Step(ss[0], es[0], ss[0 + 1]);
    CallHands(ss[0], ss[1]);
    PickedAfter(ss, es, ss[0].curr);
  }

  /** So does a task that is woken. */
  lemma {:induction false} WokenRuns(ss: seq<Sched>, es: seq<Event>, t: nat)
    requires Steps(ss, es) && OneRuns(ss[0]) && es != [] && es[0] == Unblock(t) && t != ss[0].curr && Block(t) !in es
    requires forall i :: 0 < i < |es| && es[i] == Schedule ==> Yields(ss[i])
    requires Calls(es[1..]) >= |ss[0].table| - 1
    ensures exists i :: i > 0 && PickedAt(ss, es, t, i)
  {
    hide Calls, Yields;
    assert Step(ss[0], es[0], ss[0 + 1]);
    PickedAfter(ss, es, t);
  }

  /** A task that has been blocked and switched away from stays so until it is woken. */
  lemma {:induction false} BlockedUntilWoken(ss: seq<Sched>, es: seq<Event>, t: nat, i: nat)
    requires Steps(ss, es) && i < |ss| && Unblock(t) !in es
    requires t < |ss[0].table| && ss[0].table[t] == Some(Blocked) && t != ss[0].curr
    ensures t < |ss[i].table| && ss[i].table[t] == Some(Blocked) && t != ss[i].curr
  {
    if i > 0 {
      BlockedUntilWoken(ss, es, t, i - 1);
      assert Step(ss[i - 1], es[i - 1], ss[i]) && es[i - 1] in es;
      if es[i - 1] == Schedule {
        CallHands(ss[i - 1], ss[i]);
      }
    }
  }

  /** A current task that is ready at the call is picked again, whoever else is waiting. */
  lemma {:induction false} PicksItself(s: Sched, s': Sched)
    requires OneRuns(s) && Step(s, Schedule, s') && s.table[s.curr].Some? && !Idle(s.table)
    ensures s'.curr == s.curr <==> IsReady(s.table, s.curr)
  {
    var n := |s.table|;
    var d :| Nearest(s.table, s.curr, d) && s' == Switch(s, Around(s.curr, d, n));
    assert Around(s.curr, 0, n) == s.curr;
    assert Distance(s.curr, Around(s.curr, d, n), n) == d;
  }

  /** For instance, with both tasks ready the current one is picked and the other one left waiting. */
  lemma {:induction false} LeftWaiting(s': Sched)
    requires Step(Sched([Some(Ready), Some(Ready)], 0), Schedule, s')
    ensures s' == Sched([Some(Running), Some(Ready)], 0)
  {
    var s := Sched([Some(Ready), Some(Ready)], 0);
    assert IsReady(s.table, 0) && !Idle(s.table);
    assert OneRuns(s);
    PicksItself(s, s');
    assert s'.table == s.table[0 := Some(Running)];
  }

  // ----- the code

  class TaskTable {
    var table: Table
    var curr: nat

    ghost function View(): Sched
      reads this
    {
      Sched(table, curr)
    }

    /** The first ready slot from the current one on, which becomes the current one. */
    method GetNext() returns (next: Option<nat>)
      requires Shaped(View())
      modifies `curr
      ensures next == None ==> curr == old(curr) && Idle(table)
      ensures next.Some? ==> curr == next.value && !Idle(table)
      ensures next.Some? ==> exists d :: Nearest(table, old(curr), d) && next.value == Around(old(curr), d, |table|)
    {
      var n := |table|;
      var i, j := curr, 0;
      ghost var d := 0;
      while i < n && j < curr + n
        invariant curr == old(curr) < n == |table| && d < n && i == Around(curr, d, n)
        invariant j < n ==> d == j
        invariant forall e :: 0 <= e < n && e < j ==> !IsReady(table, Around(curr, e, n))
        decreases curr + n - j
      {
        if table[i] == Some(Ready) {
          assert Nearest(table, curr, d);
          assert IsReady(table, i);
          curr := i;
          return Some(i);
        }
        assert !IsReady(table, Around(curr, d, n));
        NextSlot(i, n);
        i, j := (i + 1) % n, j + 1;
        d := if d + 1 < n then d + 1 else 0;
      }
      AllAround(table, curr);
      next := None;
    }

    method TaskSchedule()
      requires Shaped(View())
      modifies this
      ensures Step(old(View()), Schedule, View()) && Hands(old(View()), View())
    {
      var prev := curr;
      if table[prev] == None {
        CallHands(old(View()), View());
        return;
      }
      var next := GetNext();
      if next == None {
        CallHands(old(View()), View());
        return;
      }
      if table[prev] == Some(Running) {
        table := table[prev := Some(Ready)];
      }
      table := table[next.value := Some(Running)];
      ghost var d :| Nearest(old(table), prev, d) && next.value == Around(prev, d, |old(table)|);
      assert View() == Switch(old(View()), Around(prev, d, |old(table)|));
      CallHands(old(View()), View());
    }

    /** Blocks a task; blocking the current one gives up the processor. */
    method TaskBlock(t: nat)
      requires Shaped(View()) && t < |table| && table[t].Some?
      modifies this
      ensures var mid := old(View()).(table := old(table)[t := Some(Blocked)]);
        Step(old(View()), Block(t), mid) && if t == old(curr) then Step(mid, Schedule, View()) else View() == mid
      ensures |table| == |old(table)| && table[t] == Some(Blocked)
    {
      table := table[t := Some(Blocked)];
      if t == curr {
        TaskSchedule();
      }
    }

    method TaskUnblock(t: nat)
      requires Shaped(View()) && t < |table| && table[t].Some?
      modifies `table
      ensures Step(old(View()), Unblock(t), View())
    {
      table := table[t := Some(Ready)];
    }
  }
}
