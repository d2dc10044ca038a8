/**
 * The kernel's re-entrant lock over a binary semaphore, as the steps of any number of
 * tasks. Everything inside an uninterruptible area is one step; outside of it, every
 * test and every assignment is a step of its own.
 */
module Lock {
  import opened Basics

  type Task = nat

  /** Where a task stands in `lock_acquire` or `lock_release`. */
  datatype PC =
    | Client        // outside of both
    | Acquire       // about to compare the holder with itself
    | Down          // about to test the semaphore
    | Blocked       // on the list of waiters
    | Woken         // taken off the list, about to test the semaphore again
    | SetHolder     // has the semaphore, about to write the holder
    | SetRepeat     // about to write the count
    | Bump          // holds the lock already, about to count one more
    | Release       // about to check the holder
    | CheckCount    // about to compare the count with one
    | Drop          // about to count one less
    | ClearHolder   // last release: about to clear the holder
    | ClearRepeat   // about to clear the count
    | Up            // about to raise the semaphore

  /** `depth` is the number of acquires a task has completed and not yet released. */
  datatype Local = Local(pc: PC, depth: nat)

  /** `failed` records a kernel assertion that did not hold. */
  datatype State = State(val: int, waiter: seq<Task>, holder: Option<Task>, hrepeat: int,
                         tasks: map<Task, Local>, failed: bool)

  /** What a task in client code does next. */
  datatype Choice = Enter | Leave

  function At(s: State, t: Task, pc: PC): State
    requires t in s.tasks
  {
    s.(tasks := s.tasks[t := s.tasks[t].(pc := pc)])
  }

  function Assert(s: State, ok: bool): State {
    s.(failed := s.failed || !ok)
  }

  /** The test at the head of `sema_down`: block while the value is zero, else take it. */
  function TryDown(s: State, t: Task): State
    requires t in s.tasks
  {
    if s.val == 0 then At(s.(waiter := [t] + s.waiter), t, Blocked)
    else At(Assert(s, s.val == 1).(val := s.val - 1), t, SetHolder)
  }

  /** `sema_up`: raise the value and make the first waiter ready. */
  function TryUp(s: State, t: Task): State
    requires t in s.tasks && (s.waiter != [] ==> s.waiter[0] in s.tasks)
  {
    var s1 := Assert(s, s.val == 0).(val := s.val + 1, tasks := s.tasks[t := Local(Client, 0)]);
    if s.waiter == [] then s1 else At(s1.(waiter := s.waiter[1..]), s.waiter[0], Woken)
  }

  /** One step of task `t`. A task blocked on the list does not step; a client releases
      only what it has acquired. */
  ghost predicate Step(s: State, t: Task, c: Choice, s': State) {
    && t in s.tasks && (s.waiter != [] ==> s.waiter[0] in s.tasks)
    && var l := s.tasks[t];
    match l.pc
    case Client => (c.Leave? ==> l.depth > 0) && s' == At(s, t, if c.Enter? then Acquire else Release)
    case Acquire => s' == At(s, t, if s.holder != Some(t) then Down else Bump)
    case Down => s' == TryDown(s, t)
    case Blocked => false
    case Woken => s' == TryDown(s, t)
    case SetHolder => s' == At(s.(holder := Some(t)), t, SetRepeat)
    case SetRepeat => s' == s.(hrepeat := 1, tasks := s.tasks[t := Local(Client, 1)])
    case Bump => s' == s.(hrepeat := s.hrepeat + 1, tasks := s.tasks[t := Local(Client, l.depth + 1)])
    case Release => s' == At(Assert(s, s.holder == Some(t)), t, CheckCount)
    case CheckCount => s' == At(s, t, if s.hrepeat > 1 then Drop else ClearHolder)
    case Drop => s' == s.(hrepeat := s.hrepeat - 1, tasks := s.tasks[t := Local(Client, if l.depth > 0 then l.depth - 1 else 0)])
    case ClearHolder => s' == At(s.(holder := None), t, ClearRepeat)
    case ClearRepeat => s' == At(s.(hrepeat := 0), t, Up)
    case Up => s' == TryUp(s, t)
  }

  /** `lock_init`, with every task in client code. */
  ghost predicate Init(s: State) {
    && s.val == 1 && s.waiter == [] && s.holder == None && s.hrepeat == 0 && !s.failed
    && forall t :: t in s.tasks ==> s.tasks[t] == Local(Client, 0)
  }

  ghost predicate Next(s: State, s': State) {
    exists t, c :: Step(s, t, c, s')
  }

  ghost predicate Run(tr: seq<State>) {
    tr != [] && Init(tr[0]) && forall i :: 0 < i < |tr| ==> Next(tr[i - 1], tr[i])
  }

  // ----- the invariant

  /** Between a successful `sema_down` and its `sema_up`. */
  predicate Inside(l: Local) {
    l.depth > 0 || l.pc == SetHolder || l.pc == SetRepeat
  }

  /** Between the write of the holder and its clearing. */
  predicate Holding(l: Local) {
    l.pc == SetRepeat || (l.depth > 0 && l.pc != ClearRepeat && l.pc != Up)
  }

  predicate Sensible(l: Local) {
    match l.pc
    case Client => true
    case Acquire => true
    case Down => l.depth == 0
    case Blocked => l.depth == 0
    case Woken => l.depth == 0
    case SetHolder => l.depth == 0
    case SetRepeat => l.depth == 0
    case Bump => l.depth > 0
    case Release => l.depth > 0
    case CheckCount => l.depth > 0
    case Drop => l.depth > 1
    case ClearHolder => l.depth == 1
    case ClearRepeat => l.depth == 1
    case Up => l.depth == 1
  }

  /** What the count is while a task is inside. */
  function CountOf(l: Local): nat {
    if l.pc == SetHolder || l.pc == SetRepeat || l.pc == Up then 0 else l.depth
  }

  /** At most one task is inside, and exactly when the value is zero. */
  ghost predicate Exclusive(s: State) {
    && (forall t, u :: t in s.tasks && u in s.tasks && Inside(s.tasks[t]) && Inside(s.tasks[u]) ==> t == u)
    && (s.val == 0 || s.val == 1)
    && (s.val == 0 <==> exists t :: t in s.tasks && Inside(s.tasks[t]))
  }

  /** The holder and the count are those of the task inside. */
  ghost predicate Owned(s: State) {
    && (forall t :: t in s.tasks && Holding(s.tasks[t]) ==> s.holder == Some(t))
    && (s.holder.Some? ==> s.holder.value in s.tasks && Holding(s.tasks[s.holder.value]))
    && (forall t :: t in s.tasks && Inside(s.tasks[t]) ==> s.hrepeat == CountOf(s.tasks[t]))
    && (s.val == 1 ==> s.hrepeat == 0)
  }

  /** The list holds exactly the blocked tasks, each once. */
  ghost predicate Queued(s: State) {
    && (forall i, j :: 0 <= i < j < |s.waiter| ==> s.waiter[i] != s.waiter[j])
    && (forall t :: t in s.waiter <==> t in s.tasks && s.tasks[t].pc == Blocked)
  }

  /** No wake-up is lost: while the semaphore is up and tasks wait, a woken task has yet to test it. */
  ghost predicate Waking(s: State) {
    s.val == 1 && s.waiter != [] ==> exists t :: t in s.tasks && s.tasks[t].pc == Woken
  }

  ghost predicate Inv(s: State) {
    && !s.failed && (forall t :: t in s.tasks ==> Sensible(s.tasks[t]))
    && Exclusive(s) && Owned(s) && Queued(s) && Waking(s)
  }

  lemma {:induction false} InitInv(s: State)
    requires Init(s)
    ensures Inv(s)
  {
  }

  /** A change of task `t` that leaves it inside or outside, holding or not. */
  lemma {:induction false} KeepsOwner(s: State, t: Task, s': State)
    requires Exclusive(s) && Owned(s) && t in s.tasks && t in s'.tasks && s'.tasks == s.tasks[t := s'.tasks[t]]
    requires s'.val == s.val && s'.holder == s.holder && s'.hrepeat == s.hrepeat
    requires (Inside(s'.tasks[t]) <==> Inside(s.tasks[t])) && (Holding(s'.tasks[t]) <==> Holding(s.tasks[t]))
    requires Inside(s.tasks[t]) ==> CountOf(s'.tasks[t]) == CountOf(s.tasks[t])
    ensures Exclusive(s') && Owned(s')
  {
    hide Inside, Holding, CountOf;
    assert forall u :: u in s.tasks && u != t ==> s'.tasks[u] == s.tasks[u];
  }

  /** A change of task `t` that neither blocks nor wakes anyone. */
  lemma {:induction false} KeepsQueue(s: State, t: Task, s': State)
    requires Queued(s) && t in s.tasks && t in s'.tasks && s'.tasks == s.tasks[t := s'.tasks[t]]
    requires s'.waiter == s.waiter && s.tasks[t].pc != Blocked && s'.tasks[t].pc != Blocked
    ensures Queued(s')
  {
    assert forall u :: u in s.tasks && u != t ==> s'.tasks[u] == s.tasks[u];
  }

  /** Steps that change only the program counter, not who is inside, holds or waits. */
  lemma {:induction false} QuietStep(s: State, t: Task, pc: PC)
    requires Inv(s) && t in s.tasks
    requires var l, l' := s.tasks[t], s.tasks[t].(pc := pc);
      && Sensible(l') && (Inside(l') <==> Inside(l)) && (Holding(l') <==> Holding(l)) && CountOf(l') == CountOf(l)
      && l.pc != Blocked && pc != Blocked && l.pc != Woken
    ensures Inv(At(s, t, pc))
  {
    hide Exclusive, Owned, Queued, Sensible, Inside, Holding, CountOf;
    var s' := At(s, t, pc);
    KeepsOwner(s, t, s');
    KeepsQueue(s, t, s');
    assert forall u :: u in s.tasks && u != t ==> s'.tasks[u] == s.tasks[u];
  }

  lemma {:induction false} StepInv(s: State, t: Task, c: Choice, s': State)
    requires Inv(s) && Step(s, t, c, s')
    ensures Inv(s')
  {
    hide Exclusive, Queued, Waking, TryDown, TryUp;
    var l := s.tasks[t];
    OwnerHolds(s, t);
    match l.pc
    case Client => QuietStep(s, t, if c.Enter? then Acquire else Release);
    case Acquire => QuietStep(s, t, if s.holder != Some(t) then Down else Bump);
    case Down => DownInv(s, t);
    case Blocked =>
    case Woken => DownInv(s, t);
    case SetHolder => WriteInv(s, t, s');
    case SetRepeat => WriteInv(s, t, s');
    case Bump => WriteInv(s, t, s');
    case Release => QuietStep(s, t, CheckCount);
    case CheckCount => QuietStep(s, t, if s.hrepeat > 1 then Drop else ClearHolder);
    case Drop => WriteInv(s, t, s');
    case ClearHolder => WriteInv(s, t, s');
    case ClearRepeat => WriteInv(s, t, s');
    case Up => UpInv(s, t);
  }

  /** What the holder and the count say about a task. */
  lemma {:induction false} OwnerHolds(s: State, t: Task)
    requires Inv(s) && t in s.tasks
    ensures Sensible(s.tasks[t]) && (Holding(s.tasks[t]) <==> s.holder == Some(t))
    ensures Inside(s.tasks[t]) ==> s.hrepeat == CountOf(s.tasks[t])
    ensures Inside(s.tasks[t]) && !Holding(s.tasks[t]) ==> s.holder == None
  {
    hide Queued, Waking;
    if s.holder.Some? {
      assert Inside(s.tasks[s.holder.value]);
    }
  }

  /** Writes by the task inside: nobody else looks at what it changes. */
  lemma {:induction false} WriteInv(s: State, t: Task, s': State)
    requires Inv(s) && t in s.tasks && Inside(s.tasks[t])
    requires t in s'.tasks
    requires s' == s.(holder := s'.holder, hrepeat := s'.hrepeat, tasks := s.tasks[t := s'.tasks[t]])
    requires var l' := s'.tasks[t];
      && Sensible(l') && Inside(l') && l'.pc != Blocked && s.tasks[t].pc != Blocked && s.tasks[t].pc != Woken
      && s'.holder == (if Holding(l') then Some(t) else None) && s'.hrepeat == CountOf(l')
    ensures Inv(s')
  {
    assert forall u :: u in s.tasks && u != t ==> s'.tasks[u] == s.tasks[u] && !Inside(s.tasks[u]);
    assert forall u :: u in s.tasks && Holding(s.tasks[u]) ==> Inside(s.tasks[u]);
    assert Exclusive(s') by {
      assert forall u :: u in s.tasks ==> (Inside(s'.tasks[u]) <==> Inside(s.tasks[u]));
    }
    assert Queued(s') by {
      assert forall u :: u in s.tasks ==> (s'.tasks[u].pc == Blocked <==> s.tasks[u].pc == Blocked);
    }
    assert Waking(s') by {
      assert s.val == 0;
    }
  }

  lemma {:induction false} DownInv(s: State, t: Task)
    requires Inv(s) && t in s.tasks && (s.tasks[t].pc == Down || s.tasks[t].pc == Woken)
    ensures Inv(TryDown(s, t))
  {
    hide Inv, TryDown;
    ValIsBit(s);
    if s.val == 0 {
      BlockInv(s, t);
    } else {
      TakeInv(s, t);
    }
  }

  lemma {:induction false} ValIsBit(s: State)
    requires Inv(s)
    ensures s.val == 0 || s.val == 1
  {
  }

  lemma {:induction false} BlockInv(s: State, t: Task)
    requires Inv(s) && t in s.tasks && (s.tasks[t].pc == Down || s.tasks[t].pc == Woken) && s.val == 0
    ensures Inv(TryDown(s, t))
  {
    hide Exclusive, Owned, Queued;
    var s' := TryDown(s, t);
    assert Sensible(s.tasks[t]);
    KeepsOwner(s, t, s');
    BlockQueued(s, t, s');
    assert forall u :: u in s.tasks && u != t ==> s'.tasks[u] == s.tasks[u];
  }

  lemma {:induction false} BlockQueued(s: State, t: Task, s': State)
    requires Queued(s) && t in s.tasks && s.tasks[t].pc != Blocked
    requires s'.tasks == s.tasks[t := s.tasks[t].(pc := Blocked)] && s'.waiter == [t] + s.waiter
    ensures Queued(s')
  {
    assert t !in s.waiter;
    assert forall u :: u in s'.waiter <==> u == t || u in s.waiter;
  }

  lemma {:induction false} TakeInv(s: State, t: Task)
    requires Inv(s) && t in s.tasks && (s.tasks[t].pc == Down || s.tasks[t].pc == Woken) && s.val == 1
    ensures Inv(TryDown(s, t))
  {
    hide Exclusive, Owned, Queued;
    var s' := TryDown(s, t);
    assert Sensible(s.tasks[t]);
    TakeOwner(s, t, s');
    KeepsQueue(s, t, s');
    assert forall u :: u in s.tasks && u != t ==> s'.tasks[u] == s.tasks[u];
  }

  lemma {:induction false} TakeOwner(s: State, t: Task, s': State)
    requires Exclusive(s) && Owned(s) && t in s.tasks && s.val == 1
    requires s'.tasks == s.tasks[t := Local(SetHolder, 0)]
    requires s'.val == 0 && s'.holder == s.holder && s'.hrepeat == s.hrepeat
    ensures Exclusive(s') && Owned(s')
  {
    assert forall u :: u in s.tasks ==> !Inside(s.tasks[u]);
    assert forall u :: u in s.tasks && u != t ==> s'.tasks[u] == s.tasks[u];
    assert forall u :: u in s.tasks ==> (Inside(s'.tasks[u]) <==> u == t) && !Holding(s'.tasks[u]);
    assert Inside(s'.tasks[t]);
  }

  lemma {:induction false} UpInv(s: State, t: Task)
    requires Inv(s) && t in s.tasks && s.tasks[t].pc == Up && (s.waiter != [] ==> s.waiter[0] in s.tasks)
    ensures Inv(TryUp(s, t))
  {
    var s' := TryUp(s, t);
    UpTasks(s, t);
    assert s.val == 0 by {
      assert Inside(s.tasks[t]);
    }
    assert Exclusive(s') && Owned(s') by {
      hide Queued, Waking;
      assert forall u :: u in s'.tasks ==> !Holding(s'.tasks[u]);
    }
    assert Queued(s') by {
      hide Exclusive, Owned, Waking;
      UpQueued(s, t);
    }
  }

  /** After the semaphore is raised nobody is inside, and a task that waited is awake. */
  lemma {:induction false} UpTasks(s: State, t: Task)
    requires Inv(s) && t in s.tasks && s.tasks[t].pc == Up && (s.waiter != [] ==> s.waiter[0] in s.tasks)
    ensures var s' := TryUp(s, t);
      forall u :: u in s'.tasks ==> u in s.tasks && !Inside(s'.tasks[u]) && Sensible(s'.tasks[u])
    ensures Waking(TryUp(s, t)) && !Holding(s.tasks[t]) && s.holder.None?
  {
    hide Queued;
    var s' := TryUp(s, t);
    assert Inside(s.tasks[t]);
    assert forall u :: u in s.tasks && u != t ==> !Inside(s.tasks[u]);
    if s.waiter != [] {
      var w := s.waiter[0];
      assert w != t && s.tasks[w].pc == Blocked by {
        WaiterBlocked(s);
      }
      assert s'.tasks[w].pc == Woken;
    }
  }

  lemma {:induction false} WaiterBlocked(s: State)
    requires Queued(s) && s.waiter != []
    ensures s.waiter[0] in s.tasks && s.tasks[s.waiter[0]].pc == Blocked
  {
    assert s.waiter[0] in s.waiter;
  }

  lemma {:induction false} UpQueued(s: State, t: Task)
    requires Queued(s) && t in s.tasks && s.tasks[t].pc == Up && (s.waiter != [] ==> s.waiter[0] in s.tasks)
    ensures Queued(TryUp(s, t))
  {
    var s' := TryUp(s, t);
    if s.waiter != [] {
      var w := s.waiter[0];
      WaiterBlocked(s);
      assert s.waiter == [w] + s.waiter[1..];
      assert forall u :: u in s'.waiter <==> u in s.waiter && u != w;
    }
  }

  /** Every state of every run keeps the invariant. */
  lemma {:induction false} Safety(tr: seq<State>, i: nat)
    requires Run(tr) && i < |tr|
    ensures Inv(tr[i])
  {
    if i == 0 {
      InitInv(tr[0]);
    } else {
      Safety(tr, i - 1);
      var t, c :| Step(tr[i - 1], t, c, tr[i]);
      StepInv(tr[i - 1], t, c, tr[i]);
    }
  }

  /** In every run: mutual exclusion, no failed assertion, a count equal to the nesting depth,
      no lost wake-up, and while tasks wait one that can let them in is not blocked. */
  lemma {:induction false} Guarantees(tr: seq<State>, i: nat)
    requires Run(tr) && i < |tr|
    ensures !tr[i].failed
    ensures forall t, u :: t in tr[i].tasks && u in tr[i].tasks ==>
              Inside(tr[i].tasks[t]) && Inside(tr[i].tasks[u]) ==> t == u
    ensures forall t :: t in tr[i].tasks && tr[i].tasks[t].pc == Client && tr[i].tasks[t].depth > 0 ==>
              tr[i].holder == Some(t) && tr[i].hrepeat == tr[i].tasks[t].depth
    ensures tr[i].val == 1 && tr[i].waiter != [] ==> exists t :: t in tr[i].tasks && tr[i].tasks[t].pc == Woken
    ensures tr[i].waiter != [] ==>
              exists t :: t in tr[i].tasks && tr[i].tasks[t].pc != Blocked && (tr[i].tasks[t].pc == Woken || Inside(tr[i].tasks[t]))
  {
    Safety(tr, i);
    var s := tr[i];
    if s.waiter != [] && s.val == 0 {
      var t :| t in s.tasks && Inside(s.tasks[t]);
      assert Sensible(s.tasks[t]);
    }
    forall t | t in s.tasks && s.tasks[t].pc == Client && s.tasks[t].depth > 0
      ensures s.holder == Some(t) && s.hrepeat == s.tasks[t].depth
    {
      assert Holding(s.tasks[t]) && Inside(s.tasks[t]);
    }
  }
}
