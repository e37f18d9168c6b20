/**
  What holds in every run of HookRuns: the refinement of the queue and when it breaks, the
  mutex, null dereferences, and progress.
*/
module HookSafety {
  import opened Options
  import opened HookRuns
  import opened HookSteps

  // ------------------------------------------------------------------
  // Every run: refinement, and who may change the list
  // ------------------------------------------------------------------

  // No record that is still outside the list carries a stray `next` word.
  ghost predicate Zeroed(s: State) {
    forall t: Tid :: Creating(PcOf(s, t)) && PcOf(s, t).obj in s.heap ==> s.heap[PcOf(s, t).obj].next == NULL
  }

  // A step changes no `next` word but that of a cell in the list.
  lemma OutsideUntouched(s: State, l: seq<Addr>, a: Action, x: Addr)
    requires Core(s, l) && x in s.heap && x !in l && x in Do(s, a).heap
    ensures Do(s, a).heap[x] == s.heap[x]
  {
    if a.Tick? && PcOf(s, a.t).Store? {
      assert Cursor(l, PcOf(s, a.t));
    }
  }

  // A thread holds a record for insertion because it did before, or because it just got it.
  lemma {:induction false} CreatingBefore(s: State, a: Action, t: Tid)
    requires Creating(PcOf(Do(s, a), t))
    ensures (Creating(PcOf(s, t)) && PcOf(s, t).obj == PcOf(Do(s, a), t).obj)
            || (a.Execve? && t == a.t && PcOf(Do(s, a), t) == Filled(a.addr) && a.addr !in s.heap
                && a.addr in Do(s, a).heap && Do(s, a).heap[a.addr].next == a.junk)
  {
    if t != a.t {
      OthersStay(s, a, t);
    } else if a.Tick? {
      match PcOf(s, t)
      case Filled(_) =>
      case AtSlot(_, _) =>
      case Look(_, _) =>
      case Store(_, _) =>
      case _ =>
    }
  }

  lemma {:induction false} ZeroedKeeps(s: State, l: seq<Addr>, a: Action)
    requires Core(s, l) && Zeroed(s) && (a.Execve? ==> a.junk == NULL)
    ensures InsertsZeroed(s, a) && Zeroed(Do(s, a))
  {
    forall t: Tid | Creating(PcOf(Do(s, a), t)) && PcOf(Do(s, a), t).obj in Do(s, a).heap
      ensures Do(s, a).heap[PcOf(Do(s, a), t).obj].next == NULL
    {
      CreatingBefore(s, a, t);
      if Creating(PcOf(s, t)) && PcOf(s, t).obj == PcOf(Do(s, a), t).obj {
        ZeroedCell(s, l, a, t);
      }
    }
  }

  lemma {:induction false} ZeroedCell(s: State, l: seq<Addr>, a: Action, t: Tid)
    requires Core(s, l) && Zeroed(s) && Creating(PcOf(s, t)) && PcOf(s, t).obj in Do(s, a).heap
    ensures Do(s, a).heap[PcOf(s, t).obj].next == NULL
  {
    var obj := PcOf(s, t).obj;
    assert Owner(PcOf(s, t)) == obj && obj in s.heap && obj !in l;
    OutsideUntouched(s, l, a, obj);
  }

  // Every record that a run inserts has a null `next` word at that moment.
  ghost predicate CleanInserts(schedule: seq<Action>)
    decreases |schedule|
  {
    schedule != [] ==>
      var before, a := schedule[..|schedule| - 1], schedule[|schedule| - 1];
      CleanInserts(before) && InsertsZeroed(Run(INIT, before), a)
  }

  lemma {:induction false} RunIsCore(schedule: seq<Action>) returns (l: seq<Addr>)
    requires CleanInserts(schedule)
    ensures Core(Run(INIT, schedule), l)
    decreases |schedule|
  {
    if schedule == [] {
      l := [];
    } else {
      var before, a := schedule[..|schedule| - 1], schedule[|schedule| - 1];
      l := RunIsCore(before);
      ActionKeeps(Run(INIT, before), l, a);
      l := ListAfter(Run(INIT, before), l, a);
    }
  }

  // It is enough that every allocation hands out zeroed memory.
  lemma {:induction false} ZeroingIsClean(schedule: seq<Action>)
    requires Zeroing(schedule)
    ensures CleanInserts(schedule) && Zeroed(Run(INIT, schedule))
    decreases |schedule|
  {
    if schedule != [] {
      var before, a := schedule[..|schedule| - 1], schedule[|schedule| - 1];
      ZeroingIsClean(before);
      var l := RunIsCore(before);
      ZeroedKeeps(Run(INIT, before), l, a);
    }
  }

  lemma {:induction false} OneMore(s: State, a: seq<Action>, x: Action)
    ensures Run(s, a + [x]) == Do(Run(s, a), x)
  {
    assert (a + [x])[..|a|] == a;
  }

  lemma {:induction false} CleanOneMore(a: seq<Action>, x: Action)
    ensures CleanInserts(a + [x]) <==> CleanInserts(a) && InsertsZeroed(Run(INIT, a), x)
  {
    assert (a + [x])[..|a|] == a;
  }

  lemma {:induction false} CleanPrefix(a: seq<Action>, b: seq<Action>)
    requires CleanInserts(a + b)
    ensures CleanInserts(a)
    decreases |b|
  {
    if b == [] {
      assert a + b == a;
    } else {
      assert (a + b)[..|a + b| - 1] == a + b[..|b| - 1];
      CleanPrefix(a, b[..|b| - 1]);
    }
  }

  lemma {:induction false} CoreRefines(s: State, l: seq<Addr>)
    requires ListOk(s, l)
    ensures Walk(s.heap, s.head, |s.heap|) == Some(l) && Refines(s)
  {
    DistinctFits(l, s.heap.Keys);
    ChainWalks(s.heap, s.head, l, |s.heap|);
  }

  // Main result: in every run, whatever the interleaving, the list in memory ends in null
  // and holds exactly the records appended and not yet popped, oldest first.
  lemma {:induction false} QueueRefinement(schedule: seq<Action>)
    requires CleanInserts(schedule)
    ensures var s := Run(INIT, schedule); !s.fault && Refines(s)
  {
    var l := RunIsCore(schedule);
    CoreRefines(Run(INIT, schedule), l);
  }

  // Only the thread that holds the mutex changes what the list looks like, and it changes
  // it in two ways only: by one record at the tail or one record at the head.
  lemma {:induction false} OnlyHolderChanges(schedule: seq<Action>, a: Action)
    requires CleanInserts(schedule + [a])
    ensures var s, s' := Run(INIT, schedule), Run(INIT, schedule + [a]);
            var w, w' := Walk(s.heap, s.head, |s.heap|), Walk(s'.heap, s'.head, |s'.heap|);
            && w.Some? && w'.Some?
            && (w' != w ==>
                  && a.Tick? && s.holder == Some(a.t)
                  && ((PcOf(s, a.t).Store? && w'.value == w.value + [PcOf(s, a.t).obj])
                      || (PcOf(s, a.t).PopStore? && w.value == [PcOf(s, a.t).node] + w'.value)))
  {
    CleanOneMore(schedule, a);
    OneMore(INIT, schedule, a);
    var l := RunIsCore(schedule);
    var s := Run(INIT, schedule);
    ActionKeeps(s, l, a);
    CoreRefines(s, l);
    CoreRefines(Do(s, a), ListAfter(s, l, a));
    ListAfterBy(s, l, a);
  }

  lemma {:induction false} ListAfterBy(s: State, l: seq<Addr>, a: Action)
    requires Core(s, l)
    ensures var l' := ListAfter(s, l, a);
            l' != l ==>
              && a.Tick? && s.holder == Some(a.t)
              && ((PcOf(s, a.t).Store? && l' == l + [PcOf(s, a.t).obj])
                  || (PcOf(s, a.t).PopStore? && l == [PcOf(s, a.t).node] + l'))
  {
    if a.Tick? {
      assert Critical(PcOf(s, a.t)) <==> s.holder == Some(a.t);
      assert Cursor(l, PcOf(s, a.t));
      assert l != [] ==> l == [l[0]] + l[1..];
    }
  }

  // Main result, the other half: the write that inserts a record keeps the queue intact
  // exactly when that record's own `next` word is null.
  lemma {:induction false} InsertKeepsQueueIff(s: State, l: seq<Addr>, t: Tid)
    requires Core(s, l) && PcOf(s, t).Store?
    ensures PcOf(s, t).obj in s.heap
    ensures Refines(Step(s, t)) <==> s.heap[PcOf(s, t).obj].next == NULL
  {
    var obj, s' := PcOf(s, t).obj, Step(s, t);
    assert Owner(PcOf(s, t)) == obj && Cursor(l, PcOf(s, t));
    if s.heap[obj].next == NULL {
      WriteSlotKeeps(s, l, t);
      CoreRefines(s', l + [obj]);
    } else if Walk(s'.heap, s'.head, |s'.heap|).Some? {
      var l' := l + [obj];
      forall i | 0 <= i < |l'| - 1
        ensures s'.heap[l'[i]].next == l'[i + 1]
      {
        assert s.heap[l[i]].next == After(l, i);
      }
      WalkVisits(s'.heap, s'.head, |s'.heap|, l', s.heap[obj].next);
      assert |s'.appended| == |s'.popped| + |l'|;
    }
  }

  // Main result, over whole runs: the queue is intact after every step exactly when every
  // record was inserted with a null `next` word.
  lemma {:induction false} RunsRefineIff(schedule: seq<Action>)
    ensures (forall n :: 0 <= n <= |schedule| ==> Refines(Run(INIT, schedule[..n]))) <==> CleanInserts(schedule)
    decreases |schedule|
  {
    if CleanInserts(schedule) {
      forall n | 0 <= n <= |schedule|
        ensures Refines(Run(INIT, schedule[..n]))
      {
        assert schedule == schedule[..n] + schedule[n..];
        CleanPrefix(schedule[..n], schedule[n..]);
        QueueRefinement(schedule[..n]);
      }
    } else {
      var n := FirstBreak(schedule);
      assert !Refines(Run(INIT, schedule[..n]));
    }
  }

  // What can be seen on the schedule alone: zeroed allocations keep the queue intact.
  lemma {:induction false} ZeroingRefines(schedule: seq<Action>, n: nat)
    requires Zeroing(schedule) && n <= |schedule|
    ensures Refines(Run(INIT, schedule[..n]))
  {
    ZeroingIsClean(schedule);
    RunsRefineIff(schedule);
  }

  // The first insertion of a record with another `next` word breaks the queue.
  lemma {:induction false} FirstBreak(schedule: seq<Action>) returns (n: nat)
    requires !CleanInserts(schedule)
    ensures n <= |schedule| && !Refines(Run(INIT, schedule[..n]))
    decreases |schedule|
  {
    var before, a := schedule[..|schedule| - 1], schedule[|schedule| - 1];
    if CleanInserts(before) {
      var l := RunIsCore(before);
      InsertKeepsQueueIff(Run(INIT, before), l, a.t);
      n := |schedule|;
      assert schedule[..n] == schedule;
    } else {
      n := FirstBreak(before);
      assert before[..n] == schedule[..n];
    }
  }

  lemma {:induction false} FirstSteps(call: Action)
    requires call.Execve? && call.addr != NULL
    ensures var s1 := Do(INIT, call);
            var s2 := Step(s1, call.t);
            var s3 := Step(s2, call.t);
            && PcOf(s1, call.t) == Filled(call.addr) && PcOf(s2, call.t) == AtSlot(call.addr, HeadSlot)
            && PcOf(s3, call.t) == Store(call.addr, HeadSlot)
            && call.addr in s3.heap && s3.heap[call.addr].next == call.junk
  {
    var s1 := Do(INIT, call);
    assert PcOf(s1, call.t) == Filled(call.addr) && s1.holder == None && s1.head == NULL;
    assert PcOf(Step(s1, call.t), call.t) == AtSlot(call.addr, HeadSlot);
  }

  // One call, alone, up to the write that inserts its record.
  lemma {:induction false} FirstCall(call: Action) returns (schedule: seq<Action>)
    requires call.Execve? && call.addr != NULL
    ensures schedule == [call, Tick(call.t), Tick(call.t)] && CleanInserts(schedule)
    ensures var s := Run(INIT, schedule);
            PcOf(s, call.t) == Store(call.addr, HeadSlot) && call.addr in s.heap && s.heap[call.addr].next == call.junk
  {
    FirstSteps(call);
    OneMore(INIT, [], call);
    CleanOneMore([], call);
    var one, two := [] + [call], [call] + [Tick(call.t)];
    OneMore(INIT, one, Tick(call.t));
    CleanOneMore(one, Tick(call.t));
    assert one == [call];
    OneMore(INIT, two, Tick(call.t));
    CleanOneMore(two, Tick(call.t));
    schedule := two + [Tick(call.t)];
  }

  // A run from the initial state in which one call, alone, breaks the queue.
  lemma {:induction false} JunkBreaksQueue(call: Action) returns (schedule: seq<Action>)
    requires call.Execve? && call.addr != NULL && call.junk != NULL
    ensures schedule == [call, Tick(call.t), Tick(call.t), Tick(call.t)] && !Refines(Run(INIT, schedule))
  {
    var before := FirstCall(call);
    var l := RunIsCore(before);
    InsertKeepsQueueIff(Run(INIT, before), l, call.t);
    OneMore(INIT, before, Tick(call.t));
    schedule := before + [Tick(call.t)];
  }

  // ------------------------------------------------------------------
  // The mutex, in every run, also when the list is broken
  // ------------------------------------------------------------------

  lemma {:induction false} HolderAfter(s: State, t: Tid)
    requires Critical(PcOf(s, t)) <==> s.holder == Some(t)
    ensures var s', pc, pc' := Step(s, t), PcOf(s, t), PcOf(Step(s, t), t);
            || (s'.holder == s.holder && Critical(pc') == Critical(pc))
            || (s.holder == None && s'.holder == Some(t) && Critical(pc'))
            || (s.holder == Some(t) && s'.holder == None && !Critical(pc'))
  {
    match PcOf(s, t)
    case AtSlot(_, _) =>
    case Look(_, _) =>
    case Store(_, _) =>
    case PopStore(_, _) =>
    case Deliver(_) =>
    case _ =>
  }

  // Main result, for every schedule: a thread is in a critical section exactly while it
  // holds the mutex.
  lemma {:induction false} MutexExcludes(schedule: seq<Action>, t: Tid)
    ensures Critical(PcOf(Run(INIT, schedule), t)) <==> Run(INIT, schedule).holder == Some(t)
    decreases |schedule|
  {
    if schedule != [] {
      var before, a := schedule[..|schedule| - 1], schedule[|schedule| - 1];
      MutexExcludes(before, t);
      MutexExcludes(before, a.t);
      if t != a.t {
        OthersStay(Run(INIT, before), a, t);
      }
      if a.Tick? {
        HolderAfter(Run(INIT, before), a.t);
      }
    }
  }

  // The head word or the `next` word of a record that stays in memory.
  ghost predicate Rewired(s: State, s': State) {
    s'.head != s.head || exists x :: x in s.heap && x in s'.heap && s'.heap[x].next != s.heap[x].next
  }

  // Main result, for every schedule: only the thread that holds the mutex changes a pointer.
  lemma {:induction false} OnlyHolderWrites(schedule: seq<Action>, a: Action)
    ensures var s := Run(INIT, schedule);
            Rewired(s, Do(s, a)) ==> a.Tick? && s.holder == Some(a.t)
  {
    var s := Run(INIT, schedule);
    if Rewired(s, Do(s, a)) {
      MutexExcludes(schedule, a.t);
      if a.Tick? {
        WriteIsCritical(s, a.t);
      }
    }
  }

  lemma {:induction false} WriteIsCritical(s: State, t: Tid)
    requires Rewired(s, Step(s, t))
    ensures Critical(PcOf(s, t))
  {
    match PcOf(s, t)
    case AtSlot(_, _) =>
    case Look(_, _) =>
    case PopNext(_) =>
    case Deliver(_) =>
    case _ =>
  }

  // ------------------------------------------------------------------
  // Readers of an empty queue, and progress
  // ------------------------------------------------------------------

  // The thread has taken, or is bound to take, a null pointer for a record.
  predicate Doomed(pc: Pc) {
    pc == PopDone(NULL) || pc == Deliver(NULL) || pc == Oops
  }

  // Main result: a reader ends in a null dereference exactly when everything appended had
  // been popped at the moment it read the head, and a caller exactly when kmalloc failed.
  lemma {:induction false} NullDereferenceIff(schedule: seq<Action>, a: Action, t: Tid)
    requires CleanInserts(schedule)
    ensures var s := Run(INIT, schedule);
            Doomed(PcOf(Do(s, a), t)) <==>
              || Doomed(PcOf(s, t))
              || (t == a.t && a.Tick? && PcOf(s, t).PopRead? && s.popped == s.appended)
              || (t == a.t && a.Execve? && PcOf(s, t).Idle? && a.addr == NULL)
  {
    var l := RunIsCore(schedule);
    var s := Run(INIT, schedule);
    if t != a.t {
      OthersStay(s, a, t);
    } else if a.Tick? {
      assert s.popped == s.appended <==> l == [];
      StepDoomed(s, l, t);
    }
  }

  lemma {:induction false} StepDoomed(s: State, l: seq<Addr>, t: Tid)
    requires Core(s, l)
    ensures Doomed(PcOf(Step(s, t), t)) <==> Doomed(PcOf(s, t)) || (PcOf(s, t).PopRead? && l == [])
  {
    assert Cursor(l, PcOf(s, t));
    match PcOf(s, t)
    case AtSlot(_, _) =>
    case Look(_, _) =>
    case Store(_, _) =>
    case PopNext(_) =>
    case PopStore(_, _) =>
    case Deliver(_) =>
    case _ =>
  }

  // No run gets stuck: while some thread is inside a call, some thread can move.  In
  // particular a thread that died on a null pointer has not kept the mutex.
  lemma {:induction false} AlwaysProgress(schedule: seq<Action>, t: Tid)
    requires CleanInserts(schedule)
    requires var pc := PcOf(Run(INIT, schedule), t); pc != Idle && pc != Oops
    ensures var s := Run(INIT, schedule); exists u: Tid :: Do(s, Tick(u)) != s
  {
    var l := RunIsCore(schedule);
    var s := Run(INIT, schedule);
    var u := if s.holder.Some? then s.holder.value else t;
    assert Critical(PcOf(s, u)) <==> s.holder == Some(u);
    TickMoves(s, l, u);
    assert Do(s, Tick(u)) != s;
  }

  lemma {:induction false} TickMoves(s: State, l: seq<Addr>, t: Tid)
    requires Core(s, l) && PcOf(s, t) != Idle && PcOf(s, t) != Oops
    requires s.holder == None || s.holder == Some(t)
    ensures Step(s, t) != s
  {
    assert Step(s, t).fault || PcOf(Step(s, t), t) != PcOf(s, t) ==> Step(s, t) != s;
    assert Critical(PcOf(s, t)) <==> s.holder == Some(t);
    match PcOf(s, t)
    case AtSlot(_, _) =>
    case Look(_, _) =>
    case Store(_, _) =>
    case PopNext(_) =>
    case PopStore(_, _) =>
    case Deliver(_) =>
    case _ =>
  }
}
