/**
  What every single step of HookRuns keeps: the list in memory, mutual exclusion, and who
  owns the records outside the list.
*/
module HookSteps {
  import opened Options
  import opened HookRuns

  // Writing obj into the last `next` word, or into the head word of an empty list.
  lemma ChainAppend(heap: map<Addr, Cell>, head: Addr, l: seq<Addr>, obj: Addr, heap': map<Addr, Cell>, head': Addr)
    requires Chain(heap, head, l) && obj in heap && obj != NULL && obj !in l && heap[obj].next == NULL
    requires l == [] ==> heap' == heap && head' == obj
    requires l != [] ==> head' == head && heap' == heap[l[|l| - 1] := heap[l[|l| - 1]].(next := obj)]
    ensures Chain(heap', head', l + [obj])
    ensures Recs(heap', l + [obj]) == Recs(heap, l) + [heap[obj].rec]
  {
    var l' := l + [obj];
    forall i | 0 <= i < |l'|
      ensures l'[i] != NULL && l'[i] in heap' && heap'[l'[i]].next == After(l', i)
    {
      if i < |l| {
        assert l'[i] == l[i] && heap[l[i]].next == After(l, i);
      }
    }
  }

  lemma OthersStay(s: State, a: Action, t: Tid)
    requires t != a.t
    ensures PcOf(Do(s, a), t) == PcOf(s, t)
  {
    if a.Tick? {
      StepOthers(s, a.t, t);
    }
  }

  lemma {:induction false} StepOthers(s: State, u: Tid, t: Tid)
    requires t != u
    ensures PcOf(Step(s, u), t) == PcOf(s, t)
  {
    match PcOf(s, u)
    case Filled(_) =>
    case AtSlot(_, _) =>
    case Look(_, _) =>
    case Store(obj, slot) =>
      assert PcOf(WriteSlot(s, u, obj, slot), t) == PcOf(s, t);
    case PopStore(_, _) =>
    case Deliver(_) =>
    case _ =>
  }

  lemma WriteSlotKeeps(s: State, l: seq<Addr>, t: Tid)
    requires Core(s, l) && PcOf(s, t).Store? && InsertsZeroed(s, Tick(t))
    ensures Core(Step(s, t), l + [PcOf(s, t).obj])
  {
    var obj, slot := PcOf(s, t).obj, PcOf(s, t).slot;
    var s', l' := Step(s, t), l + [obj];
    assert Owner(PcOf(s, t)) == obj && Cursor(l, PcOf(s, t)) && Critical(PcOf(s, t));
    ChainAppend(s.heap, s.head, l, obj, s'.heap, s'.head);
    forall u: Tid
      ensures Critical(PcOf(s', u)) <==> s'.holder == Some(u)
      ensures Cursor(l', PcOf(s', u))
    {
      assert u != t ==> PcOf(s', u) == PcOf(s, u) && !Critical(PcOf(s, u));
    }
    OwnersAfter(s, s', l, l', t);
  }

  // Writing the second cell's address into the head word.
  lemma ChainTail(heap: map<Addr, Cell>, head: Addr, l: seq<Addr>)
    requires Chain(heap, head, l) && l != []
    ensures Chain(heap, After(l, 0), l[1..]) && heap[l[0]].next == After(l, 0)
    ensures l[0] !in l[1..] && forall a :: a in l <==> a == l[0] || a in l[1..]
    ensures Recs(heap, l) == [heap[l[0]].rec] + Recs(heap, l[1..])
  {
    forall i | 0 <= i < |l[1..]|
      ensures l[1..][i] != NULL && l[1..][i] in heap && heap[l[1..][i]].next == After(l[1..], i)
    {
      assert l[1..][i] == l[i + 1] && After(l[1..], i) == After(l, i + 1);
    }
    assert l == [l[0]] + l[1..];
  }

  lemma UnlinkKeeps(s: State, l: seq<Addr>, t: Tid)
    requires Core(s, l) && PcOf(s, t).PopStore?
    ensures l != [] && Core(Step(s, t), l[1..])
  {
    assert Cursor(l, PcOf(s, t)) && Critical(PcOf(s, t));
    var s', l' := Step(s, t), l[1..];
    ChainTail(s.heap, s.head, l);
    forall u: Tid
      ensures Critical(PcOf(s', u)) <==> s'.holder == Some(u)
      ensures Cursor(l', PcOf(s', u))
    {
      assert u != t ==> PcOf(s', u) == PcOf(s, u) && !Critical(PcOf(s, u));
    }
    assert s'.popped + Recs(s.heap, l') == s.popped + Recs(s.heap, l);
    OwnersAfter(s, s', l, l', t);
  }

  // Ownership after a step of `t` that neither allocates nor frees: what the list loses
  // goes to `t`, and what the list gains comes from `t`.
  lemma OwnersAfter(s: State, s': State, l: seq<Addr>, l': seq<Addr>, t: Tid)
    requires Owned(s, l) && s'.heap.Keys == s.heap.Keys
    requires forall u: Tid :: u != t ==> PcOf(s', u) == PcOf(s, u)
    requires Creating(PcOf(s', t)) ==> Owner(PcOf(s', t)) != NULL
    requires var o, o' := Owner(PcOf(s, t)), Owner(PcOf(s', t));
      || (o' == o && forall a :: a in l' <==> a in l)
      || (o != NULL && o' == NULL && forall a :: a in l' <==> a in l || a == o)
      || (o == NULL && o' in l && o' !in l' && o' in s.heap && forall a :: a in l <==> a in l' || a == o')
    ensures Owned(s', l')
  {
    forall u: Tid | Owner(PcOf(s', u)) != NULL
      ensures Owner(PcOf(s', u)) in s'.heap && Owner(PcOf(s', u)) !in l'
    {
      assert u != t ==>
               Owner(PcOf(s, u)) in s.heap && Owner(PcOf(s, u)) !in l && Owner(PcOf(s, u)) != Owner(PcOf(s, t));
    }
    forall a | a in s'.heap
      ensures a in l' || exists u: Tid :: Owner(PcOf(s', u)) == a
    {
      if a !in l' && a != Owner(PcOf(s', t)) {
        assert a !in l;
        var u: Tid :| Owner(PcOf(s, u)) == a;
        assert u != t && Owner(PcOf(s', u)) == a;
      }
    }
  }

  // Steps that read shared memory, take or release the mutex, or touch only hook_id.
  predicate Quiet(pc: Pc) {
    !pc.Store? && !pc.PopStore? && !pc.Deliver?
  }

  // Nothing in the list changes, and at most the mutex changes hands.
  ghost predicate QuietStep(s: State, s': State, l: seq<Addr>, t: Tid) {
    var pc, pc' := PcOf(s, t), PcOf(s', t);
    && s' == s.(holder := s'.holder, hookId := s'.hookId, pcs := s'.pcs)
    && Cursor(l, pc') && Owner(pc') == Owner(pc) && (Creating(pc') ==> Creating(pc))
    && ((s'.holder == s.holder && Critical(pc') == Critical(pc))
        || (s.holder == None && s'.holder == Some(t) && Critical(pc'))
        || (s.holder == Some(t) && s'.holder == None && !Critical(pc')))
  }

  lemma SlotQuiet(s: State, l: seq<Addr>, t: Tid)
    requires Core(s, l) && PcOf(s, t).AtSlot?
    ensures QuietStep(s, Step(s, t), l, t)
  {
    assert Cursor(l, PcOf(s, t));
    if PcOf(s, t).slot.NextOf? {
      NextInList(s, l, PcOf(s, t).slot.node);
    }
  }

  lemma NodeQuiet(s: State, l: seq<Addr>, t: Tid)
    requires Core(s, l) && (PcOf(s, t).Look? || PcOf(s, t).PopNext?)
    ensures QuietStep(s, Step(s, t), l, t)
  {
    assert Cursor(l, PcOf(s, t));
    NextInList(s, l, PcOf(s, t).node);
  }

  lemma QuietShape(s: State, l: seq<Addr>, t: Tid)
    requires Core(s, l) && Quiet(PcOf(s, t))
    ensures QuietStep(s, Step(s, t), l, t)
  {
    var pc := PcOf(s, t);
    if pc.AtSlot? {
      SlotQuiet(s, l, t);
    } else if pc.Look? || pc.PopNext? {
      NodeQuiet(s, l, t);
    } else if pc.Filled? || pc.WantPop? {
      LockQuiet(s, l, t);
    } else {
      OtherQuiet(s, l, t);
    }
  }

  lemma OtherQuiet(s: State, l: seq<Addr>, t: Tid)
    requires Core(s, l) && Quiet(PcOf(s, t)) && !PcOf(s, t).AtSlot? && !PcOf(s, t).Look? && !PcOf(s, t).PopNext?
    requires !PcOf(s, t).Filled? && !PcOf(s, t).WantPop?
    ensures QuietStep(s, Step(s, t), l, t)
  {
    assert Critical(PcOf(s, t)) <==> s.holder == Some(t);
    if PcOf(s, t).PopRead? {
      assert s.head == if l == [] then NULL else l[0];
    }
  }

  lemma LockQuiet(s: State, l: seq<Addr>, t: Tid)
    requires PcOf(s, t).Filled? || PcOf(s, t).WantPop?
    ensures QuietStep(s, Step(s, t), l, t)
  {
  }

  lemma NextInList(s: State, l: seq<Addr>, a: Addr)
    requires Chain(s.heap, s.head, l) && a in l
    ensures a != NULL && a in s.heap
    ensures s.heap[a].next == NULL ==> a == l[|l| - 1]
    ensures s.heap[a].next != NULL ==> s.heap[a].next in l
    ensures a == l[0] ==> s.heap[a].next == After(l, 0)
  {
    var i :| 0 <= i < |l| && l[i] == a;
    assert s.heap[l[i]].next == After(l, i);
  }

  lemma {:induction false} QuietKeeps(s: State, l: seq<Addr>, t: Tid)
    requires Core(s, l) && Quiet(PcOf(s, t))
    ensures Core(Step(s, t), l)
  {
    var s' := Step(s, t);
    QuietShape(s, l, t);
    forall u: Tid
      ensures u != t ==> PcOf(s', u) == PcOf(s, u)
      ensures Critical(PcOf(s', u)) <==> s'.holder == Some(u)
      ensures Cursor(l, PcOf(s', u))
    {
      if u != t {
        OthersStay(s, Tick(t), u);
      }
      assert Critical(PcOf(s, u)) <==> s.holder == Some(u);
    }
    OwnersAfter(s, s', l, l, t);
  }

  // The chain depends only on the cells in it.
  lemma ChainFrame(heap: map<Addr, Cell>, head: Addr, l: seq<Addr>, heap': map<Addr, Cell>)
    requires Chain(heap, head, l)
    requires forall a :: a in l ==> a in heap' && heap'[a] == heap[a]
    ensures Chain(heap', head, l) && Recs(heap', l) == Recs(heap, l)
  {
  }

  // Allocating and freeing happen outside the list and outside the critical section.
  lemma SameList(s: State, s': State, l: seq<Addr>, t: Tid)
    requires ListOk(s, l) && !s'.fault
    requires s'.head == s.head && s'.holder == s.holder && s'.popped == s.popped && s'.appended == s.appended
    requires forall a :: a in l ==> a in s'.heap && s'.heap[a] == s.heap[a]
    requires forall u: Tid :: u != t ==> PcOf(s', u) == PcOf(s, u)
    requires !Critical(PcOf(s, t)) && !Critical(PcOf(s', t))
    ensures ListOk(s', l)
  {
    ChainFrame(s.heap, s.head, l, s'.heap);
    forall u: Tid
      ensures Critical(PcOf(s', u)) <==> s'.holder == Some(u)
      ensures Cursor(l, PcOf(s', u))
    {
      assert (Critical(PcOf(s, u)) <==> s.holder == Some(u)) && Cursor(l, PcOf(s, u));
    }
  }

  lemma FreeKeepsOwned(s: State, l: seq<Addr>, t: Tid)
    requires Owned(s, l) && PcOf(s, t).Deliver?
    ensures Owned(FreePopped(s, t, PcOf(s, t).node), l)
  {
    var node, s' := PcOf(s, t).node, FreePopped(s, t, PcOf(s, t).node);
    assert Owner(PcOf(s, t)) == node;
    if node == NULL {
      OwnersAfter(s, s', l, l, t);
    } else {
      OwnersWithout(s, s', l, t);
    }
  }

  lemma {:induction false} FreeKeeps(s: State, l: seq<Addr>, t: Tid)
    requires Core(s, l) && PcOf(s, t).Deliver?
    ensures Core(Step(s, t), l)
  {
    var node := PcOf(s, t).node;
    assert Owner(PcOf(s, t)) == node;
    assert node != NULL ==> node in s.heap && node !in l;
    FreeKeepsOwned(s, l, t);
    SameList(s, Step(s, t), l, t);
  }

  // Ownership when `t` frees the record it owns.
  lemma OwnersWithout(s: State, s': State, l: seq<Addr>, t: Tid)
    requires Owned(s, l) && Owner(PcOf(s, t)) != NULL && s'.heap == s.heap - {Owner(PcOf(s, t))}
    requires PcOf(s', t) == Idle && forall u: Tid :: u != t ==> PcOf(s', u) == PcOf(s, u)
    ensures Owned(s', l)
  {
    var node := Owner(PcOf(s, t));
    forall u: Tid | Owner(PcOf(s', u)) != NULL
      ensures Owner(PcOf(s', u)) in s'.heap && Owner(PcOf(s', u)) !in l
    {
      assert u != t && Owner(PcOf(s, u)) != node;
    }
    forall a | a in s'.heap && a !in l
      ensures exists u: Tid :: Owner(PcOf(s', u)) == a
    {
      var u: Tid :| Owner(PcOf(s, u)) == a;
      assert u != t && Owner(PcOf(s', u)) == a;
    }
  }

  lemma StartOwned(s: State, l: seq<Addr>, t: Tid, addr: Addr, cell: Cell)
    requires Owned(s, l) && PcOf(s, t) == Idle && addr !in s.heap && addr !in l && addr != NULL
    ensures Owned(Goto(s.(heap := s.heap[addr := cell], allocs := s.allocs + 1), t, Filled(addr)), l)
  {
    var s' := Goto(s.(heap := s.heap[addr := cell], allocs := s.allocs + 1), t, Filled(addr));
    assert PcOf(s', t) == Filled(addr) && forall u: Tid :: u != t ==> PcOf(s', u) == PcOf(s, u);
    forall a | a in s'.heap && a !in l
      ensures exists u: Tid :: Owner(PcOf(s', u)) == a
    {
      if a == addr {
        assert Owner(PcOf(s', t)) == a;
      } else {
        var u: Tid :| Owner(PcOf(s, u)) == a;
        assert Owner(PcOf(s', u)) == a;
      }
    }
  }

  lemma OopsKeeps(s: State, l: seq<Addr>, t: Tid)
    requires Core(s, l) && PcOf(s, t) == Idle
    ensures Core(Goto(s, t, Oops), l)
  {
    SameList(s, Goto(s, t, Oops), l, t);
    OwnersAfter(s, Goto(s, t, Oops), l, l, t);
  }

  lemma StartKeeps(s: State, l: seq<Addr>, t: Tid, addr: Addr, junk: Addr, pid: int, parentPid: int)
    requires Core(s, l)
    ensures Core(StartExecve(s, t, addr, junk, pid, parentPid), l)
  {
    if PcOf(s, t) == Idle && addr !in s.heap {
      if addr == NULL {
        OopsKeeps(s, l, t);
      } else {
        var s' := StartExecve(s, t, addr, junk, pid, parentPid);
        assert addr !in l;
        SameList(s, s', l, t);
        StartOwned(s, l, t, addr, s'.heap[addr]);
      }
    }
  }

  lemma GetHookKeeps(s: State, l: seq<Addr>, t: Tid)
    requires Core(s, l)
    ensures Core(Do(s, GetHook(t)), l)
  {
    var s' := Do(s, GetHook(t));
    if PcOf(s, t) == Idle {
      SameList(s, s', l, t);
      OwnersAfter(s, s', l, l, t);
    }
  }

  lemma {:induction false} TickKeeps(s: State, l: seq<Addr>, t: Tid)
    requires Core(s, l) && InsertsZeroed(s, Tick(t))
    ensures Core(Step(s, t), ListAfter(s, l, Tick(t)))
  {
    if Quiet(PcOf(s, t)) {
      QuietKeeps(s, l, t);
    } else if PcOf(s, t).Store? {
      WriteSlotKeeps(s, l, t);
    } else if PcOf(s, t).PopStore? {
      UnlinkKeeps(s, l, t);
    } else {
      FreeKeeps(s, l, t);
    }
  }

  lemma {:induction false} ActionKeeps(s: State, l: seq<Addr>, a: Action)
    requires Core(s, l) && InsertsZeroed(s, a)
    ensures Core(Do(s, a), ListAfter(s, l, a))
  {
    match a
    case Execve(t, addr, junk, pid, parentPid) => StartKeeps(s, l, t, addr, junk, pid, parentPid);
    case GetHook(t) => GetHookKeeps(s, l, t);
    case Tick(t) => TickKeeps(s, l, t);
  }
}
