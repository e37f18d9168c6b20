/**
  One thread of HookRuns on its own: how many steps the traversal of add_hook takes, when the
  mutex comes free, and that an uninterrupted call does what HookQueue's methods do.
*/
module HookSolo {
  import opened Options
  import opened HookRuns
  import opened HookSteps
  import opened HookSafety
  import HookQueue

  lemma {:induction false} RunAppends(s: State, a: seq<Action>, b: seq<Action>)
    ensures Run(s, a + b) == Run(Run(s, a), b)
    decreases |b|
  {
    if b == [] {
      assert a + b == a;
    } else {
      assert (a + b)[..|a + b| - 1] == a + b[..|b| - 1];
      RunAppends(s, a, b[..|b| - 1]);
    }
  }

  // ------------------------------------------------------------------
  // Repeating a step
  // ------------------------------------------------------------------

  function Iterate<S>(f: S -> S, s: S, n: nat): S {
    if n == 0 then s else f(Iterate(f, s, n - 1))
  }

  // n steps lead from one state to another.
  ghost predicate Leads<S>(f: S -> S, s: S, n: nat, end: S) {
    Iterate(f, s, n) == end
  }

  lemma LeadsOne<S>(f: S -> S, s: S, end: S)
    requires f(s) == end
    ensures Leads(f, s, 1, end)
  {
    assert Iterate(f, s, 0) == s;
  }

  lemma {:induction false} LeadsOn<S>(f: S -> S, s: S, m: nat, mid: S, n: nat, end: S)
    requires Leads(f, s, m, mid) && Leads(f, mid, n, end)
    ensures Leads(f, s, m + n, end)
    decreases n
  {
    if n > 0 {
      LeadsOn(f, s, m, mid, n - 1, Iterate(f, mid, n - 1));
    }
  }

  // From each place to the next one in two steps.
  ghost predicate Hop<S>(f: S -> S, at: seq<S>, j: nat) {
    j + 1 < |at| ==> Leads(f, at[j], 2, at[j + 1])
  }

  lemma {:induction false} LeadsAlong<S>(f: S -> S, start: S, at: seq<S>, i: nat)
    requires i < |at| && Leads(f, start, 1, at[0])
    requires forall j :: 0 <= j < i ==> Hop(f, at, j)
    ensures Leads(f, start, 2 * i + 1, at[i])
  {
    if i > 0 {
      LeadsAlong(f, start, at, i - 1);
      assert Hop(f, at, i - 1);
      LeadsOn(f, start, 2 * i - 1, at[i - 1], 2, at[i]);
    }
  }

  function StepOf(t: Tid): State -> State {
    s => Step(s, t)
  }

  // The schedule with n steps of one thread.
  function Ticks(t: Tid, n: nat): seq<Action> {
    if n == 0 then [] else Ticks(t, n - 1) + [Tick(t)]
  }

  lemma {:induction false} TicksAre(s: State, t: Tid, n: nat)
    ensures Run(s, Ticks(t, n)) == Iterate(StepOf(t), s, n)
  {
    if n > 0 {
      TicksAre(s, t, n - 1);
      OneMore(s, Ticks(t, n - 1), Tick(t));
    }
  }

  // ------------------------------------------------------------------
  // The traversal
  // ------------------------------------------------------------------

  lemma GotoTwice(s: State, t: Tid, pc: Pc, pc': Pc)
    ensures Goto(Goto(s, t, pc), t, pc') == Goto(s, t, pc') && PcOf(Goto(s, t, pc), t) == pc
  {
  }

  lemma LookStep(s: State, l: seq<Addr>, t: Tid, obj: Addr, i: nat)
    requires Chain(s.heap, s.head, l) && i < |l|
    ensures Step(Goto(s, t, Look(obj, l[i])), t)
            == Goto(s, t, if i + 1 < |l| then AtSlot(obj, NextOf(l[i])) else Store(obj, NextOf(l[i])))
  {
    assert s.heap[l[i]].next == After(l, i);
    GotoTwice(s, t, Look(obj, l[i]), if i + 1 < |l| then AtSlot(obj, NextOf(l[i])) else Store(obj, NextOf(l[i])));
  }

  lemma SlotStep(s: State, l: seq<Addr>, t: Tid, obj: Addr, i: nat)
    requires Chain(s.heap, s.head, l) && i + 1 < |l|
    ensures Step(Goto(s, t, AtSlot(obj, NextOf(l[i]))), t) == Goto(s, t, Look(obj, l[i + 1]))
  {
    assert s.heap[l[i]].next == After(l, i);
    GotoTwice(s, t, AtSlot(obj, NextOf(l[i])), Look(obj, l[i + 1]));
  }

  lemma HeadStep(s: State, l: seq<Addr>, t: Tid, obj: Addr)
    requires Chain(s.heap, s.head, l)
    ensures Step(Goto(s, t, AtSlot(obj, HeadSlot)), t)
            == Goto(s, t, if l == [] then Store(obj, HeadSlot) else Look(obj, l[0]))
  {
    GotoTwice(s, t, AtSlot(obj, HeadSlot), if l == [] then Store(obj, HeadSlot) else Look(obj, l[0]));
  }

  function Looking(s: State, t: Tid, obj: Addr, a: Addr): State {
    Goto(s, t, Look(obj, a))
  }

  lemma NextCell(s: State, l: seq<Addr>, t: Tid, obj: Addr, i: nat)
    requires Chain(s.heap, s.head, l) && i + 1 < |l|
    ensures Leads(StepOf(t), Looking(s, t, obj, l[i]), 2, Looking(s, t, obj, l[i + 1]))
  {
    var mid := Goto(s, t, AtSlot(obj, NextOf(l[i])));
    LookStep(s, l, t, obj, i);
    LeadsOne(StepOf(t), Looking(s, t, obj, l[i]), mid);
    SlotStep(s, l, t, obj, i);
    LeadsOne(StepOf(t), mid, Looking(s, t, obj, l[i + 1]));
    LeadsOn(StepOf(t), Looking(s, t, obj, l[i]), 1, mid, 1, Looking(s, t, obj, l[i + 1]));
  }

  function Places(s: State, l: seq<Addr>, t: Tid, obj: Addr): (r: seq<State>)
    ensures |r| == |l| && forall i :: 0 <= i < |l| ==> r[i] == Looking(s, t, obj, l[i])
  {
    seq(|l|, i requires 0 <= i < |l| => Looking(s, t, obj, l[i]))
  }

  // The steps from the first read of add_hook to its write, and the slot it writes.
  function Reads(l: seq<Addr>): nat {
    if l == [] then 1 else 2 * |l|
  }

  function LastSlot(l: seq<Addr>): Slot {
    if l == [] then HeadSlot else NextOf(l[|l| - 1])
  }

  // The recursion of add_hook comes to cell i after 2 i + 1 steps and has changed nothing.
  lemma LooksAt(s: State, l: seq<Addr>, t: Tid, obj: Addr, i: nat)
    requires Chain(s.heap, s.head, l) && i < |l|
    ensures Leads(StepOf(t), Goto(s, t, AtSlot(obj, HeadSlot)), 2 * i + 1, Looking(s, t, obj, l[i]))
  {
    var at := Places(s, l, t, obj);
    HeadLeads(s, l, t, obj);
    forall j | 0 <= j < i
      ensures Hop(StepOf(t), at, j)
    {
      NextCell(s, l, t, obj, j);
    }
    LeadsAlong(StepOf(t), Goto(s, t, AtSlot(obj, HeadSlot)), at, i);
  }

  lemma HeadLeads(s: State, l: seq<Addr>, t: Tid, obj: Addr)
    requires Chain(s.heap, s.head, l)
    ensures Leads(StepOf(t), Goto(s, t, AtSlot(obj, HeadSlot)), 1,
                  if l == [] then Goto(s, t, Store(obj, HeadSlot)) else Looking(s, t, obj, l[0]))
  {
    HeadStep(s, l, t, obj);
    LeadsOne(StepOf(t), Goto(s, t, AtSlot(obj, HeadSlot)),
             if l == [] then Goto(s, t, Store(obj, HeadSlot)) else Looking(s, t, obj, l[0]));
  }

  lemma LastLeads(s: State, l: seq<Addr>, t: Tid, obj: Addr)
    requires Chain(s.heap, s.head, l) && l != []
    ensures Leads(StepOf(t), Looking(s, t, obj, l[|l| - 1]), 1, Goto(s, t, Store(obj, LastSlot(l))))
  {
    LookStep(s, l, t, obj, |l| - 1);
    LeadsOne(StepOf(t), Looking(s, t, obj, l[|l| - 1]), Goto(s, t, Store(obj, LastSlot(l))));
  }

  // The traversal of add_hook takes so many steps, to the slot at the end of the list, and
  // changes nothing on the way.
  lemma TraversalEnds(s: State, l: seq<Addr>, t: Tid, obj: Addr)
    requires Chain(s.heap, s.head, l)
    ensures Leads(StepOf(t), Goto(s, t, AtSlot(obj, HeadSlot)), Reads(l), Goto(s, t, Store(obj, LastSlot(l))))
  {
    if l == [] {
      HeadLeads(s, l, t, obj);
    } else {
      var start, end := Goto(s, t, AtSlot(obj, HeadSlot)), Goto(s, t, Store(obj, LastSlot(l)));
      LooksAt(s, l, t, obj, |l| - 1);
      LastLeads(s, l, t, obj);
      LeadsOn(StepOf(t), start, 2 * |l| - 1, Looking(s, t, obj, l[|l| - 1]), 1, end);
    }
  }

  // ------------------------------------------------------------------
  // Whole calls without interruption
  // ------------------------------------------------------------------

  function Data(recs: seq<Record>): (r: seq<HookQueue.HookData>)
    ensures |r| == |recs|
    ensures forall i :: 0 <= i < |r| ==> r[i] == HookQueue.HookData(recs[i].hookId, recs[i].pid, recs[i].parentPid)
  {
    seq(|recs|, i requires 0 <= i < |recs| => HookQueue.HookData(recs[i].hookId, recs[i].pid, recs[i].parentPid))
  }

  lemma DataAppend(recs: seq<Record>, rec: Record)
    ensures Data(recs + [rec]) == Data(recs) + [HookQueue.HookData(rec.hookId, rec.pid, rec.parentPid)]
  {
  }

  lemma LeadsMore<S>(f: S -> S, s: S, n: nat, mid: S, end: S)
    requires Leads(f, s, n, mid) && f(mid) == end
    ensures Leads(f, s, n + 1, end)
  {
    LeadsOne(f, mid, end);
    LeadsOn(f, s, n, mid, 1, end);
  }

  // What follows position i of a list whose last cell points to `tail`.
  function Next(l: seq<Addr>, i: nat, tail: Addr): Addr
    requires i < |l|
  {
    if i + 1 < |l| then l[i + 1] else tail
  }

  // Following the pointers gives l and then `tail`.
  ghost predicate Links(heap: map<Addr, Cell>, head: Addr, l: seq<Addr>, tail: Addr) {
    && head == (if l == [] then tail else l[0])
    && (forall i :: 0 <= i < |l| ==> l[i] != NULL && l[i] in heap)
    && (forall i {:trigger Next(l, i, tail)} :: 0 <= i < |l| ==> heap[l[i]].next == Next(l, i, tail))
    && (forall i, j :: 0 <= i < j < |l| ==> l[i] != l[j])
  }

  lemma LinksToNull(heap: map<Addr, Cell>, head: Addr, l: seq<Addr>)
    ensures Links(heap, head, l, NULL) <==> Chain(heap, head, l)
  {
    forall i | 0 <= i < |l|
      ensures Next(l, i, NULL) == After(l, i)
    {
    }
  }

  // The state of a caller inside the critical section.
  function WithRecord(s: State, call: Action): State
    requires call.Execve?
  {
    var rec := Record(s.allocs, s.hookId, call.pid, call.parentPid);
    s.(heap := s.heap[call.addr := Cell(rec, call.junk)], allocs := s.allocs + 1, holder := Some(call.t))
  }

  // The call gets memory, and the mutex is free.
  predicate CanCall(s: State, call: Action) {
    && call.Execve? && PcOf(s, call.t) == Idle && s.holder == None
    && call.addr !in s.heap && call.addr != NULL
  }

  lemma CallLocks(s: State, call: Action)
    requires CanCall(s, call)
    ensures Step(Do(s, call), call.t) == Goto(WithRecord(s, call), call.t, AtSlot(call.addr, HeadSlot))
  {
    GotoTwice(WithRecord(s, call), call.t, Filled(call.addr), AtSlot(call.addr, HeadSlot));
  }

  // The three steps after the write.
  lemma CallReturns(s: State, t: Tid)
    requires PcOf(s, t) == Linked
    ensures Leads(StepOf(t), s, 3, Goto(s.(holder := None, hookId := HookQueue.NextHookId(s.hookId)), t, Idle))
  {
    var s1 := Goto(s.(holder := None), t, Bump);
    var s2 := Goto(s1.(hookId := s.hookId + 1), t, Wrap);
    var s3 := Goto(s.(holder := None, hookId := HookQueue.NextHookId(s.hookId)), t, Idle);
    assert Step(s, t) == s1 && Step(s1, t) == s2;
    LeadsOne(StepOf(t), s, s1);
    LeadsMore(StepOf(t), s, 1, s1, s2);
    assert s2.pcs[t := Idle] == s.pcs[t := Idle];
    assert Step(s2, t) == s3;
    LeadsMore(StepOf(t), s, 2, s2, s3);
  }

  // The write in the last `next` word, or in the head word of an empty list.
  lemma LinksAppend(heap: map<Addr, Cell>, head: Addr, l: seq<Addr>, obj: Addr, heap': map<Addr, Cell>, head': Addr)
    requires Chain(heap, head, l) && obj in heap && obj != NULL && obj !in l
    requires l == [] ==> heap' == heap && head' == obj
    requires l != [] ==> head' == head && heap' == heap[l[|l| - 1] := heap[l[|l| - 1]].(next := obj)]
    ensures Links(heap', head', l + [obj], heap[obj].next)
    ensures Recs(heap', l + [obj]) == Recs(heap, l) + [heap[obj].rec]
  {
    var l', tail := l + [obj], heap[obj].next;
    forall i | 0 <= i < |l'|
      ensures l'[i] != NULL && l'[i] in heap' && heap'[l'[i]].next == Next(l', i, tail)
    {
      if i < |l| {
        assert l'[i] == l[i] && heap[l[i]].next == After(l, i);
      }
    }
  }

  // What the write leaves in the list.
  lemma CallWrites(s: State, l: seq<Addr>, t: Tid, obj: Addr)
    requires Chain(s.heap, s.head, l) && obj in s.heap && obj != NULL && obj !in l
    ensures var s' := Step(Goto(s, t, Store(obj, LastSlot(l))), t);
            && Links(s'.heap, s'.head, l + [obj], s.heap[obj].next)
            && Recs(s'.heap, l + [obj]) == Recs(s.heap, l) + [s.heap[obj].rec]
            && s'.pcs == s.pcs[t := Linked] && s'.hookId == s.hookId
  {
    var s' := Step(Goto(s, t, Store(obj, LastSlot(l))), t);
    assert l != [] ==> l[|l| - 1] in s.heap;
    LinksAppend(s.heap, s.head, l, obj, s'.heap, s'.head);
  }

  lemma CallReaches(s: State, l: seq<Addr>, call: Action)
    requires Chain(s.heap, s.head, l) && CanCall(s, call)
    ensures Leads(StepOf(call.t), Do(s, call), Reads(l) + 1,
                  Goto(WithRecord(s, call), call.t, Store(call.addr, LastSlot(l))))
  {
    var s0, s1, t := Do(s, call), WithRecord(s, call), call.t;
    var atHead, atStore := Goto(s1, t, AtSlot(call.addr, HeadSlot)), Goto(s1, t, Store(call.addr, LastSlot(l)));
    CallLocks(s, call);
    LeadsOne(StepOf(t), s0, atHead);
    ChainFrame(s.heap, s.head, l, s1.heap);
    TraversalEnds(s1, l, t, call.addr);
    LeadsOn(StepOf(t), s0, 1, atHead, Reads(l), atStore);
  }

  // The write and the steps after it.
  lemma CallFinishes(s: State, l: seq<Addr>, t: Tid, obj: Addr) returns (end: State)
    requires Chain(s.heap, s.head, l) && obj in s.heap && obj != NULL && obj !in l
    ensures Leads(StepOf(t), Goto(s, t, Store(obj, LastSlot(l))), 4, end)
    ensures PcOf(end, t) == Idle && end.holder == None && Links(end.heap, end.head, l + [obj], s.heap[obj].next)
    ensures Recs(end.heap, l + [obj]) == Recs(s.heap, l) + [s.heap[obj].rec]
    ensures end.hookId == HookQueue.NextHookId(s.hookId)
  {
    var atStore := Goto(s, t, Store(obj, LastSlot(l)));
    CallWrites(s, l, t, obj);
    var written := Step(atStore, t);
    LeadsOne(StepOf(t), atStore, written);
    CallReturns(written, t);
    end := Goto(written.(holder := None, hookId := HookQueue.NextHookId(s.hookId)), t, Idle);
    LeadsOn(StepOf(t), atStore, 1, written, 3, end);
  }

  // Main result: new_execve without interruption does to the queue and to the counter what
  // HookQueue.NewExecve does, in 2 |l| + 5 steps, or 6 on an empty queue.  The list then
  // ends in whatever the allocated memory held, and so in null only if that was null.
  lemma ExecveAlone(s: State, l: seq<Addr>, call: Action) returns (end: State)
    requires Chain(s.heap, s.head, l) && CanCall(s, call)
    ensures end == Run(Do(s, call), Ticks(call.t, Reads(l) + 5))
    ensures PcOf(end, call.t) == Idle && end.holder == None
    ensures Links(end.heap, end.head, l + [call.addr], call.junk)
    ensures Chain(end.heap, end.head, l + [call.addr]) <==> call.junk == NULL
    ensures Data(Recs(end.heap, l + [call.addr]))
            == Data(Recs(s.heap, l)) + [HookQueue.HookData(s.hookId, call.pid, call.parentPid)]
    ensures end.hookId == HookQueue.NextHookId(s.hookId)
  {
    var rec := Record(s.allocs, s.hookId, call.pid, call.parentPid);
    end := CallAlone(s, l, call, rec);
    DataAppend(Recs(s.heap, l), rec);
    TicksAre(Do(s, call), call.t, Reads(l) + 5);
    LinksEnd(end.heap, end.head, l + [call.addr], call.junk);
  }

  lemma CallAlone(s: State, l: seq<Addr>, call: Action, rec: Record) returns (end: State)
    requires Chain(s.heap, s.head, l) && CanCall(s, call)
    requires rec == Record(s.allocs, s.hookId, call.pid, call.parentPid)
    ensures Leads(StepOf(call.t), Do(s, call), Reads(l) + 5, end)
    ensures PcOf(end, call.t) == Idle && end.holder == None
    ensures Links(end.heap, end.head, l + [call.addr], call.junk)
    ensures Recs(end.heap, l + [call.addr]) == Recs(s.heap, l) + [rec]
    ensures end.hookId == HookQueue.NextHookId(s.hookId)
  {
    CallReaches(s, l, call);
    RecordReady(s, l, call);
    end := CallJoins(Do(s, call), WithRecord(s, call), l, call.t, call.addr);
  }

  lemma RecordReady(s: State, l: seq<Addr>, call: Action)
    requires Chain(s.heap, s.head, l) && CanCall(s, call)
    ensures var s1 := WithRecord(s, call);
            && Chain(s1.heap, s1.head, l) && Recs(s1.heap, l) == Recs(s.heap, l) && call.addr !in l
            && call.addr in s1.heap && s1.heap[call.addr].next == call.junk && s1.hookId == s.hookId
            && s1.heap[call.addr].rec == Record(s.allocs, s.hookId, call.pid, call.parentPid)
  {
    ChainFrame(s.heap, s.head, l, WithRecord(s, call).heap);
  }

  // The way to the write and the rest of the call together.
  lemma CallJoins(s0: State, s1: State, l: seq<Addr>, t: Tid, obj: Addr) returns (end: State)
    requires Leads(StepOf(t), s0, Reads(l) + 1, Goto(s1, t, Store(obj, LastSlot(l))))
    requires Chain(s1.heap, s1.head, l) && obj in s1.heap && obj != NULL && obj !in l
    ensures Leads(StepOf(t), s0, Reads(l) + 5, end)
    ensures PcOf(end, t) == Idle && end.holder == None && Links(end.heap, end.head, l + [obj], s1.heap[obj].next)
    ensures Recs(end.heap, l + [obj]) == Recs(s1.heap, l) + [s1.heap[obj].rec]
    ensures end.hookId == HookQueue.NextHookId(s1.hookId)
  {
    end := CallFinishes(s1, l, t, obj);
    LeadsOn(StepOf(t), s0, Reads(l) + 1, Goto(s1, t, Store(obj, LastSlot(l))), 4, end);
  }

  lemma LinksEnd(heap: map<Addr, Cell>, head: Addr, l: seq<Addr>, tail: Addr)
    requires Links(heap, head, l, tail) && l != []
    ensures Chain(heap, head, l) <==> tail == NULL
  {
    LinksToNull(heap, head, l);
    assert heap[l[|l| - 1]].next == Next(l, |l| - 1, tail) == tail;
    assert Next(l, |l| - 1, NULL) == NULL;
  }

  // What GET_HOOK leaves when it takes the first record.
  function WithoutFirst(s: State, l: seq<Addr>): State
    requires l != [] && l[0] in s.heap
  {
    s.(heap := s.heap - {l[0]}, head := After(l, 0), popped := s.popped + [s.heap[l[0]].rec],
       freed := s.freed + [s.heap[l[0]].rec])
  }

  lemma PopSteps(s: State, l: seq<Addr>, t: Tid)
    requires Chain(s.heap, s.head, l) && l != [] && PcOf(s, t) == WantPop && s.holder == None
    ensures Leads(StepOf(t), s, 6, Goto(WithoutFirst(s, l), t, Idle))
  {
    var f, node, next := StepOf(t), l[0], After(l, 0);
    assert s.heap[l[0]].next == After(l, 0);
    var locked := s.(holder := Some(t));
    var unlinked := s.(head := next, popped := s.popped + [s.heap[node].rec]);
    LeadsOne(f, s, Goto(locked, t, PopRead));
    PopReads(locked, l, t);
    LeadsMore(f, s, 1, Goto(locked, t, PopRead), Goto(locked, t, PopNext(node)));
    LeadsMore(f, s, 2, Goto(locked, t, PopNext(node)), Goto(locked, t, PopStore(node, next)));
    PopWrites(locked, l, t);
    LeadsMore(f, s, 3, Goto(locked, t, PopStore(node, next)), Goto(unlinked.(holder := Some(t)), t, PopDone(node)));
    PopEnds(unlinked, t, node);
    LeadsMore(f, s, 4, Goto(unlinked.(holder := Some(t)), t, PopDone(node)), Goto(unlinked, t, Deliver(node)));
    LeadsMore(f, s, 5, Goto(unlinked, t, Deliver(node)), Goto(WithoutFirst(s, l), t, Idle));
  }

  lemma PopReads(s: State, l: seq<Addr>, t: Tid)
    requires Chain(s.heap, s.head, l) && l != []
    ensures Step(Goto(s, t, PopRead), t) == Goto(s, t, PopNext(l[0]))
    ensures Step(Goto(s, t, PopNext(l[0])), t) == Goto(s, t, PopStore(l[0], After(l, 0)))
  {
    assert s.heap[l[0]].next == After(l, 0);
    GotoTwice(s, t, PopRead, PopNext(l[0]));
    GotoTwice(s, t, PopNext(l[0]), PopStore(l[0], After(l, 0)));
  }

  lemma PopWrites(s: State, l: seq<Addr>, t: Tid)
    requires Chain(s.heap, s.head, l) && l != []
    ensures Step(Goto(s, t, PopStore(l[0], After(l, 0))), t)
            == Goto(s.(head := After(l, 0), popped := s.popped + [s.heap[l[0]].rec]), t, PopDone(l[0]))
  {
    var s' := s.(head := After(l, 0), popped := s.popped + [s.heap[l[0]].rec]);
    GotoTwice(s', t, PopStore(l[0], After(l, 0)), PopDone(l[0]));
  }

  lemma PopEnds(s: State, t: Tid, node: Addr)
    requires s.holder == None && node != NULL && node in s.heap
    ensures Step(Goto(s.(holder := Some(t)), t, PopDone(node)), t) == Goto(s, t, Deliver(node))
    ensures Step(Goto(s, t, Deliver(node)), t)
            == Goto(s.(heap := s.heap - {node}, freed := s.freed + [s.heap[node].rec]), t, Idle)
  {
    GotoTwice(s, t, PopDone(node), Deliver(node));
    GotoTwice(s.(heap := s.heap - {node}, freed := s.freed + [s.heap[node].rec]), t, Deliver(node), Idle);
  }

  lemma EmptyPopSteps(s: State, t: Tid)
    requires s.head == NULL && PcOf(s, t) == WantPop && s.holder == None
    ensures Leads(StepOf(t), s, 4, Goto(s, t, Oops))
  {
    var f, locked := StepOf(t), s.(holder := Some(t));
    LeadsOne(f, s, Goto(locked, t, PopRead));
    GotoTwice(locked, t, PopRead, PopDone(NULL));
    LeadsMore(f, s, 1, Goto(locked, t, PopRead), Goto(locked, t, PopDone(NULL)));
    GotoTwice(s, t, PopDone(NULL), Deliver(NULL));
    LeadsMore(f, s, 2, Goto(locked, t, PopDone(NULL)), Goto(s, t, Deliver(NULL)));
    GotoTwice(s, t, Deliver(NULL), Oops);
    LeadsMore(f, s, 3, Goto(s, t, Deliver(NULL)), Goto(s, t, Oops));
  }

  // Main result: GET_HOOK without interruption does to the queue what HookQueue.GetHook
  // does: it delivers and removes the first record, or dies on a null pointer.
  lemma GetHookAlone(s: State, l: seq<Addr>, t: Tid) returns (end: State)
    requires Chain(s.heap, s.head, l) && PcOf(s, t) == Idle && s.holder == None
    ensures end == Run(Do(s, GetHook(t)), Ticks(t, if l == [] then 4 else 6))
    ensures end.holder == None && end.hookId == s.hookId
    ensures l == [] ==> PcOf(end, t) == Oops && end.heap == s.heap && end.head == NULL
    ensures l != [] ==>
              && PcOf(end, t) == Idle && Chain(end.heap, end.head, l[1..])
              && end.heap.Keys == s.heap.Keys - {l[0]} && |end.freed| == |s.freed| + 1
              && Data(Recs(s.heap, l)) == Data([end.freed[|s.freed|]]) + Data(Recs(end.heap, l[1..]))
  {
    var s0 := Do(s, GetHook(t));
    if l == [] {
      EmptyPopSteps(s0, t);
      TicksAre(s0, t, 4);
      end := Goto(s0, t, Oops);
    } else {
      PopSteps(s0, l, t);
      TicksAre(s0, t, 6);
      end := Goto(WithoutFirst(s0, l), t, Idle);
      FirstGone(s, l);
    }
  }

  // What is left in the list without its first record.
  lemma FirstGone(s: State, l: seq<Addr>)
    requires Chain(s.heap, s.head, l) && l != []
    ensures var s' := WithoutFirst(s, l);
            && Chain(s'.heap, s'.head, l[1..])
            && Data(Recs(s.heap, l)) == Data([s.heap[l[0]].rec]) + Data(Recs(s'.heap, l[1..]))
  {
    ChainTail(s.heap, s.head, l);
    ChainFrame(s.heap, After(l, 0), l[1..], WithoutFirst(s, l).heap);
    assert Data([s.heap[l[0]].rec] + Recs(s.heap, l[1..])) == Data([s.heap[l[0]].rec]) + Data(Recs(s.heap, l[1..]));
  }

  // ------------------------------------------------------------------
  // The mutex comes free, whatever other threads do in between
  // ------------------------------------------------------------------

  function Index(l: seq<Addr>, a: Addr): (i: nat)
    requires a in l
    ensures i < |l| && l[i] == a
  {
    if l[0] == a then 0 else 1 + Index(l[1..], a)
  }

  // A bound on the steps that the holder takes before it releases the mutex.
  ghost function Rank(l: seq<Addr>, pc: Pc): nat
    requires Cursor(l, pc)
  {
    match pc
    case AtSlot(_, HeadSlot) => 2 * |l| + 3
    case AtSlot(_, NextOf(node)) => 2 * (|l| - Index(l, node)) + 1
    case Look(_, node) => 2 * (|l| - Index(l, node)) + 2
    case Store(_, _) => 2
    case Linked => 1
    case PopRead => 4
    case PopNext(_) => 3
    case PopStore(_, _) => 2
    case PopDone(_) => 1
    case _ => 0
  }

  lemma SlotRank(s: State, l: seq<Addr>, t: Tid)
    requires Chain(s.heap, s.head, l) && PcOf(s, t).AtSlot? && Cursor(l, PcOf(s, t))
    ensures Cursor(l, PcOf(Step(s, t), t)) && Rank(l, PcOf(Step(s, t), t)) < Rank(l, PcOf(s, t))
  {
    var slot := PcOf(s, t).slot;
    if slot.NextOf? {
      var i := Index(l, slot.node);
      assert s.heap[l[i]].next == After(l, i);
      if i + 1 < |l| {
        IndexIs(l, i + 1);
      }
    } else if l != [] {
      IndexIs(l, 0);
    }
  }

  lemma IndexIs(l: seq<Addr>, i: nat)
    requires i < |l| && forall j, k :: 0 <= j < k < |l| ==> l[j] != l[k]
    ensures Index(l, l[i]) == i
  {
  }

  lemma LookRank(s: State, l: seq<Addr>, t: Tid)
    requires Chain(s.heap, s.head, l) && PcOf(s, t).Look? && Cursor(l, PcOf(s, t))
    ensures Cursor(l, PcOf(Step(s, t), t)) && Rank(l, PcOf(Step(s, t), t)) < Rank(l, PcOf(s, t))
  {
    var node := PcOf(s, t).node;
    assert s.heap[l[Index(l, node)]].next == After(l, Index(l, node));
  }

  // A step of the holder brings the release nearer.
  lemma HolderTick(s: State, l: seq<Addr>, t: Tid)
    requires Core(s, l) && s.holder == Some(t)
    ensures Cursor(l, PcOf(s, t)) && Rank(l, PcOf(s, t)) > 0
    ensures var s', l' := Step(s, t), ListAfter(s, l, Tick(t));
            s'.holder == None
            || (s'.holder == Some(t) && Cursor(l', PcOf(s', t)) && Rank(l', PcOf(s', t)) < Rank(l, PcOf(s, t)))
  {
    assert Cursor(l, PcOf(s, t)) && Critical(PcOf(s, t));
    match PcOf(s, t)
    case AtSlot(_, _) => SlotRank(s, l, t);
    case Look(_, _) => LookRank(s, l, t);
    case Store(obj, _) => assert Owner(PcOf(s, t)) == obj;
    case _ =>
  }

  // Steps of other threads do not move the holder.
  lemma HolderWaits(s: State, l: seq<Addr>, a: Action, t: Tid)
    requires Core(s, l) && s.holder == Some(t) && a != Tick(t)
    ensures Do(s, a).holder == Some(t) && PcOf(Do(s, a), t) == PcOf(s, t) && ListAfter(s, l, a) == l
  {
    assert Critical(PcOf(s, t));
    if a.t != t {
      OthersStay(s, a, t);
      assert Critical(PcOf(s, a.t)) <==> s.holder == Some(a.t);
      if a.Tick? {
        HolderStays(s, l, a.t);
      }
    }
  }

  lemma HolderStays(s: State, l: seq<Addr>, u: Tid)
    requires s.holder.Some? && !Critical(PcOf(s, u))
    ensures Step(s, u).holder == s.holder
  {
    match PcOf(s, u)
    case Filled(_) =>
    case Deliver(_) =>
    case _ =>
  }

  function TicksOf(more: seq<Action>, t: Tid): nat
    decreases |more|
  {
    if more == [] then 0
    else TicksOf(more[..|more| - 1], t) + if more[|more| - 1] == Tick(t) then 1 else 0
  }

  lemma RankBound(l: seq<Addr>, pc: Pc)
    requires Cursor(l, pc)
    ensures Rank(l, pc) <= 2 * |l| + 4
  {
  }

  // The holder's rank has gone down by k at least.
  ghost predicate Paid(s: State, l: seq<Addr>, s': State, l': seq<Addr>, t: Tid, k: nat) {
    && Core(s', l') && s'.holder == Some(t)
    && Cursor(l, PcOf(s, t)) && Cursor(l', PcOf(s', t))
    && 0 < Rank(l', PcOf(s', t)) <= Rank(l, PcOf(s, t)) - k
  }

  lemma {:induction false} HolderStep(s0: State, l0: seq<Addr>, s: State, l: seq<Addr>, a: Action, t: Tid, k: nat)
    requires Paid(s0, l0, s, l, t, k) && InsertsZeroed(s, a) && Do(s, a).holder == Some(t)
    ensures Paid(s0, l0, Do(s, a), ListAfter(s, l, a), t, k + if a == Tick(t) then 1 else 0)
  {
    ActionKeeps(s, l, a);
    HolderTick(Do(s, a), ListAfter(s, l, a), t);
    if a == Tick(t) {
      HolderTick(s, l, t);
    } else {
      HolderWaits(s, l, a, t);
    }
  }

  ghost predicate CleanFrom(s: State, more: seq<Action>)
    decreases |more|
  {
    more != [] ==>
      var init, a := more[..|more| - 1], more[|more| - 1];
      CleanFrom(s, init) && InsertsZeroed(Run(s, init), a)
  }

  lemma {:induction false} CleanSplits(schedule: seq<Action>, more: seq<Action>)
    requires CleanInserts(schedule + more)
    ensures CleanFrom(Run(INIT, schedule), more)
    decreases |more|
  {
    if more != [] {
      var init, a := more[..|more| - 1], more[|more| - 1];
      assert schedule + more == (schedule + init) + [a];
      CleanOneMore(schedule + init, a);
      CleanSplits(schedule, init);
      RunAppends(INIT, schedule, init);
    }
  }

  // At some point of the run the thread does not hold the mutex.
  ghost predicate Released(s: State, more: seq<Action>, t: Tid)
    decreases |more|
  {
    Run(s, more).holder != Some(t) || (more != [] && Released(s, more[..|more| - 1], t))
  }

  lemma {:induction false} ReleasedAt(s: State, more: seq<Action>, t: Tid) returns (n: nat)
    requires Released(s, more, t)
    ensures n <= |more| && Run(s, more[..n]).holder != Some(t)
    decreases |more|
  {
    if Run(s, more).holder != Some(t) {
      n := |more|;
      assert more[..n] == more;
    } else {
      n := ReleasedAt(s, more[..|more| - 1], t);
      assert more[..|more| - 1][..n] == more[..n];
    }
  }

  // Either the mutex was released on the way, or the rank has paid for every step.
  lemma {:induction false} HolderPays(s: State, l: seq<Addr>, more: seq<Action>, t: Tid) returns (l': seq<Addr>)
    requires CleanFrom(s, more) && Core(s, l) && s.holder == Some(t)
    ensures Released(s, more, t) || Paid(s, l, Run(s, more), l', t, TicksOf(more, t))
    decreases |more|
  {
    if more == [] {
      l' := l;
      HolderTick(s, l, t);
    } else {
      var init, a := more[..|more| - 1], more[|more| - 1];
      l' := HolderPays(s, l, init, t);
      if !Released(s, more, t) {
        HolderStep(s, l, Run(s, init), l', a, t, TicksOf(init, t));
        l' := ListAfter(Run(s, init), l', a);
      }
    }
  }

  // Main result: a thread that holds the mutex has released it, at some point, by the time
  // it has taken 2 |l| + 4 steps of its own, where l is the list it found; steps of other
  // threads in between change nothing about that.
  lemma {:induction false} HolderReleases(schedule: seq<Action>, more: seq<Action>, t: Tid)
    requires CleanInserts(schedule + more) && Run(INIT, schedule).holder == Some(t)
    ensures var s := Run(INIT, schedule);
            var w := Walk(s.heap, s.head, |s.heap|);
            && w.Some?
            && (TicksOf(more, t) >= 2 * |w.value| + 4 ==>
                  exists n :: 0 <= n <= |more| && Run(INIT, schedule + more[..n]).holder != Some(t))
  {
    CleanPrefix(schedule, more);
    CleanSplits(schedule, more);
    var s := Run(INIT, schedule);
    var l := RunIsCore(schedule);
    CoreRefines(s, l);
    var l' := HolderPays(s, l, more, t);
    RankBound(l, PcOf(s, t));
    if TicksOf(more, t) >= 2 * |l| + 4 {
      var n := ReleasedAt(s, more, t);
      RunAppends(INIT, schedule, more[..n]);
    }
  }
}
