/**
  The execve hook queue of the driver under any interleaving of `new_execve` callers and
  GET_HOOK readers.  The kernel heap is an explicit map from addresses to cells, and every
  step of a thread makes at most one access to the list or to its mutex, so the order in
  which threads touch them is the schedule's choice.  The increment of hook_id and its
  wrap-around check are one step each.

  A schedule is any sequence of actions.  An action a thread cannot take now (the mutex
  is taken, the address is in use) leaves the state as it is.
*/
module HookRuns {
  import opened Options

  type Addr = nat
  type Tid = nat

  const NULL: Addr := 0
  const MIN_HOOK_ID := 1000
  const MAX_HOOK_ID := 9999

  // `serial` numbers the allocations: it tells apart two records that get the same address.
  datatype Record = Record(serial: nat, hookId: int, pid: int, parentPid: int)
  datatype Cell = Cell(rec: Record, next: Addr)

  // What a `struct syscall_hook **` points at.
  datatype Slot = HeadSlot | NextOf(node: Addr)

  datatype Pc =
    | Idle
      // new_execve
    | Filled(obj: Addr)              // allocated and filled in, before mutex_lock
    | AtSlot(obj: Addr, slot: Slot)  // add_hook(slot, obj): about to read *slot
    | Look(obj: Addr, node: Addr)    // *slot is node: about to read node->next
    | Store(obj: Addr, slot: Slot)   // about to write *slot
    | Linked                         // before mutex_unlock
    | Bump                           // before hook_id++
    | Wrap                           // before the wrap-around check
      // GET_HOOK
    | WantPop                        // before mutex_lock
    | PopRead                        // about to read hooks_list
    | PopNext(node: Addr)            // about to read node->next
    | PopStore(node: Addr, next: Addr) // about to write hooks_list
    | PopDone(node: Addr)            // before mutex_unlock
    | Deliver(node: Addr)            // copies the fields out and frees the record
    | Oops                           // dereferenced a null pointer

  datatype State = State(
    heap: map<Addr, Cell>, head: Addr, holder: Option<Tid>, pcs: map<Tid, Pc>,
    hookId: int, allocs: nat,
    appended: seq<Record>, popped: seq<Record>, freed: seq<Record>,
    fault: bool)  // some thread used an address that is not allocated

  datatype Action =
    | Execve(t: Tid, addr: Addr, junk: Addr, pid: int, parentPid: int)
    | GetHook(t: Tid)
    | Tick(t: Tid)

  const INIT := State(map[], NULL, None, map[], MIN_HOOK_ID, 0, [], [], [], false)

  function PcOf(s: State, t: Tid): Pc {
    if t in s.pcs then s.pcs[t] else Idle
  }

  function Goto(s: State, t: Tid, pc: Pc): State {
    s.(pcs := s.pcs[t := pc])
  }

  // mutex_lock: the thread goes on at `pc` with the mutex, or waits.
  function Lock(s: State, t: Tid, pc: Pc): State {
    if s.holder == None then Goto(s.(holder := Some(t)), t, pc) else s
  }

  function Fault(s: State): State {
    s.(fault := true)
  }

  // kmalloc and the three field assignments.  `junk` is what the fresh memory holds where
  // `next` will be: nothing in new_execve sets that field.
  function StartExecve(s: State, t: Tid, addr: Addr, junk: Addr, pid: int, parentPid: int): State {
    if PcOf(s, t) != Idle || addr in s.heap then s
    else if addr == NULL then Goto(s, t, Oops)
    else
      var rec := Record(s.allocs, s.hookId, pid, parentPid);
      Goto(s.(heap := s.heap[addr := Cell(rec, junk)], allocs := s.allocs + 1), t, Filled(addr))
  }

  function ReadSlot(s: State, t: Tid, obj: Addr, slot: Slot): State {
    if slot.NextOf? && slot.node !in s.heap then Fault(s)
    else
      var v := if slot.HeadSlot? then s.head else s.heap[slot.node].next;
      Goto(s, t, if v == NULL then Store(obj, slot) else Look(obj, v))
  }

  function ReadNext(s: State, t: Tid, obj: Addr, node: Addr): State {
    if node !in s.heap then Fault(s)
    else Goto(s, t, if s.heap[node].next != NULL then AtSlot(obj, NextOf(node)) else Store(obj, NextOf(node)))
  }

  function WriteSlot(s: State, t: Tid, obj: Addr, slot: Slot): State {
    if obj !in s.heap || (slot.NextOf? && slot.node !in s.heap) then Fault(s)
    else
      var s1 := s.(appended := s.appended + [s.heap[obj].rec]);
      var s2 := if slot.HeadSlot? then s1.(head := obj)
                else s1.(heap := s1.heap[slot.node := s1.heap[slot.node].(next := obj)]);
      Goto(s2, t, Linked)
  }

  function UnlinkHead(s: State, t: Tid, node: Addr, next: Addr): State {
    if node !in s.heap then Fault(s)
    else Goto(s.(head := next, popped := s.popped + [s.heap[node].rec]), t, PopDone(node))
  }

  function FreePopped(s: State, t: Tid, node: Addr): State {
    if node == NULL then Goto(s, t, Oops)
    else if node !in s.heap then Fault(s)
    else Goto(s.(heap := s.heap - {node}, freed := s.freed + [s.heap[node].rec]), t, Idle)
  }

  function Step(s: State, t: Tid): State {
    match PcOf(s, t)
    case Idle => s
    case Filled(obj) => Lock(s, t, AtSlot(obj, HeadSlot))
    case AtSlot(obj, slot) => ReadSlot(s, t, obj, slot)
    case Look(obj, node) => ReadNext(s, t, obj, node)
    case Store(obj, slot) => WriteSlot(s, t, obj, slot)
    case Linked => Goto(s.(holder := None), t, Bump)
    case Bump => Goto(s.(hookId := s.hookId + 1), t, Wrap)
    case Wrap => Goto(s.(hookId := if s.hookId > MAX_HOOK_ID then MIN_HOOK_ID else s.hookId), t, Idle)
    case WantPop => Lock(s, t, PopRead)
    case PopRead => Goto(s, t, if s.head == NULL then PopDone(NULL) else PopNext(s.head))
    case PopNext(node) => if node !in s.heap then Fault(s) else Goto(s, t, PopStore(node, s.heap[node].next))
    case PopStore(node, next) => UnlinkHead(s, t, node, next)
    case PopDone(node) => Goto(s.(holder := None), t, Deliver(node))
    case Deliver(node) => FreePopped(s, t, node)
    case Oops => s
  }

  function Do(s: State, a: Action): State {
    match a
    case Execve(t, addr, junk, pid, parentPid) => StartExecve(s, t, addr, junk, pid, parentPid)
    case GetHook(t) => if PcOf(s, t) == Idle then Goto(s, t, WantPop) else s
    case Tick(t) => Step(s, t)
  }

  function Run(s: State, schedule: seq<Action>): State
    decreases |schedule|
  {
    if schedule == [] then s else Do(Run(s, schedule[..|schedule| - 1]), schedule[|schedule| - 1])
  }

  // Every allocation hands out memory whose `next` word happens to be null.
  predicate Zeroing(schedule: seq<Action>) {
    forall a :: a in schedule && a.Execve? ==> a.junk == NULL
  }

  // ------------------------------------------------------------------
  // Following the pointers
  // ------------------------------------------------------------------

  // The list as a reader of memory finds it: None when a pointer leaves the heap or the
  // walk is longer than `fuel`, which with `fuel == |heap|` means that it is cyclic.
  function Walk(heap: map<Addr, Cell>, p: Addr, fuel: nat): Option<seq<Addr>>
    decreases fuel
  {
    if p == NULL then Some([])
    else if fuel == 0 || p !in heap then None
    else
      match Walk(heap, heap[p].next, fuel - 1)
      case None => None
      case Some(rest) => Some([p] + rest)
  }

  function Recs(heap: map<Addr, Cell>, l: seq<Addr>): seq<Record>
    requires forall a :: a in l ==> a in heap
  {
    seq(|l|, i requires 0 <= i < |l| => heap[l[i]].rec)
  }

  // The promise of the queue: null-terminated, acyclic, and nothing lost or reordered.
  ghost predicate Refines(s: State) {
    match Walk(s.heap, s.head, |s.heap|)
    case None => false
    case Some(l) => (forall a :: a in l ==> a in s.heap) && s.popped + Recs(s.heap, l) == s.appended
  }

  // What follows position i of the list.
  function After(l: seq<Addr>, i: nat): Addr
    requires i < |l|
  {
    if i + 1 < |l| then l[i + 1] else NULL
  }

  ghost predicate Chain(heap: map<Addr, Cell>, head: Addr, l: seq<Addr>) {
    && head == (if l == [] then NULL else l[0])
    && (forall i :: 0 <= i < |l| ==> l[i] != NULL && l[i] in heap)
    && (forall i {:trigger After(l, i)} :: 0 <= i < |l| ==> heap[l[i]].next == After(l, i))
    && (forall i, j :: 0 <= i < j < |l| ==> l[i] != l[j])
  }

  lemma {:induction false} ChainWalks(heap: map<Addr, Cell>, p: Addr, l: seq<Addr>, fuel: nat)
    requires Chain(heap, p, l) && |l| <= fuel
    ensures Walk(heap, p, fuel) == Some(l)
    decreases fuel
  {
    if l != [] {
      assert heap[l[0]].next == After(l, 0);
      forall i | 0 <= i < |l[1..]|
        ensures l[1..][i] != NULL && l[1..][i] in heap && heap[l[1..][i]].next == After(l[1..], i)
      {
        assert l[1..][i] == l[i + 1] && After(l[1..], i) == After(l, i + 1);
      }
      ChainWalks(heap, heap[p].next, l[1..], fuel - 1);
      assert l == [p] + l[1..];
    }
  }

  lemma {:induction false} DistinctFits(l: seq<Addr>, keys: set<Addr>)
    requires forall a :: a in l ==> a in keys
    requires forall i, j :: 0 <= i < j < |l| ==> l[i] != l[j]
    ensures |l| <= |keys|
  {
    if l != [] {
      DistinctFits(l[1..], keys - {l[0]});
    }
  }

  // A walk that succeeds visits what the pointers say, up to the first null.
  lemma {:induction false} WalkVisits(heap: map<Addr, Cell>, p: Addr, fuel: nat, l: seq<Addr>, last: Addr)
    requires Walk(heap, p, fuel).Some?
    requires forall i :: 0 <= i < |l| ==> l[i] != NULL && l[i] in heap
    requires |l| > 0 ==> p == l[0] && heap[l[|l| - 1]].next == last
    requires |l| == 0 ==> p == last
    requires forall i :: 0 <= i < |l| - 1 ==> heap[l[i]].next == l[i + 1]
    requires last != NULL
    ensures |Walk(heap, p, fuel).value| > |l|
    decreases fuel
  {
    if l != [] {
      forall i | 0 <= i < |l[1..]| - 1
        ensures heap[l[1..][i]].next == l[1..][i + 1]
      {
        assert heap[l[i + 1]].next == l[i + 2];
      }
      WalkVisits(heap, heap[p].next, fuel - 1, l[1..], last);
    }
  }

  // ------------------------------------------------------------------
  // The invariant: `l` is the list in memory
  // ------------------------------------------------------------------

  predicate Critical(pc: Pc) {
    pc.AtSlot? || pc.Look? || pc.Store? || pc.Linked? || pc.PopRead? || pc.PopNext? || pc.PopStore? || pc.PopDone?
  }

  predicate Creating(pc: Pc) {
    pc.Filled? || pc.AtSlot? || pc.Look? || pc.Store?
  }

  // The record that only this thread can reach: not yet inserted, or already popped.
  function Owner(pc: Pc): Addr {
    if Creating(pc) then pc.obj
    else if pc.PopDone? || pc.Deliver? then pc.node
    else NULL
  }

  ghost predicate Cursor(l: seq<Addr>, pc: Pc) {
    match pc
    case AtSlot(_, NextOf(node)) => node in l
    case Look(_, node) => node in l
    case Store(_, HeadSlot) => l == []
    case Store(_, NextOf(node)) => l != [] && node == l[|l| - 1]
    case PopNext(node) => l != [] && node == l[0]
    case PopStore(node, next) => l != [] && node == l[0] && next == After(l, 0)
    case _ => true
  }

  ghost predicate ListOk(s: State, l: seq<Addr>) {
    && !s.fault
    && Chain(s.heap, s.head, l)
    && (forall t: Tid :: Critical(PcOf(s, t)) <==> s.holder == Some(t))
    && (forall t: Tid :: Cursor(l, PcOf(s, t)))
    && s.popped + Recs(s.heap, l) == s.appended
  }

  ghost predicate Owned(s: State, l: seq<Addr>) {
    && NULL !in s.heap
    && (forall t: Tid :: Creating(PcOf(s, t)) ==> Owner(PcOf(s, t)) != NULL)
    && (forall t: Tid :: Owner(PcOf(s, t)) != NULL ==> Owner(PcOf(s, t)) in s.heap && Owner(PcOf(s, t)) !in l)
    && (forall t: Tid, u: Tid :: t != u && Owner(PcOf(s, t)) != NULL ==> Owner(PcOf(s, t)) != Owner(PcOf(s, u)))
    && (forall a :: a in s.heap ==> a in l || exists t: Tid :: Owner(PcOf(s, t)) == a)
  }

  ghost predicate Core(s: State, l: seq<Addr>) {
    ListOk(s, l) && Owned(s, l)
  }

  // The condition on the one step that can break the list.
  predicate InsertsZeroed(s: State, a: Action) {
    a.Tick? && PcOf(s, a.t).Store? && PcOf(s, a.t).obj in s.heap ==> s.heap[PcOf(s, a.t).obj].next == NULL
  }

  // The list after an action: the two writes that are linearization points.
  function ListAfter(s: State, l: seq<Addr>, a: Action): seq<Addr> {
    if !a.Tick? then l
    else
      match PcOf(s, a.t)
      case Store(obj, _) => l + [obj]
      case PopStore(_, _) => if l == [] then l else l[1..]
      case _ => l
  }
}
