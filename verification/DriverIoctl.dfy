/**
  The ioctl entry of the driver.  A client asks with SEND and collects the answer with a
  later RECV; all clients share the one `result` word.
*/
module DriverIoctl {
  import opened Options
  import opened SyscallTable
  import opened HookQueue

  const KILL := 0
  const SUSPEND := 1
  const CONT := 2
  const SCT_SCAN := 3
  const SCT_FIX := 4
  const IDT_SCAN := 5
  const GET_HOOK := 6

  datatype Command = Send(option: int, param: int) | Recv | OtherCommand

  // What the kernel answers during the call: whether the two user-space copies succeed,
  // whether the target task exists, and what the scan of the interrupt table finds.
  datatype Kernel = Kernel(copyFrom: bool, copyTo: bool, taskExists: bool, idtEntry: int)

  datatype Reply =
    | Done | Answer(value: int) | HookReply(data: HookData)
    | EFault | EInval | ENotTy
    | NullDereference  // GET_HOOK on an empty list

  datatype Device = Device(result: int, sct: Sct, queue: seq<HookData>) {
    ghost predicate Valid() {
      sct.Valid()
    }
  }

  // The options that end by storing into `result`.
  predicate WritesResult(command: Command, kernel: Kernel) {
    command.Send? && kernel.copyFrom && KILL <= command.option <= IDT_SCAN
  }

  function Flag(b: bool): int {
    if b then 1 else 0
  }

  // The outcome of a request that stores one.
  function Outcome(d: Device, command: Command, kernel: Kernel): int
    requires d.Valid() && WritesResult(command, kernel)
  {
    if command.option == SCT_SCAN then d.sct.Compare()
    else if command.option == SCT_FIX then Flag(d.sct.Fixes(command.param))
    else if command.option == IDT_SCAN then kernel.idtEntry
    else Flag(kernel.taskExists)
  }

  function Ioctl(d: Device, command: Command, kernel: Kernel): (Device, Reply)
    requires d.Valid()
  {
    match command
    case Send(option, param) =>
      if !kernel.copyFrom then (d, EFault)
      else if KILL <= option <= IDT_SCAN then
        (d.(result := Outcome(d, command, kernel), sct := if option == SCT_FIX then d.sct.Fix(param) else d.sct), Done)
      else if option == GET_HOOK then
        if d.queue == [] then (d, NullDereference)
        else (d.(queue := d.queue[1..]), if kernel.copyTo then HookReply(d.queue[0]) else EFault)
      else (d, EInval)
    case Recv => (d, if kernel.copyTo then Answer(d.result) else EFault)
    case OtherCommand => (d, ENotTy)
  }

  // ------------------------------------------------------------------
  // The operation on memory
  // ------------------------------------------------------------------

  class Spybot {
    const driver: Driver
    const hooks: HookList
    var result: int

    ghost predicate Valid()
      reads this, driver, driver.table, driver.snap, hooks, hooks.hooks
    {
      driver.Valid() && hooks.Valid()
    }

    ghost function Abs(): Device
      reads this, driver, driver.table, driver.snap, hooks, hooks.hooks
    {
      Device(result, driver.Abs(), hooks.Contents())
    }

    constructor (driver: Driver, hooks: HookList)
      requires driver.Valid() && hooks.Valid()
      ensures Valid() && Abs() == Device(0, driver.Abs(), hooks.Contents())
      ensures this.driver == driver && this.hooks == hooks
    {
      this.driver, this.hooks, result := driver, hooks, 0;
    }

    method SpybotIoctl(command: Command, kernel: Kernel) returns (reply: Reply)
      requires Valid()
      modifies `result, driver, driver.table, hooks
      ensures Valid() && Abs() == Ioctl(old(Abs()), command, kernel).0
      ensures reply == Ioctl(old(Abs()), command, kernel).1
    {
      match command {
        case Send(option, param) =>
          if !kernel.copyFrom {
            return EFault;
          }
          if option == GET_HOOK {
            reply := TakeHook(kernel);
          } else if KILL <= option <= IDT_SCAN {
            StoreResult(option, param, kernel);
            reply := Done;
          } else {
            reply := EInval;
          }
        case Recv =>
          reply := if kernel.copyTo then Answer(result) else EFault;
        case OtherCommand =>
          reply := ENotTy;
      }
    }

    // The options that end with a value for `result`.
    method StoreResult(option: int, param: int, kernel: Kernel)
      requires Valid() && KILL <= option <= IDT_SCAN && kernel.copyFrom
      modifies `result, driver, driver.table
      ensures Valid() && Abs() == Ioctl(old(Abs()), Send(option, param), kernel).0
    {
      if option == KILL || option == SUSPEND || option == CONT {
        result := if kernel.taskExists then 1 else 0;
      } else if option == SCT_SCAN {
        result := driver.CompareScts();
      } else if option == SCT_FIX {
        var isFixed := driver.FixSct(param);
        result := if isFixed then 1 else 0;
      } else {
        result := kernel.idtEntry;
      }
    }

    // GET_HOOK.
    method TakeHook(kernel: Kernel) returns (reply: Reply)
      requires Valid() && kernel.copyFrom
      modifies hooks
      ensures Valid() && Abs() == Ioctl(old(Abs()), Send(GET_HOOK, 0), kernel).0
      ensures reply == Ioctl(old(Abs()), Send(GET_HOOK, 0), kernel).1
    {
      var data := hooks.GetHook();
      if data == None {
        return NullDereference;
      }
      reply := if kernel.copyTo then HookReply(data.value) else EFault;
    }

    // blockPid, sctScan, idtScan and communicateWithDriver: SEND, then RECV into a zero.
    // When the device file does not open, both calls fail and the zero is the answer.
    method Request(isOpen: bool, option: int, param: int, atSend: Kernel, atRecv: Kernel) returns (answer: int)
      requires Valid()
      modifies `result, driver, driver.table, hooks
      ensures Valid()
      ensures !isOpen || !atRecv.copyTo ==> answer == 0
      ensures !isOpen ==> Abs() == old(Abs())
      ensures isOpen && WritesResult(Send(option, param), atSend) && atRecv.copyTo ==>
                answer == Outcome(old(Abs()), Send(option, param), atSend)
    {
      answer := 0;
      if isOpen {
        var sent := SpybotIoctl(Send(option, param), atSend);
        var got := SpybotIoctl(Recv, atRecv);
        if got.Answer? {
          answer := got.value;
        }
      }
    }
  }

  // ------------------------------------------------------------------
  // Many clients
  // ------------------------------------------------------------------

  datatype Call = Call(client: nat, command: Command, kernel: Kernel)

  // The entry takes no lock: a storing SEND evaluates its outcome in one step and stores it
  // in a later one, and calls of other clients can come in between.
  datatype Event =
    | Enter(call: Call)    // a whole call, or a storing SEND up to its outcome
    | Store(client: nat)

  // An outcome that is not stored yet, and the number of the event that evaluated it.
  datatype Pending = Pending(value: int, at: nat)

  datatype Shared = Shared(device: Device, pending: map<nat, Pending>, clock: nat)

  function EnterCall(s: Shared, c: Call): (r: Shared)
    requires s.device.Valid()
    ensures r.device.Valid()
  {
    var d := Ioctl(s.device, c.command, c.kernel).0;
    if c.client in s.pending then s
    else if !WritesResult(c.command, c.kernel) then s.(device := d)
    else
      var outcome := Pending(Outcome(s.device, c.command, c.kernel), s.clock);
      s.(device := d.(result := s.device.result), pending := s.pending[c.client := outcome])
  }

  function Do(s: Shared, e: Event): (r: Shared)
    requires s.device.Valid()
    ensures r.device.Valid() && r.clock == s.clock + 1
  {
    match e
    case Enter(c) => EnterCall(s, c).(clock := s.clock + 1)
    case Store(client) =>
      if client !in s.pending then s.(clock := s.clock + 1)
      else
        s.(device := s.device.(result := s.pending[client].value), pending := s.pending - {client},
           clock := s.clock + 1)
  }

  function After(d: Device, events: seq<Event>): (r: Shared)
    requires d.Valid()
    ensures r.device.Valid() && r.clock == |events|
    decreases |events|
  {
    if events == [] then Shared(d, map[], 0) else Do(After(d, events[..|events| - 1]), events[|events| - 1])
  }

  lemma {:induction false} AfterNext(d: Device, events: seq<Event>, k: nat)
    requires d.Valid() && k < |events|
    ensures After(d, events[..k + 1]) == Do(After(d, events[..k]), events[k])
  {
    assert events[..k + 1][..k] == events[..k];
  }

  // A client whose two steps follow each other sees what the entry does as a whole.
  lemma WholeCall(s: Shared, c: Call)
    requires s.device.Valid() && c.client !in s.pending
    ensures var s1 := Do(s, Enter(c));
            var s' := if WritesResult(c.command, c.kernel) then Do(s1, Store(c.client)) else s1;
            s'.device == Ioctl(s.device, c.command, c.kernel).0 && s'.pending == s.pending
  {
    if WritesResult(c.command, c.kernel) {
      assert Ioctl(s.device, c.command, c.kernel).0.result == Outcome(s.device, c.command, c.kernel);
    }
  }

  // Event k stores an outcome.
  predicate Stores(d: Device, events: seq<Event>, k: nat)
    requires d.Valid()
  {
    k < |events| && events[k].Store? && events[k].client in After(d, events[..k]).pending
  }

  // The outcome that event k stores was evaluated by event `Source`.
  function Source(d: Device, events: seq<Event>, k: nat): nat
    requires d.Valid() && Stores(d, events, k)
  {
    After(d, events[..k]).pending[events[k].client].at
  }

  // Event i evaluates the outcome of a storing request of this client.
  ghost predicate Evaluates(d: Device, events: seq<Event>, i: nat, client: nat)
    requires d.Valid()
  {
    && i < |events| && events[i].Enter? && events[i].call.client == client
    && WritesResult(events[i].call.command, events[i].call.kernel)
    && client !in After(d, events[..i]).pending
  }

  // What it evaluates, in the state of that moment.
  function ValueAt(d: Device, events: seq<Event>, i: nat): int
    requires d.Valid() && i < |events| && events[i].Enter?
    requires WritesResult(events[i].call.command, events[i].call.kernel)
  {
    Outcome(After(d, events[..i]).device, events[i].call.command, events[i].call.kernel)
  }

  lemma EvaluatesBefore(d: Device, events: seq<Event>, k: nat, i: nat, client: nat)
    requires d.Valid() && k <= |events| && Evaluates(d, events[..k], i, client)
    ensures i < k && Evaluates(d, events, i, client) && ValueAt(d, events, i) == ValueAt(d, events[..k], i)
  {
    assert events[..k][..i] == events[..i];
  }

  // Only its own store takes a pending outcome away, and nothing changes it.
  lemma PendingStays(s: Shared, e: Event, client: nat)
    requires s.device.Valid() && client in s.pending && e != Store(client)
    ensures client in Do(s, e).pending && Do(s, e).pending[client] == s.pending[client]
  {
  }

  lemma PendingStarts(s: Shared, e: Event, client: nat)
    requires s.device.Valid() && client !in s.pending && client in Do(s, e).pending
    ensures e.Enter? && e.call.client == client && WritesResult(e.call.command, e.call.kernel)
    ensures Do(s, e).pending[client] == Pending(Outcome(s.device, e.call.command, e.call.kernel), s.clock)
  {
  }

  lemma {:induction false} PendingIs(d: Device, events: seq<Event>, client: nat)
    requires d.Valid() && client in After(d, events).pending
    ensures var p := After(d, events).pending[client];
            Evaluates(d, events, p.at, client) && p.value == ValueAt(d, events, p.at)
    decreases |events|
  {
    var last := |events| - 1;
    var before, e := After(d, events[..last]), events[last];
    if client in before.pending {
      PendingIs(d, events[..last], client);
      assert e != Store(client);
      PendingStays(before, e, client);
      EvaluatesBefore(d, events, last, before.pending[client].at, client);
    } else {
      PendingStarts(before, e, client);
    }
  }

  // Its own store has not come since.
  lemma {:induction false} PendingUnstored(d: Device, events: seq<Event>, client: nat, j: nat)
    requires d.Valid() && client in After(d, events).pending
    requires After(d, events).pending[client].at < j < |events|
    ensures events[j] != Store(client)
    decreases |events|
  {
    var last := |events| - 1;
    var before, e := After(d, events[..last]), events[last];
    if client in before.pending {
      assert e != Store(client);
      PendingStays(before, e, client);
      if j < last {
        PendingUnstored(d, events[..last], client, j);
      }
    } else {
      PendingStarts(before, e, client);
    }
  }

  // The store that comes last.
  ghost predicate LatestStore(d: Device, events: seq<Event>, k: nat)
    requires d.Valid()
  {
    Stores(d, events, k) && forall j: nat :: k < j < |events| ==> !Stores(d, events, j)
  }

  ghost predicate NoStores(d: Device, events: seq<Event>, from: nat)
    requires d.Valid()
  {
    forall j: nat :: from <= j < |events| ==> !Stores(d, events, j)
  }

  lemma StoresBefore(d: Device, events: seq<Event>, j: nat)
    requires d.Valid() && j + 1 < |events|
    ensures Stores(d, events[..|events| - 1], j) <==> Stores(d, events, j)
  {
    assert events[..|events| - 1][..j] == events[..j];
  }

  lemma {:induction false} ResultKeeps(d: Device, events: seq<Event>, from: nat)
    requires d.Valid() && from <= |events| && NoStores(d, events, from)
    ensures After(d, events).device.result == After(d, events[..from]).device.result
    decreases |events|
  {
    if from == |events| {
      assert events[..from] == events;
    } else {
      var last := |events| - 1;
      forall j: nat | from <= j < last
        ensures !Stores(d, events[..last], j)
      {
        StoresBefore(d, events, j);
      }
      ResultKeeps(d, events[..last], from);
      assert events[..last][..from] == events[..from];
      assert !Stores(d, events, last);
    }
  }

  lemma {:induction false} StoredValue(d: Device, events: seq<Event>, k: nat)
    requires d.Valid() && Stores(d, events, k)
    ensures var i := Source(d, events, k);
            && i < k && Evaluates(d, events, i, events[k].client)
            && (forall j :: i < j < k ==> events[j] != Store(events[k].client))
            && After(d, events[..k + 1]).device.result == ValueAt(d, events, i)
  {
    var i := Source(d, events, k);
    PendingIs(d, events[..k], events[k].client);
    EvaluatesBefore(d, events, k, i, events[k].client);
    forall j | i < j < k
      ensures events[j] != Store(events[k].client)
    {
      PendingUnstored(d, events[..k], events[k].client, j);
    }
    StoreSets(d, events, k);
  }

  lemma {:induction false} StoreSets(d: Device, events: seq<Event>, k: nat)
    requires d.Valid() && Stores(d, events, k)
    ensures After(d, events[..k + 1]).device.result == After(d, events[..k]).pending[events[k].client].value
  {
    AfterNext(d, events, k);
  }

  // Main result: after any interleaving of any clients, RECV answers what the latest store
  // stored, which is the outcome its request had when it was evaluated; or the initial
  // value if none stored.
  lemma {:induction false} RecvAnswersLatest(d: Device, events: seq<Event>, kernel: Kernel)
    requires d.Valid() && kernel.copyTo
    ensures var answer := Ioctl(After(d, events).device, Recv, kernel).1;
            && (forall k: nat :: LatestStore(d, events, k) ==>
                  var i := Source(d, events, k);
                  i < k && Evaluates(d, events, i, events[k].client) && answer == Answer(ValueAt(d, events, i)))
            && (NoStores(d, events, 0) ==> answer == Answer(d.result))
  {
    forall k: nat | LatestStore(d, events, k)
      ensures var i := Source(d, events, k);
              i < k && Evaluates(d, events, i, events[k].client)
              && After(d, events).device.result == ValueAt(d, events, i)
    {
      StoredValue(d, events, k);
      ResultKeeps(d, events, k + 1);
    }
    if NoStores(d, events, 0) {
      ResultKeeps(d, events, 0);
      assert events[..0] == [];
    }
  }

  // Main result: a client whose own request was stored at k collects the outcome of that
  // request exactly when no other store came later, or the last one stored the same value.
  lemma {:induction false} OwnAnswerIff(d: Device, events: seq<Event>, k: nat, kernel: Kernel)
    requires d.Valid() && kernel.copyTo && Stores(d, events, k)
    ensures var own := Source(d, events, k);
            var answer := Ioctl(After(d, events).device, Recv, kernel).1;
            && own < k && Evaluates(d, events, own, events[k].client)
            && (answer == Answer(ValueAt(d, events, own)) <==>
                  forall j: nat :: k < j && LatestStore(d, events, j) ==>
                    var i := Source(d, events, j);
                    && i < j && Evaluates(d, events, i, events[j].client)
                    && ValueAt(d, events, i) == ValueAt(d, events, own))
  {
    StoredValue(d, events, k);
    RecvAnswersLatest(d, events, kernel);
    var last := LastStore(d, events, k);
    assert LatestStore(d, events, last);
  }

  lemma {:induction false} LastStore(d: Device, events: seq<Event>, k: nat) returns (last: nat)
    requires d.Valid() && Stores(d, events, k)
    ensures k <= last && LatestStore(d, events, last)
    decreases |events| - k
  {
    if j: nat :| k < j < |events| && Stores(d, events, j) {
      last := LastStore(d, events, j);
    } else {
      last := k;
    }
  }

  // A scan that no store follows reports -1 exactly when the table was clean when it was
  // evaluated, whatever other requests do before its own store.
  lemma UndisturbedScan(d: Device, events: seq<Event>, k: nat, kernel: Kernel)
    requires d.Valid() && kernel.copyTo && Stores(d, events, k) && NoStores(d, events, k + 1)
    ensures Source(d, events, k) < k
    ensures var i := Source(d, events, k);
            && events[i].Enter?
            && (events[i].call.command == Send(SCT_SCAN, 0) ==>
                  var sct := After(d, events[..i]).device.sct;
                  Ioctl(After(d, events).device, Recv, kernel).1 == Answer(-1)
                  <==> sct.table[..sct.Nr()] == sct.snap[..sct.Nr()])
  {
    OwnAnswerIff(d, events, k, kernel);
    CleanIffEqual(After(d, events[..Source(d, events, k)]).device.sct);
  }

  lemma CleanIffEqual(sct: Sct)
    requires sct.Valid()
    ensures sct.Compare() == -1 <==> sct.table[..sct.Nr()] == sct.snap[..sct.Nr()]
  {
    CompareIsLeast(sct, 0);
    var nr := sct.Nr();
    if sct.table[..nr] == sct.snap[..nr] {
      forall j | 0 <= j < nr
        ensures sct.table[j] == sct.snap[j]
      {
        assert sct.table[..nr][j] == sct.snap[..nr][j];
      }
    }
  }

  // A failed KILL by a second client between the store and the RECV of a scan of a clean
  // table makes the first client read "hook at entry 0".
  lemma ScanCanBeMisreported(d: Device, kernel: Kernel)
    requires d.Valid() && d.sct.Compare() == -1
    requires kernel.copyFrom && kernel.copyTo && !kernel.taskExists
    ensures var scan, kill := Call(1, Send(SCT_SCAN, 0), kernel), Call(2, Send(KILL, 7), kernel);
            Ioctl(After(d, [Enter(scan), Store(1), Enter(kill), Store(2)]).device, Recv, kernel).1 == Answer(0)
  {
    var scan, kill := Call(1, Send(SCT_SCAN, 0), kernel), Call(2, Send(KILL, 7), kernel);
    FourSteps(d, Enter(scan), Store(1), Enter(kill), Store(2));
    var s := Shared(d, map[], 0);
    WholeCall(s, scan);
    WholeCall(Do(Do(s, Enter(scan)), Store(1)), kill);
  }

  lemma {:induction false} FourSteps(d: Device, e0: Event, e1: Event, e2: Event, e3: Event)
    requires d.Valid()
    ensures After(d, [e0, e1, e2, e3]) == Do(Do(Do(Do(Shared(d, map[], 0), e0), e1), e2), e3)
  {
    var events := [e0, e1, e2, e3];
    assert events[..0] == [] && events[..4] == events;
    AfterNext(d, events, 0);
    AfterNext(d, events, 1);
    AfterNext(d, events, 2);
    AfterNext(d, events, 3);
  }

  // Even a kill that was evaluated before the scan overwrites its answer, when it is stored
  // after it.
  lemma EarlierKillCanOverwrite(d: Device, kernel: Kernel)
    requires d.Valid() && d.sct.Compare() == -1
    requires kernel.copyFrom && kernel.copyTo && !kernel.taskExists
    ensures var scan, kill := Call(1, Send(SCT_SCAN, 0), kernel), Call(2, Send(KILL, 7), kernel);
            Ioctl(After(d, [Enter(kill), Enter(scan), Store(1), Store(2)]).device, Recv, kernel).1 == Answer(0)
  {
    var scan, kill := Call(1, Send(SCT_SCAN, 0), kernel), Call(2, Send(KILL, 7), kernel);
    FourSteps(d, Enter(kill), Enter(scan), Store(1), Store(2));
    var s := Shared(d, map[], 0);
    var s1 := Do(s, Enter(kill));
    assert 2 in s1.pending;
    PendingStarts(s, Enter(kill), 2);
    PendingStays(s1, Enter(scan), 2);
    PendingStays(Do(s1, Enter(scan)), Store(1), 2);
  }
}
