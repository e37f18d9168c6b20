/**
  The hook queue as the driver holds it in memory: heap cells linked by `next`, inserted at
  the tail by a recursion over slots and removed at the head.  HookRuns has the same
  operations cut into single memory accesses and interleaved; here each call runs alone.
*/
module HookQueue {
  import opened Options
  import HookRuns

  datatype HookData = HookData(hookId: int, pid: int, parentPid: int)

  class Hook {
    var hookId: int
    var pid: int
    var parentPid: int
    var next: Hook?

    // kmalloc: it does not clear the memory, and nothing sets `next` later.
    constructor (junk: Hook?)
      ensures next == junk
    {
      next := junk;
    }

    ghost function Data(): HookData
      reads `hookId, `pid, `parentPid
    {
      HookData(hookId, pid, parentPid)
    }
  }

  // A `struct syscall_hook **`: the head word, or the next word of a cell.
  datatype HookSlot = HeadSlot | NextOf(node: Hook)

  // The pointer to position i of a list whose last cell points to `tail`.
  ghost function Following(hooks: seq<Hook>, i: nat, tail: Hook?): Hook? {
    if i < |hooks| then hooks[i] else tail
  }

  ghost function DataOf(hooks: seq<Hook>): (r: seq<HookData>)
    reads hooks`hookId, hooks`pid, hooks`parentPid
    ensures |r| == |hooks| && forall i :: 0 <= i < |r| ==> r[i] == hooks[i].Data()
  {
    if hooks == [] then [] else [hooks[0].Data()] + DataOf(hooks[1..])
  }

  // hook_id++ and the wrap-around check.
  function NextHookId(hookId: int): int {
    if hookId + 1 > HookRuns.MAX_HOOK_ID then HookRuns.MIN_HOOK_ID else hookId + 1
  }

  class HookList {
    var hooksList: Hook?
    var hookId: int
    ghost var hooks: seq<Hook>

    // Following the pointers gives `hooks` and then `tail`.
    ghost predicate ChainTo(tail: Hook?)
      reads `hooksList, `hooks, hooks`next
    {
      && hooksList == Following(hooks, 0, tail)
      && (forall i {:trigger hooks[i].next} :: 0 <= i < |hooks| ==> hooks[i].next == Following(hooks, i + 1, tail))
      && (forall i, j :: 0 <= i < j < |hooks| ==> hooks[i] != hooks[j])
    }

    ghost predicate Valid()
      reads `hooksList, `hooks, hooks`next
    {
      ChainTo(null)
    }

    ghost function Contents(): seq<HookData>
      reads `hooks, hooks`hookId, hooks`pid, hooks`parentPid
    {
      DataOf(hooks)
    }

    // The slot that leads to position k.
    ghost predicate SlotAt(slot: HookSlot, k: nat)
      reads `hooks
    {
      match slot
      case HeadSlot => k == 0
      case NextOf(node) => 0 < k <= |hooks| && node == hooks[k - 1]
    }

    constructor ()
      ensures Valid() && Contents() == [] && hookId == HookRuns.MIN_HOOK_ID && hooks == []
    {
      hooksList, hookId, hooks := null, HookRuns.MIN_HOOK_ID, [];
    }

    method Load(slot: HookSlot) returns (v: Hook?)
      ensures v == match slot case HeadSlot => hooksList case NextOf(node) => node.next
    {
      match slot
      case HeadSlot => v := hooksList;
      case NextOf(node) => v := node.next;
    }

    // The write through the slot that ends the list.
    method Store(slot: HookSlot, obj: Hook)
      requires Valid() && SlotAt(slot, |hooks|) && obj !in hooks
      modifies `hooksList, `hooks, hooks`next
      ensures hooks == old(hooks) + [obj] && obj.next == old(obj.next) && ChainTo(obj.next)
    {
      match slot {
        case HeadSlot => hooksList := obj;
        case NextOf(node) => node.next := obj;
      }
      hooks := hooks + [obj];
    }

    // Whatever obj.next holds is what the list then ends in.
    method AddHook(slot: HookSlot, obj: Hook, ghost k: nat)
      requires Valid() && SlotAt(slot, k) && obj !in hooks
      modifies `hooksList, `hooks, hooks`next
      ensures hooks == old(hooks) + [obj] && obj.next == old(obj.next) && ChainTo(obj.next)
      ensures Contents() == old(Contents()) + [old(obj.Data())]
      decreases |hooks| - k
    {
      var v := Load(slot);
      assert v == Following(hooks, k, null);
      if v != null {
        if v.next != null {
          AddHook(NextOf(v), obj, k + 1);
        } else {
          Store(NextOf(v), obj);
        }
      } else {
        Store(slot, obj);
      }
    }

    // The queue then ends in null exactly when obj.next is null.
    lemma ValidIff()
      requires hooks != [] && ChainTo(hooks[|hooks| - 1].next)
      ensures Valid() <==> hooks[|hooks| - 1].next == null
    {
    }

    method PopHook() returns (popped: Hook?)
      requires Valid()
      modifies `hooksList, `hooks
      ensures Valid()
      ensures old(hooks) == [] ==> popped == null && hooks == []
      ensures old(hooks) != [] ==> popped == old(hooks)[0] && hooks == old(hooks)[1..]
    {
      popped := null;
      if hooksList != null {
        assert hooks[0].next == Following(hooks, 1, null);
        popped := hooksList;
        hooksList := hooksList.next;
        hooks := hooks[1..];
        assert forall i :: 0 <= i < |hooks| ==> hooks[i] == old(hooks)[i + 1];
      }
    }

    // new_execve, up to the call of the real execve.  `granted` is false when kmalloc
    // fails, and !ok stands for the null dereference that follows.
    method NewExecve(granted: bool, junk: Hook?, pid: int, parentPid: int) returns (ok: bool)
      requires Valid()
      modifies this, hooks`next
      ensures ok == granted
      ensures !ok ==> Valid() && hooks == old(hooks) && Contents() == old(Contents()) && hookId == old(hookId)
      ensures ok ==> |hooks| > 0 && fresh(hooks[|hooks| - 1]) && hooks[..|hooks| - 1] == old(hooks)
      ensures ok ==> ChainTo(junk) && (Valid() <==> junk == null)
      ensures ok ==> Contents() == old(Contents()) + [HookData(old(hookId), pid, parentPid)]
      ensures ok ==> hookId == NextHookId(old(hookId))
    {
      if !granted {
        return false;
      }
      AddRecord(junk, pid, parentPid);
      BumpHookId();
      return true;
    }

    // The record is filled in and inserted.
    method AddRecord(junk: Hook?, pid: int, parentPid: int)
      requires Valid()
      modifies `hooksList, `hooks, hooks`next
      ensures |hooks| > 0 && fresh(hooks[|hooks| - 1]) && hooks[..|hooks| - 1] == old(hooks)
      ensures ChainTo(junk) && (Valid() <==> junk == null)
      ensures Contents() == old(Contents()) + [HookData(hookId, pid, parentPid)]
    {
      var obj := Fill(junk, pid, parentPid);
      AddHook(HeadSlot, obj, 0);
      ValidIff();
    }

    method BumpHookId()
      modifies `hookId
      ensures hookId == NextHookId(old(hookId))
    {
      hookId := hookId + 1;
      if hookId > HookRuns.MAX_HOOK_ID {
        hookId := HookRuns.MIN_HOOK_ID;
      }
    }

    // The allocation and the three assignments.
    method Fill(junk: Hook?, pid: int, parentPid: int) returns (obj: Hook)
      ensures fresh(obj) && obj.next == junk && obj.Data() == HookData(hookId, pid, parentPid)
    {
      obj := new Hook(junk);
      obj.pid := pid;
      obj.parentPid := parentPid;
      obj.hookId := hookId;
    }

    // The GET_HOOK branch: None stands for the null dereference on an empty list.
    method GetHook() returns (data: Option<HookData>)
      requires Valid()
      modifies `hooksList, `hooks
      ensures Valid()
      ensures old(Contents()) == [] ==> data == None && Contents() == []
      ensures old(Contents()) != [] ==> data == Some(old(Contents())[0]) && Contents() == old(Contents())[1..]
    {
      var tmp := PopHook();
      if tmp == null {
        return None;
      }
      data := Some(HookData(tmp.hookId, tmp.pid, tmp.parentPid));
    }

    // The loop of cleanup_spybot; `freed` lists the arguments of kfree in order.
    method Cleanup() returns (freed: seq<Hook>)
      requires Valid()
      modifies `hooksList, `hooks
      ensures Valid() && hooks == [] && hooksList == null
      ensures freed == old(hooks)
    {
      freed := [];
      var hook := PopHook();
      while hook != null
        invariant Valid()
        invariant hook != null ==> freed + [hook] + hooks == old(hooks)
        invariant hook == null ==> freed == old(hooks) && hooks == []
        decreases |hooks| + if hook != null then 1 else 0
      {
        freed := freed + [hook];
        hook := PopHook();
      }
    }
  }
}
