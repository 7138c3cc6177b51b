/** The message handlers of tools/daemon/message.c and the clean-up of tools/daemon/notify.c, against DaemonProtocol. */
module Daemon {
  import opened FlowTree
  import opened FlowAccounting
  import opened FlowRuns
  import opened FlowDaemon
  import opened DaemonProtocol
  import opened ProcessStore

  const ESRCH := 3
  const CHECKS: nat := 101      // the do-while of clean_process with wait = 100

  /** The search of `proc_msg_flow` through a process's flow list. */
  method Search(flows: seq<Live>, f: Flow) returns (j: nat)
    ensures j == FindFlow(flows, f)
  {
    j := 0;
    while j < |flows| && flows[j].flow != f
      invariant j <= |flows| && forall k | 0 <= k < j :: flows[k].flow != f
    {
      j := j + 1;
    }
  }

  /** Every check finds the process running. */
  predicate AllAlive(checks: seq<bool>) { forall k | 0 <= k < |checks| :: checks[k] }

  class Daemon {
    const tree: FlowDaemon
    const store: ProcessStore             // the pid table, with the flow_list of each process

    ghost predicate Valid()
      reads this, store, store.table, store.table.slots
    {
      store.Valid()
    }

    ghost function State(): (s: Store)
      reads this, tree, store
    {
      Store(tree.ifs, store.procs)
    }

    constructor (max: nat)
      requires max >= 1
      ensures Valid() && State() == Store([], map[]) && store.table.size == max && Invariant(State())
      ensures fresh(tree) && fresh(store) && fresh(store.table) && fresh(store.table.slots)
    {
      tree := new FlowDaemon();
      store := new ProcessStore(max);
      new;
      StartsInOrder();
    }

    /** `proc_msg_init`: mem says whether the store_pid can be allocated, fids whether its table of file ids can. */
    method ProcInit(pid: Pid, mem: bool, fids: bool) returns (rc: int)
      requires Valid() && pid != HashTable.KEY_INVALID
      modifies store, store.table, store.table.slots
      ensures Valid() && State() == Step(old(State()), store.table.size, Init(pid, mem && fids))
      ensures rc == 0 <==> mem && fids && |old(State()).procs| < store.table.size
      ensures rc == 0 ==> State() == Store(old(State()).ifs, old(State()).procs[pid := []])
      ensures rc != 0 ==> State() == old(State()) && rc == if mem then -EFAULT else -ENOMEM
    {
      if !mem {
        return -ENOMEM;
      }
      if !fids {
        return -EFAULT;
      }
      var ok := store.Register(pid);
      return if ok then 0 else -EFAULT;
    }

    /** `proc_msg_flow` with VMA_MSG_FLOW_ADD */
    method ProcFlowAdd(pid: Pid, f: Flow, mem: bool, env: Env) returns (rc: int)
      requires Valid() && pid != HashTable.KEY_INVALID
      modifies store, store.table, tree
      ensures Valid() && State() == Step(old(State()), store.table.size, FlowAdd(pid, f, mem, env))
      ensures rc == FlowAddCode(old(State()), pid, f, mem, env)
    {
      FlowAddCases(State(), store.table.size, pid, f, mem, env);
      var p := store.Find(pid);
      if p.None? {
        return -ENOENT;
      }
      if !mem {
        return -ENOMEM;
      }
      if !KnownType(f) {
        return -EPROTO;
      }
      rc := 0;
      var flows := store.lists[p.value];
      var j := Search(flows, Normal(f));
      if j == |flows| {
        rc := AddNew(pid, p.value, Normal(f), env);
      }
    }

    /** A flow that the process does not have yet. */
    method AddNew(ghost pid: Pid, p: HashTable.Ptr, f: Flow, env: Env) returns (rc: int)
      requires Valid() && store.Holds(pid, p)
      modifies store`lists, store`procs, tree
      ensures Valid()
      ensures var r := AddFlow(old(tree.ifs), f, 0, env);
              rc == r.rc && State() == WithFlow(old(State()), pid, f, r)
    {
      var handle;
      rc, handle := tree.Add(f, 0, env);
      if rc >= 0 {
        store.Update(pid, p, store.lists[p] + [Live(f, handle)]);
      }
    }

    /** `proc_msg_flow` with VMA_MSG_FLOW_DEL: deleting an unknown flow is not an error. */
    method ProcFlowDel(pid: Pid, f: Flow, mem: bool, gone: set<nat>, tc: DelTc) returns (rc: int)
      requires Valid() && pid != HashTable.KEY_INVALID
      modifies store, store.table, tree
      ensures Valid() && State() == Step(old(State()), store.table.size, FlowDel(pid, f, mem, gone))
      ensures rc == FlowDelCode(old(State()), pid, f, mem, gone, tc)
    {
      FlowDelCases(State(), store.table.size, pid, f, mem, gone, tc);
      var p := store.Find(pid);
      if p.None? {
        return -ENOENT;
      }
      if !mem {
        return -ENOMEM;
      }
      if !KnownType(f) {
        return -EPROTO;
      }
      rc := 0;
      var flows := store.lists[p.value];
      var j := Search(flows, Normal(f));
      if j < |flows| {
        rc := DelListed(pid, p.value, j, gone, tc);
      }
    }

    /** The j-th flow of the process leaves its list and the tree. */
    method DelListed(ghost pid: Pid, p: HashTable.Ptr, j: nat, gone: set<nat>, tc: DelTc) returns (rc: int)
      requires Valid() && store.Holds(pid, p) && j < |store.procs[pid]|
      modifies store`lists, store`procs, tree
      ensures Valid()
      ensures var x, lookup := old(State()).procs[pid][j], Lookup(gone, old(State()).procs[pid][j].flow.ifId);
              && rc == DelCode(old(tree.ifs), x.flow, x.handle, lookup, tc)
              && State() == WithoutFlow(old(State()), pid, j, gone)
    {
      var flows := store.lists[p];
      store.Update(pid, p, Without(flows, j));
      rc := tree.Del(flows[j].flow, flows[j].handle, Lookup(gone, flows[j].flow.ifId), tc);
    }

    /** The loop that empties a flow list. */
    method DelFlows(flows: seq<Live>, gone: set<nat>, tc: DelTc)
      modifies tree
      ensures tree.ifs == DelAll(old(tree.ifs), flows, gone)
    {
      var rest := flows;
      while rest != []
        invariant DelAll(tree.ifs, rest, gone) == DelAll(old(tree.ifs), flows, gone)
        decreases |rest|
      {
        var x := rest[0];
        rest := rest[1..];
        var _ := tree.Del(x.flow, x.handle, Lookup(gone, x.flow.ifId), tc);
      }
    }

    /** The common end of `proc_msg_exit` and `clean_process`. */
    method Forget(pid: Pid, gone: set<nat>, tc: DelTc) returns (known: bool)
      requires Valid() && pid != HashTable.KEY_INVALID
      modifies store, store.table, store.table.slots, tree
      ensures Valid() && State() == Leave(old(State()), pid, gone) && known == (pid in old(State()).procs)
    {
      var p := store.Find(pid);
      known := p.Some?;
      if known {
        Drop(pid, p.value, gone, tc);
      }
    }

    method Drop(pid: Pid, p: HashTable.Ptr, gone: set<nat>, tc: DelTc)
      requires Valid() && pid != HashTable.KEY_INVALID && store.Holds(pid, p)
      modifies store`procs, store.table, store.table.slots, tree
      ensures Valid() && State() == Store(DelAll(old(tree.ifs), old(store.procs[pid]), gone), old(store.procs) - {pid})
    {
      DelFlows(store.lists[p], gone, tc);
      store.Remove(pid);
    }

    /** `proc_msg_exit` */
    method ProcExit(pid: Pid, gone: set<nat>, tc: DelTc)
      requires Valid() && pid != HashTable.KEY_INVALID
      modifies store, store.table, store.table.slots, tree
      ensures Valid() && State() == Step(old(State()), store.table.size, Exit(pid, gone))
    {
      LeavingSteps(State(), store.table.size, pid, gone);
      var _ := Forget(pid, gone, tc);
    }

    /** `clean_process`: checks holds the successive answers of `check_process`. */
    method CleanProcess(pid: Pid, checks: seq<bool>, gone: set<nat>, tc: DelTc) returns (rc: int)
      requires Valid() && pid != HashTable.KEY_INVALID && |checks| == CHECKS
      modifies store, store.table, store.table.slots, tree
      ensures Valid() && State() == Step(old(State()), store.table.size, Clean(pid, AllAlive(checks), gone))
      ensures rc == 0 <==> pid in old(State()).procs && !AllAlive(checks)
    {
      LeavingSteps(State(), store.table.size, pid, gone);
      var k := WaitFor(checks);
      if k == CHECKS {
        return -ESRCH;
      }
      var known := Forget(pid, gone, tc);
      return if known then 0 else -ESRCH;
    }

    /** The loop of `clean_process`: the first check that finds the process gone. */
    static method WaitFor(checks: seq<bool>) returns (k: nat)
      requires |checks| == CHECKS
      ensures k == CHECKS <==> AllAlive(checks)
      ensures k <= CHECKS && (k < CHECKS ==> !checks[k]) && forall i | 0 <= i < k :: checks[i]
    {
      k := 0;
      while k < CHECKS && checks[k]
        invariant k <= CHECKS && forall i | 0 <= i < k :: checks[i]
      {
        k := k + 1;
      }
    }
  }

  /** After a delete message that was accepted, the flow is not on the process's list. */
  lemma DeletedIsGone(s: Store, max: nat, pid: Pid, f: Flow, gone: set<nat>)
    requires Invariant(s) && pid in s.procs && KnownType(f)
    ensures var after := Step(s, max, FlowDel(pid, f, true, gone)).procs;
            pid in after && FindFlow(after[pid], Normal(f)) == |after[pid]|
  {
  }

  lemma StartsInOrder()
    ensures Invariant(Store([], map[]))
  {
    forall q
      ensures Measure([], q) == Count([], q)
    {
    }
  }
}
