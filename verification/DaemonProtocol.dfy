/**
 The messages of tools/daemon: processes register, add and delete flows, and leave or are cleaned up after.  The
 pid table is a map of at most max entries, each with the process's list of flows.
 */
module DaemonProtocol {
  import opened KeyedLists
  import opened FlowHandles
  import opened FlowTree
  import opened FlowAccounting
  import opened FlowRuns

  type Pid = nat
  const ENOENT := 2

  datatype Store = Store(ifs: seq<Interface>, procs: map<Pid, seq<Live>>)

  /** A message with what the environment answers to it: whether memory can be had, what tc and the lookups say to an
   add, which interfaces are gone at a delete, whether the process still runs at a clean-up. */
  datatype Message =
    | Init(pid: Pid, mem: bool)
    | FlowAdd(pid: Pid, f: Flow, mem: bool, env: Env)
    | FlowDel(pid: Pid, f: Flow, mem: bool, gone: set<nat>)
    | Exit(pid: Pid, gone: set<nat>)
    | Clean(pid: Pid, alive: bool, gone: set<nat>)

  /** A 3-tuple message has no source address; its zeroed bytes compare equal. */
  function Normal(f: Flow): (r: Flow)
  {
    if f.typ == TCP_3T then f.(srcIp := 0, srcPort := 0) else f
  }

  function FindFlow(flows: seq<Live>, f: Flow): (j: nat)
    ensures j <= |flows|
    ensures j < |flows| ==> flows[j].flow == f
    ensures forall k | 0 <= k < j :: flows[k].flow != f
  {
    if flows == [] || flows[0].flow == f then 0 else 1 + FindFlow(flows[1..], f)
  }

  function Lookup(gone: set<nat>, ifId: nat): (errno: nat) { if ifId in gone then ENOENT else 0 }

  /** The loop of `proc_msg_exit` and `clean_process` over the flow list. */
  function DelAll(ifs: seq<Interface>, flows: seq<Live>, gone: set<nat>): (r: seq<Interface>)
    decreases flows
  {
    if flows == [] then ifs
    else DelAll(DelFlow(ifs, flows[0].flow, flows[0].handle, Lookup(gone, flows[0].flow.ifId)), flows[1..], gone)
  }

  function Leave(s: Store, pid: Pid, gone: set<nat>): (r: Store)
  {
    if pid !in s.procs then s else Store(DelAll(s.ifs, s.procs[pid], gone), s.procs - {pid})
  }

  /** The flow goes on the process's list unless the tree refused it. */
  function WithFlow(s: Store, pid: Pid, f: Flow, r: AddResult): (t: Store)
    requires pid in s.procs
  {
    Store(r.ifs, if r.rc < 0 then s.procs else s.procs[pid := s.procs[pid] + [Live(f, r.handle)]])
  }

  /** The j-th flow of the process leaves its list and the tree. */
  function WithoutFlow(s: Store, pid: Pid, j: nat, gone: set<nat>): (t: Store)
    requires pid in s.procs && j < |s.procs[pid]|
  {
    var x := s.procs[pid][j];
    Store(DelFlow(s.ifs, x.flow, x.handle, Lookup(gone, x.flow.ifId)), s.procs[pid := Without(s.procs[pid], j)])
  }

  function Step(s: Store, max: nat, m: Message): (r: Store)
  {
    match m
    case Init(pid, mem) =>
      if mem && |s.procs| < max then s.(procs := s.procs[pid := []]) else s
    case FlowAdd(pid, f, mem, env) =>
      if pid !in s.procs || !mem || !KnownType(f) || FindFlow(s.procs[pid], Normal(f)) < |s.procs[pid]| then s
      else
        WithFlow(s, pid, Normal(f), AddFlow(s.ifs, Normal(f), 0, env))
    case FlowDel(pid, f, mem, gone) =>
      if pid !in s.procs || !mem || !KnownType(f) || FindFlow(s.procs[pid], Normal(f)) == |s.procs[pid]| then s
      else
        WithoutFlow(s, pid, FindFlow(s.procs[pid], Normal(f)), gone)
    case Exit(pid, gone) => Leave(s, pid, gone)
    case Clean(pid, alive, gone) => if alive then s else Leave(s, pid, gone)
  }

  /** An accepted registration enters the process without flows, whether it was registered or not; a refused one changes nothing. */
  lemma InitCases(s: Store, max: nat, pid: Pid, mem: bool)
    ensures var t := Step(s, max, Init(pid, mem));
            && t.ifs == s.ifs
            && (if mem && |s.procs| < max then t.procs == s.procs[pid := []] else t.procs == s.procs)
  {
  }

  /** What `proc_msg_flow` returns for an add. */
  function FlowAddCode(s: Store, pid: Pid, f: Flow, mem: bool, env: Env): (rc: int)
  {
    if pid !in s.procs then -ENOENT
    else if !mem then -ENOMEM
    else if !KnownType(f) then -EPROTO
    else if FindFlow(s.procs[pid], Normal(f)) < |s.procs[pid]| then 0
    else AddFlow(s.ifs, Normal(f), 0, env).rc
  }

  /** An add message reaches the tree, or changes nothing. */
  lemma FlowAddCases(s: Store, max: nat, pid: Pid, f: Flow, mem: bool, env: Env)
    ensures var t, rc := Step(s, max, FlowAdd(pid, f, mem, env)), FlowAddCode(s, pid, f, mem, env);
            if pid !in s.procs then t == s && rc == -ENOENT
            else if !mem then t == s && rc == -ENOMEM
            else if !KnownType(f) then t == s && rc == -EPROTO
            else if FindFlow(s.procs[pid], Normal(f)) < |s.procs[pid]| then t == s && rc == 0
            else
              var r := AddFlow(s.ifs, Normal(f), 0, env);
              t == WithFlow(s, pid, Normal(f), r) && rc == r.rc
  {
  }

  /** The code is 0 exactly when the flow is on the process's list afterwards; otherwise it is an error and no list changed. */
  lemma FlowAddCodeMeans(s: Store, max: nat, pid: Pid, f: Flow, mem: bool, env: Env)
    ensures var rc, after := FlowAddCode(s, pid, f, mem, env), Step(s, max, FlowAdd(pid, f, mem, env)).procs;
            && rc <= 0 && (rc < 0 ==> after == s.procs)
            && (mem && KnownType(f) ==> (rc == 0 <==> pid in after && FindFlow(after[pid], Normal(f)) < |after[pid]|))
  {
    if pid in s.procs && mem && KnownType(f) && FindFlow(s.procs[pid], Normal(f)) == |s.procs[pid]| {
      var r := AddFlow(s.ifs, Normal(f), 0, env);
      AddReturnsAtMostZero(s.ifs, Normal(f), 0, env);
      if r.rc == 0 {
        var after := s.procs[pid] + [Live(Normal(f), r.handle)];
        assert after[|s.procs[pid]|].flow == Normal(f);
      }
    }
  }

  lemma AddReturnsAtMostZero(ifs: seq<Interface>, f: Flow, handle: nat, env: Env)
    ensures AddFlow(ifs, f, handle, env).rc <= 0
  {
  }

  /** What `proc_msg_flow` returns for a delete. */
  function FlowDelCode(s: Store, pid: Pid, f: Flow, mem: bool, gone: set<nat>, tc: DelTc): (rc: int)
  {
    if pid !in s.procs then -ENOENT
    else if !mem then -ENOMEM
    else if !KnownType(f) then -EPROTO
    else
      var j := FindFlow(s.procs[pid], Normal(f));
      if j == |s.procs[pid]| then 0
      else
        var x := s.procs[pid][j];
        DelCode(s.ifs, x.flow, x.handle, Lookup(gone, x.flow.ifId), tc)
  }

  /** A delete message reaches the tree, or changes nothing. */
  lemma FlowDelCases(s: Store, max: nat, pid: Pid, f: Flow, mem: bool, gone: set<nat>, tc: DelTc)
    ensures var t, rc := Step(s, max, FlowDel(pid, f, mem, gone)), FlowDelCode(s, pid, f, mem, gone, tc);
            if pid !in s.procs then t == s && rc == -ENOENT
            else if !mem then t == s && rc == -ENOMEM
            else if !KnownType(f) then t == s && rc == -EPROTO
            else
              var j := FindFlow(s.procs[pid], Normal(f));
              if j == |s.procs[pid]| then t == s && rc == 0
              else
                var x := s.procs[pid][j];
                t == WithoutFlow(s, pid, j, gone) && rc == DelCode(s.ifs, x.flow, x.handle, Lookup(gone, x.flow.ifId), tc)
  {
  }

  /** Exit, and clean-up after a process that is gone, are the same step. */
  lemma LeavingSteps(s: Store, max: nat, pid: Pid, gone: set<nat>)
    ensures Step(s, max, Exit(pid, gone)) == Leave(s, pid, gone) == Step(s, max, Clean(pid, false, gone))
    ensures Step(s, max, Clean(pid, true, gone)) == s
  {
  }

  // ------------------------------------------------------------------ the flows of all processes

  /** All the processes' lists, one after the other in some order. */
  ghost function Union(procs: map<Pid, seq<Live>>): (live: seq<Live>)
    decreases procs.Keys
  {
    if procs.Keys == {} then [] else
    var p :| p in procs.Keys;
    procs[p] + Union(procs - {p})
  }

  ghost predicate SameFlows(a: seq<Live>, b: seq<Live>)
  {
    (forall q :: Count(a, q) == Count(b, q)) && forall x :: x in a <==> x in b
  }

  lemma SwapIsSame(a: seq<Live>, b: seq<Live>, c: seq<Live>)
    ensures SameFlows(a + (b + c), b + (a + c))
  {
    forall q
      ensures Count(a + (b + c), q) == Count(b + (a + c), q)
    {
      CountConcat(a, b + c, q);
      CountConcat(b, c, q);
      CountConcat(b, a + c, q);
      CountConcat(a, c, q);
    }
  }

  lemma SameAfter(a: seq<Live>, b: seq<Live>, c: seq<Live>)
    requires SameFlows(b, c)
    ensures SameFlows(a + b, a + c)
  {
    forall q
      ensures Count(a + b, q) == Count(a + c, q)
    {
      CountConcat(a, b, q);
      CountConcat(a, c, q);
    }
  }

  /** Any process can be taken first. */
  lemma {:induction false} UnionSplit(procs: map<Pid, seq<Live>>, p: Pid)
    requires p in procs
    ensures SameFlows(Union(procs), procs[p] + Union(procs - {p}))
    decreases procs.Keys
  {
    var o :| o in procs.Keys && Union(procs) == procs[o] + Union(procs - {o});
    if o != p {
      var rest := Union(procs - {o} - {p});
      UnionSplit(procs - {o}, p);
      SameAfter(procs[o], Union(procs - {o}), procs[p] + rest);
      SwapIsSame(procs[o], procs[p], rest);
      UnionSplit(procs - {p}, o);
      assert procs - {p} - {o} == procs - {o} - {p};
      SameAfter(procs[p], Union(procs - {p}), procs[o] + rest);
    }
  }

  lemma UnionPut(procs: map<Pid, seq<Live>>, p: Pid, flows: seq<Live>)
    ensures SameFlows(Union(procs[p := flows]), flows + Union(procs - {p}))
  {
    UnionSplit(procs[p := flows], p);
    assert procs[p := flows] - {p} == procs - {p};
  }

  lemma AccountedSame(ifs: seq<Interface>, a: seq<Live>, b: seq<Live>)
    requires SameFlows(a, b) || SameFlows(b, a)
    ensures Accounted(ifs, a) <==> Accounted(ifs, b)
  {
  }

  /** The flows in the tree are those of the registered processes, and no process has a flow twice. */
  ghost predicate Invariant(s: Store)
  {
    && Accounted(s.ifs, Union(s.procs))
    && (forall p | p in s.procs :: DistinctFlows(s.procs[p]))
  }

  predicate DistinctFlows(flows: seq<Live>)
  {
    forall i, j | 0 <= i < j < |flows| :: flows[i].flow != flows[j].flow
  }

  // ------------------------------------------------------------------ adding and deleting

  lemma UnionJoins(procs: map<Pid, seq<Live>>, p: Pid, x: Live)
    requires p in procs
    ensures Joins(Union(procs), Union(procs[p := procs[p] + [x]]), x)
  {
    var rest := Union(procs - {p});
    UnionSplit(procs, p);
    UnionPut(procs, p, procs[p] + [x]);
    forall q
      ensures Count(Union(procs[p := procs[p] + [x]]), q) == Count(Union(procs), q) + One(Matches(x, q))
    {
      CountConcat(procs[p], rest, q);
      CountConcat(procs[p] + [x], rest, q);
      CountOneMore(procs[p], x);
      assert Count(procs[p] + [x], q) == Count(procs[p], q) + (if Matches(x, q) then 1 else 0);
    }
  }

  lemma UnionLeaves(procs: map<Pid, seq<Live>>, p: Pid, j: nat)
    requires p in procs && j < |procs[p]|
    ensures var after := Union(procs[p := Without(procs[p], j)]);
            Shift(Union(procs), after, procs[p][j], -1) && forall y | y in after :: y in Union(procs)
  {
    var x, rest, left := procs[p][j], Union(procs - {p}), Without(procs[p], j);
    UnionSplit(procs, p);
    UnionPut(procs, p, left);
    WithoutShift(procs[p], j);
    forall q
      ensures Count(Union(procs[p := left]), q) == Count(Union(procs), q) - One(Matches(x, q))
    {
      CountConcat(procs[p], rest, q);
      CountConcat(left, rest, q);
      assert Count(left, q) == Count(procs[p], q) + (if Matches(x, q) then -1 else 0);
    }
  }

  // ------------------------------------------------------------------ leaving

  /** The flows that a leaving process cannot take out of the tree. */
  function Stuck(flows: seq<Live>, gone: set<nat>): (r: seq<Live>)
  {
    if flows == [] then []
    else (if flows[0].flow.ifId in gone then [flows[0]] else []) + Stuck(flows[1..], gone)
  }

  lemma {:induction false} DelAllCounts(ifs: seq<Interface>, flows: seq<Live>, rest: seq<Live>, gone: set<nat>)
    requires Accounted(ifs, flows + rest)
    ensures Accounted(DelAll(ifs, flows, gone), Stuck(flows, gone) + rest)
    decreases flows
  {
    if flows == [] {
      assert flows + rest == Stuck(flows, gone) + rest;
    } else {
      var x, tail := flows[0], flows[1..];
      assert flows == [x] + tail;
      if x.flow.ifId in gone {
        SwapIsSame([x], tail, rest);
        assert flows + rest == [x] + (tail + rest);
        AccountedSame(ifs, flows + rest, tail + ([x] + rest));
        DelAllCounts(ifs, tail, [x] + rest, gone);
        var stuck := Stuck(tail, gone);
        SwapIsSame(stuck, [x], rest);
        assert Stuck(flows, gone) + rest == [x] + (stuck + rest);
        AccountedSame(DelAll(ifs, tail, gone), stuck + ([x] + rest), [x] + (stuck + rest));
      } else {
        WithoutShift(flows + rest, 0);
        assert Without(flows + rest, 0) == tail + rest;
        DelKeepsAccountedIff(ifs, flows + rest, tail + rest, x, 0);
        DelAllCounts(DelFlow(ifs, x.flow, x.handle, 0), tail, rest, gone);
        assert Stuck(flows, gone) == Stuck(tail, gone);
      }
    }
  }

  /** What is left in the tree after a process has left: the others' flows and its stuck ones. */
  lemma LeaveCounts(s: Store, pid: Pid, gone: set<nat>)
    requires Invariant(s) && pid in s.procs
    ensures Accounted(Leave(s, pid, gone).ifs, Stuck(s.procs[pid], gone) + Union(s.procs - {pid}))
  {
    UnionSplit(s.procs, pid);
    AccountedSame(s.ifs, Union(s.procs), s.procs[pid] + Union(s.procs - {pid}));
    DelAllCounts(s.ifs, s.procs[pid], Union(s.procs - {pid}), gone);
  }

  lemma {:induction false} NoneStuckIff(flows: seq<Live>, gone: set<nat>)
    ensures Stuck(flows, gone) == [] <==> forall x | x in flows :: x.flow.ifId !in gone
  {
    if flows != [] { NoneStuckIff(flows[1..], gone); }
  }

  /** A tree that counts both the flows of a and of b does not count b alone, unless a is empty. */
  lemma ExtraFlowsBreak(ifs: seq<Interface>, a: seq<Live>, b: seq<Live>)
    requires Accounted(ifs, a + b)
    ensures Accounted(ifs, b) <==> a == []
  {
    if a == [] {
      assert a + b == b;
    } else {
      var q := IfRef(a[0].flow.ifId);
      CountConcat(a, b, q);
      assert Measure(ifs, q) == Count(a + b, q) && Count(a, q) == 1 + Count(a[1..], q);
    }
  }

  // ------------------------------------------------------------------ the protocol

  /** When a message leaves the books in order, told from the state before it. */
  ghost predicate InOrder(s: Store, max: nat, m: Message)
  {
    match m
    case Init(pid, mem) => !mem || |s.procs| >= max || pid !in s.procs || s.procs[pid] == []
    case FlowAdd(pid, f, mem, env) =>
      || pid !in s.procs || !mem || !KnownType(f) || FindFlow(s.procs[pid], Normal(f)) < |s.procs[pid]|
      || Refused(s.ifs, Normal(f), env) || Served(s.ifs, Normal(f), env)
    case FlowDel(pid, f, mem, gone) =>
      || pid !in s.procs || !mem || !KnownType(f) || FindFlow(s.procs[pid], Normal(f)) == |s.procs[pid]|
      || f.ifId !in gone
    case Exit(pid, gone) => pid in s.procs ==> forall x | x in s.procs[pid] :: x.flow.ifId !in gone
    case Clean(pid, alive, gone) => !alive && pid in s.procs ==> forall x | x in s.procs[pid] :: x.flow.ifId !in gone
  }

  lemma InitKeepsIff(s: Store, max: nat, pid: Pid, mem: bool)
    requires Invariant(s)
    ensures Invariant(Step(s, max, Init(pid, mem))) <==> InOrder(s, max, Init(pid, mem))
  {
    if pid in s.procs {
      ForgetFlows(s, pid);
    } else {
      RegisterNew(s, pid);
    }
  }

  lemma RegisterNew(s: Store, pid: Pid)
    requires Accounted(s.ifs, Union(s.procs)) && pid !in s.procs
    ensures Accounted(s.ifs, Union(s.procs[pid := []]))
  {
    UnionPut(s.procs, pid, []);
    assert s.procs - {pid} == s.procs && [] + Union(s.procs) == Union(s.procs);
    AccountedSame(s.ifs, Union(s.procs[pid := []]), Union(s.procs));
  }

  /** Registering a process again drops its flow list, not its flows. */
  lemma ForgetFlows(s: Store, pid: Pid)
    requires Accounted(s.ifs, Union(s.procs)) && pid in s.procs
    ensures Accounted(s.ifs, Union(s.procs[pid := []])) <==> s.procs[pid] == []
  {
    var rest := Union(s.procs - {pid});
    UnionPut(s.procs, pid, []);
    assert [] + rest == rest;
    AccountedSame(s.ifs, Union(s.procs[pid := []]), rest);
    UnionSplit(s.procs, pid);
    AccountedSame(s.ifs, Union(s.procs), s.procs[pid] + rest);
    ExtraFlowsBreak(s.ifs, s.procs[pid], rest);
  }

  lemma LeaveKeepsIff(s: Store, pid: Pid, gone: set<nat>)
    requires Invariant(s)
    ensures Invariant(Leave(s, pid, gone)) <==> (pid in s.procs ==> forall x | x in s.procs[pid] :: x.flow.ifId !in gone)
  {
    if pid in s.procs {
      LeaveCounts(s, pid, gone);
      NoneStuckIff(s.procs[pid], gone);
      ExtraFlowsBreak(Leave(s, pid, gone).ifs, Stuck(s.procs[pid], gone), Union(s.procs - {pid}));
    }
  }

  lemma FlowDelKeepsIff(s: Store, max: nat, pid: Pid, f: Flow, mem: bool, gone: set<nat>)
    requires Invariant(s)
    ensures Invariant(Step(s, max, FlowDel(pid, f, mem, gone))) <==> InOrder(s, max, FlowDel(pid, f, mem, gone))
  {
    if pid in s.procs && mem && KnownType(f) && FindFlow(s.procs[pid], Normal(f)) < |s.procs[pid]| {
      var j := FindFlow(s.procs[pid], Normal(f));
      var x := s.procs[pid][j];
      UnionLeaves(s.procs, pid, j);
      UnionSplit(s.procs, pid);
      assert x in s.procs[pid] + Union(s.procs - {pid});
      DelKeepsAccountedIff(s.ifs, Union(s.procs), Union(s.procs[pid := Without(s.procs[pid], j)]), x, Lookup(gone, x.flow.ifId));
    }
  }

  lemma FlowAddKeepsIff(s: Store, max: nat, pid: Pid, f: Flow, mem: bool, env: Env)
    requires Invariant(s)
    ensures Invariant(Step(s, max, FlowAdd(pid, f, mem, env))) <==> InOrder(s, max, FlowAdd(pid, f, mem, env))
  {
    if pid in s.procs && mem && KnownType(f) && FindFlow(s.procs[pid], Normal(f)) == |s.procs[pid]| {
      NewFlowKeepsIff(s, pid, Normal(f), env);
    }
  }

  lemma NewFlowKeepsIff(s: Store, pid: Pid, f: Flow, env: Env)
    requires Invariant(s) && pid in s.procs && FindFlow(s.procs[pid], f) == |s.procs[pid]|
    ensures Invariant(WithFlow(s, pid, f, AddFlow(s.ifs, f, 0, env))) <==> Refused(s.ifs, f, env) || Served(s.ifs, f, env)
  {
    var r := AddFlow(s.ifs, f, 0, env);
    var live, after := Union(s.procs), Union(s.procs[pid := s.procs[pid] + [Live(f, r.handle)]]);
    UnionJoins(s.procs, pid, Live(f, r.handle));
    if Refused(s.ifs, f, env) {
      RefusedKeeps(s.ifs, f, 0, env);
    } else if Served(s.ifs, f, env) {
      ServedKeeps(s.ifs, live, after, f, 0, env);
    } else {
      UnservedBreaks(s.ifs, live, after, f, env, HandleHt(0), HandleBkt(0), HandleId(0));
    }
  }

  lemma UnservedBreaks(ifs: seq<Interface>, live: seq<Live>, after: seq<Live>, f: Flow, env: Env, ht: int, bkt: int, id: int)
    requires Accounted(ifs, live) && !Refused(ifs, f, env) && !Served(ifs, f, env)
    requires Joins(live, after, Live(f, AddToIf(ifs, f, env, ht, bkt, id).handle))
    ensures var r := AddToIf(ifs, f, env, ht, bkt, id);
            r.rc <= 0 && !Accounted(r.ifs, if r.rc < 0 then live else after)
  {
    var r := AddToIf(ifs, f, env, ht, bkt, id);
    if r.rc == 0 {
      ExhaustionBreaks(ifs, live, after, f, env, ht, bkt, id, r);
    } else {
      FailureBreaks(ifs, live, f, env, ht, bkt, id);
    }
  }

  /** For every message, from every state in order: the state stays in order exactly under the stated condition. */
  lemma StepKeepsIff(s: Store, max: nat, m: Message)
    requires Invariant(s)
    ensures Invariant(Step(s, max, m)) <==> InOrder(s, max, m)
  {
    match m
    case Init(pid, mem) => InitKeepsIff(s, max, pid, mem);
    case FlowAdd(pid, f, mem, env) => FlowAddKeepsIff(s, max, pid, f, mem, env);
    case FlowDel(pid, f, mem, gone) => FlowDelKeepsIff(s, max, pid, f, mem, gone);
    case Exit(pid, gone) => LeaveKeepsIff(s, pid, gone);
    case Clean(pid, alive, gone) => LeaveKeepsIff(s, pid, gone);
  }

  ghost predicate OrderlyRun(s: Store, max: nat, ms: seq<Message>)
    decreases ms
  {
    ms == [] || (InOrder(s, max, ms[0]) && OrderlyRun(Step(s, max, ms[0]), max, ms[1..]))
  }

  function RunAll(s: Store, max: nat, ms: seq<Message>): (t: Store)
    decreases ms
  {
    if ms == [] then s else RunAll(Step(s, max, ms[0]), max, ms[1..])
  }

  /** Over every orderly run the tree holds exactly the flows of the registered processes. */
  lemma {:induction false} RunKeepsInvariant(s: Store, max: nat, ms: seq<Message>)
    requires Invariant(s) && OrderlyRun(s, max, ms)
    ensures Invariant(RunAll(s, max, ms))
    decreases ms
  {
    if ms != [] {
      StepKeepsIff(s, max, ms[0]);
      RunKeepsInvariant(Step(s, max, ms[0]), max, ms[1..]);
    }
  }

  /** Leaving removes all of the process's flows from the tree and none of any other process's. */
  lemma LeaveRemovesExactly(s: Store, pid: Pid, q: Query)
    requires Invariant(s) && pid in s.procs
    ensures Leave(s, pid, {}).procs == s.procs - {pid}
    ensures Measure(Leave(s, pid, {}).ifs, q) == Measure(s.ifs, q) - Count(s.procs[pid], q)
  {
    LeaveCounts(s, pid, {});
    NoneStuckIff(s.procs[pid], {});
    UnionSplit(s.procs, pid);
    CountConcat(s.procs[pid], Union(s.procs - {pid}), q);
    CountConcat(Stuck(s.procs[pid], {}), Union(s.procs - {pid}), q);
    assert Measure(s.ifs, q) == Count(Union(s.procs), q);
  }

  /** When every process has left, the tree is empty. */
  lemma AllGoneEmpties(s: Store)
    requires Invariant(s) && s.procs == map[]
    ensures s.ifs == []
  {
    EmptyIffNoneLive(s.ifs, Union(s.procs));
  }

  // ------------------------------------------------------------------ who is registered

  /** The message takes the process out. */
  predicate Leaves(m: Message, pid: Pid)
  {
    m.pid == pid && (m.Exit? || (m.Clean? && !m.alive))
  }

  /** The message enters the process: memory can be had and the table has room. */
  predicate Enters(s: Store, max: nat, m: Message, pid: Pid)
  {
    m.pid == pid && m.Init? && m.mem && |s.procs| < max
  }

  lemma StepRegisters(s: Store, max: nat, m: Message, pid: Pid)
    ensures pid in Step(s, max, m).procs <==> Enters(s, max, m, pid) || (pid in s.procs && !Leaves(m, pid))
  {
  }

  /** The k-th message of the run enters the process, counted from 1; it is there before the first if k is 0. */
  ghost predicate EntersAt(s: Store, max: nat, ms: seq<Message>, pid: Pid, k: nat)
    requires k <= |ms|
  {
    if k == 0 then pid in s.procs else Enters(RunAll(s, max, ms[..k - 1]), max, ms[k - 1], pid)
  }

  /** The process enters by the k-th message and does not leave after it. */
  ghost predicate StaysFrom(s: Store, max: nat, ms: seq<Message>, pid: Pid, k: nat)
    requires k <= |ms|
  {
    EntersAt(s, max, ms, pid, k) && forall j | k <= j < |ms| :: !Leaves(ms[j], pid)
  }

  lemma StaysShift(s: Store, max: nat, ms: seq<Message>, pid: Pid, k: nat)
    requires 1 <= k < |ms|
    ensures StaysFrom(s, max, ms, pid, k + 1) <==> StaysFrom(Step(s, max, ms[0]), max, ms[1..], pid, k)
  {
    var rest := ms[1..];
    assert ms[..k][0] == ms[0] && ms[..k][1..] == rest[..k - 1];
    assert forall j | k <= j < |rest| :: rest[j] == ms[j + 1];
    assert forall j | k + 1 <= j < |ms| :: ms[j] == rest[j - 1];
  }

  lemma {:induction false} RegisteredStays(s: Store, max: nat, ms: seq<Message>, pid: Pid, k: nat)
    requires k <= |ms| && StaysFrom(s, max, ms, pid, k)
    ensures pid in RunAll(s, max, ms).procs
    decreases ms
  {
    if ms != [] {
      StepRegisters(s, max, ms[0], pid);
      if k > 1 { StaysShift(s, max, ms, pid, k - 1); }
      RegisteredStays(Step(s, max, ms[0]), max, ms[1..], pid, if k == 0 then 0 else k - 1);
    }
  }

  lemma {:induction false} RegisteredEntered(s: Store, max: nat, ms: seq<Message>, pid: Pid) returns (k: nat)
    requires pid in RunAll(s, max, ms).procs
    ensures k <= |ms| && StaysFrom(s, max, ms, pid, k)
    decreases ms
  {
    k := 0;
    if ms != [] {
      var s1, rest := Step(s, max, ms[0]), ms[1..];
      k := RegisteredEntered(s1, max, rest, pid);
      if k > 0 {
        StaysShift(s, max, ms, pid, k);
        k := k + 1;
      } else {
        StepRegisters(s, max, ms[0], pid);
        assert forall j | 1 <= j < |ms| :: ms[j] == rest[j - 1];
        k := if Enters(s, max, ms[0], pid) then 1 else 0;
      }
    }
  }

  /** Over every run: a process is registered exactly when it entered and has not left since. */
  lemma RegisteredIff(s: Store, max: nat, ms: seq<Message>, pid: Pid)
    ensures pid in RunAll(s, max, ms).procs <==> exists k :: 0 <= k <= |ms| && StaysFrom(s, max, ms, pid, k)
  {
    if k :| 0 <= k <= |ms| && StaysFrom(s, max, ms, pid, k) {
      RegisteredStays(s, max, ms, pid, k);
    } else if pid in RunAll(s, max, ms).procs {
      var k := RegisteredEntered(s, max, ms, pid);
    }
  }

  /** An add is answered with -ENOENT exactly to an unregistered process, or when the system's own lookup says so. */
  lemma AddUnknownIff(s: Store, pid: Pid, f: Flow, mem: bool, env: Env)
    ensures FlowAddCode(s, pid, f, mem, env) == -ENOENT <==>
              || pid !in s.procs
              || (&& mem && KnownType(f) && FindFlow(s.procs[pid], Normal(f)) == |s.procs[pid]|
                  && (env.lookup == ENOENT || (env.lookup == 0 && Get(s.ifs, f.ifId).None? && env.newIf == ENOENT)))
  {
    AddToIfCodes(s.ifs, Normal(f), env, HandleHt(0), HandleBkt(0), HandleId(0));
  }

  lemma AddToIfCodes(ifs: seq<Interface>, f: Flow, env: Env, ht: int, bkt: int, id: int)
    ensures AddToIf(ifs, f, env, ht, bkt, id).rc in {0, -ENOMEM, -EFAULT}
  {
  }

  /** From a process's registration until it leaves, its adds are not answered with -ENOENT for want of a registration. */
  lemma RegisteredAddsAreKnown(s: Store, max: nat, pid: Pid, ms: seq<Message>, f: Flow, mem: bool, env: Env)
    requires |s.procs| < max && (forall m | m in ms :: !Leaves(m, pid))
    requires env.lookup != ENOENT && env.newIf != ENOENT
    ensures FlowAddCode(RunAll(Step(s, max, Init(pid, true)), max, ms), pid, f, mem, env) != -ENOENT
  {
    var s1 := Step(s, max, Init(pid, true));
    StepRegisters(s, max, Init(pid, true), pid);
    RegisteredStays(s1, max, ms, pid, 0);
    AddUnknownIff(RunAll(s1, max, ms), pid, f, mem, env);
  }

  /** Two 3-tuple adds that differ in the source alone are one flow: the second is accepted and changes nothing. */
  lemma ThreeTupleAddsOnce(s: Store, max: nat, pid: Pid, f: Flow, env: Env, srcIp: nat, srcPort: nat, env': Env)
    requires f.typ == TCP_3T && FlowAddCode(s, pid, f, true, env) == 0
    ensures var s1, g := Step(s, max, FlowAdd(pid, f, true, env)), f.(srcIp := srcIp, srcPort := srcPort);
            Step(s1, max, FlowAdd(pid, g, true, env')) == s1 && FlowAddCode(s1, pid, g, true, env') == 0
  {
    FlowAddCodeMeans(s, max, pid, f, true, env);
    assert Normal(f.(srcIp := srcIp, srcPort := srcPort)) == Normal(f);
  }

  /** Different 5-tuples are different flows: one does not put the other on the list. */
  lemma FiveTuplesDiffer(s: Store, max: nat, pid: Pid, f: Flow, env: Env, g: Flow)
    requires pid in s.procs && f.typ == g.typ == TCP_5T && f != g
    ensures var after := Step(s, max, FlowAdd(pid, f, true, env)).procs;
            pid in after && (FindFlow(after[pid], g) < |after[pid]| <==> FindFlow(s.procs[pid], g) < |s.procs[pid]|)
  {
    var flows, after := s.procs[pid], Step(s, max, FlowAdd(pid, f, true, env)).procs[pid];
    if after != flows {
      assert after[..|flows|] == flows && after[|flows|].flow == f;
      var j := FindFlow(flows, g);
      if j < |flows| { assert after[j].flow == g; }
    }
  }
}
