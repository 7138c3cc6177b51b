/** The flow tree over whole runs of `add_flow` and `del_flow`. */
module FlowRuns {
  import opened KeyedLists
  import opened FlowHandles
  import opened FlowTree
  import opened FlowIds
  import opened FlowAccounting
  import opened FlowRemoval

  /** live becomes after by one flow like x coming in. */
  ghost predicate Joins(live: seq<Live>, after: seq<Live>, x: Live)
  {
    Shift(live, after, x, 1) && forall y | y in after :: y in live || y == x
  }

  lemma AppendJoins(live: seq<Live>, x: Live)
    ensures Joins(live, live + [x], x)
  {
    CountOneMore(live, x);
  }

  // ------------------------------------------------------------------ add_flow

  lemma ServedKeeps(ifs: seq<Interface>, live: seq<Live>, after: seq<Live>, f: Flow, handle: nat, env: Env)
    requires Accounted(ifs, live) && Served(ifs, f, env) && Joins(live, after, Live(f, AddFlow(ifs, f, handle, env).handle))
    ensures AddFlow(ifs, f, handle, env).rc == 0 && Accounted(AddFlow(ifs, f, handle, env).ifs, after)
  {
    AddFlowCounts(ifs, f, handle, env);
    AddedIsAccounted(ifs, live, after, f, AddFlow(ifs, f, handle, env));
  }

  lemma AddedIsAccounted(ifs: seq<Interface>, live: seq<Live>, after: seq<Live>, f: Flow, r: AddResult)
    requires Accounted(ifs, live) && FlowAdded(ifs, f, r) && Joins(live, after, Live(f, r.handle))
    ensures Accounted(r.ifs, after)
  {
  }

  lemma RefusedKeeps(ifs: seq<Interface>, f: Flow, handle: nat, env: Env)
    requires Refused(ifs, f, env)
    ensures AddFlow(ifs, f, handle, env).rc < 0 && AddFlow(ifs, f, handle, env).ifs == ifs
  {
  }

  /** Failing after the first reference was taken leaves the interface's count one too high. */
  lemma FailureBreaks(ifs: seq<Interface>, live: seq<Live>, f: Flow, env: Env, ht: int, bkt: int, id: int)
    requires Accounted(ifs, live)
    ensures !Accounted(AddToIf(ifs, f, env, ht, bkt, id).ifs, live)
  {
    AddTakesReference(ifs, f, env, ht, bkt, id);
    var q := IfRef(f.ifId);
    assert Measure(ifs, q) == Count(live, q);
    assert Measure(AddToIf(ifs, f, env, ht, bkt, id).ifs, q) != Count(live, q);
  }

  lemma AddToIfIs(ifs: seq<Interface>, f: Flow, env: Env, ht: int, bkt: int, id: int)
    ensures var e := InterfaceOr(ifs, f.ifId);
            var r := AddTable(e.body, f, env, ht, bkt, id);
            AddToIf(ifs, f, env, ht, bkt, id) ==
            AddResult(Put(ifs, Elem(f.ifId, e.ref + 1, r.list)), HandleSet(r.ht, r.bkt, r.id), r.rc)
  {
  }

  /** Running out of ids goes unnoticed by the caller, but the tree no longer counts the flow. */
  lemma ExhaustionBreaks(ifs: seq<Interface>, live: seq<Live>, after: seq<Live>, f: Flow, env: Env,
                         ht: int, bkt: int, id: int, res: AddResult)
    requires Accounted(ifs, live) && KnownType(f) && !TableServed(InterfaceOr(ifs, f.ifId).body, f, env)
    requires res == AddToIf(ifs, f, env, ht, bkt, id) && res.rc == 0 && Joins(live, after, Live(f, res.handle))
    ensures !Accounted(res.ifs, after)
  {
    var e := InterfaceOr(ifs, f.ifId);
    var r := AddTable(e.body, f, env, ht, bkt, id);
    assert res.ifs == Put(ifs, Elem(f.ifId, e.ref + 1, r.list)) && res.handle == HandleSet(r.ht, r.bkt, r.id) && res.rc == r.rc by {
      AddToIfIs(ifs, f, env, ht, bkt, id);
    }
    ExhaustedTableBreaks(ifs, live, after, e, f, env, ht, bkt, id, r);
  }

  lemma ExhaustedTableBreaks(ifs: seq<Interface>, live: seq<Live>, after: seq<Live>, e: Interface, f: Flow, env: Env,
                             ht: int, bkt: int, id: int, r: Added<IfBody>)
    requires Accounted(ifs, live) && KnownType(f) && e == InterfaceOr(ifs, f.ifId) && !TableServed(e.body, f, env)
    requires r == AddTable(e.body, f, env, ht, bkt, id) && r.rc == 0
    requires Joins(live, after, Live(f, HandleSet(r.ht, r.bkt, r.id)))
    ensures !Accounted(Put(ifs, Elem(f.ifId, e.ref + 1, r.list)), after)
  {
    UnservedReturnsZero(e.body, f, env, ht, bkt, id);
    if OutOfTables(e.body, f) {
      TablesExhausted(ifs, e, f, env, ht, bkt, id);
    } else {
      OutOfNodesBreaks(e.body, f, env, ht, bkt, id);
      MissingNodeBreaks(ifs, live, after, e, r, f);
    }
  }

  lemma TablesExhausted(ifs: seq<Interface>, e: Interface, f: Flow, env: Env, ht: int, bkt: int, id: int)
    requires OutOfTables(e.body, f) && AddTable(e.body, f, env, ht, bkt, id).rc == 0
    ensures !TreeOk(Put(ifs, Elem(f.ifId, e.ref + 1, AddTable(e.body, f, env, ht, bkt, id).list)))
  {
    OutOfTablesBreaks(e.body, f, env, ht, bkt, id);
    BadBodyBreaks(ifs, Elem(f.ifId, e.ref + 1, AddTable(e.body, f, env, ht, bkt, id).list));
  }

  lemma BadBodyBreaks(ifs: seq<Interface>, n: Interface)
    requires !IdsOk(n.body)
    ensures !TreeOk(Put(ifs, n))
  {
    GetPut(ifs, n, n.key);
    GetIsMember(Put(ifs, n), n.key);
    assert !IfOk(n);
  }

  lemma MissingNodeBreaks(ifs: seq<Interface>, live: seq<Live>, after: seq<Live>, e: Interface, r: Added<IfBody>, f: Flow)
    requires Accounted(ifs, live) && e == InterfaceOr(ifs, f.ifId)
    requires r.bkt == Bkt(f) > 0 && r.id == -EINVAL
    requires NodesIn(BktsIn(r.list.tables, Key(f)), Bkt(f)) == NodesIn(BktsIn(e.body.tables, Key(f)), Bkt(f))
    requires Joins(live, after, Live(f, HandleSet(r.ht, r.bkt, r.id)))
    ensures !Accounted(Put(ifs, Elem(f.ifId, e.ref + 1, r.list)), after)
  {
    var x := Live(f, HandleSet(r.ht, r.bkt, r.id));
    var q := InIf(f.ifId, InTable(Key(f), NodeCount(Bkt(f), HandleId(x.handle))));
    PutIfMeasures(ifs, Elem(f.ifId, e.ref + 1, r.list), q);
    InterfaceOrOk(ifs, f.ifId);
    assert Measure(ifs, q) == Count(live, q);
    assert Count(after, q) == Count(live, q) + 1;
  }

  /** The flows that are live after the call. */
  function LiveAfter(live: seq<Live>, f: Flow, r: AddResult): (after: seq<Live>)
  {
    if r.rc == 0 then live + [Live(f, r.handle)] else live
  }

  /** The tree stays accounted exactly when add_flow is refused before it takes a reference, or fully served. */
  lemma AddKeepsAccountedIff(ifs: seq<Interface>, live: seq<Live>, f: Flow, handle: nat, env: Env)
    requires Accounted(ifs, live)
    ensures var r := AddFlow(ifs, f, handle, env);
            Accounted(r.ifs, LiveAfter(live, f, r)) <==> Refused(ifs, f, env) || Served(ifs, f, env)
  {
    var r := AddFlow(ifs, f, handle, env);
    var x := Live(f, r.handle);
    AppendJoins(live, x);
    if Refused(ifs, f, env) {
      RefusedKeeps(ifs, f, handle, env);
    } else if Served(ifs, f, env) {
      ServedKeeps(ifs, live, live + [x], f, handle, env);
    } else {
      AddBreaks(ifs, live, f, env, HandleHt(handle), HandleBkt(handle), HandleId(handle));
    }
  }

  lemma AddBreaks(ifs: seq<Interface>, live: seq<Live>, f: Flow, env: Env, ht: int, bkt: int, id: int)
    requires Accounted(ifs, live) && !Refused(ifs, f, env) && !Served(ifs, f, env)
    ensures var r := AddToIf(ifs, f, env, ht, bkt, id);
            !Accounted(r.ifs, LiveAfter(live, f, r))
  {
    var r := AddToIf(ifs, f, env, ht, bkt, id);
    var x := Live(f, r.handle);
    if r.rc == 0 {
      AppendJoins(live, x);
      ExhaustionBreaks(ifs, live, live + [x], f, env, ht, bkt, id, r);
    } else {
      FailureBreaks(ifs, live, f, env, ht, bkt, id);
    }
  }

  // ------------------------------------------------------------------ del_flow

  /** Deleting a live flow: the tree is accounted for what is left exactly when the interface is still known. */
  lemma DelKeepsAccountedIff(ifs: seq<Interface>, live: seq<Live>, after: seq<Live>, x: Live, lookup: nat)
    requires Leaves(ifs, live, after, x) && forall y | y in after :: y in live
    ensures Accounted(DelFlow(ifs, x.flow, x.handle, lookup), after) <==> lookup == 0
  {
    if lookup == 0 {
      TreeIsHeld(ifs, live, after, x);
      DelFlowCounts(ifs, x);
      forall q
        ensures Measure(DelFlow(ifs, x.flow, x.handle, lookup), q) == Count(after, q)
      {
        OnPath(ifs, live, after, x, q);
      }
    } else {
      OnPath(ifs, live, after, x, IfRef(x.flow.ifId));
    }
  }

  function Without(live: seq<Live>, j: nat): (r: seq<Live>)
    requires j < |live|
  {
    live[..j] + live[j + 1..]
  }

  lemma WithoutShift(live: seq<Live>, j: nat)
    requires j < |live|
    ensures Shift(live, Without(live, j), live[j], -1)
    ensures forall y | y in Without(live, j) :: y in live
  {
    var a, b := live[..j], live[j + 1..];
    forall q
      ensures Count(Without(live, j), q) == Count(live, q) - One(Matches(live[j], q))
    {
      assert live == a + ([live[j]] + b);
      CountConcat(a, b, q);
      CountConcat(a, [live[j]] + b, q);
      CountConcat([live[j]], b, q);
      assert Count([live[j]], q) == One(Matches(live[j], q)) + Count([], q);
    }
  }

  // ------------------------------------------------------------------ runs

  datatype Op = Add(f: Flow, handle: nat, env: Env) | Delete(j: nat)

  /** Each add is refused or served, each delete names a live flow on a known interface. */
  ghost predicate GoodOp(ifs: seq<Interface>, live: seq<Live>, op: Op)
  {
    match op
    case Add(f, _, env) => Refused(ifs, f, env) || Served(ifs, f, env)
    case Delete(j) => j < |live|
  }

  function Apply(ifs: seq<Interface>, live: seq<Live>, op: Op): (r: (seq<Interface>, seq<Live>))
    requires op.Delete? ==> op.j < |live|
  {
    match op
    case Add(f, handle, env) =>
      var r := AddFlow(ifs, f, handle, env);
      (r.ifs, LiveAfter(live, f, r))
    case Delete(j) => (DelFlow(ifs, live[j].flow, live[j].handle, 0), Without(live, j))
  }

  ghost predicate GoodRun(ifs: seq<Interface>, live: seq<Live>, ops: seq<Op>)
    decreases ops
  {
    ops == [] || (GoodOp(ifs, live, ops[0]) && GoodRun(Apply(ifs, live, ops[0]).0, Apply(ifs, live, ops[0]).1, ops[1..]))
  }

  ghost function Run(ifs: seq<Interface>, live: seq<Live>, ops: seq<Op>): (r: (seq<Interface>, seq<Live>))
    requires GoodRun(ifs, live, ops)
    decreases ops
  {
    if ops == [] then (ifs, live) else Run(Apply(ifs, live, ops[0]).0, Apply(ifs, live, ops[0]).1, ops[1..])
  }

  lemma ApplyKeepsAccounted(ifs: seq<Interface>, live: seq<Live>, op: Op)
    requires Accounted(ifs, live) && GoodOp(ifs, live, op)
    ensures Accounted(Apply(ifs, live, op).0, Apply(ifs, live, op).1)
  {
    match op
    case Add(f, handle, env) =>
      AddKeepsAccountedIff(ifs, live, f, handle, env);
    case Delete(j) =>
      WithoutShift(live, j);
      DelKeepsAccountedIff(ifs, live, Without(live, j), live[j], 0);
  }

  /** Over every interleaving of adds and deletes the reference counts are the numbers of live flows. */
  lemma {:induction false} RunKeepsAccounted(ifs: seq<Interface>, live: seq<Live>, ops: seq<Op>)
    requires Accounted(ifs, live) && GoodRun(ifs, live, ops)
    ensures Accounted(Run(ifs, live, ops).0, Run(ifs, live, ops).1)
    decreases ops
  {
    if ops != [] {
      ApplyKeepsAccounted(ifs, live, ops[0]);
      RunKeepsAccounted(Apply(ifs, live, ops[0]).0, Apply(ifs, live, ops[0]).1, ops[1..]);
    }
  }

  /** The tree is empty exactly when no flow is live. */
  lemma EmptyIffNoneLive(ifs: seq<Interface>, live: seq<Live>)
    requires Accounted(ifs, live)
    ensures ifs == [] <==> live == []
  {
    if live == [] {
      forall k
        ensures RefOf(ifs, k) == 0
      {
        assert Measure(ifs, IfRef(k)) == Count(live, IfRef(k));
      }
      SomeReference(ifs);
    } else {
      var q := IfRef(live[0].flow.ifId);
      assert Count(live, q) == 1 + Count(live[1..], q) && Measure(ifs, q) == Count(live, q);
    }
  }

  /** A run from the empty tree that deletes everything it added, in any order, leaves the tree empty. */
  lemma DeletingAllEmpties(ops: seq<Op>)
    requires GoodRun([], [], ops) && Run([], [], ops).1 == []
    ensures Run([], [], ops).0 == []
  {
    forall q
      ensures Measure([], q) == Count([], q)
    {
      assert CountId([], 0) == 0;
    }
    RunKeepsAccounted([], [], ops);
    EmptyIffNoneLive(Run([], [], ops).0, []);
  }
}
