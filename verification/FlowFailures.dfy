/** What `add_flow` of tools/daemon/flow.c returns, and what a late failure leaves behind in the tree. */
module FlowFailures {
  import opened KeyedLists
  import opened Bitmap
  import opened FlowHandles
  import opened FlowTree
  import opened FlowIds
  import opened FlowAccounting

  /** The flow needs an element that the tree does not have yet. */
  predicate NeedsTable(ifs: seq<Interface>, f: Flow) { Get(TablesIn(ifs, f.ifId), Key(f)).None? }

  predicate NeedsBucket(ifs: seq<Interface>, f: Flow)
  {
    Bkt(f) > 0 && Get(BktsIn(TablesIn(ifs, f.ifId), Key(f)), Bkt(f)).None?
  }

  predicate NeedsNode(ifs: seq<Interface>, f: Flow)
  {
    Bkt(f) > 0 && NodeId(f, NodesIn(BktsIn(TablesIn(ifs, f.ifId), Key(f)), Bkt(f))) > 0
  }

  /** The code tells the first thing that failed, of those that the flow needed. */
  lemma AddCodeMeans(ifs: seq<Interface>, f: Flow, handle: nat, env: Env)
    ensures AddFlow(ifs, f, handle, env).rc ==
              if !KnownType(f) then -EPROTO
              else if env.lookup != 0 then 0 - env.lookup
              else if Get(ifs, f.ifId).None? && env.newIf != 0 then 0 - env.newIf
              else if NeedsTable(ifs, f) && !env.tableMem then -ENOMEM
              else if NeedsTable(ifs, f) && !env.tableTc then -EFAULT
              else if NeedsBucket(ifs, f) && !env.bktMem then -ENOMEM
              else if NeedsNode(ifs, f) && !env.nodeMem then -ENOMEM
              else if NeedsNode(ifs, f) && !env.filterTc then -EFAULT
              else 0
  {
    assert InterfaceOr(ifs, f.ifId).body.tables == TablesIn(ifs, f.ifId);
  }

  /** How far down the path of the flow its references were taken: 1 for the interface alone, 2 with the table, 3 with the bucket. */
  function Reached(ifs: seq<Interface>, f: Flow, env: Env): (d: nat)
  {
    if NeedsTable(ifs, f) && !(env.tableMem && env.tableTc) then 1
    else if NeedsBucket(ifs, f) && !env.bktMem then 2
    else 3
  }

  predicate BktLeak(f: Flow, bktMem: bool, q: BktQuery) { bktMem && q == BktRef(Bkt(f)) }

  predicate TableLeak(f: Flow, d: nat, q: TableQuery)
  {
    d >= 2 && q.t == Key(f) && (q.InTable? ==> BktLeak(f, d >= 3, q.bq))
  }

  /** q is the interface, table or bucket of the flow, above the depth d. */
  predicate Leak(f: Flow, d: nat, q: Query)
  {
    q.i == f.ifId && (q.InIf? ==> TableLeak(f, d, q.tq))
  }

  lemma BucketLeaks(bkts: seq<Bucket>, f: Flow, env: Env, ht: int, id0: int, q: BktQuery)
    requires AddBucket(bkts, f, env, ht, id0).rc < 0
    ensures BktMeasure(AddBucket(bkts, f, env, ht, id0).list, q) ==
            BktMeasure(bkts, q) + One(BktLeak(f, Get(bkts, Bkt(f)).Some? || env.bktMem, q))
  {
    var b := Bkt(f);
    if Get(bkts, b).Some? || env.bktMem {
      var e := BucketOr(bkts, b);
      GetPut(bkts, Elem(b, e.ref + 1, e.body), q.b);
    }
  }

  lemma ToTableLeaks(body: IfBody, t: Table, f: Flow, env: Env, ht: int, id0: int, q: TableQuery)
    requires t.key == Key(f) && t.ref == RefOf(body.tables, t.key) && t.body.bkts == BktsIn(body.tables, t.key)
    requires AddToTable(body, t, f, env, ht, id0).rc < 0
    ensures var d := if Get(t.body.bkts, Bkt(f)).Some? || env.bktMem then 3 else 2;
            TableMeasure(AddToTable(body, t, f, env, ht, id0).list.tables, q) == TableMeasure(body.tables, q) + One(TableLeak(f, d, q))
  {
    var r := AddBucket(t.body.bkts, f, env, ht, id0);
    var e: Table := Elem(t.key, t.ref + 1, t.body.(bkts := r.list));
    PutTableMeasures(body.tables, e, q);
    if q.InTable? { BucketLeaks(t.body.bkts, f, env, ht, id0, q.bq); }
  }

  lemma TableLeaks(body: IfBody, f: Flow, env: Env, ht0: int, bkt0: int, id0: int, d: nat, q: TableQuery)
    requires KnownType(f) && AddTable(body, f, env, ht0, bkt0, id0).rc < 0
    requires d == if Get(body.tables, Key(f)).None? && !(env.tableMem && env.tableTc) then 1
                  else if Get(BktsIn(body.tables, Key(f)), Bkt(f)).None? && !env.bktMem then 2 else 3
    ensures TableMeasure(AddTable(body, f, env, ht0, bkt0, id0).list.tables, q) == TableMeasure(body.tables, q) + One(TableLeak(f, d, q))
  {
    match Get(body.tables, Key(f))
    case Some(t) => ToTableLeaks(body, t, f, env, t.body.ht, id0, q);
    case None =>
      if env.tableMem && env.tableTc {
        ToTableLeaks(TakeIds(body, f), NewTable(body, f), f, env, TakeBit(body.bits).1, id0, q);
      }
  }

  /**
   An add that fails after the interface was found leaves the references it took: one more on the interface, and on the
   table and the bucket if it got that far, and nothing else changes in any count.
   */
  lemma FailedAddLeaks(ifs: seq<Interface>, f: Flow, handle: nat, env: Env, q: Query)
    requires !Refused(ifs, f, env) && AddFlow(ifs, f, handle, env).rc < 0
    ensures Measure(AddFlow(ifs, f, handle, env).ifs, q) == Measure(ifs, q) + One(Leak(f, Reached(ifs, f, env), q))
  {
    var (ht, bkt, id) := (HandleHt(handle), HandleBkt(handle), HandleId(handle));
    var e := InterfaceOr(ifs, f.ifId);
    var r := AddTable(e.body, f, env, ht, bkt, id);
    assert e.body.tables == TablesIn(ifs, f.ifId) && e.ref == RefOf(ifs, f.ifId);
    PutIfMeasures(ifs, Elem(f.ifId, e.ref + 1, r.list), q);
    if q.InIf? { TableLeaks(e.body, f, env, ht, bkt, id, Reached(ifs, f, env), q.tq); }
  }

  /** A table that tc refuses keeps its id taken, without a table that has it. */
  lemma RefusedTableKeepsId(body: IfBody, f: Flow, env: Env, ht0: int, bkt0: int, id0: int)
    requires KnownType(f) && IdsOk(body) && Get(body.tables, Key(f)).None? && env.tableMem && !env.tableTc
    requires TakeBit(body.bits).1 >= 0
    ensures var after, n := AddTable(body, f, env, ht0, bkt0, id0).list, TakeBit(body.bits).1;
            after.tables == body.tables && IsSet(after.bits, n) && !IsSet(body.bits, n) && !HtUsed(after.tables, n)
  {
    TakeIdsTakes(body, f);
  }
}
