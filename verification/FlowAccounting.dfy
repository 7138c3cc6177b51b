/**
 What the flow tree counts.  A query names an element of the tree by its path.  The tree answers with the
 element's reference count, and for nodes with the number of nodes of that id; a list of live flows answers with
 the number of flows routed through the element.  `Accounted` says that the two agree on every query.
 */
module FlowAccounting {
  import opened Options
  import opened KeyedLists
  import opened FlowHandles
  import opened FlowTree
  import opened FlowIds

  /** A flow in the tree with the handle that `add_flow` wrote back. */
  datatype Live = Live(flow: Flow, handle: nat)

  datatype BktQuery = BktRef(b: int) | NodeCount(b: int, n: int)
  datatype TableQuery = TableRef(t: TableKey) | InTable(t: TableKey, bq: BktQuery)
  datatype Query = IfRef(i: nat) | InIf(i: nat, tq: TableQuery)

  // ------------------------------------------------------------------ the tree's answers

  function NodesIn(bkts: seq<Bucket>, b: int): (r: seq<Node>)
  {
    match Get(bkts, b)
    case None => []
    case Some(e) => e.body
  }

  function BktsIn(tables: seq<Table>, t: TableKey): (r: seq<Bucket>)
  {
    match Get(tables, t)
    case None => []
    case Some(e) => e.body.bkts
  }

  function TablesIn(ifs: seq<Interface>, i: nat): (r: seq<Table>)
  {
    match Get(ifs, i)
    case None => []
    case Some(e) => e.body.tables
  }

  function BktMeasure(bkts: seq<Bucket>, q: BktQuery): (n: int)
  {
    match q
    case BktRef(b) => RefOf(bkts, b)
    case NodeCount(b, n) => CountId(NodesIn(bkts, b), n)
  }

  function TableMeasure(tables: seq<Table>, q: TableQuery): (n: int)
  {
    match q
    case TableRef(t) => RefOf(tables, t)
    case InTable(t, bq) => BktMeasure(BktsIn(tables, t), bq)
  }

  function Measure(ifs: seq<Interface>, q: Query): (n: int)
  {
    match q
    case IfRef(i) => RefOf(ifs, i)
    case InIf(i, tq) => TableMeasure(TablesIn(ifs, i), tq)
  }

  // ------------------------------------------------------------------ the live flows' answers

  /** Flows of bucket 0 get no bucket and no node. */
  predicate BktHit(b: int, n: int, q: BktQuery)
  {
    b > 0 && q.b == b && (q.NodeCount? ==> q.n == n)
  }

  predicate TableHit(t: TableKey, b: int, n: int, q: TableQuery)
  {
    q.t == t && (q.InTable? ==> BktHit(b, n, q.bq))
  }

  predicate Hit(i: nat, t: TableKey, b: int, n: int, q: Query)
  {
    q.i == i && (q.InIf? ==> TableHit(t, b, n, q.tq))
  }

  predicate Matches(x: Live, q: Query)
  {
    Hit(x.flow.ifId, Key(x.flow), Bkt(x.flow), HandleId(x.handle), q)
  }

  function One(p: bool): (n: nat) { if p then 1 else 0 }

  function Count(live: seq<Live>, q: Query): (n: nat)
  {
    if live == [] then 0 else One(Matches(live[0], q)) + Count(live[1..], q)
  }

  lemma {:induction false} CountConcat(a: seq<Live>, b: seq<Live>, q: Query)
    ensures Count(a + b, q) == Count(a, q) + Count(b, q)
  {
    if a == [] {
      assert a + b == b;
    } else {
      CountConcat(a[1..], b, q);
      assert (a + b)[1..] == a[1..] + b;
    }
  }

  /** The element that the queried one hangs from. */
  function Parent(q: Query): (p: Query)
    requires q.InIf?
  {
    match q.tq
    case TableRef(t) => IfRef(q.i)
    case InTable(t, BktRef(b)) => InIf(q.i, TableRef(t))
    case InTable(t, NodeCount(b, n)) => InIf(q.i, InTable(t, BktRef(b)))
  }

  lemma {:induction false} CountParent(live: seq<Live>, q: Query)
    requires q.InIf?
    ensures Count(live, q) <= Count(live, Parent(q))
  {
    if live != [] { CountParent(live[1..], q); }
  }

  /** The handle leads back to the flow's bucket. */
  predicate Routed(x: Live)
  {
    KnownType(x.flow) && HandleBkt(x.handle) == Bkt(x.flow)
  }

  // ------------------------------------------------------------------ well-formed trees

  predicate BktsOk(typ: int, bkts: seq<Bucket>)
  {
    Distinct(bkts) && forall e | e in bkts :: e.ref > 0 && e.key > 0 && NodesOk(typ, e.body)
  }

  predicate TablesOk(tables: seq<Table>)
  {
    forall t | t in tables :: t.ref > 0 && BktsOk(t.key.typ, t.body.bkts)
  }

  ghost predicate IfOk(e: Interface)
  {
    e.ref > 0 && IdsOk(e.body) && TablesOk(e.body.tables)
  }

  ghost predicate TreeOk(ifs: seq<Interface>)
  {
    Distinct(ifs) && forall e | e in ifs :: IfOk(e)
  }

  /** Every element's reference count is the number of live flows routed through it, elements exist exactly where
   there are such flows, node lists are in order and the table ids agree with the bitmaps. */
  ghost predicate Accounted(ifs: seq<Interface>, live: seq<Live>)
  {
    && TreeOk(ifs)
    && (forall x | x in live :: Routed(x))
    && (forall q :: Measure(ifs, q) == Count(live, q))
  }

  /** after has d more flows like x than live has. */
  ghost predicate Shift(live: seq<Live>, after: seq<Live>, x: Live, d: int)
  {
    forall q :: Count(after, q) == Count(live, q) + (if Matches(x, q) then d else 0)
  }

  // ------------------------------------------------------------------ adding

  predicate BucketServed(bkts: seq<Bucket>, f: Flow, env: Env)
  {
    Bkt(f) == 0 ||
    ((Get(bkts, Bkt(f)).Some? || env.bktMem) && NodeId(f, NodesIn(bkts, Bkt(f))) > 0 && env.nodeMem && env.filterTc)
  }

  predicate TableServed(body: IfBody, f: Flow, env: Env)
  {
    && (Get(body.tables, Key(f)).None? ==> env.tableMem && env.tableTc && TakeBit(body.bits).1 >= 0)
    && BucketServed(BktsIn(body.tables, Key(f)), f, env)
  }

  /** Everything that `add_flow` asks of the environment succeeds and the ids it needs are free. */
  predicate Served(ifs: seq<Interface>, f: Flow, env: Env)
  {
    !Refused(ifs, f, env) && TableServed(InterfaceOr(ifs, f.ifId).body, f, env)
  }

  /** `add_flow` gives up before it takes the first reference. */
  predicate Refused(ifs: seq<Interface>, f: Flow, env: Env)
  {
    !KnownType(f) || env.lookup != 0 || (Get(ifs, f.ifId).None? && env.newIf != 0)
  }

  ghost predicate BktsGain(bkts: seq<Bucket>, after: seq<Bucket>, b: int, n: int)
  {
    forall q :: BktMeasure(after, q) == BktMeasure(bkts, q) + One(BktHit(b, n, q))
  }

  ghost predicate TablesGain(tables: seq<Table>, after: seq<Table>, t: TableKey, b: int, n: int)
  {
    forall q :: TableMeasure(after, q) == TableMeasure(tables, q) + One(TableHit(t, b, n, q))
  }

  lemma AddNodeCounts(nodes: seq<Node>, f: Flow, env: Env, ht: int, bkt: int)
    requires KnownType(f) && NodesOk(f.typ, nodes) && NodeId(f, nodes) > 0 && env.nodeMem && env.filterTc
    ensures var r := AddNode(nodes, f, env, ht, bkt);
            && r == Added(r.list, ht, bkt, NodeId(f, nodes), 0) && NodesOk(f.typ, r.list) && 0 < r.id <= MAX_ID
            && forall n :: CountId(r.list, n) == CountId(nodes, n) + One(n == r.id)
  {
    InsertKeepsOk(f, nodes);
    forall n {
      InsertCounts(nodes, NodePlace(f, nodes), NodeId(f, nodes), n);
    }
  }

  /** Replacing one bucket changes the answers about that bucket only. */
  lemma PutBucketMeasures(bkts: seq<Bucket>, e: Bucket, q: BktQuery)
    ensures BktMeasure(Put(bkts, e), q) ==
            if q.b != e.key then BktMeasure(bkts, q) else if q.BktRef? then e.ref else CountId(e.body, q.n)
  {
    GetPut(bkts, e, q.b);
  }

  lemma PutBucketOk(typ: int, bkts: seq<Bucket>, e: Bucket)
    requires BktsOk(typ, bkts) && e.ref > 0 && e.key > 0 && NodesOk(typ, e.body)
    ensures BktsOk(typ, Put(bkts, e))
  {
    PutKeepsDistinct(bkts, e);
    forall x | x in Put(bkts, e) {
      PutMembers(bkts, e, x);
    }
  }

  lemma AddBucketCounts(bkts: seq<Bucket>, f: Flow, env: Env, ht: int, id0: int)
    requires KnownType(f) && BktsOk(f.typ, bkts) && BucketServed(bkts, f, env)
    ensures var r := AddBucket(bkts, f, env, ht, id0);
            && r == Added(r.list, ht, Bkt(f), r.id, 0) && BktsOk(f.typ, r.list) && (Bkt(f) > 0 ==> 0 < r.id <= MAX_ID)
            && BktsGain(bkts, r.list, Bkt(f), r.id)
  {
    var b := Bkt(f);
    if b > 0 {
      var e := BucketOr(bkts, b);
      GetIsMember(bkts, b);
      AddNodeCounts(e.body, f, env, ht, b);
      var nodes := AddNode(e.body, f, env, ht, b).list;
      PutBucketOk(f.typ, bkts, Elem(b, e.ref + 1, nodes));
      forall q {
        PutBucketMeasures(bkts, Elem(b, e.ref + 1, nodes), q);
      }
    }
  }

  lemma PutTableMeasures(tables: seq<Table>, e: Table, q: TableQuery)
    ensures TableMeasure(Put(tables, e), q) ==
            if q.t != e.key then TableMeasure(tables, q) else if q.TableRef? then e.ref else BktMeasure(e.body.bkts, q.bq)
  {
    GetPut(tables, e, q.t);
  }

  lemma PutTableOk(tables: seq<Table>, e: Table)
    requires Distinct(tables) && TablesOk(tables) && e.ref > 0 && BktsOk(e.key.typ, e.body.bkts)
    ensures TablesOk(Put(tables, e))
  {
    forall x | x in Put(tables, e) {
      PutMembers(tables, e, x);
    }
  }

  /** Adding a flow to a table that is linked already, or has just been given its ids. */
  lemma AddToTableCounts(tables: seq<Table>, t: Table, f: Flow, env: Env, ht: int, id0: int)
    requires KnownType(f) && Distinct(tables) && TablesOk(tables) && t.key == Key(f)
    requires t.ref == RefOf(tables, t.key) && t.body.bkts == BktsIn(tables, t.key) && t.ref >= 0
    requires BktsOk(f.typ, t.body.bkts) && BucketServed(t.body.bkts, f, env)
    ensures var r := AddBucket(t.body.bkts, f, env, ht, id0);
            var after := Put(tables, Elem(t.key, t.ref + 1, t.body.(bkts := r.list)));
            && TablesOk(after)
            && TablesGain(tables, after, Key(f), Bkt(f), r.id)
  {
    AddBucketCounts(t.body.bkts, f, env, ht, id0);
    var r := AddBucket(t.body.bkts, f, env, ht, id0);
    var e: Table := Elem(t.key, t.ref + 1, t.body.(bkts := r.list));
    PutTableOk(tables, e);
    forall q {
      PutTableMeasures(tables, e, q);
    }
  }

  /** The flow was added to the tables of an interface. */
  ghost predicate TableAdded(body: IfBody, f: Flow, r: Added<IfBody>)
  {
    && r.rc == 0 && r.bkt == Bkt(f) && (Bkt(f) > 0 ==> 0 < r.id <= MAX_ID)
    && IdsOk(r.list) && TablesOk(r.list.tables) && TablesGain(body.tables, r.list.tables, Key(f), Bkt(f), r.id)
  }

  lemma AddTableCounts(body: IfBody, f: Flow, env: Env, ht0: int, bkt0: int, id0: int)
    requires KnownType(f) && IdsOk(body) && TablesOk(body.tables) && TableServed(body, f, env)
    ensures TableAdded(body, f, AddTable(body, f, env, ht0, bkt0, id0))
  {
    GetIsMember(body.tables, Key(f));
    if Get(body.tables, Key(f)).Some? {
      AddToLinked(body, Get(body.tables, Key(f)).value, f, env, id0);
    } else {
      TakeIdsTakes(body, f);
      AddToNew(body, TakeIds(body, f), NewTable(body, f), f, env, TakeBit(body.bits).1, id0);
    }
  }

  lemma AddToLinked(body: IfBody, t: Table, f: Flow, env: Env, id0: int)
    requires KnownType(f) && IdsOk(body) && TablesOk(body.tables)
    requires Get(body.tables, Key(f)) == Some(t) && BucketServed(t.body.bkts, f, env)
    ensures TableAdded(body, f, AddToTable(body, t, f, env, t.body.ht, id0))
  {
    GetIsMember(body.tables, Key(f));
    AddToTableCounts(body.tables, t, f, env, t.body.ht, id0);
    AddBucketCounts(t.body.bkts, f, env, t.body.ht, id0);
    var r := AddBucket(t.body.bkts, f, env, t.body.ht, id0);
    var e: Table := Elem(t.key, t.ref + 1, t.body.(bkts := r.list));
    UpdateTableKeepsIds(body, e, t);
    assert AddToTable(body, t, f, env, t.body.ht, id0) == Added(body.(tables := Put(body.tables, e)), r.ht, r.bkt, r.id, r.rc);
  }

  lemma AddToNew(body: IfBody, taken: IfBody, t: Table, f: Flow, env: Env, ht: int, id0: int)
    requires KnownType(f) && IdsOk(body) && TablesOk(body.tables) && Get(body.tables, Key(f)).None?
    requires Takes(body, taken, t) && taken.tables == body.tables && t.key == Key(f) && t.ref == 0 && t.body.bkts == []
    requires BucketServed([], f, env)
    ensures TableAdded(body, f, AddToTable(taken, t, f, env, ht, id0))
  {
    AddToTableCounts(body.tables, t, f, env, ht, id0);
    AddBucketCounts([], f, env, ht, id0);
    var r := AddBucket([], f, env, ht, id0);
    var e: Table := Elem(t.key, t.ref + 1, t.body.(bkts := r.list));
    LinkTable(body, taken, e);
    assert AddToTable(taken, t, f, env, ht, id0) == Added(taken.(tables := Put(body.tables, e)), r.ht, r.bkt, r.id, r.rc);
  }

  lemma PutIfMeasures(ifs: seq<Interface>, e: Interface, q: Query)
    ensures Measure(Put(ifs, e), q) ==
            if q.i != e.key then Measure(ifs, q) else if q.IfRef? then e.ref else TableMeasure(e.body.tables, q.tq)
  {
    GetPut(ifs, e, q.i);
  }

  lemma PutIfOk(ifs: seq<Interface>, e: Interface)
    requires TreeOk(ifs) && IfOk(e)
    ensures TreeOk(Put(ifs, e))
  {
    PutKeepsDistinct(ifs, e);
    forall x | x in Put(ifs, e)
      ensures IfOk(x)
    {
      PutMembers(ifs, e, x);
    }
  }

  lemma InterfaceOrOk(ifs: seq<Interface>, i: nat)
    requires TreeOk(ifs)
    ensures var e := InterfaceOr(ifs, i);
            e.ref == RefOf(ifs, i) >= 0 && IdsOk(e.body) && TablesOk(e.body.tables) && e.body.tables == TablesIn(ifs, i)
  {
    GetIsMember(ifs, i);
    NewIfBodyOk();
  }

  /** add_flow returned 0, kept the tree well-formed and added one to the answers on the new flow's path, and to no
   other answer. */
  ghost predicate FlowAdded(ifs: seq<Interface>, f: Flow, r: AddResult)
  {
    && r.rc == 0 && TreeOk(r.ifs) && Routed(Live(f, r.handle))
    && forall q :: Measure(r.ifs, q) == Measure(ifs, q) + One(Matches(Live(f, r.handle), q))
  }

  lemma AddFlowCounts(ifs: seq<Interface>, f: Flow, handle: nat, env: Env)
    requires TreeOk(ifs) && Served(ifs, f, env)
    ensures FlowAdded(ifs, f, AddFlow(ifs, f, handle, env))
  {
    AddToIfCounts(ifs, f, env, HandleHt(handle), HandleBkt(handle), HandleId(handle));
  }

  lemma AddToIfCounts(ifs: seq<Interface>, f: Flow, env: Env, ht: int, bkt: int, id: int)
    requires TreeOk(ifs) && Served(ifs, f, env)
    ensures FlowAdded(ifs, f, AddToIf(ifs, f, env, ht, bkt, id))
  {
    var e := InterfaceOr(ifs, f.ifId);
    InterfaceOrOk(ifs, f.ifId);
    var r := AddTable(e.body, f, env, ht, bkt, id);
    assert AddToIf(ifs, f, env, ht, bkt, id) == AddResult(Put(ifs, Elem(f.ifId, e.ref + 1, r.list)), HandleSet(r.ht, r.bkt, r.id), r.rc);
    AddTableCounts(e.body, f, env, ht, bkt, id);
    AddToInterface(ifs, e, f, r);
  }

  lemma AddToInterface(ifs: seq<Interface>, e: Interface, f: Flow, r: Added<IfBody>)
    requires TreeOk(ifs) && e.ref == RefOf(ifs, f.ifId) >= 0 && e.body.tables == TablesIn(ifs, f.ifId)
    requires KnownType(f) && TableAdded(e.body, f, r)
    ensures FlowAdded(ifs, f, AddResult(Put(ifs, Elem(f.ifId, e.ref + 1, r.list)), HandleSet(r.ht, r.bkt, r.id), r.rc))
  {
    var n: Interface := Elem(f.ifId, e.ref + 1, r.list);
    PutIfOk(ifs, n);
    HandleFields(r.ht, r.bkt, r.id);
    forall q
      ensures Measure(Put(ifs, n), q) == Measure(ifs, q) + One(Hit(f.ifId, Key(f), Bkt(f), r.id, q))
    {
      PutIfMeasures(ifs, n, q);
    }
  }

  lemma HandleFields(ht: int, bkt: int, id: int)
    requires 0 <= bkt < 0x100
    ensures HandleBkt(HandleSet(ht, bkt, id)) == bkt
    ensures 0 < id <= MAX_ID ==> HandleId(HandleSet(ht, bkt, id)) == id
  {
    HandleRoundTrip(ht, bkt, id);
    FitsField(bkt, 0x100);
    if 0 < id <= MAX_ID { FitsField(id, 0x1000); }
  }

  lemma FitsField(x: nat, width: nat)
    requires x < width
    ensures x % width == x
  {
    Arith.DivModUnique(x, width, 0, x);
  }

  /** The table of the flow's address among some tables has the id ht. */
  predicate TableHasId(tables: seq<Table>, k: TableKey, ht: int)
  {
    Get(tables, k).Some? && Get(tables, k).value.body.ht == ht
  }

  lemma AddToTableId(body: IfBody, t: Table, f: Flow, env: Env, ht: int, id0: int)
    requires t.key == Key(f) && t.body.ht == ht
    ensures var r := AddToTable(body, t, f, env, ht, id0); r.ht == ht && TableHasId(r.list.tables, Key(f), ht)
  {
    var r := AddBucket(t.body.bkts, f, env, ht, id0);
    GetPut(body.tables, Elem(t.key, t.ref + 1, t.body.(bkts := r.list)), Key(f));
  }

  lemma AddTableId(body: IfBody, f: Flow, env: Env, ht0: int, bkt0: int, id0: int)
    requires KnownType(f) && IdsOk(body) && TableServed(body, f, env)
    ensures var r := AddTable(body, f, env, ht0, bkt0, id0);
            TableHasId(r.list.tables, Key(f), r.ht) && 1 <= r.ht < KERNEL_HT
  {
    GetIsMember(body.tables, Key(f));
    match Get(body.tables, Key(f))
    case Some(t) =>
      assert Linked(body.slots, t);
      AddToTableId(body, t, f, env, t.body.ht, id0);
    case None =>
      TakeIdsTakes(body, f);
      AddToTableId(TakeIds(body, f), NewTable(body, f), f, env, TakeBit(body.bits).1, id0);
  }

  lemma HandleTable(ht: int, bkt: int, id: int)
    requires 1 <= ht < KERNEL_HT
    ensures HandleHt(HandleSet(ht, bkt, id)) == ht
  {
    HandleRoundTrip(ht, bkt, id);
    FitsField(ht, 0x1000);
  }

  lemma PutNamesTable(ifs: seq<Interface>, e: Interface, f: Flow, r: Added<IfBody>)
    requires e.key == f.ifId && e.body == r.list && TableHasId(r.list.tables, Key(f), r.ht) && 1 <= r.ht < KERNEL_HT
    ensures TableHasId(TablesIn(Put(ifs, e), f.ifId), Key(f), HandleHt(HandleSet(r.ht, r.bkt, r.id)))
  {
    HandleTable(r.ht, r.bkt, r.id);
    GetPut(ifs, e, e.key);
  }

  /** The handle of a served flow names the table that holds it. */
  lemma HandleNamesTable(ifs: seq<Interface>, f: Flow, handle: nat, env: Env)
    requires TreeOk(ifs) && Served(ifs, f, env)
    ensures var r := AddFlow(ifs, f, handle, env); TableHasId(TablesIn(r.ifs, f.ifId), Key(f), HandleHt(r.handle))
  {
    AddToIfNamesTable(ifs, f, env, HandleHt(handle), HandleBkt(handle), HandleId(handle));
  }

  lemma AddToIfNamesTable(ifs: seq<Interface>, f: Flow, env: Env, ht: int, bkt: int, id: int)
    requires TreeOk(ifs) && Served(ifs, f, env)
    ensures var r := AddToIf(ifs, f, env, ht, bkt, id); TableHasId(TablesIn(r.ifs, f.ifId), Key(f), HandleHt(r.handle))
  {
    var e := InterfaceOr(ifs, f.ifId);
    InterfaceOrOk(ifs, f.ifId);
    var r := AddTable(e.body, f, env, ht, bkt, id);
    assert AddToIf(ifs, f, env, ht, bkt, id) == AddResult(Put(ifs, Elem(f.ifId, e.ref + 1, r.list)), HandleSet(r.ht, r.bkt, r.id), r.rc);
    AddTableId(e.body, f, env, ht, bkt, id);
    PutNamesTable(ifs, Elem(f.ifId, e.ref + 1, r.list), f, r);
  }

  // ------------------------------------------------------------------ when adding goes wrong

  /** One more live flow, counted. */
  lemma CountOneMore(live: seq<Live>, x: Live)
    ensures Shift(live, live + [x], x, 1)
  {
    forall q
      ensures Count(live + [x], q) == Count(live, q) + One(Matches(x, q))
    {
      CountConcat(live, [x], q);
      assert Count([x], q) == One(Matches(x, q)) + Count([], q);
    }
  }

  /** The interface's reference is taken before anything else can fail. */
  lemma AddTakesReference(ifs: seq<Interface>, f: Flow, env: Env, ht: int, bkt: int, id: int)
    ensures RefOf(AddToIf(ifs, f, env, ht, bkt, id).ifs, f.ifId) == RefOf(ifs, f.ifId) + 1
  {
    var e := InterfaceOr(ifs, f.ifId);
    GetPut(ifs, Elem(f.ifId, e.ref + 1, AddTable(e.body, f, env, ht, bkt, id).list), f.ifId);
  }

  /** The ways in which add_flow can return 0 without being served: no table id or no node id was left. */
  lemma UnservedReturnsZero(body: IfBody, f: Flow, env: Env, ht0: int, bkt0: int, id0: int)
    requires KnownType(f) && !TableServed(body, f, env) && AddTable(body, f, env, ht0, bkt0, id0).rc == 0
    ensures OutOfTables(body, f) || OutOfNodes(body, f)
  {
  }

  predicate OutOfTables(body: IfBody, f: Flow)
  {
    Get(body.tables, Key(f)).None? && TakeBit(body.bits).1 < 0
  }

  predicate OutOfNodes(body: IfBody, f: Flow)
  {
    Bkt(f) > 0 && NodeId(f, NodesIn(BktsIn(body.tables, Key(f)), Bkt(f))) <= 0
  }

  /** Without a table id the new table is linked under an id that is not a legal one. */
  lemma OutOfTablesBreaks(body: IfBody, f: Flow, env: Env, ht0: int, bkt0: int, id0: int)
    requires OutOfTables(body, f) && env.tableMem && env.tableTc
    ensures !IdsOk(AddTable(body, f, env, ht0, bkt0, id0).list)
  {
    var t, ht := NewTable(body, f), TakeBit(body.bits).1;
    assert t.body.ht == 0xFFFF;
    var r := AddBucket([], f, env, ht, id0);
    var e: Table := Elem(t.key, t.ref + 1, t.body.(bkts := r.list));
    var tables := Put(body.tables, e);
    assert e in tables by { GetPut(body.tables, e, t.key); GetIsMember(tables, t.key); }
    assert AddTable(body, f, env, ht0, bkt0, id0).list.tables == tables;
    assert !Linked(TakeIds(body, f).slots, e);
  }

  /** Without a node id the bucket's nodes stay as they are, and the handle names a node that is someone else's. */
  lemma OutOfNodesBreaks(body: IfBody, f: Flow, env: Env, ht0: int, bkt0: int, id0: int)
    requires KnownType(f) && OutOfNodes(body, f) && AddTable(body, f, env, ht0, bkt0, id0).rc == 0
    ensures var r := AddTable(body, f, env, ht0, bkt0, id0);
            && r.bkt == Bkt(f) && r.id == -EINVAL
            && NodesIn(BktsIn(r.list.tables, Key(f)), Bkt(f)) == NodesIn(BktsIn(body.tables, Key(f)), Bkt(f))
  {
    GetIsMember(body.tables, Key(f));
    match Get(body.tables, Key(f))
    case Some(t) =>
      OutOfNodesInTable(body, t, f, env, t.body.ht, id0);
    case None =>
      OutOfNodesInTable(TakeIds(body, f), NewTable(body, f), f, env, TakeBit(body.bits).1, id0);
  }

  lemma OutOfNodesInTable(body: IfBody, t: Table, f: Flow, env: Env, ht: int, id0: int)
    requires t.key == Key(f) && Bkt(f) > 0 && NodeId(f, NodesIn(t.body.bkts, Bkt(f))) <= 0
    requires AddToTable(body, t, f, env, ht, id0).rc == 0
    ensures var r := AddToTable(body, t, f, env, ht, id0);
            && r.bkt == Bkt(f) && r.id == -EINVAL
            && NodesIn(BktsIn(r.list.tables, Key(f)), Bkt(f)) == NodesIn(t.body.bkts, Bkt(f))
  {
    var r := AddBucket(t.body.bkts, f, env, ht, id0);
    GetPut(body.tables, Elem(t.key, t.ref + 1, t.body.(bkts := r.list)), Key(f));
    var e := BucketOr(t.body.bkts, Bkt(f));
    GetPut(t.body.bkts, Elem(Bkt(f), e.ref + 1, e.body), Bkt(f));
  }
}
