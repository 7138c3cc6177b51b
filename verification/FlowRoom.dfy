/** When the ids of tools/daemon/flow.c run out, in terms of how many tables and nodes there are. */
module FlowRoom {
  import opened Options
  import opened KeyedLists
  import opened Bitmap
  import opened FlowTree
  import opened FlowIds
  import opened FlowAccounting
  import opened FlowRemoval
  import opened FlowRuns

  const MAX_TABLES: nat := KERNEL_HT - 1

  // ------------------------------------------------------------------ nodes

  lemma {:induction false} IdsGrow(nodes: seq<Node>, i: nat, j: nat)
    requires NodesOk(TCP_5T, nodes) && i <= j < |nodes|
    ensures nodes[j].id >= nodes[i].id + (j - i)
    decreases j
  {
    if i < j {
      IdsGrow(nodes, i, j - 1);
      assert nodes[j - 1].id < nodes[j].id;
    }
  }

  /** A 5-tuple flow finds no node id exactly when its bucket holds 4095 nodes. */
  lemma NodeIdsRunOutAt(f: Flow, nodes: seq<Node>)
    requires f.typ == TCP_5T && NodesOk(TCP_5T, nodes)
    ensures |nodes| <= MAX_ID && (NodeId(f, nodes) <= 0 <==> |nodes| == MAX_ID)
  {
    if nodes != [] {
      var last, g := |nodes| - 1, Gap(nodes, 0);
      IdsGrow(nodes, 0, last);
      if g < |nodes| { IdsGrow(nodes, g, last); }
    }
  }

  // ------------------------------------------------------------------ tables

  /** The numbers from 1 to n. */
  lemma {:induction false} Numbers(n: nat) returns (s: set<nat>)
    ensures |s| == n && forall i :: i in s <==> 1 <= i <= n
  {
    if n == 0 {
      s := {};
    } else {
      s := Numbers(n - 1);
      s := s + {n};
    }
  }

  function Hts(tables: seq<Table>): (s: set<nat>) { set t | t in tables :: t.body.ht }

  lemma {:induction false} HtsSize(tables: seq<Table>)
    requires forall i, j | 0 <= i < j < |tables| :: tables[i].body.ht != tables[j].body.ht
    ensures |Hts(tables)| == |tables|
  {
    if tables == [] {
      assert Hts(tables) == {};
    } else {
      var n := |tables| - 1;
      HtsSize(tables[..n]);
      assert Hts(tables) == Hts(tables[..n]) + {tables[n].body.ht};
    }
  }

  lemma SubsetFills(a: set<nat>, b: set<nat>)
    requires a <= b
    ensures |a| <= |b| && (a == b <==> |a| == |b|)
  {
    assert b == a + (b - a) && a !! (b - a);
  }

  /** The ids of linked tables are distinct numbers from 1 to 0x7FF. */
  lemma HtsAreIds(body: IfBody)
    requires IdsOk(body)
    ensures (forall n | n in Hts(body.tables) :: 1 <= n <= MAX_TABLES) && |Hts(body.tables)| == |body.tables|
  {
    var tables := body.tables;
    forall i, j | 0 <= i < j < |tables|
      ensures tables[i].body.ht != tables[j].body.ht
    {
      assert tables[i] in tables && tables[j] in tables;
    }
    HtsSize(tables);
    forall n | n in Hts(tables)
      ensures 1 <= n <= MAX_TABLES
    {
      var t :| t in tables && t.body.ht == n;
      assert Linked(body.slots, t);
    }
  }

  /** No table id is left exactly when the interface has 2047 tables. */
  lemma TableIdsRunOutAt(body: IfBody)
    requires IdsOk(body)
    ensures |body.tables| <= MAX_TABLES && (TakeBit(body.bits).1 < 0 <==> |body.tables| == MAX_TABLES)
  {
    HtsAreIds(body);
    var ids := Numbers(MAX_TABLES);
    SubsetFills(Hts(body.tables), ids);
    FullIffAllTaken(body, ids);
  }

  lemma FullIffAllTaken(body: IfBody, ids: set<nat>)
    requires IdsOk(body) && Hts(body.tables) <= ids && forall i :: i in ids <==> 1 <= i <= MAX_TABLES
    ensures FirstZero(body.bits) < 0 <==> Hts(body.tables) == ids
  {
    var n := FirstZero(body.bits);
    if n >= 0 {
      assert IsSet(body.bits, 0);
      assert n in ids && !HtUsed(body.tables, n);
    } else {
      forall i | i in ids
        ensures i in Hts(body.tables)
      {
        assert IsSet(body.bits, i) && HtUsed(body.tables, i);
      }
    }
  }

  // ------------------------------------------------------------------ flows

  /** There is a table id and a node id for the flow, as far as it needs them. */
  predicate RoomFor(ifs: seq<Interface>, f: Flow)
  {
    var tables := TablesIn(ifs, f.ifId);
    && (Get(tables, Key(f)).Some? || |tables| < MAX_TABLES)
    && (f.typ == TCP_5T && Bkt(f) > 0 ==> |NodesIn(BktsIn(tables, Key(f)), Bkt(f))| < MAX_ID)
  }

  /** Every allocation and tc command that the flow needs succeeds. */
  predicate Cooperates(ifs: seq<Interface>, f: Flow, env: Env)
  {
    var tables := TablesIn(ifs, f.ifId);
    var bkts := BktsIn(tables, Key(f));
    && (Get(tables, Key(f)).None? ==> env.tableMem && env.tableTc)
    && (Bkt(f) > 0 ==> (Get(bkts, Bkt(f)).Some? || env.bktMem) && env.nodeMem && env.filterTc)
  }

  /** `add_flow` is fully served exactly when it is not refused, the environment cooperates, and the interface
   has fewer than 2047 tables and the bucket fewer than 4095 nodes where the flow needs a new one. */
  lemma ServedIffRoom(ifs: seq<Interface>, f: Flow, env: Env)
    requires TreeOk(ifs)
    ensures Served(ifs, f, env) <==> !Refused(ifs, f, env) && Cooperates(ifs, f, env) && RoomFor(ifs, f)
  {
    if !Refused(ifs, f, env) {
      var body := InterfaceOr(ifs, f.ifId).body;
      InterfaceOrOk(ifs, f.ifId);
      TableIdsRunOutAt(body);
      var nodes := NodesIn(BktsIn(body.tables, Key(f)), Bkt(f));
      BucketNodesOk(body.tables, Key(f), Bkt(f));
      if f.typ == TCP_5T {
        NodeIdsRunOutAt(f, nodes);
      } else {
        ThreeTupleId(f, nodes);
      }
    }
  }

  lemma BucketNodesOk(tables: seq<Table>, t: TableKey, b: int)
    requires TablesOk(tables)
    ensures NodesOk(t.typ, NodesIn(BktsIn(tables, t), b))
  {
    GetIsMember(tables, t);
    GetIsMember(BktsIn(tables, t), b);
  }

  /** An environment in which everything succeeds. */
  function Willing(): (env: Env) { Env(0, 0, true, true, true, true, true) }

  /** Whatever the flow, an empty tree and a willing environment serve it. */
  lemma EmptyTreeServes(f: Flow)
    requires KnownType(f)
    ensures Served([], f, Willing())
  {
    ServedIffRoom([], f, Willing());
  }

  // ------------------------------------------------------------------ running out

  lemma CooperationReturnsZero(ifs: seq<Interface>, f: Flow, handle: nat, env: Env)
    requires !Refused(ifs, f, env) && Cooperates(ifs, f, env)
    ensures AddFlow(ifs, f, handle, env).rc == 0
  {
    var tables := TablesIn(ifs, f.ifId);
    assert InterfaceOr(ifs, f.ifId).body.tables == tables;
    BucketReturnsZero(BktsIn(tables, Key(f)), f, env);
  }

  lemma BucketReturnsZero(bkts: seq<Bucket>, f: Flow, env: Env)
    requires Bkt(f) > 0 ==> (Get(bkts, Bkt(f)).Some? || env.bktMem) && env.nodeMem && env.filterTc
    ensures forall ht, id0 :: AddBucket(bkts, f, env, ht, id0).rc == 0
  {
  }

  /** Running out of ids is not an error: the call returns 0, the caller lists the flow, and the tree does not count it. */
  lemma ExhaustionUnnoticed(ifs: seq<Interface>, live: seq<Live>, f: Flow, handle: nat, env: Env)
    requires Accounted(ifs, live) && !Refused(ifs, f, env) && Cooperates(ifs, f, env) && !RoomFor(ifs, f)
    ensures var r := AddFlow(ifs, f, handle, env);
            r.rc == 0 && !Accounted(r.ifs, live + [Live(f, r.handle)])
  {
    CooperationReturnsZero(ifs, f, handle, env);
    ServedIffRoom(ifs, f, env);
    AddKeepsAccountedIff(ifs, live, f, handle, env);
  }

  /** A query for the nodes of one id. */
  predicate AsksNodes(q: Query) { q.InIf? && q.tq.InTable? && q.tq.bq.NodeCount? }

  /** A served add installs a filter if and only if the port is not a multiple of 256; otherwise the flow is answered with 0,
   is counted at its interface and table, and has no node. */
  lemma ServedInstallsNodeIff(ifs: seq<Interface>, f: Flow, handle: nat, env: Env)
    requires TreeOk(ifs) && Served(ifs, f, env)
    ensures var after := AddFlow(ifs, f, handle, env).ifs;
            (exists q :: AsksNodes(q) && Measure(after, q) == Measure(ifs, q) + 1) <==> f.dstPort % 0x100 != 0
    ensures f.dstPort % 0x100 == 0 ==>
              forall q | AsksNodes(q) :: Measure(AddFlow(ifs, f, handle, env).ifs, q) == Measure(ifs, q)
  {
    AddFlowCounts(ifs, f, handle, env);
    var r := AddFlow(ifs, f, handle, env);
    if Bkt(f) > 0 {
      var q := InIf(f.ifId, InTable(Key(f), NodeCount(Bkt(f), FlowHandles.HandleId(r.handle))));
      assert AsksNodes(q) && Matches(Live(f, r.handle), q);
    }
  }

  // ------------------------------------------------------------------ a full bucket

  const NO_NODE: int := 0xFEA      // -EINVAL in the 12 bits of a handle

  lemma FullBucketAddOk(ifs: seq<Interface>, f: Flow, env: Env, ht: int, bkt: int, id: int)
    requires TreeOk(ifs) && f.typ == TCP_5T && Bkt(f) > 0 && NodeId(f, NodesOf(ifs, f)) <= 0 && HasTable(ifs, f)
    requires Get(BktsIn(TablesIn(ifs, f.ifId), Key(f)), Bkt(f)).Some?
    ensures var r := AddToIf(ifs, f, env, ht, bkt, id);
            && TreeOk(r.ifs) && NodesOf(r.ifs, f) == NodesOf(ifs, f)
            && FlowHandles.HandleBkt(r.handle) == Bkt(f) && FlowHandles.HandleId(r.handle) == NO_NODE
  {
    var e := Get(ifs, f.ifId).value;
    GetIsMember(ifs, f.ifId);
    var r := AddTable(e.body, f, env, ht, bkt, id);
    var n: Interface := Elem(f.ifId, e.ref + 1, r.list);
    assert AddToIf(ifs, f, env, ht, bkt, id) == AddResult(Put(ifs, n), FlowHandles.HandleSet(r.ht, r.bkt, r.id), r.rc);
    FullBucketTableOk(e.body, f, env, ht, bkt, id);
    PutIfOk(ifs, n);
    GetPut(ifs, n, f.ifId);
    NoNodeHandle(r.ht, Bkt(f));
  }

  lemma NoNodeHandle(ht: int, b: int)
    requires 0 <= b < 0x100
    ensures var h := FlowHandles.HandleSet(ht, b, -EINVAL);
            FlowHandles.HandleBkt(h) == b && FlowHandles.HandleId(h) == NO_NODE
  {
    FlowHandles.HandleRoundTrip(ht, b, -EINVAL);
    FitsField(b, 0x100);
  }

  lemma FullBucketTableOk(body: IfBody, f: Flow, env: Env, ht0: int, bkt0: int, id0: int)
    requires IdsOk(body) && TablesOk(body.tables) && KnownType(f) && Bkt(f) > 0 && Get(body.tables, Key(f)).Some?
    requires Get(BktsIn(body.tables, Key(f)), Bkt(f)).Some? && NodeId(f, NodesIn(BktsIn(body.tables, Key(f)), Bkt(f))) <= 0
    ensures var r := AddTable(body, f, env, ht0, bkt0, id0);
            && IdsOk(r.list) && TablesOk(r.list.tables) && r.bkt == Bkt(f) && r.id == -EINVAL
            && NodesIn(BktsIn(r.list.tables, Key(f)), Bkt(f)) == NodesIn(BktsIn(body.tables, Key(f)), Bkt(f))
  {
    var t := Get(body.tables, Key(f)).value;
    GetIsMember(body.tables, Key(f));
    var was := Get(t.body.bkts, Bkt(f)).value;
    GetIsMember(t.body.bkts, Bkt(f));
    var e: Bucket := Elem(Bkt(f), was.ref + 1, was.body);
    var n: Table := Elem(t.key, t.ref + 1, t.body.(bkts := Put(t.body.bkts, e)));
    assert AddTable(body, f, env, ht0, bkt0, id0) == Added(body.(tables := Put(body.tables, n)), t.body.ht, Bkt(f), -EINVAL, 0);
    TableNodesKept(body.tables, t, n, e);
    TakesReference(body, t, n, e);
  }

  /** One more reference to a table and to one of its buckets. */
  lemma TakesReference(body: IfBody, t: Table, n: Table, e: Bucket)
    requires IdsOk(body) && TablesOk(body.tables) && Get(body.tables, t.key) == Some(t)
    requires n == Elem(t.key, t.ref + 1, t.body.(bkts := Put(t.body.bkts, e)))
    requires e.ref > 0 && e.key > 0 && NodesOk(t.key.typ, e.body)
    ensures IdsOk(body.(tables := Put(body.tables, n))) && TablesOk(Put(body.tables, n))
  {
    GetIsMember(body.tables, t.key);
    PutBucketOk(t.key.typ, t.body.bkts, e);
    PutTableOk(body.tables, n);
    UpdateTableKeepsIds(body, n, t);
  }

  lemma TableNodesKept(tables: seq<Table>, t: Table, n: Table, e: Bucket)
    requires n.key == t.key && n.body.bkts == Put(t.body.bkts, e)
    ensures NodesIn(BktsIn(Put(tables, n), t.key), e.key) == e.body
  {
    GetPut(tables, n, t.key);
    GetPut(t.body.bkts, e, e.key);
  }

  lemma {:induction false} SomeLive(live: seq<Live>, q: Query)
    requires Count(live, q) > 0
    ensures exists x :: x in live && Matches(x, q)
  {
    if Matches(live[0], q) {
      assert live[0] in live;
    } else {
      SomeLive(live[1..], q);
    }
  }

  /** The flow that a full bucket could not take is given a handle that names a node of another live flow; deleting it takes
   that node out of the tree. */
  lemma OverflowTakesAnothersNode(ifs: seq<Interface>, live: seq<Live>, f: Flow, handle: nat, env: Env)
    requires Accounted(ifs, live) && f.typ == TCP_5T && Bkt(f) > 0 && |NodesOf(ifs, f)| == MAX_ID
    requires !Refused(ifs, f, env) && Cooperates(ifs, f, env)
    ensures var r := AddFlow(ifs, f, handle, env);
            var after := DelFlow(r.ifs, f, r.handle, 0);
            var q := InIf(f.ifId, InTable(Key(f), NodeCount(Bkt(f), NO_NODE)));
            && r.rc == 0 && FlowHandles.HandleId(r.handle) == NO_NODE
            && (exists x :: x in live && Matches(x, q))
            && Measure(after, q) == Measure(ifs, q) - 1 && !Accounted(after, live)
  {
    var nodes := NodesOf(ifs, f);
    var q := InIf(f.ifId, InTable(Key(f), NodeCount(Bkt(f), NO_NODE)));
    TreeParts(ifs, f.ifId, Key(f), Bkt(f));
    NodeIdsRunOutAt(f, nodes);
    NodeIdFailsIffFull(f, nodes);
    assert CountId(nodes, NO_NODE) > 0 && Measure(ifs, q) == CountId(nodes, NO_NODE);
    SomeLive(live, q);
    CooperationReturnsZero(ifs, f, handle, env);
    FullBucketAddOk(ifs, f, env, FlowHandles.HandleHt(handle), FlowHandles.HandleBkt(handle), FlowHandles.HandleId(handle));
    var r := AddFlow(ifs, f, handle, env);
    NodesAfter(r.ifs, f, r.handle);
    DelNodeCounts(TCP_5T, nodes, NO_NODE, NO_NODE);
  }

  // ------------------------------------------------------------------ runs that run out

  /** Adding one flow after the other. */
  function Adds(fs: seq<Flow>): (ops: seq<Op>)
  {
    if fs == [] then [] else [Add(fs[0], 0, Willing())] + Adds(fs[1..])
  }

  lemma AddsFirst(ifs: seq<Interface>, live: seq<Live>, fs: seq<Flow>)
    requires fs != []
    ensures Adds(fs)[0] == Add(fs[0], 0, Willing()) && Adds(fs)[1..] == Adds(fs[1..])
    ensures var r := AddFlow(ifs, fs[0], 0, Willing());
            Apply(ifs, live, Adds(fs)[0]) == (r.ifs, LiveAfter(live, fs[0], r))
  {
  }

  /** The flows of one bucket of 5-tuple flows. */
  predicate Together(f: Flow, g: Flow)
  {
    g.typ == f.typ == TCP_5T && g.ifId == f.ifId && g.dstIp == f.dstIp && Bkt(g) == Bkt(f) > 0
  }

  function NodesOf(ifs: seq<Interface>, f: Flow): (nodes: seq<Node>)
  {
    NodesAt(ifs, f, Bkt(f))
  }

  /** What the interface looks like to the next flow after a served add. */
  lemma AddGrows(ifs: seq<Interface>, f: Flow, env: Env, ht: int, bkt: int, id: int)
    requires Served(ifs, f, env)
    ensures var r := AddToIf(ifs, f, env, ht, bkt, id);
            && HasTable(r.ifs, f) && (Bkt(f) > 0 ==> |NodesOf(r.ifs, f)| == |NodesOf(ifs, f)| + 1)
            && TablesIn(r.ifs, f.ifId) == AddTable(InterfaceOr(ifs, f.ifId).body, f, env, ht, bkt, id).list.tables
  {
    var e := InterfaceOr(ifs, f.ifId);
    var r := AddTable(e.body, f, env, ht, bkt, id);
    GetPut(ifs, Elem(f.ifId, e.ref + 1, r.list), f.ifId);
    TableGrows(e.body, f, env, ht, bkt, id);
  }

  lemma TableGrows(body: IfBody, f: Flow, env: Env, ht0: int, bkt0: int, id0: int)
    requires KnownType(f) && TableServed(body, f, env)
    ensures var tables := AddTable(body, f, env, ht0, bkt0, id0).list.tables;
            && Get(tables, Key(f)).Some?
            && (Bkt(f) > 0 ==> |NodesIn(BktsIn(tables, Key(f)), Bkt(f))| == |NodesIn(BktsIn(body.tables, Key(f)), Bkt(f))| + 1)
            && |tables| == |body.tables| + (if Get(body.tables, Key(f)).None? then 1 else 0)
            && forall k | k != Key(f) :: Get(tables, k) == Get(body.tables, k)
  {
    GetIsMember(body.tables, Key(f));
    match Get(body.tables, Key(f))
    case Some(t) => ToTableGrows(body, t, f, env, t.body.ht, id0);
    case None => ToTableGrows(TakeIds(body, f), NewTable(body, f), f, env, TakeBit(body.bits).1, id0);
  }

  lemma ToTableGrows(body: IfBody, t: Table, f: Flow, env: Env, ht: int, id0: int)
    requires KnownType(f) && t.key == Key(f) && BucketServed(t.body.bkts, f, env)
    ensures var tables := AddToTable(body, t, f, env, ht, id0).list.tables;
            && Get(tables, Key(f)).Some?
            && (Bkt(f) > 0 ==> |NodesIn(BktsIn(tables, Key(f)), Bkt(f))| == |NodesIn(t.body.bkts, Bkt(f))| + 1)
            && |tables| == |body.tables| + (if Get(body.tables, Key(f)).None? then 1 else 0)
            && forall k | k != Key(f) :: Get(tables, k) == Get(body.tables, k)
  {
    var r := AddBucket(t.body.bkts, f, env, ht, id0);
    var n: Table := Elem(t.key, t.ref + 1, t.body.(bkts := r.list));
    forall k
      ensures Get(Put(body.tables, n), k) == if k == n.key then Some(n) else Get(body.tables, k)
    {
      GetPut(body.tables, n, k);
    }
    if Bkt(f) > 0 {
      var e := BucketOr(t.body.bkts, Bkt(f));
      GetPut(t.body.bkts, Elem(Bkt(f), e.ref + 1, AddNode(e.body, f, env, ht, Bkt(f)).list), Bkt(f));
    }
  }

  /** As long as a bucket stays below 4095 nodes, any flows of it can be added one after the other. */
  lemma {:induction false} FillBucket(ifs: seq<Interface>, live: seq<Live>, f: Flow, fs: seq<Flow>)
    requires Accounted(ifs, live) && (ifs == [] || HasTable(ifs, f)) && forall g | g in fs :: Together(f, g)
    requires |NodesOf(ifs, f)| + |fs| <= MAX_ID
    ensures GoodRun(ifs, live, Adds(fs))
    ensures var (end, all) := Run(ifs, live, Adds(fs));
            Accounted(end, all) && |NodesOf(end, f)| == |NodesOf(ifs, f)| + |fs| && (end == [] || HasTable(end, f))
    decreases |fs|
  {
    if fs != [] {
      var g := fs[0];
      assert g in fs && Key(g) == Key(f);
      AddsFirst(ifs, live, fs);
      var r := AddFlow(ifs, g, 0, Willing());
      ServedIffRoom(ifs, g, Willing());
      AddServed(ifs, live, g);
      FillBucket(r.ifs, live + [Live(g, r.handle)], f, fs[1..]);
    }
  }

  lemma AddServed(ifs: seq<Interface>, live: seq<Live>, g: Flow)
    requires Accounted(ifs, live) && Served(ifs, g, Willing())
    ensures var r := AddFlow(ifs, g, 0, Willing());
            && r.rc == 0 && Accounted(r.ifs, live + [Live(g, r.handle)]) && HasTable(r.ifs, g)
            && (Bkt(g) > 0 ==> |NodesOf(r.ifs, g)| == |NodesOf(ifs, g)| + 1)
            && |TablesIn(r.ifs, g.ifId)| == |TablesIn(ifs, g.ifId)| + (if HasTable(ifs, g) then 0 else 1)
            && forall k | k != Key(g) :: Get(TablesIn(r.ifs, g.ifId), k) == Get(TablesIn(ifs, g.ifId), k)
  {
    var (ht, bkt, id) := (FlowHandles.HandleHt(0), FlowHandles.HandleBkt(0), FlowHandles.HandleId(0));
    AddGrows(ifs, g, Willing(), ht, bkt, id);
    TableGrows(InterfaceOr(ifs, g.ifId).body, g, Willing(), ht, bkt, id);
    AddFlowCounts(ifs, g, 0, Willing());
    AddKeepsAccountedIff(ifs, live, g, 0, Willing());
  }

  /** After 4095 flows of one bucket, all served, the next one is answered with 0 and not counted. */
  lemma BucketOverflows(fs: seq<Flow>, f: Flow)
    requires |fs| == MAX_ID && Together(f, f) && forall g | g in fs :: Together(f, g)
    ensures GoodRun([], [], Adds(fs))
    ensures var (ifs, live) := Run([], [], Adds(fs));
            var r := AddFlow(ifs, f, 0, Willing());
            Accounted(ifs, live) && r.rc == 0 && !Accounted(r.ifs, live + [Live(f, r.handle)])
  {
    NothingAccounted();
    FillBucket([], [], f, fs);
    var (ifs, live) := Run([], [], Adds(fs));
    ExhaustionUnnoticed(ifs, live, f, 0, Willing());
  }

  lemma NothingAccounted()
    ensures Accounted([], [])
  {
    forall q
      ensures Measure([], q) == Count([], q)
    {
    }
  }

  /** There are such flows, no two alike: connections from 4096 ports to one port. */
  lemma BucketCanOverflow() returns (fs: seq<Flow>, f: Flow)
    ensures |fs| == MAX_ID && Together(f, f) && forall g | g in fs :: Together(f, g)
    ensures f !in fs && forall i, j | 0 <= i < j < |fs| :: fs[i] != fs[j]
  {
    fs := seq(MAX_ID, i requires 0 <= i < MAX_ID => Flow(TCP_5T, 1, 2, 3, 1, 4, i));
    f := Flow(TCP_5T, 1, 2, 3, 1, 4, MAX_ID);
  }

  /** The flows need a table each, on the interface of f but not the table of f. */
  predicate Apart(f: Flow, fs: seq<Flow>)
  {
    && (forall g | g in fs :: KnownType(g) && g.ifId == f.ifId && Key(g) != Key(f))
    && (forall a, b | 0 <= a < b < |fs| :: Key(fs[a]) != Key(fs[b]))
  }

  lemma ApartTail(f: Flow, fs: seq<Flow>, h: Flow)
    requires Apart(f, fs) && fs != [] && h in fs[1..]
    ensures h in fs && Key(h) != Key(fs[0]) && Apart(f, fs[1..])
  {
    var a :| 0 <= a < |fs[1..]| && fs[1..][a] == h;
    assert fs[a + 1] == h;
  }

  /** As long as an interface stays within 2047 tables, flows that need a new table each can be added. */
  lemma {:induction false} FillTables(ifs: seq<Interface>, live: seq<Live>, f: Flow, fs: seq<Flow>)
    requires Accounted(ifs, live) && Apart(f, fs) && forall g | g in fs :: !HasTable(ifs, g)
    requires |TablesIn(ifs, f.ifId)| + |fs| <= MAX_TABLES
    ensures GoodRun(ifs, live, Adds(fs))
    ensures var (end, all) := Run(ifs, live, Adds(fs));
            && Accounted(end, all) && |TablesIn(end, f.ifId)| == |TablesIn(ifs, f.ifId)| + |fs|
            && HasTable(end, f) == HasTable(ifs, f)
    decreases |fs|
  {
    if fs != [] {
      var g := fs[0];
      assert g in fs;
      AddsFirst(ifs, live, fs);
      var r := AddFlow(ifs, g, 0, Willing());
      NewTableHasRoom(ifs, g);
      AddServed(ifs, live, g);
      forall h | h in fs[1..]
        ensures !HasTable(r.ifs, h)
      {
        ApartTail(f, fs, h);
      }
      FillTables(r.ifs, live + [Live(g, r.handle)], f, fs[1..]);
    }
  }

  lemma NewTableHasRoom(ifs: seq<Interface>, g: Flow)
    requires TreeOk(ifs) && KnownType(g) && !HasTable(ifs, g) && |TablesIn(ifs, g.ifId)| < MAX_TABLES
    ensures Served(ifs, g, Willing())
  {
    ServedIffRoom(ifs, g, Willing());
  }

  /** After 2047 flows with a table each, all served, a flow that needs one more is answered with 0 and not counted. */
  lemma TablesOverflow(fs: seq<Flow>, f: Flow)
    requires |fs| == MAX_TABLES && Apart(f, fs) && KnownType(f)
    ensures GoodRun([], [], Adds(fs))
    ensures var (ifs, live) := Run([], [], Adds(fs));
            var r := AddFlow(ifs, f, 0, Willing());
            Accounted(ifs, live) && r.rc == 0 && !Accounted(r.ifs, live + [Live(f, r.handle)])
  {
    NothingAccounted();
    FillTables([], [], f, fs);
    var (ifs, live) := Run([], [], Adds(fs));
    ExhaustionUnnoticed(ifs, live, f, 0, Willing());
  }

  /** There are such flows: listeners on 2048 addresses. */
  lemma TablesCanOverflow() returns (fs: seq<Flow>, f: Flow)
    ensures |fs| == MAX_TABLES && Apart(f, fs) && KnownType(f)
  {
    fs := seq(MAX_TABLES, i requires 0 <= i < MAX_TABLES => Flow(TCP_3T, 1, 2, i, 80, 0, 0));
    f := Flow(TCP_3T, 1, 2, MAX_TABLES, 80, 0, 0);
  }
}
