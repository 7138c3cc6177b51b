/** Deleting a live flow takes one from the answers on its path, level by level from the node up. */
module FlowRemoval {
  import opened Options
  import opened KeyedLists
  import opened FlowHandles
  import opened FlowTree
  import opened FlowIds
  import opened FlowAccounting

  ghost predicate BktsLose(bkts: seq<Bucket>, after: seq<Bucket>, b: int, n: int)
  {
    forall q :: BktMeasure(after, q) == BktMeasure(bkts, q) - One(BktHit(b, n, q))
  }

  ghost predicate TablesLose(tables: seq<Table>, after: seq<Table>, t: TableKey, b: int, n: int)
  {
    forall q :: TableMeasure(after, q) == TableMeasure(tables, q) - One(TableHit(t, b, n, q))
  }

  ghost predicate TreeLoses(ifs: seq<Interface>, after: seq<Interface>, x: Live)
  {
    forall q :: Measure(after, q) == Measure(ifs, q) - One(Matches(x, q))
  }

  // ------------------------------------------------------------------ one level at a time

  /** The bucket holds the node, and loses its last reference only with its last node. */
  predicate BucketHolds(bkts: seq<Bucket>, b: int, n: int)
  {
    b > 0 ==> && Get(bkts, b).Some? && CountId(NodesIn(bkts, b), n) > 0
              && (RefOf(bkts, b) == 1 ==> DelNode(NodesIn(bkts, b), n) == [])
  }

  lemma ReleaseBucketMeasures(bkts: seq<Bucket>, e: Bucket, q: BktQuery)
    requires Distinct(bkts) && e.ref >= 0 && (e.ref == 0 ==> e.body == [])
    ensures BktMeasure(Release(bkts, e, e.body == []), q) ==
            if q.b != e.key then BktMeasure(bkts, q) else if q.BktRef? then e.ref else CountId(e.body, q.n)
  {
    GetRelease(bkts, e, e.body == [], q.b);
  }

  lemma ReleaseBucketOk(typ: int, bkts: seq<Bucket>, e: Bucket)
    requires BktsOk(typ, bkts) && e.key > 0 && e.ref >= 0 && (e.ref == 0 ==> e.body == []) && NodesOk(typ, e.body)
    ensures BktsOk(typ, Release(bkts, e, e.body == []))
  {
    if e.ref == 0 {
      DelKeepsDistinct(bkts, e.key);
      forall x | x in Del(bkts, e.key) {
        DelMembers(bkts, e.key, x);
      }
    } else {
      PutBucketOk(typ, bkts, e);
    }
  }

  lemma DelBucketCounts(typ: int, bkts: seq<Bucket>, b: int, n: int)
    requires BktsOk(typ, bkts) && b >= 0 && BucketHolds(bkts, b, n)
    ensures BktsOk(typ, DelBucket(bkts, b, n)) && BktsLose(bkts, DelBucket(bkts, b, n), b, n)
  {
    GetIsMember(bkts, b);
    if b > 0 {
      var was := Get(bkts, b).value;
      var e: Bucket := Elem(b, was.ref - 1, DelNode(was.body, n));
      DelNodeKeepsOk(typ, was.body, n);
      ReleaseBucketOk(typ, bkts, e);
      forall q
        ensures BktMeasure(DelBucket(bkts, b, n), q) == BktMeasure(bkts, q) - One(BktHit(b, n, q))
      {
        ReleaseBucketMeasures(bkts, e, q);
        if q.NodeCount? { DelNodeCounts(typ, was.body, n, q.n); }
      }
    }
  }

  /** The table is linked, and loses its last reference only with its last bucket. */
  predicate TableHolds(tables: seq<Table>, t: TableKey, b: int, n: int)
  {
    && Get(tables, t).Some? && BucketHolds(BktsIn(tables, t), b, n)
    && (RefOf(tables, t) == 1 ==> DelBucket(BktsIn(tables, t), b, n) == [])
  }

  lemma ReleaseTableMeasures(tables: seq<Table>, e: Table, q: TableQuery)
    requires Distinct(tables) && e.ref >= 0 && (e.ref == 0 ==> e.body.bkts == [])
    ensures TableMeasure(Release(tables, e, e.body.bkts == []), q) ==
            if q.t != e.key then TableMeasure(tables, q) else if q.TableRef? then e.ref else BktMeasure(e.body.bkts, q.bq)
  {
    GetRelease(tables, e, e.body.bkts == [], q.t);
  }

  lemma ReleaseTableOk(tables: seq<Table>, e: Table)
    requires Distinct(tables) && TablesOk(tables)
    requires e.ref >= 0 && (e.ref == 0 ==> e.body.bkts == []) && BktsOk(e.key.typ, e.body.bkts)
    ensures TablesOk(Release(tables, e, e.body.bkts == []))
  {
    if e.ref == 0 {
      forall x | x in Del(tables, e.key) {
        DelMembers(tables, e.key, x);
      }
    } else {
      PutTableOk(tables, e);
    }
  }

  lemma DelTableCounts(body: IfBody, f: Flow, b: int, n: int)
    requires IdsOk(body) && TablesOk(body.tables) && b >= 0 && TableHolds(body.tables, Key(f), b, n)
    ensures var after := DelTable(body, f, b, n);
            IdsOk(after) && TablesOk(after.tables) && TablesLose(body.tables, after.tables, Key(f), b, n)
  {
    var was := Get(body.tables, Key(f)).value;
    GetIsMember(body.tables, Key(f));
    DelBucketCounts(was.key.typ, was.body.bkts, b, n);
    var e: Table := Elem(was.key, was.ref - 1, was.body.(bkts := DelBucket(was.body.bkts, b, n)));
    ReleaseTableOk(body.tables, e);
    forall q {
      ReleaseTableMeasures(body.tables, e, q);
    }
    if e.ref == 0 {
      DropTableKeepsIds(body, was);
    } else {
      UpdateTableKeepsIds(body, e, was);
    }
  }

  lemma ReleaseIfMeasures(ifs: seq<Interface>, e: Interface, q: Query)
    requires Distinct(ifs) && e.ref >= 0 && (e.ref == 0 ==> e.body.tables == [])
    ensures Measure(Release(ifs, e, e.body.tables == []), q) ==
            if q.i != e.key then Measure(ifs, q) else if q.IfRef? then e.ref else TableMeasure(e.body.tables, q.tq)
  {
    GetRelease(ifs, e, e.body.tables == [], q.i);
  }

  lemma ReleaseIfOk(ifs: seq<Interface>, e: Interface)
    requires TreeOk(ifs) && e.ref >= 0 && (e.ref == 0 ==> e.body.tables == []) && IdsOk(e.body) && TablesOk(e.body.tables)
    ensures TreeOk(Release(ifs, e, e.body.tables == []))
  {
    if e.ref == 0 {
      DelKeepsDistinct(ifs, e.key);
      forall x | x in Del(ifs, e.key)
        ensures IfOk(x)
      {
        DelMembers(ifs, e.key, x);
      }
    } else {
      PutIfOk(ifs, e);
    }
  }

  /** The interface is in the tree, and loses its last reference only with its last table. */
  predicate TreeHolds(ifs: seq<Interface>, f: Flow, b: int, n: int)
  {
    && Get(ifs, f.ifId).Some? && TableHolds(TablesIn(ifs, f.ifId), Key(f), b, n)
    && (RefOf(ifs, f.ifId) == 1 ==> DelTable(Get(ifs, f.ifId).value.body, f, b, n).tables == [])
  }

  lemma DelFlowCounts(ifs: seq<Interface>, x: Live)
    requires TreeOk(ifs) && Routed(x) && TreeHolds(ifs, x.flow, Bkt(x.flow), HandleId(x.handle))
    ensures TreeOk(DelFlow(ifs, x.flow, x.handle, 0)) && TreeLoses(ifs, DelFlow(ifs, x.flow, x.handle, 0), x)
  {
    var f, b, n := x.flow, Bkt(x.flow), HandleId(x.handle);
    var was := Get(ifs, f.ifId).value;
    GetIsMember(ifs, f.ifId);
    DelTableCounts(was.body, f, b, n);
    DropFromInterface(ifs, was, DelTable(was.body, f, b, n), f, b, n);
  }

  lemma DropFromInterface(ifs: seq<Interface>, was: Interface, body: IfBody, f: Flow, b: int, n: int)
    requires TreeOk(ifs) && Get(ifs, f.ifId) == Some(was) && was.ref > 0 && (was.ref == 1 ==> body.tables == [])
    requires IdsOk(body) && TablesOk(body.tables) && TablesLose(was.body.tables, body.tables, Key(f), b, n)
    ensures var after := Release(ifs, Elem(f.ifId, was.ref - 1, body), body.tables == []);
            TreeOk(after) && forall q :: Measure(after, q) == Measure(ifs, q) - One(Hit(f.ifId, Key(f), b, n, q))
  {
    var e: Interface := Elem(f.ifId, was.ref - 1, body);
    ReleaseIfOk(ifs, e);
    forall q {
      ReleaseIfMeasures(ifs, e, q);
    }
  }

  // ------------------------------------------------------------------ the last reference

  lemma NoNodes(nodes: seq<Node>)
    requires forall m :: CountId(nodes, m) == 0
    ensures nodes == []
  {
    if nodes != [] {
      CountIdIsMembership(nodes, nodes[0].id);
    }
  }

  /** The well-formedness of the lists on a path. */
  lemma TreeParts(ifs: seq<Interface>, i: nat, t: TableKey, b: int)
    requires TreeOk(ifs)
    ensures Distinct(TablesIn(ifs, i)) && TablesOk(TablesIn(ifs, i))
    ensures BktsOk(t.typ, BktsIn(TablesIn(ifs, i), t))
    ensures NodesOk(t.typ, NodesIn(BktsIn(TablesIn(ifs, i), t), b))
  {
    GetIsMember(ifs, i);
    GetIsMember(TablesIn(ifs, i), t);
    GetIsMember(BktsIn(TablesIn(ifs, i), t), b);
  }

  /** after is live without one flow like x. */
  ghost predicate Leaves(ifs: seq<Interface>, live: seq<Live>, after: seq<Live>, x: Live)
  {
    Accounted(ifs, live) && Routed(x) && Shift(live, after, x, -1)
  }

  /** What the tree answers on the path of x, before and after. */
  lemma OnPath(ifs: seq<Interface>, live: seq<Live>, after: seq<Live>, x: Live, q: Query)
    requires Leaves(ifs, live, after, x)
    ensures Measure(ifs, q) == Count(after, q) + One(Matches(x, q))
  {
    assert Count(after, q) == Count(live, q) + (if Matches(x, q) then -1 else 0);
  }

  lemma BucketIsHeld(ifs: seq<Interface>, live: seq<Live>, after: seq<Live>, x: Live)
    requires Leaves(ifs, live, after, x)
    ensures BucketHolds(BktsIn(TablesIn(ifs, x.flow.ifId), Key(x.flow)), Bkt(x.flow), HandleId(x.handle))
  {
    var (i, t, b, n) := (x.flow.ifId, Key(x.flow), Bkt(x.flow), HandleId(x.handle));
    var bkts := BktsIn(TablesIn(ifs, i), t);
    var nodes := NodesIn(bkts, b);
    if b > 0 {
      TreeParts(ifs, i, t, b);
      OnPath(ifs, live, after, x, InIf(i, InTable(t, BktRef(b))));
      OnPath(ifs, live, after, x, InIf(i, InTable(t, NodeCount(b, n))));
      if RefOf(bkts, b) == 1 {
        forall m
          ensures CountId(DelNode(nodes, n), m) == 0
        {
          OnPath(ifs, live, after, x, InIf(i, InTable(t, NodeCount(b, m))));
          CountParent(after, InIf(i, InTable(t, NodeCount(b, m))));
          DelNodeCounts(t.typ, nodes, n, m);
        }
        NoNodes(DelNode(nodes, n));
      }
    }
  }

  lemma TableIsHeld(ifs: seq<Interface>, live: seq<Live>, after: seq<Live>, x: Live)
    requires Leaves(ifs, live, after, x)
    ensures TableHolds(TablesIn(ifs, x.flow.ifId), Key(x.flow), Bkt(x.flow), HandleId(x.handle))
  {
    var (i, t, b, n) := (x.flow.ifId, Key(x.flow), Bkt(x.flow), HandleId(x.handle));
    var bkts := BktsIn(TablesIn(ifs, i), t);
    TreeParts(ifs, i, t, b);
    BucketIsHeld(ifs, live, after, x);
    OnPath(ifs, live, after, x, InIf(i, TableRef(t)));
    if RefOf(TablesIn(ifs, i), t) == 1 {
      DelBucketCounts(t.typ, bkts, b, n);
      var left := DelBucket(bkts, b, n);
      forall k
        ensures RefOf(left, k) == 0
      {
        assert BktMeasure(left, BktRef(k)) == BktMeasure(bkts, BktRef(k)) - One(BktHit(b, n, BktRef(k)));
        OnPath(ifs, live, after, x, InIf(i, InTable(t, BktRef(k))));
        CountParent(after, InIf(i, InTable(t, BktRef(k))));
      }
      SomeReference(left);
    }
  }

  lemma TreeIsHeld(ifs: seq<Interface>, live: seq<Live>, after: seq<Live>, x: Live)
    requires Leaves(ifs, live, after, x)
    ensures TreeHolds(ifs, x.flow, Bkt(x.flow), HandleId(x.handle))
  {
    var (i, t, b, n) := (x.flow.ifId, Key(x.flow), Bkt(x.flow), HandleId(x.handle));
    TableIsHeld(ifs, live, after, x);
    OnPath(ifs, live, after, x, IfRef(i));
    GetIsMember(ifs, i);
    if RefOf(ifs, i) == 1 {
      var body := Get(ifs, i).value.body;
      DelTableCounts(body, x.flow, b, n);
      var left := DelTable(body, x.flow, b, n).tables;
      forall k
        ensures RefOf(left, k) == 0
      {
        assert TableMeasure(left, TableRef(k)) == TableMeasure(body.tables, TableRef(k)) - One(TableHit(t, b, n, TableRef(k)));
        OnPath(ifs, live, after, x, InIf(i, TableRef(k)));
        CountParent(after, InIf(i, TableRef(k)));
      }
      SomeReference(left);
    }
  }

  // ------------------------------------------------------------------ which node goes

  function NodesAt(ifs: seq<Interface>, f: Flow, b: int): (nodes: seq<Node>)
  {
    NodesIn(BktsIn(TablesIn(ifs, f.ifId), Key(f)), b)
  }

  lemma BucketNodesAfter(typ: int, bkts: seq<Bucket>, b: int, id: int)
    requires BktsOk(typ, bkts)
    ensures NodesIn(DelBucket(bkts, b, id), b) == DelNode(NodesIn(bkts, b), id)
  {
    if Get(bkts, b).Some? {
      var e := Get(bkts, b).value;
      var nodes := DelNode(e.body, id);
      GetRelease(bkts, Elem(b, e.ref - 1, nodes), nodes == [], b);
    }
  }

  lemma TableNodesAfter(body: IfBody, f: Flow, b: int, id: int)
    requires Distinct(body.tables) && TablesOk(body.tables)
    ensures NodesIn(BktsIn(DelTable(body, f, b, id).tables, Key(f)), b) == DelNode(NodesIn(BktsIn(body.tables, Key(f)), b), id)
  {
    if Get(body.tables, Key(f)).Some? {
      var t := Get(body.tables, Key(f)).value;
      GetIsMember(body.tables, Key(f));
      BucketNodesAfter(t.key.typ, t.body.bkts, b, id);
      var bkts := DelBucket(t.body.bkts, b, id);
      GetRelease(body.tables, Elem(t.key, t.ref - 1, t.body.(bkts := bkts)), bkts == [], Key(f));
    }
  }

  /** Whatever del_flow unlinks above it, the bucket's nodes are what `DelNode` leaves of them. */
  lemma NodesAfter(ifs: seq<Interface>, f: Flow, handle: nat)
    requires TreeOk(ifs) && KnownType(f)
    ensures var b := HandleBkt(handle);
            NodesAt(DelFlow(ifs, f, handle, 0), f, b) == DelNode(NodesAt(ifs, f, b), HandleId(handle))
  {
    if Get(ifs, f.ifId).Some? {
      var e := Get(ifs, f.ifId).value;
      GetIsMember(ifs, f.ifId);
      var (b, id) := (HandleBkt(handle), HandleId(handle));
      TableNodesAfter(e.body, f, b, id);
      var body := DelTable(e.body, f, b, id);
      GetRelease(ifs, Elem(f.ifId, e.ref - 1, body), body.tables == [], f.ifId);
    }
  }

  /** del_flow takes out the first node with the id of the handle and leaves all others, whichever of the flows that
   share interface, table, bucket and id it is called for. */
  lemma DelTakesFirst(ifs: seq<Interface>, f: Flow, g: Flow, hf: nat, hg: nat, i: nat)
    requires TreeOk(ifs) && KnownType(f) && f.ifId == g.ifId && Key(f) == Key(g)
    requires HandleBkt(hf) == HandleBkt(hg) && HandleId(hf) == HandleId(hg)
    requires var nodes := NodesAt(ifs, f, HandleBkt(hf));
             i < |nodes| && nodes[i].id == HandleId(hf) && forall j | 0 <= j < i :: nodes[j].id != HandleId(hf)
    ensures var nodes := NodesAt(ifs, f, HandleBkt(hf));
            && NodesAt(DelFlow(ifs, f, hf, 0), f, HandleBkt(hf)) == nodes[..i] + nodes[i + 1..]
            && DelFlow(ifs, g, hg, 0) == DelFlow(ifs, f, hf, 0)
  {
    var b := HandleBkt(hf);
    NodesAfter(ifs, f, hf);
    TreeParts(ifs, f.ifId, Key(f), b);
    SharedIdDeletesAlike(ifs, f, g, hf, hg, 0);
    assert FindNode(NodesAt(ifs, f, b), HandleId(hf)) == i;
  }

  // ------------------------------------------------------------------ the return code

  lemma TableGone(tables: seq<Table>, was: Table, bkts: seq<Bucket>)
    requires Distinct(tables) && Get(tables, was.key) == Some(was)
    ensures Get(Release(tables, Elem(was.key, was.ref - 1, was.body.(bkts := bkts)), bkts == []), was.key).None? <==>
            bkts == [] && was.ref - 1 <= 0
  {
    GetRelease(tables, Elem(was.key, was.ref - 1, was.body.(bkts := bkts)), bkts == [], was.key);
  }

  /** The tree has a node with the id of the handle, in the bucket of the handle. */
  predicate HasNode(ifs: seq<Interface>, f: Flow, handle: nat)
  {
    CountId(NodesIn(BktsIn(TablesIn(ifs, f.ifId), Key(f)), HandleBkt(handle)), HandleId(handle)) > 0
  }

  predicate HasTable(ifs: seq<Interface>, f: Flow)
  {
    Get(TablesIn(ifs, f.ifId), Key(f)).Some?
  }

  /** Told from the trees before and after: del_flow reports a failing tc command exactly when it took out the node, the
   table or the interface that the command was for. */
  lemma DelCodeMeans(ifs: seq<Interface>, f: Flow, handle: nat, tc: DelTc)
    requires TreeOk(ifs) && KnownType(f)
    ensures var after := DelFlow(ifs, f, handle, 0);
            DelCode(ifs, f, handle, 0, tc) == -EFAULT <==>
              || (HasNode(ifs, f, handle) && !tc.filter)
              || (HasTable(ifs, f) && !HasTable(after, f) && !tc.unlink)
              || (Get(ifs, f.ifId).Some? && Get(after, f.ifId).None? && !tc.qdisc)
  {
    if Get(ifs, f.ifId).Some? {
      var e := Get(ifs, f.ifId).value;
      GetIsMember(ifs, f.ifId);
      var (b, n) := (HandleBkt(handle), HandleId(handle));
      var body := DelTable(e.body, f, b, n);
      GetRelease(ifs, Elem(f.ifId, e.ref - 1, body), body.tables == [], f.ifId);
      TableFailsMeans(e.body, f, b, n, tc);
    }
  }

  lemma TableFailsMeans(body: IfBody, f: Flow, b: int, n: int, tc: DelTc)
    requires IdsOk(body) && TablesOk(body.tables)
    ensures var after := DelTable(body, f, b, n).tables;
            TableFails(body, f, b, n, tc) <==>
              || (CountId(NodesIn(BktsIn(body.tables, Key(f)), b), n) > 0 && !tc.filter)
              || (Get(body.tables, Key(f)).Some? && Get(after, Key(f)).None? && !tc.unlink)
  {
    if Get(body.tables, Key(f)).Some? {
      var t := Get(body.tables, Key(f)).value;
      GetIsMember(body.tables, Key(f));
      TableGone(body.tables, t, DelBucket(t.body.bkts, b, n));
      GetIsMember(t.body.bkts, b);
      CountIdIsMembership(NodesIn(t.body.bkts, b), n);
    }
  }
}
