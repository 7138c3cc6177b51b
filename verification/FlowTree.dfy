/**
 The flow tree of tools/daemon/flow.c: interface elements hold hash tables, tables hold buckets, buckets hold
 nodes.  Every element counts references.  The results of interface lookups, allocations and tc commands
 are parameters.
 */
module FlowTree {
  import opened KeyedLists
  import opened Bitmap
  import opened FlowHandles

  const TCP_5T := 3             // VMA_MSG_FLOW_TCP_5T
  const TCP_3T := 4             // VMA_MSG_FLOW_TCP_3T
  const KERNEL_HT := 0x800
  const MAX_ID := 0xFFF
  const ENOMEM := 12
  const EFAULT := 14
  const EINVAL := 22
  const EPROTO := 71

  /** struct store_flow without its handle; ports are in host order. */
  datatype Flow = Flow(typ: int, ifId: nat, tapId: nat, dstIp: nat, dstPort: nat, srcIp: nat, srcPort: nat)

  datatype Node = Node(id: int, ref: int)
  type Bucket = Elem<int, seq<Node>>
  datatype TableKey = TableKey(typ: int, ip: nat)
  datatype TableBody = TableBody(ht: nat, krn: nat, bkts: seq<Bucket>)
  type Table = Elem<TableKey, TableBody>
  datatype Slot = Slot(prio: int, id: int)                                       // an entry of ht_prio; prio 0 is free
  datatype IfBody = IfBody(bits: seq<Word32>, slots: seq<Slot>, tables: seq<Table>)
  type Interface = Elem<nat, IfBody>

  predicate KnownType(f: Flow) { f.typ == TCP_3T || f.typ == TCP_5T }

  function Key(f: Flow): (k: TableKey) { TableKey(f.typ, f.dstIp) }

  /** `get_bkt` */
  function Bkt(f: Flow): (b: int) { if KnownType(f) then f.dstPort % 0x100 else -EINVAL }

  // ------------------------------------------------------------------ node ids

  /** The first place, from i on, where the ids leave a gap. */
  function Gap(nodes: seq<Node>, i: nat): (g: nat)
    requires i <= |nodes|
    ensures i <= g <= |nodes|
    ensures g < |nodes| ==> nodes[g].id > g + 1
    ensures forall j | i <= j < g :: nodes[j].id <= j + 1
    decreases |nodes| - i
  {
    if i == |nodes| || nodes[i].id > i + 1 then i else Gap(nodes, i + 1)
  }

  predicate TailIsFull(nodes: seq<Node>)
  {
    |nodes| > 0 && nodes[|nodes| - 1].id >= MAX_ID
  }

  function RawId(f: Flow, nodes: seq<Node>): (id: int)
  {
    if f.typ == TCP_3T then (f.dstPort / 0xFF) % 0x100 + 1
    else if nodes == [] then 1
    else if !TailIsFull(nodes) then nodes[|nodes| - 1].id + 1
    else Gap(nodes, 0) + 1
  }

  /** `get_node`: the id, or -EINVAL. */
  function NodeId(f: Flow, nodes: seq<Node>): (id: int)
  {
    if KnownType(f) && 0 < RawId(f, nodes) <= MAX_ID then RawId(f, nodes) else -EINVAL
  }

  /** The place before which `get_node` asks for the new node to be inserted. */
  function NodePlace(f: Flow, nodes: seq<Node>): (p: nat)
    ensures p <= |nodes|
  {
    if f.typ == TCP_5T && TailIsFull(nodes) then Gap(nodes, 0) else |nodes|
  }

  function Insert(nodes: seq<Node>, p: nat, id: int): (r: seq<Node>)
    requires p <= |nodes|
  {
    nodes[..p] + [Node(id, 1)] + nodes[p..]
  }

  // ------------------------------------------------------------------ table ids

  function FindPrio(slots: seq<Slot>, prio: int): (i: nat)
    ensures i <= |slots|
    ensures i < |slots| ==> slots[i].prio == prio
    ensures forall j | 0 <= j < i :: slots[j].prio != prio
  {
    if slots == [] || slots[0].prio == prio then 0 else 1 + FindPrio(slots[1..], prio)
  }

  /** The last free one of the first n slots, or -1. */
  function LastFree(slots: seq<Slot>, n: nat): (i: int)
    requires n <= |slots|
    ensures -1 <= i < n
    ensures i >= 0 ==> slots[i].prio == 0
    ensures forall j | i < j < n :: slots[j].prio != 0
  {
    if n == 0 then -1 else if slots[n - 1].prio == 0 then n - 1 else LastFree(slots, n - 1)
  }

  /** The largest id in use in the first n slots, or -1. */
  function MaxId(slots: seq<Slot>, n: nat): (m: int)
    requires n <= |slots|
    ensures m >= -1
    ensures forall j | 0 <= j < n && slots[j].prio != 0 :: slots[j].id <= m
  {
    if n == 0 then -1
    else
      var m := MaxId(slots, n - 1);
      if slots[n - 1].prio != 0 && m < slots[n - 1].id then slots[n - 1].id else m
  }

  /** First half of `get_htid`: the kernel table for a priority, taking a slot when it has none yet; 0 if there is none. */
  function KernelTable(slots: seq<Slot>, prio: int): (r: (seq<Slot>, int))
  {
    var i := FindPrio(slots, prio);
    if i < |slots| && KERNEL_HT + slots[i].id != 0 then (slots, KERNEL_HT + slots[i].id)
    else if LastFree(slots, i) >= 0 then
      var s := Slot(prio, MaxId(slots, i) + 1);
      (slots[LastFree(slots, i) := s], KERNEL_HT + s.id)
    else (slots, 0)
  }

  /** Second half of `get_htid`: the lowest clear bit is taken, unless there is none. */
  function TakeBit(bits: seq<Word32>): (r: (seq<Word32>, int))
  {
    var n := FirstZero(bits);
    (if n >= 0 then SetBit(bits, n) else bits, n)
  }

  /** `free_htid`; an id without a bit, as a table gets once the ids have run out, is left alone. */
  function FreeBit(bits: seq<Word32>, ht: nat): (r: seq<Word32>)
  {
    if ht / ITEM_SIZE < |bits| then ClearBit(bits, ht) else bits
  }

  // ------------------------------------------------------------------ add_flow

  /** What the environment answers: errno of the interface lookups (0 when both succeed), the error of creating an
   interface element (0 for none), and whether the other allocations and tc commands succeed. */
  datatype Env = Env(lookup: nat, newIf: nat, tableMem: bool, tableTc: bool, bktMem: bool, nodeMem: bool, filterTc: bool)

  datatype Added<T> = Added(list: T, ht: int, bkt: int, id: int, rc: int)

  function AddNode(nodes: seq<Node>, f: Flow, env: Env, ht: int, bkt: int): (r: Added<seq<Node>>)
  {
    var id := NodeId(f, nodes);
    if id <= 0 then Added(nodes, ht, bkt, id, 0)
    else if !env.nodeMem then Added(nodes, ht, bkt, id, -ENOMEM)
    else if !env.filterTc then Added(nodes, ht, bkt, id, -EFAULT)
    else Added(Insert(nodes, NodePlace(f, nodes), id), ht, bkt, id, 0)
  }

  function BucketOr(bkts: seq<Bucket>, b: int): (e: Bucket)
  {
    match Get(bkts, b)
    case None => Elem(b, 0, [])
    case Some(e) => e
  }

  function AddBucket(bkts: seq<Bucket>, f: Flow, env: Env, ht: int, id0: int): (r: Added<seq<Bucket>>)
  {
    var b := Bkt(f);
    if b <= 0 then Added(bkts, ht, b, id0, 0)
    else if Get(bkts, b).None? && !env.bktMem then Added(bkts, ht, b, id0, -ENOMEM)
    else
      var e := BucketOr(bkts, b);
      var r := AddNode(e.body, f, env, ht, b);
      Added(Put(bkts, Elem(b, e.ref + 1, r.list)), r.ht, r.bkt, r.id, r.rc)
  }

  /** The interface with ids taken for one more table. */
  function TakeIds(body: IfBody, f: Flow): (r: IfBody)
  {
    IfBody(TakeBit(body.bits).0, KernelTable(body.slots, f.typ).0, body.tables)
  }

  function NewTable(body: IfBody, f: Flow): (t: Table)
  {
    Elem(Key(f), 0, TableBody(TakeBit(body.bits).1 % 0x1_0000, KernelTable(body.slots, f.typ).1 % 0x1_0000, []))
  }

  function AddTable(body: IfBody, f: Flow, env: Env, ht0: int, bkt0: int, id0: int): (r: Added<IfBody>)
  {
    match Get(body.tables, Key(f))
    case Some(t) => AddToTable(body, t, f, env, t.body.ht, id0)
    case None =>
      var ht := TakeBit(body.bits).1;
      if !env.tableMem then Added(body, ht0, bkt0, id0, -ENOMEM)
      else if !env.tableTc then Added(TakeIds(body, f), ht, bkt0, id0, -EFAULT)
      else AddToTable(TakeIds(body, f), NewTable(body, f), f, env, ht, id0)
  }

  function AddToTable(body: IfBody, t: Table, f: Flow, env: Env, ht: int, id0: int): (r: Added<IfBody>)
  {
    var r := AddBucket(t.body.bkts, f, env, ht, id0);
    Added(body.(tables := Put(body.tables, Elem(t.key, t.ref + 1, t.body.(bkts := r.list)))), r.ht, r.bkt, r.id, r.rc)
  }

  /** A bitmap of 0x7FF bits with bit 0 taken, no priority in use and no table. */
  function NewIfBody(): (b: IfBody)
  {
    IfBody(SetBit(seq(64, _ => 0), 0), seq(4, _ => Slot(0, 0)), [])
  }

  function InterfaceOr(ifs: seq<Interface>, i: nat): (e: Interface)
  {
    match Get(ifs, i)
    case None => Elem(i, 0, NewIfBody())
    case Some(e) => e
  }

  datatype AddResult = AddResult(ifs: seq<Interface>, handle: nat, rc: int)

  /** `add_flow`: the new tree, the handle written back and the return code. */
  function AddFlow(ifs: seq<Interface>, f: Flow, handle: nat, env: Env): (r: AddResult)
  {
    var (ht, bkt, id) := (HandleHt(handle), HandleBkt(handle), HandleId(handle));
    if !KnownType(f) then AddResult(ifs, HandleSet(ht, bkt, id), -EPROTO)
    else if env.lookup != 0 then AddResult(ifs, HandleSet(ht, bkt, id), 0 - env.lookup)
    else if Get(ifs, f.ifId).None? && env.newIf != 0 then AddResult(ifs, HandleSet(ht, bkt, id), 0 - env.newIf)
    else AddToIf(ifs, f, env, ht, bkt, id)
  }

  function AddToIf(ifs: seq<Interface>, f: Flow, env: Env, ht: int, bkt: int, id: int): (r: AddResult)
  {
    var e := InterfaceOr(ifs, f.ifId);
    var r := AddTable(e.body, f, env, ht, bkt, id);
    AddResult(Put(ifs, Elem(f.ifId, e.ref + 1, r.list)), HandleSet(r.ht, r.bkt, r.id), r.rc)
  }

  // ------------------------------------------------------------------ del_flow

  function FindNode(nodes: seq<Node>, id: int): (i: nat)
    ensures i <= |nodes|
    ensures i < |nodes| ==> nodes[i].id == id
    ensures forall j | 0 <= j < i :: nodes[j].id != id
  {
    if nodes == [] || nodes[0].id == id then 0 else 1 + FindNode(nodes[1..], id)
  }

  function DelNode(nodes: seq<Node>, id: int): (r: seq<Node>)
  {
    var i := FindNode(nodes, id);
    if i == |nodes| then nodes
    else if nodes[i].ref - 1 <= 0 then nodes[..i] + nodes[i + 1..]
    else nodes[i := Node(id, nodes[i].ref - 1)]
  }

  function DelBucket(bkts: seq<Bucket>, bkt: int, id: int): (r: seq<Bucket>)
  {
    match Get(bkts, bkt)
    case None => bkts
    case Some(e) =>
      var nodes := DelNode(e.body, id);
      Release(bkts, Elem(bkt, e.ref - 1, nodes), nodes == [])
  }

  /** `free_htid` clears the bit of a table that goes. */
  function DelTable(body: IfBody, f: Flow, bkt: int, id: int): (r: IfBody)
  {
    match Get(body.tables, Key(f))
    case None => body
    case Some(t) =>
      var bkts := DelBucket(t.body.bkts, bkt, id);
      body.(bits := if bkts == [] && t.ref - 1 <= 0 then FreeBit(body.bits, t.body.ht) else body.bits,
            tables := Release(body.tables, Elem(t.key, t.ref - 1, t.body.(bkts := bkts)), bkts == []))
  }

  /** The tree after `del_flow` with its interface lookup; tc failures change only the return code. */
  function DelFlow(ifs: seq<Interface>, f: Flow, handle: nat, lookup: nat): (r: seq<Interface>)
  {
    if !KnownType(f) || lookup != 0 then ifs
    else
      match Get(ifs, f.ifId)
      case None => ifs
      case Some(e) =>
        var body := DelTable(e.body, f, HandleBkt(handle), HandleId(handle));
        Release(ifs, Elem(f.ifId, e.ref - 1, body), body.tables == [])
  }

  /** Whether the tc commands that delete a filter, unlink a table and delete a qdisc succeed. */
  datatype DelTc = DelTc(filter: bool, unlink: bool, qdisc: bool)

  predicate DropsNode(nodes: seq<Node>, id: int)
  {
    FindNode(nodes, id) < |nodes| && nodes[FindNode(nodes, id)].ref - 1 <= 0
  }

  predicate BucketFails(bkts: seq<Bucket>, bkt: int, id: int, tc: DelTc)
  {
    Get(bkts, bkt).Some? && DropsNode(Get(bkts, bkt).value.body, id) && !tc.filter
  }

  predicate TableFails(body: IfBody, f: Flow, bkt: int, id: int, tc: DelTc)
  {
    match Get(body.tables, Key(f))
    case None => false
    case Some(t) =>
      || BucketFails(t.body.bkts, bkt, id, tc)
      || (DelBucket(t.body.bkts, bkt, id) == [] && t.ref - 1 <= 0 && !tc.unlink)
  }

  /** The return code of `del_flow`. */
  function DelCode(ifs: seq<Interface>, f: Flow, handle: nat, lookup: nat, tc: DelTc): (rc: int)
  {
    if !KnownType(f) then -EPROTO
    else if lookup != 0 then 0 - lookup
    else
      match Get(ifs, f.ifId)
      case None => 0
      case Some(e) =>
        var (bkt, id) := (HandleBkt(handle), HandleId(handle));
        if TableFails(e.body, f, bkt, id, tc) || (DelTable(e.body, f, bkt, id).tables == [] && e.ref - 1 <= 0 && !tc.qdisc)
        then -EFAULT else 0
  }
}
