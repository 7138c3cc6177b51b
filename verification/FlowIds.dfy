/** The two id allocators of tools/daemon/flow.c: node ids within a bucket, and table ids within an interface. */
module FlowIds {
  import opened Options
  import opened KeyedLists
  import opened Bitmap
  import opened FlowHandles
  import opened FlowTree

  // ------------------------------------------------------------------ node ids

  function CountId(nodes: seq<Node>, id: int): (n: nat)
  {
    if nodes == [] then 0 else (if nodes[0].id == id then 1 else 0) + CountId(nodes[1..], id)
  }

  predicate Ascending(nodes: seq<Node>)
  {
    forall i, j | 0 <= i < j < |nodes| :: nodes[i].id < nodes[j].id
  }

  /** Every node is referenced once and has a legal id; the nodes of 5-tuple flows are in strictly ascending order. */
  predicate NodesOk(typ: int, nodes: seq<Node>)
  {
    && (forall i | 0 <= i < |nodes| :: nodes[i].ref == 1 && 1 <= nodes[i].id <= MAX_ID)
    && (typ == TCP_5T ==> Ascending(nodes))
  }

  lemma {:induction false} CountIdConcat(a: seq<Node>, b: seq<Node>, id: int)
    ensures CountId(a + b, id) == CountId(a, id) + CountId(b, id)
  {
    if a == [] {
      assert a + b == b;
    } else {
      CountIdConcat(a[1..], b, id);
      assert (a + b)[1..] == a[1..] + b;
    }
  }

  lemma {:induction false} CountIdIsMembership(nodes: seq<Node>, id: int)
    ensures CountId(nodes, id) > 0 <==> exists i :: 0 <= i < |nodes| && nodes[i].id == id
  {
    if nodes != [] {
      CountIdIsMembership(nodes[1..], id);
      if CountId(nodes[1..], id) > 0 {
        var i :| 0 <= i < |nodes[1..]| && nodes[1..][i].id == id;
        assert nodes[i + 1].id == id;
      }
      if i :| 0 < i < |nodes| && nodes[i].id == id {
        assert nodes[1..][i - 1].id == id;
      }
    }
  }

  lemma InsertCounts(nodes: seq<Node>, p: nat, id: int, n: int)
    requires p <= |nodes|
    ensures CountId(Insert(nodes, p, id), n) == CountId(nodes, n) + (if n == id then 1 else 0)
  {
    var a, b := nodes[..p], nodes[p..];
    assert nodes == a + b && Insert(nodes, p, id) == a + ([Node(id, 1)] + b);
    CountIdConcat(a, b, n);
    CountIdConcat(a, [Node(id, 1)] + b, n);
    CountIdConcat([Node(id, 1)], b, n);
  }

  lemma DelNodeCounts(typ: int, nodes: seq<Node>, id: int, n: int)
    requires NodesOk(typ, nodes) && CountId(nodes, id) > 0
    ensures CountId(DelNode(nodes, id), n) == CountId(nodes, n) - (if n == id then 1 else 0)
  {
    var i := FindNode(nodes, id);
    CountIdIsMembership(nodes, id);
    var a, b := nodes[..i], nodes[i + 1..];
    assert nodes == a + ([nodes[i]] + b);
    CountIdConcat(a, b, n);
    CountIdConcat(a, [nodes[i]] + b, n);
    CountIdConcat([nodes[i]], b, n);
  }

  lemma DelNodeKeepsOk(typ: int, nodes: seq<Node>, id: int)
    requires NodesOk(typ, nodes)
    ensures NodesOk(typ, DelNode(nodes, id))
  {
  }

  /** In ascending order the id at place i is at least i + 1. */
  lemma {:induction false} AscendingIds(nodes: seq<Node>, i: nat)
    requires NodesOk(TCP_5T, nodes) && i < |nodes|
    ensures nodes[i].id >= i + 1
  {
    if i > 0 {
      AscendingIds(nodes, i - 1);
      assert nodes[i - 1].id < nodes[i].id;
    }
  }

  /** The nodes before the first gap hold exactly the ids 1, 2, ... */
  lemma BeforeGap(nodes: seq<Node>, j: nat)
    requires NodesOk(TCP_5T, nodes) && j < Gap(nodes, 0)
    ensures nodes[j].id == j + 1
  {
    AscendingIds(nodes, j);
  }

  lemma TailBound(nodes: seq<Node>, j: nat)
    requires NodesOk(TCP_5T, nodes) && j < |nodes|
    ensures nodes[j].id <= nodes[|nodes| - 1].id
  {
  }

  /** Everything before the insertion place has a smaller id and everything after it a larger one. */
  lemma PlaceSeparates(f: Flow, nodes: seq<Node>, j: nat)
    requires f.typ == TCP_5T && NodesOk(TCP_5T, nodes) && j < |nodes|
    ensures j < NodePlace(f, nodes) ==> nodes[j].id < RawId(f, nodes)
    ensures j >= NodePlace(f, nodes) ==> nodes[j].id > RawId(f, nodes)
  {
    TailBound(nodes, j);
    if TailIsFull(nodes) {
      var g := Gap(nodes, 0);
      if j < g {
        BeforeGap(nodes, j);
      } else if j > g {
        assert nodes[g].id < nodes[j].id;
      }
    }
  }

  /** `get_node` gives a 5-tuple flow an id that is not in use, and a place that keeps the bucket in order. */
  lemma NodeIdIsFresh(f: Flow, nodes: seq<Node>)
    requires f.typ == TCP_5T && NodesOk(TCP_5T, nodes) && NodeId(f, nodes) > 0
    ensures CountId(nodes, NodeId(f, nodes)) == 0
    ensures NodesOk(TCP_5T, Insert(nodes, NodePlace(f, nodes), NodeId(f, nodes)))
  {
    var p, id := NodePlace(f, nodes), NodeId(f, nodes);
    forall j | 0 <= j < |nodes|
      ensures if j < p then nodes[j].id < id else nodes[j].id > id
    {
      PlaceSeparates(f, nodes, j);
    }
    CountIdIsMembership(nodes, id);
    InsertAscending(nodes, p, id);
  }

  lemma InsertAscending(nodes: seq<Node>, p: nat, id: int)
    requires NodesOk(TCP_5T, nodes) && p <= |nodes| && 1 <= id <= MAX_ID
    requires forall j | 0 <= j < |nodes| :: if j < p then nodes[j].id < id else nodes[j].id > id
    ensures NodesOk(TCP_5T, Insert(nodes, p, id))
  {
    var r := Insert(nodes, p, id);
    forall i | 0 <= i < |r|
      ensures r[i] == if i < p then nodes[i] else if i == p then Node(id, 1) else nodes[i - 1]
    {
    }
  }

  /** `get_node` fails for a 5-tuple flow exactly when all 4095 ids are taken. */
  lemma NodeIdFailsIffFull(f: Flow, nodes: seq<Node>)
    requires f.typ == TCP_5T && NodesOk(TCP_5T, nodes)
    ensures NodeId(f, nodes) <= 0 <==> forall n | 1 <= n <= MAX_ID :: CountId(nodes, n) > 0
  {
    if NodeId(f, nodes) > 0 {
      NodeIdIsFresh(f, nodes);
    } else {
      var g := Gap(nodes, 0);
      assert TailIsFull(nodes) && g >= MAX_ID;
      forall n | 1 <= n <= MAX_ID
        ensures CountId(nodes, n) > 0
      {
        BeforeGap(nodes, n - 1);
        CountIdIsMembership(nodes, n);
      }
    }
  }

  /** A 5-tuple flow gets the id after the largest one, and once that is the last, the smallest free one. */
  lemma FiveTupleId(f: Flow, nodes: seq<Node>)
    requires f.typ == TCP_5T && NodesOk(TCP_5T, nodes) && NodeId(f, nodes) > 0
    ensures var id := NodeId(f, nodes);
            if nodes == [] then id == 1
            else if nodes[|nodes| - 1].id < MAX_ID then id == nodes[|nodes| - 1].id + 1
            else CountId(nodes, id) == 0 && forall n | 1 <= n < id :: CountId(nodes, n) > 0
  {
    if TailIsFull(nodes) {
      NodeIdIsFresh(f, nodes);
      forall n | 1 <= n < NodeId(f, nodes)
        ensures CountId(nodes, n) > 0
      {
        BeforeGap(nodes, n - 1);
        CountIdIsMembership(nodes, n);
      }
    }
  }

  /** A 3-tuple flow always gets an id, which depends on the port alone. */
  lemma ThreeTupleId(f: Flow, nodes: seq<Node>)
    requires f.typ == TCP_3T
    ensures 1 <= NodeId(f, nodes) <= 0x100 && NodeId(f, nodes) == NodeId(f, [])
  {
  }

  /** Two 3-tuple flows of one bucket share a node id exactly when their ports are equal or 0xFF00 apart. */
  lemma ThreeTupleIdsCollide(f: Flow, g: Flow)
    requires f.typ == TCP_3T && g.typ == TCP_3T && Bkt(f) == Bkt(g) && f.dstPort <= g.dstPort < 0x1_0000
    ensures NodeId(f, []) == NodeId(g, []) <==> f.dstPort == g.dstPort || g.dstPort == f.dstPort + 0xFF00
  {
    var a, c, b := f.dstPort / 0x100, g.dstPort / 0x100, f.dstPort % 0x100;
    PortId(f.dstPort, a, b);
    PortId(g.dstPort, c, b);
    PortIdsCollide(a, c, b);
  }

  lemma PortIdsCollide(a: nat, c: nat, b: nat)
    requires a <= c < 0x100 && b < 0x100
    ensures Quotient(a, b) % 0x100 == Quotient(c, b) % 0x100 <==> a == c || c == a + 0xFF
  {
  }

  /** A port 0x100 * a + b divided by 0xFF. */
  function Quotient(a: nat, b: nat): (r: nat) { a + (if a + b >= 510 then 2 else if a + b >= 255 then 1 else 0) }

  lemma PortId(port: nat, a: nat, b: nat)
    requires port == 0x100 * a + b && a < 0x100 && b < 0x100
    ensures port / 0xFF == Quotient(a, b)
  {
  }

  /** Flows that share interface, table, bucket and node id are one to del_flow. */
  lemma SharedIdDeletesAlike(ifs: seq<Interface>, f: Flow, g: Flow, hf: nat, hg: nat, lookup: nat)
    requires f.ifId == g.ifId && Key(f) == Key(g) && HandleBkt(hf) == HandleBkt(hg) && HandleId(hf) == HandleId(hg)
    ensures DelFlow(ifs, f, hf, lookup) == DelFlow(ifs, g, hg, lookup)
  {
  }

  lemma InsertKeepsOk(f: Flow, nodes: seq<Node>)
    requires KnownType(f) && NodesOk(f.typ, nodes) && NodeId(f, nodes) > 0
    ensures NodesOk(f.typ, Insert(nodes, NodePlace(f, nodes), NodeId(f, nodes)))
  {
    if f.typ == TCP_5T { NodeIdIsFresh(f, nodes); }
  }

  // ------------------------------------------------------------------ kernel tables

  /** How many of the first n slots are in use. */
  function Used(slots: seq<Slot>, n: nat): (u: nat)
    requires n <= |slots|
    ensures u <= n
  {
    if n == 0 then 0 else Used(slots, n - 1) + (if slots[n - 1].prio != 0 then 1 else 0)
  }

  /** Priorities and ids are not shared between slots, and the ids are below the number of slots in use. */
  predicate SlotsOk(slots: seq<Slot>)
  {
    && |slots| == 4
    && (forall i | 0 <= i < 4 && slots[i].prio != 0 :: slots[i].id >= 0 && (slots[i].prio == TCP_3T || slots[i].prio == TCP_5T))
    && (forall i, j | 0 <= i < j < 4 && slots[i].prio != 0 && slots[j].prio != 0 ::
          slots[i].prio != slots[j].prio && slots[i].id != slots[j].id)
    && MaxId(slots, 4) < Used(slots, 4)
  }

  lemma {:induction false} TakeSlot(slots: seq<Slot>, k: nat, s: Slot, n: nat)
    requires k < |slots| && n <= |slots| && slots[k].prio == 0 && s.prio != 0 && s.id > MaxId(slots, n)
    ensures MaxId(slots[k := s], n) == if k < n then s.id else MaxId(slots, n)
    ensures Used(slots[k := s], n) == Used(slots, n) + (if k < n then 1 else 0)
  {
    if n > 0 { TakeSlot(slots, k, s, n - 1); }
  }

  /** With two priorities there is always a slot. */
  lemma SlotExists(slots: seq<Slot>, prio: int)
    requires SlotsOk(slots) && (prio == TCP_3T || prio == TCP_5T)
    ensures FindPrio(slots, prio) < 4 || LastFree(slots, 4) >= 0
  {
  }

  /** No other priority's kernel table changes, krn belongs to the priority, and it fits the 16 bits it is stored in. */
  predicate Allotted(slots: seq<Slot>, prio: int, after: seq<Slot>, krn: int)
  {
    && SlotsOk(after) && (forall s | s in slots && s.prio != 0 :: s in after)
    && Slot(prio, krn - KERNEL_HT) in after && KERNEL_HT <= krn < KERNEL_HT + 4
  }

  /** Looking up or creating the kernel table of a priority. */
  lemma KernelTableKeeps(slots: seq<Slot>, prio: int)
    requires SlotsOk(slots) && (prio == TCP_3T || prio == TCP_5T)
    ensures Allotted(slots, prio, KernelTable(slots, prio).0, KernelTable(slots, prio).1)
  {
    KernelTableIs(slots, prio);
    var i := FindPrio(slots, prio);
    if i < 4 {
      OwnSlot(slots, i);
    } else {
      TakeFreeSlot(slots, prio);
    }
  }

  lemma KernelTableIs(slots: seq<Slot>, prio: int)
    requires SlotsOk(slots) && (prio == TCP_3T || prio == TCP_5T)
    ensures var i := FindPrio(slots, prio);
            if i < 4 then KernelTable(slots, prio) == (slots, KERNEL_HT + slots[i].id)
            else
              var s := Slot(prio, MaxId(slots, 4) + 1);
              LastFree(slots, 4) >= 0 && KernelTable(slots, prio) == (slots[LastFree(slots, 4) := s], KERNEL_HT + s.id)
  {
    SlotExists(slots, prio);
  }

  lemma OwnSlot(slots: seq<Slot>, i: nat)
    requires SlotsOk(slots) && i < 4 && slots[i].prio != 0
    ensures Allotted(slots, slots[i].prio, slots, KERNEL_HT + slots[i].id)
  {
    assert slots[i] == Slot(slots[i].prio, slots[i].id);
  }

  lemma TakeFreeSlot(slots: seq<Slot>, prio: int)
    requires SlotsOk(slots) && (prio == TCP_3T || prio == TCP_5T)
    requires FindPrio(slots, prio) == 4 && LastFree(slots, 4) >= 0
    ensures var s := Slot(prio, MaxId(slots, 4) + 1);
            Allotted(slots, prio, slots[LastFree(slots, 4) := s], KERNEL_HT + s.id)
  {
    var k := LastFree(slots, 4);
    var s := Slot(prio, MaxId(slots, 4) + 1);
    var after := slots[k := s];
    TakeSlot(slots, k, s, 4);
    assert after[k] == s;
    forall x | x in slots && x.prio != 0
      ensures x in after
    {
      var j :| 0 <= j < |slots| && slots[j] == x;
      assert after[j] == x;
    }
  }

  // ------------------------------------------------------------------ hash tables

  ghost predicate HtUsed(tables: seq<Table>, n: nat)
  {
    exists t :: t in tables && t.body.ht == n
  }

  /** The bitmap holds exactly bit 0 and the ids of the tables, which are distinct and below KERNEL_HT; every table
   is linked from the kernel table of its priority. */
  ghost predicate IdsOk(body: IfBody)
  {
    && |body.bits| == 64 && SlotsOk(body.slots) && Distinct(body.tables)
    && (forall n: nat :: IsSet(body.bits, n) <==> n == 0 || HtUsed(body.tables, n))
    && (forall t | t in body.tables :: Linked(body.slots, t))
    && (forall s, t | s in body.tables && t in body.tables && s.body.ht == t.body.ht :: s.key == t.key)
  }

  predicate Linked(slots: seq<Slot>, t: Table)
  {
    1 <= t.body.ht < KERNEL_HT && Slot(t.key.typ, t.body.krn - KERNEL_HT) in slots && t.key.typ != 0
  }

  lemma NewIfBodyOk()
    ensures IdsOk(NewIfBody()) && NewIfBody().tables == []
  {
    var body := NewIfBody();
    var zeros: seq<Word32> := seq(64, _ => 0);
    forall n: nat
      ensures !IsSet(zeros, n)
    {
      Bits.ZeroHasNoBits(n % ITEM_SIZE);
    }
    FreshSlots(body.slots, 4);
  }

  lemma {:induction false} FreshSlots(slots: seq<Slot>, n: nat)
    requires n <= |slots| && forall i | 0 <= i < n :: slots[i].prio == 0
    ensures MaxId(slots, n) == -1 && Used(slots, n) == 0
  {
    if n > 0 { FreshSlots(slots, n - 1); }
  }

  /** Every linked table's id has its bit, so clearing it stays within the words. */
  lemma LinkedIdHasBit(body: IfBody, t: Table)
    requires IdsOk(body) && t in body.tables
    ensures t.body.ht / ITEM_SIZE < |body.bits|
  {
    assert Linked(body.slots, t);
  }

  /** A new table's id has a bit exactly when one was left; otherwise it is 0xFFFF, outside the 64 words. */
  lemma NewIdHasBitIff(body: IfBody, f: Flow)
    requires |body.bits| == 64
    ensures NewTable(body, f).body.ht / ITEM_SIZE < |body.bits| <==> TakeBit(body.bits).1 >= 0
    ensures TakeBit(body.bits).1 < 0 ==> NewTable(body, f).body.ht == 0xFFFF
  {
  }

  /** The interface gives a clear bit and a kernel table to t and changes nothing else. */
  ghost predicate Takes(body: IfBody, taken: IfBody, t: Table)
  {
    && |taken.bits| == 64 && !IsSet(body.bits, t.body.ht) && 1 <= t.body.ht < KERNEL_HT && t.key.typ != 0
    && (forall n: nat :: IsSet(taken.bits, n) <==> IsSet(body.bits, n) || n == t.body.ht)
    && Allotted(body.slots, t.key.typ, taken.slots, t.body.krn)
  }

  lemma TakeIdsTakes(body: IfBody, f: Flow)
    requires IdsOk(body) && KnownType(f) && TakeBit(body.bits).1 >= 0
    ensures Takes(body, TakeIds(body, f), NewTable(body, f)) && NewTable(body, f).body.ht == TakeBit(body.bits).1
  {
    KernelTableKeeps(body.slots, f.typ);
    assert IsSet(body.bits, 0);
    TakeBitKeeps(body.bits);
    var krn := KernelTable(body.slots, f.typ).1;
    assert krn % 0x1_0000 == krn;
  }

  lemma TakeBitKeeps(bits: seq<Word32>)
    requires |bits| == 64 && IsSet(bits, 0) && TakeBit(bits).1 >= 0
    ensures 1 <= TakeBit(bits).1 < KERNEL_HT && TakeBit(bits).1 % 0x1_0000 == TakeBit(bits).1
    ensures !IsSet(bits, TakeBit(bits).1) && |TakeBit(bits).0| == 64
    ensures forall n: nat :: IsSet(TakeBit(bits).0, n) <==> IsSet(bits, n) || n == TakeBit(bits).1
  {
  }

  /** Linking one more table under a free id keeps the ids in order. */
  lemma LinkTable(body: IfBody, taken: IfBody, t: Table)
    requires IdsOk(body) && Get(body.tables, t.key).None? && taken.tables == body.tables
    requires Takes(body, taken, t)
    ensures IdsOk(taken.(tables := Put(body.tables, t)))
  {
    var tables := Put(body.tables, t);
    PutKeepsDistinct(body.tables, t);
    GetIsMember(body.tables, t.key);
    forall x
      ensures x in tables <==> x == t || x in body.tables
    {
      PutMembers(body.tables, t, x);
    }
    assert t in tables && !HtUsed(body.tables, t.body.ht);
    forall m: nat
      ensures HtUsed(tables, m) <==> HtUsed(body.tables, m) || m == t.body.ht
    {
    }
  }

  /** Changing a linked table's references or buckets does not touch the ids. */
  lemma UpdateTableKeepsIds(body: IfBody, t: Table, was: Table)
    requires IdsOk(body) && Get(body.tables, t.key) == Some(was)
    requires t.body.ht == was.body.ht && t.body.krn == was.body.krn
    ensures IdsOk(body.(tables := Put(body.tables, t)))
  {
    var after := body.(tables := Put(body.tables, t));
    PutKeepsDistinct(body.tables, t);
    GetIsMember(body.tables, t.key);
    forall x
      ensures x in after.tables <==> x == t || (x in body.tables && x != was)
    {
      PutMembers(body.tables, t, x);
      if x in body.tables { MemberIsGet(body.tables, x); }
    }
    assert t in after.tables;
    forall m: nat
      ensures HtUsed(after.tables, m) <==> HtUsed(body.tables, m)
    {
      if HtUsed(body.tables, m) {
        var x :| x in body.tables && x.body.ht == m;
        assert (if x == was then t else x) in after.tables;
      }
    }
  }

  /** Unlinking a table frees its id and no other. */
  lemma DropTableKeepsIds(body: IfBody, was: Table)
    requires IdsOk(body) && was in body.tables
    ensures IdsOk(body.(bits := FreeBit(body.bits, was.body.ht), tables := Del(body.tables, was.key)))
  {
    var after := body.(bits := FreeBit(body.bits, was.body.ht), tables := Del(body.tables, was.key));
    DelKeepsDistinct(body.tables, was.key);
    forall x
      ensures x in after.tables <==> x in body.tables && x != was
    {
      DelMembers(body.tables, was.key, x);
      if x in body.tables { MemberIsGet(body.tables, x); MemberIsGet(body.tables, was); }
    }
    assert Linked(body.slots, was);
    forall m: nat
      ensures HtUsed(after.tables, m) <==> HtUsed(body.tables, m) && m != was.body.ht
    {
      if HtUsed(body.tables, m) && m != was.body.ht {
        var x :| x in body.tables && x.body.ht == m;
        assert x in after.tables;
      }
    }
  }
}
