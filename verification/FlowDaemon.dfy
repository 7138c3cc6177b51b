/** tools/daemon/flow.c as it runs: the lists are walked and updated step by step, against the functions of FlowTree. */
module FlowDaemon {
  import opened KeyedLists
  import opened Bitmap
  import opened FlowHandles
  import opened FlowTree

  /** `get_node` */
  method GetNode(f: Flow, nodes: seq<Node>) returns (id: int, place: nat)
    ensures id == NodeId(f, nodes)
    ensures id > 0 ==> place == NodePlace(f, nodes)
  {
    id, place := 0, |nodes|;
    if f.typ == TCP_3T {
      id := (f.dstPort / 0xFF) % 0x100 + 1;
    } else if f.typ == TCP_5T {
      id := 1;
      if nodes != [] {
        if nodes[|nodes| - 1].id < MAX_ID {
          id := nodes[|nodes| - 1].id + 1;
        } else {
          var i := 0;
          while i < |nodes|
            invariant i <= |nodes| && id == i + 1 && place == |nodes|
            invariant forall j | 0 <= j < i :: nodes[j].id <= j + 1
          {
            if nodes[i].id > id {
              place := i;
              break;
            }
            id, i := id + 1, i + 1;
          }
          assert i == Gap(nodes, 0);
        }
      }
    }
    if 0 >= id || id > MAX_ID {
      id := -EINVAL;
    }
  }

  /** First half of `get_htid` */
  method GetKernelTable(slots: seq<Slot>, prio: int) returns (after: seq<Slot>, krn: int)
    ensures (after, krn) == KernelTable(slots, prio)
  {
    var freeIndex, freeId, i := -1, -1, 0;
    after, krn := slots, 0;
    while i < |slots|
      invariant i <= |slots| && krn == 0 && forall j | 0 <= j < i :: slots[j].prio != prio
      invariant freeIndex == LastFree(slots, i) && freeId == MaxId(slots, i)
    {
      if slots[i].prio == prio {
        krn := KERNEL_HT + slots[i].id;
        break;
      }
      if slots[i].prio == 0 {
        freeIndex := i;
      } else {
        freeId := if freeId < slots[i].id then slots[i].id else freeId;
      }
      i := i + 1;
    }
    assert i == FindPrio(slots, prio);
    if krn == 0 && 0 <= freeIndex {
      after := slots[freeIndex := Slot(prio, freeId + 1)];
      krn := KERNEL_HT + freeId + 1;
    }
  }

  /** Second half of `get_htid`, on the interface's bitmap. */
  method GetTableId(bits: seq<Word32>) returns (after: seq<Word32>, ht: int)
    ensures (after, ht) == TakeBit(bits)
  {
    var bm := new Bitmap.Of(bits);
    ht := bm.FindFirstZero();
    if ht >= 0 {
      bm.Set(ht);
    }
    after := bm.words[..];
  }

  /** `free_htid` */
  method FreeTableId(bits: seq<Word32>, ht: nat) returns (after: seq<Word32>)
    ensures after == FreeBit(bits, ht)
  {
    if ht / ITEM_SIZE >= |bits| {
      return bits;
    }
    var bm := new Bitmap.Of(bits);
    bm.Clear(ht);
    after := bm.words[..];
  }

  method FindNodeElem(nodes: seq<Node>, id: int) returns (i: nat)
    ensures i == FindNode(nodes, id)
  {
    i := 0;
    while i < |nodes| && nodes[i].id != id
      invariant i <= |nodes| && forall j | 0 <= j < i :: nodes[j].id != id
    {
      i := i + 1;
    }
  }

  class FlowDaemon {
    var ifs: seq<Interface>      // daemon_cfg.if_list

    /** `open_flow` */
    constructor ()
      ensures ifs == []
    {
      ifs := [];
    }

    /** The last part of `add_flow`: a node in the bucket. */
    static method InsertNode(nodes: seq<Node>, f: Flow, env: Env, ht: int, bkt: int) returns (r: Added<seq<Node>>)
      ensures r == AddNode(nodes, f, env, ht, bkt)
    {
      var id, place := GetNode(f, nodes);
      if id <= 0 {
        return Added(nodes, ht, bkt, id, 0);
      }
      if !env.nodeMem {
        return Added(nodes, ht, bkt, id, -ENOMEM);
      }
      if !env.filterTc {
        return Added(nodes, ht, bkt, id, -EFAULT);
      }
      r := Added(nodes[..place] + [Node(id, 1)] + nodes[place..], ht, bkt, id, 0);
    }

    static method ReferBucket(bkts: seq<Bucket>, f: Flow, env: Env, ht: int, id0: int) returns (r: Added<seq<Bucket>>)
      ensures r == AddBucket(bkts, f, env, ht, id0)
    {
      var b := Bkt(f);
      if b <= 0 {
        return Added(bkts, ht, b, id0, 0);
      }
      var i := FindElem(bkts, b);
      var list := bkts;
      if i == |bkts| {
        if !env.bktMem {
          return Added(bkts, ht, b, id0, -ENOMEM);
        }
        list := list + [Elem(b, 0, [])];
      }
      var n := InsertNode(list[i].body, f, env, ht, b);
      list := list[i := Elem(b, list[i].ref + 1, n.list)];
      assert list == Put(bkts, list[i]);
      r := Added(list, n.ht, n.bkt, n.id, n.rc);
    }

    static method ReferTable(body: IfBody, f: Flow, env: Env, ht0: int, bkt0: int, id0: int) returns (r: Added<IfBody>)
      ensures r == AddTable(body, f, env, ht0, bkt0, id0)
    {
      var i := FindElem(body.tables, Key(f));
      if i < |body.tables| {
        var t := body.tables[i];
        var n := ReferBucket(t.body.bkts, f, env, t.body.ht, id0);
        var after := body.(tables := body.tables[i := Elem(Key(f), t.ref + 1, t.body.(bkts := n.list))]);
        return Added(after, n.ht, n.bkt, n.id, n.rc);
      }
      if !env.tableMem {
        return Added(body, ht0, bkt0, id0, -ENOMEM);
      }
      var slots, krn := GetKernelTable(body.slots, f.typ);
      var bits, ht := GetTableId(body.bits);
      if !env.tableTc {
        return Added(IfBody(bits, slots, body.tables), ht, bkt0, id0, -EFAULT);
      }
      var n := ReferBucket([], f, env, ht, id0);
      var t: Table := Elem(Key(f), 1, TableBody(ht % 0x1_0000, krn % 0x1_0000, n.list));
      r := Added(IfBody(bits, slots, body.tables + [t]), n.ht, n.bkt, n.id, n.rc);
    }

    /** `add_flow` */
    method Add(f: Flow, handle: nat, env: Env) returns (rc: int, newHandle: nat)
      modifies this
      ensures AddResult(ifs, newHandle, rc) == AddFlow(old(ifs), f, handle, env)
    {
      var ht, bkt, id := HandleHt(handle), HandleBkt(handle), HandleId(handle);
      if !KnownType(f) {
        return -EPROTO, HandleSet(ht, bkt, id);
      }
      if env.lookup != 0 {
        return 0 - env.lookup, HandleSet(ht, bkt, id);
      }
      var i := FindElem(ifs, f.ifId);
      if i == |ifs| {
        if env.newIf != 0 {
          return 0 - env.newIf, HandleSet(ht, bkt, id);
        }
        ifs := ifs + [Elem(f.ifId, 0, NewIfBody())];
      }
      var n := ReferTable(ifs[i].body, f, env, ht, bkt, id);
      ifs := ifs[i := Elem(f.ifId, ifs[i].ref + 1, n.list)];
      assert ifs == Put(old(ifs), ifs[i]);
      return n.rc, HandleSet(n.ht, n.bkt, n.id);
    }

    static method DropNode(nodes: seq<Node>, id: int) returns (after: seq<Node>, dropped: bool)
      ensures after == DelNode(nodes, id) && dropped == DropsNode(nodes, id)
    {
      var i := FindNodeElem(nodes, id);
      after, dropped := nodes, false;
      if i < |nodes| {
        var ref := nodes[i].ref - 1;
        dropped := ref <= 0;
        after := if dropped then nodes[..i] + nodes[i + 1..] else nodes[i := Node(id, ref)];
      }
    }

    static method DropBucket(bkts: seq<Bucket>, bkt: int, id: int, tc: DelTc) returns (after: seq<Bucket>, rc: int)
      ensures after == DelBucket(bkts, bkt, id) && rc == if BucketFails(bkts, bkt, id, tc) then -EFAULT else 0
    {
      var i := FindElem(bkts, bkt);
      after, rc := bkts, 0;
      if i < |bkts| {
        var nodes, dropped := DropNode(bkts[i].body, id);
        if dropped && !tc.filter { rc := -EFAULT; }
        var ref := bkts[i].ref - 1;
        after := if nodes == [] && ref <= 0 then bkts[..i] + bkts[i + 1..] else bkts[i := Elem(bkt, ref, nodes)];
      }
    }

    static method DropTable(body: IfBody, f: Flow, bkt: int, id: int, tc: DelTc) returns (after: IfBody, rc: int)
      ensures after == DelTable(body, f, bkt, id) && rc == if TableFails(body, f, bkt, id, tc) then -EFAULT else 0
    {
      var tables := body.tables;
      var i := FindElem(tables, Key(f));
      after, rc := body, 0;
      if i < |tables| {
        var t := tables[i];
        var bkts;
        bkts, rc := DropBucket(t.body.bkts, bkt, id, tc);
        if bkts == [] && t.ref - 1 <= 0 {
          if !tc.unlink { rc := -EFAULT; }
          var bits := FreeTableId(body.bits, t.body.ht);
          after := body.(bits := bits, tables := tables[..i] + tables[i + 1..]);
        } else {
          after := body.(tables := tables[i := Elem(t.key, t.ref - 1, t.body.(bkts := bkts))]);
        }
      }
    }

    /** `del_flow` */
    method Del(f: Flow, handle: nat, lookup: nat, tc: DelTc) returns (rc: int)
      modifies this
      ensures ifs == DelFlow(old(ifs), f, handle, lookup) && rc == DelCode(old(ifs), f, handle, lookup, tc)
    {
      if !KnownType(f) {
        return -EPROTO;
      }
      if lookup != 0 {
        return 0 - lookup;
      }
      rc := 0;
      var i := FindElem(ifs, f.ifId);
      if i < |ifs| {
        var e := ifs[i];
        var body;
        body, rc := DropTable(e.body, f, HandleBkt(handle), HandleId(handle), tc);
        if body.tables == [] && e.ref - 1 <= 0 {
          if !tc.qdisc { rc := -EFAULT; }
          ifs := ifs[..i] + ifs[i + 1..];
        } else {
          ifs := ifs[i := Elem(f.ifId, e.ref - 1, body)];
        }
      }
    }
  }
}
