/**
 The buffer pool of src/vma/dev/buffer_pool.cpp: an intrusive free list threaded through
 `p_next_desc`, with a count of free buffers kept beside it.
 */
module BufferPool {
  import opened Options
  import opened BufferChain
  import opened Orbits

  ghost predicate NoDup<T>(s: seq<T>)
  {
    forall i, j | 0 <= i < j < |s| :: s[i] != s[j]
  }

  /** The NULL-terminated list starting at `start` visits exactly the nodes of s, in that order, none twice. */
  ghost predicate IsChain(start: MemBufDesc?, s: seq<MemBufDesc>)
    reads s
    decreases |s|
  {
    if s == [] then start == null
    else start == s[0] && s[0] !in s[1..] && IsChain(s[0].nextDesc, s[1..])
  }

  lemma {:induction false} ChainHasNoDup(start: MemBufDesc?, s: seq<MemBufDesc>)
    requires IsChain(start, s)
    ensures NoDup(s)
  {
    if s != [] {
      ChainHasNoDup(s[0].nextDesc, s[1..]);
      forall i, j | 0 <= i < j < |s|
        ensures s[i] != s[j]
      {
        assert s[j] == s[1..][j - 1];
        if i > 0 { assert s[i] == s[1..][i - 1]; }
      }
    }
  }

  function Reverse<T>(s: seq<T>): (r: seq<T>)
  {
    if s == [] then [] else [s[|s| - 1]] + Reverse(s[..|s| - 1])
  }

  /** Pushing the next item of a list reverses one more of it; the others stay to be pushed. */
  lemma ReverseStep<T>(items: seq<T>, n: nat, rest: seq<T>)
    requires n < |items|
    ensures [items[n]] + (Reverse(items[..n]) + rest) == Reverse(items[..n + 1]) + rest
    ensures items[n..][1..] == items[n + 1..]
  {
    assert items[..n + 1][..n] == items[..n];
  }

  /** The order in which a queue of chains, emptied from its back, ends up at the head of the free list. */
  function Returned<T>(chains: seq<seq<T>>): (r: seq<T>)
  {
    if chains == [] then [] else Reverse(chains[0]) + Returned(chains[1..])
  }

  function Singletons<T>(s: seq<T>): (r: seq<seq<T>>)
    ensures |r| == |s| && forall i | 0 <= i < |s| :: r[i] == [s[i]]
  {
    seq(|s|, i requires 0 <= i < |s| => [s[i]])
  }

  lemma ReturnOneMore<T>(left: seq<seq<T>>, items: seq<T>, done: seq<seq<T>>, rest: seq<T>)
    ensures (left + [items]) + done == left + ([items] + done)
    ensures Reverse(items) + (Returned(done) + rest) == Returned([items] + done) + rest
  {
    assert ([items] + done)[1..] == done;
  }

  /** Putting back, one by one, the buffers of one get rebuilds the very list they were taken from. */
  lemma {:induction false} PutUndoesGet<T>(free: seq<T>, count: nat)
    requires count <= |free|
    ensures Returned(Singletons(free[..count])) + free[count..] == free
  {
    SingletonsReturn(free[..count]);
    assert free[..count] + free[count..] == free;
  }

  lemma {:induction false} SingletonsReturn<T>(s: seq<T>)
    ensures Returned(Singletons(s)) == s
  {
    if s != [] {
      assert Singletons(s)[1..] == Singletons(s[1..]);
      SingletonsReturn(s[1..]);
      assert Reverse([s[0]]) == [s[0]];
      assert s == [s[0]] + s[1..];
    }
  }

  lemma {:induction false} NoDupFits<T>(s: seq<T>, all: set<T>)
    requires NoDup(s) && forall x | x in s :: x in all
    ensures |s| <= |all|
    ensures |set x | x in s| == |s|
  {
    var elems := set x | x in s;
    if s != [] {
      var rest := s[1..];
      forall x | x in rest
        ensures x in all - {s[0]}
      {
      }
      NoDupFits(rest, all - {s[0]});
      var tail := set x | x in rest;
      assert elems == tail + {s[0]};
      assert s[0] !in tail;
    }
  }

  class BufferPool {
    var head: MemBufDesc?          // m_p_head
    var nBuffers: nat              // m_n_buffers
    const nCreated: nat            // m_n_buffers_created
    var statSize: nat              // n_buffer_pool_size
    var statNoBufs: nat            // n_buffer_pool_no_bufs

    ghost var created: set<MemBufDesc>
    ghost var free: seq<MemBufDesc>   // the list from head, in order

    ghost predicate Linked()
      reads this, free
    {
      && IsChain(head, free)
      && |free| == nBuffers == statSize
      && forall d | d in free :: d in created
    }

    ghost predicate Valid()
      reads this, free
    {
      Linked() && |created| == nCreated
    }

    /** The buffers currently handed out. */
    ghost function Out(): (s: set<MemBufDesc>)
      reads this
    {
      created - Elems(free)
    }

    constructor (bufferCount: nat, owner: nat)
      ensures Valid() && nCreated == bufferCount == nBuffers && fresh(created)
      ensures Out() == {} && statNoBufs == 0
      ensures forall d | d in created :: d.owner == owner
    {
      head := null;
      nBuffers := 0;
      nCreated := bufferCount;
      statSize := 0;
      statNoBufs := 0;
      created := {};
      free := [];
      new;
      for i := 0 to bufferCount
        invariant Linked() && |created| == |free| == i
        invariant fresh(created) && statNoBufs == 0
        invariant forall d | d in created :: d in free && d.owner == owner
      {
        var desc := new MemBufDesc(owner);
        created := created + {desc};
        PutBufferHelper(desc);
      }
    }

    /** Push one buffer that is out onto the free list. */
    method PutBufferHelper(buff: MemBufDesc)
      requires Linked() && buff in created && buff !in free
      modifies this`head, this`nBuffers, this`statSize, this`free, buff
      ensures Linked() && free == [buff] + old(free)
      ensures buff.pbufRef == 0 && buff.pbufFlags == 0
      ensures buff.owner == old(buff.owner) && buff.lkey == old(buff.lkey)
    {
      buff.nextDesc := head;
      buff.pbufFlags := 0;
      buff.pbufRef := 0;
      head := buff;
      nBuffers := nBuffers + 1;
      statSize := statSize + 1;
      free := [buff] + free;
    }

    /** Take the first buffer of the list and stamp it with its new owner and key. */
    method PopHead(owner: nat, lkey: nat) returns (taken: MemBufDesc)
      requires IsChain(head, free) && free != []
      modifies this`head, this`free, free[0]
      ensures IsChain(head, free) && free == old(free)[1..]
      ensures taken == old(free)[0] && taken.nextDesc == null && taken.lkey == lkey && taken.owner == owner
    {
      taken := head;
      head := head.nextDesc;
      free := free[1..];
      taken.nextDesc := null;
      taken.lkey := lkey;
      taken.owner := owner;
    }

    /** The pop loop: the first `count` buffers move, in order, to the back of the queue. */
    method PopMany(queue: seq<MemBufDesc>, owner: nat, count: nat, lkey: nat) returns (queue': seq<MemBufDesc>)
      requires IsChain(head, free) && count <= |free|
      modifies this`head, this`free, free
      ensures IsChain(head, free) && free == old(free)[count..]
      ensures queue' == queue + old(free)[..count]
      ensures forall i | 0 <= i < count ::
                var d := old(free)[i]; d.nextDesc == null && d.lkey == lkey && d.owner == owner
      ensures forall i | count <= i < |old(free)| :: unchanged(old(free)[i])
    {
      queue' := queue;
      ghost var was := free;
      ChainHasNoDup(head, was);
      for n := 0 to count
        invariant IsChain(head, free) && free == was[n..]
        invariant queue' == queue + was[..n]
        invariant forall i | 0 <= i < n :: was[i].nextDesc == null && was[i].lkey == lkey && was[i].owner == owner
        invariant forall i | n <= i < |was| :: unchanged(was[i])
      {
        assert free[0] == was[n];
        var buff := PopHead(owner, lkey);
        queue' := queue' + [buff];
      }
    }

    /** All or nothing: either `count` buffers leave the head of the list, in order, or nothing changes. */
    method GetBuffers(queue: seq<MemBufDesc>, owner: nat, count: nat, lkey: nat)
      returns (ok: bool, queue': seq<MemBufDesc>)
      requires Valid()
      modifies this`head, this`nBuffers, this`statSize, this`statNoBufs, this`free, free
      ensures Valid()
      ensures ok <==> count <= |old(free)|
      ensures ok ==> queue' == queue + old(free)[..count] && free == old(free)[count..]
      ensures ok ==> forall i | 0 <= i < count ::
                       var d := old(free)[i]; d.nextDesc == null && d.lkey == lkey && d.owner == owner
      ensures !ok ==> queue' == queue && free == old(free) && head == old(head)
      ensures Out() == old(Out()) + Elems(queue'[|queue|..])
      ensures statNoBufs == old(statNoBufs) + if ok then 0 else 1
      ensures forall d | d in free :: unchanged(d)
    {
      GetMoves(head, free, created, if count <= |free| then count else 0);
      if nBuffers < count {
        statNoBufs := statNoBufs + 1;
        return false, queue;
      }
      nBuffers := nBuffers - count;
      statSize := statSize - count;
      queue' := PopMany(queue, owner, count, lkey);
      ok := true;
    }

    /** Return one NULL-terminated list of buffers that are out.  The count cannot pass the number created. */
    method PutBuffers(buffList: MemBufDesc?, ghost items: seq<MemBufDesc>)
      requires Valid() && IsChain(buffList, items)
      requires forall d | d in items :: d in created && d !in free
      modifies this`head, this`nBuffers, this`statSize, this`free, items
      ensures Valid() && free == Reverse(items) + old(free)
      ensures Out() == old(Out()) - Elems(items)
      ensures nBuffers <= nCreated
    {
      PutMoves(free, created, items);
      PutList(buffList, items);
      NeverTooMany();
      assert !(nBuffers > nCreated);  // so buffersPanic() is not called
    }

    /** The items from the n-th on are a list of buffers still out. */
    ghost predicate StillOut(cur: MemBufDesc?, items: seq<MemBufDesc>, n: nat)
      reads this, items
    {
      n <= |items| && IsChain(cur, items[n..]) && forall i | n <= i < |items| :: items[i] in created && items[i] !in free
    }

    method PutList(buffList: MemBufDesc?, ghost items: seq<MemBufDesc>)
      requires Linked() && IsChain(buffList, items)
      requires forall d | d in items :: d in created && d !in free
      modifies this`head, this`nBuffers, this`statSize, this`free, items
      ensures Linked() && free == Reverse(items) + old(free)
    {
      var cur := buffList;
      ghost var n := 0;
      assert items[0..] == items;
      while cur != null
        invariant Linked() && StillOut(cur, items, n) && free == Reverse(items[..n]) + old(free)
        decreases |items| - n
      {
        cur := PutFirst(cur, items, n);
        ReverseStep(items, n, old(free));
        n := n + 1;
      }
      assert items[..n] == items;
    }

    /** Return the first buffer of a list that is out, and go on to its next one. */
    method PutFirst(cur: MemBufDesc, ghost items: seq<MemBufDesc>, ghost n: nat) returns (next: MemBufDesc?)
      requires Linked() && StillOut(cur, items, n)
      modifies this`head, this`nBuffers, this`statSize, this`free, cur
      ensures n < |items| && cur == items[n] && Linked() && free == [cur] + old(free) && StillOut(next, items, n + 1)
    {
      assert cur == items[n] && items[n..][1..] == items[n + 1..];
      ChainHasNoDup(cur, items[n..]);
      assert forall i | n < i < |items| :: items[i] == items[n..][i - n] && items[i] != cur;
      next := cur.nextDesc;
      PutBufferHelper(cur);
    }

    /** A queue of lists that are all out, and a pool that can take them back. */
    ghost predicate CanTake(queue: seq<MemBufDesc>, chains: seq<seq<MemBufDesc>>)
      reads this, free, Members(chains)
    {
      && Valid() && ChainQueue(queue, chains)
      && Members(chains) <= created && forall d | d in free :: d !in Members(chains)
    }

    /** Pop the last entry of a queue and return the list it heads. */
    method PutLast(queue: seq<MemBufDesc>, ghost chains: seq<seq<MemBufDesc>>)
      returns (queue': seq<MemBufDesc>, ghost chains': seq<seq<MemBufDesc>>, ghost items: seq<MemBufDesc>)
      requires queue != [] && CanTake(queue, chains)
      modifies this`head, this`nBuffers, this`statSize, this`free, Members(chains)
      ensures CanTake(queue', chains')
      ensures queue == queue' + [queue[|queue| - 1]] && |chains'| == |queue'|
      ensures chains == chains' + [items] && Members(chains') <= Members(chains)
      ensures free == Reverse(items) + old(free)
    {
      var n := |queue| - 1;
      items, chains', queue' := chains[n], chains[..n], queue[..n];
      assert forall d | d in items :: d in Elems(items);
      PutBuffers(queue[n], items);
      ReverseHasSameElems(items);
    }

    /** Return up to `count` entries from the back of a queue; every entry heads a list of buffers that are out. */
    method PutQueue(queue: seq<MemBufDesc>, count: nat, ghost chains: seq<seq<MemBufDesc>>)
      returns (queue': seq<MemBufDesc>)
      requires CanTake(queue, chains)
      modifies this`head, this`nBuffers, this`statSize, this`free, Members(chains)
      ensures Valid() && nBuffers <= nCreated
      ensures |queue'| == (if count < |queue| then |queue| - count else 0) && queue' == queue[..|queue'|]
      ensures |chains| == |queue| && free == Returned(chains[|queue'|..]) + old(free)
      ensures Out() == old(Out()) - Elems(Returned(chains[|queue'|..]))
    {
      queue' := queue;
      var amount := if count < |queue| then count else |queue|;
      ghost var left: seq<seq<MemBufDesc>>, done: seq<seq<MemBufDesc>>, items: seq<MemBufDesc> := chains, [], [];
      while amount > 0
        invariant 0 <= amount <= |queue'| == |left|
        invariant |queue'| - amount == if count < |queue| then |queue| - count else 0
        invariant queue' <= queue && chains == left + done && Members(left) <= Members(chains)
        invariant CanTake(queue', left) && free == Returned(done) + old(free)
        decreases amount
      {
        queue', left, items := PutLast(queue', left);
        ReturnOneMore(left, items, done, old(free));
        done := [items] + done;
        amount := amount - 1;
      }
      assert done == chains[|left|..];
      NeverTooMany();
    }

    /** Free buffers and handed-out buffers together are exactly the buffers created. */
    lemma Conservation()
      requires Valid()
      ensures |Out()| + nBuffers == nCreated
      ensures NoDup(free)
    {
      ChainHasNoDup(head, free);
      NoDupFits(free, created);
      var elems := Elems(free);
      assert created == Out() + elems && Out() !! elems;
    }

    lemma NeverTooMany()
      requires Valid()
      ensures nBuffers <= nCreated
    {
      Conservation();
    }

    /** Pushing a buffer turns the free list into a circle if and only if it was free already. */
    lemma PutAgainMakesCircle(buff: MemBufDesc)
      requires Valid() && buff in created
      ensures Endless<MemBufDesc>(Pushed(Links(created), if head == null then None else Some(head), buff), buff) <==> buff in free
    {
      ChainLists(head, free, created);
      PushMakesCircleIff<MemBufDesc>(Links(created), if head == null then None else Some(head), free, buff);
    }

    /** The count passes the number created, so that buffersPanic is called and finds that circle, if and only if no buffer is
     out at the time; while one is out the circle goes unnoticed. */
    lemma CountNoticesIff()
      requires Valid()
      ensures nBuffers + 1 > nCreated <==> Out() == {}
    {
      Conservation();
    }

    /** The free list is never a circle: the diagnostics of buffersPanic would find none. */
    lemma FreeListEnds()
      requires Valid()
      ensures Closed(Elems(free))
      ensures head != null ==> !Endless<MemBufDesc>(Links(Elems(free)), head)
    {
      ChainEnds(head, free, Elems(free));
    }
  }

  /** What a get takes off the list is what is out in addition afterwards. */
  lemma GetMoves(head: MemBufDesc?, free: seq<MemBufDesc>, created: set<MemBufDesc>, count: nat)
    requires IsChain(head, free) && count <= |free| && forall d | d in free :: d in created
    ensures created - Elems(free[count..]) == (created - Elems(free)) + Elems(free[..count])
  {
    ChainHasNoDup(head, free);
    assert free == free[..count] + free[count..];
    forall d | d in free[..count]
      ensures d !in free[count..]
    {
      var i :| 0 <= i < count && free[i] == d;
      assert forall j | 0 <= j < |free[count..]| :: free[count..][j] == free[count + j];
    }
  }

  lemma PutMoves<T>(free: seq<T>, created: set<T>, items: seq<T>)
    ensures created - Elems(Reverse(items) + free) == (created - Elems(free)) - Elems(items)
  {
    ReverseHasSameElems(items);
  }

  /** A list in the heap, seen through its links. */
  lemma {:induction false} ChainLists(start: MemBufDesc?, s: seq<MemBufDesc>, nodes: set<MemBufDesc>)
    requires IsChain(start, s) && forall d | d in s :: d in nodes
    ensures Lists<MemBufDesc>(Links(nodes), if start == null then None else Some(start), s)
  {
    if s != [] { ChainLists(s[0].nextDesc, s[1..], nodes); }
  }

  /** All the buffers of a queue of lists. */
  ghost function Members(chains: seq<seq<MemBufDesc>>): (s: set<MemBufDesc>)
  {
    if chains == [] then {}
    else Members(chains[..|chains| - 1]) + Elems(chains[|chains| - 1])
  }

  ghost function Elems<T>(s: seq<T>): (r: set<T>)
  {
    set d | d in s
  }

  lemma {:induction false} ReverseHasSameElems<T>(s: seq<T>)
    ensures forall x :: x in Reverse(s) <==> x in s
  {
    if s != [] {
      ReverseHasSameElems(s[..|s| - 1]);
      assert s == s[..|s| - 1] + [s[|s| - 1]];
    }
  }

  /** Every entry of the queue heads a list; no buffer is in two lists. */
  ghost predicate ChainQueue(queue: seq<MemBufDesc>, chains: seq<seq<MemBufDesc>>)
    reads Members(chains)
    decreases |chains|
  {
    if chains == [] || queue == [] then chains == [] && queue == []
    else
      var n := |chains| - 1;
      && |queue| == |chains|
      && IsChain(queue[n], chains[n])
      && (forall d | d in chains[n] :: d !in Members(chains[..n]))
      && ChainQueue(queue[..n], chains[..n])
  }

  lemma {:induction false} ChainEnds(start: MemBufDesc?, s: seq<MemBufDesc>, nodes: set<MemBufDesc>)
    requires IsChain(start, s) && forall d | d in s :: d in nodes
    ensures forall d | d in s && d.nextDesc != null :: d.nextDesc in s
    ensures start != null ==> Walk<MemBufDesc>(Links(nodes), start, |s|).None?
  {
    if s != [] {
      assert s == [s[0]] + s[1..];
      ChainEnds(s[0].nextDesc, s[1..], nodes);
      if s[0].nextDesc != null {
        WalkFromNext(Links(nodes), s[0], s[0].nextDesc, |s| - 1);
      }
    }
  }

  lemma {:induction false} WalkFromNext(m: map<MemBufDesc, MemBufDesc>, x: MemBufDesc, y: MemBufDesc, k: nat)
    requires x in m && m[x] == y
    ensures Walk(m, x, k + 1) == Walk(m, y, k)
  {
    if k > 0 { WalkFromNext(m, x, y, k - 1); }
  }
}
