/**
 Chains of buffer descriptors and the cycle diagnostics of src/vma/dev/buffer_pool.cpp:
 `isCircle` and `Floyd_LogCircleInfo`.
 */
module BufferChain {
  import opened Options
  import opened Orbits

  /** The part of `mem_buf_desc_t` that the pools and queues use. */
  class MemBufDesc {
    var nextDesc: MemBufDesc?   // p_next_desc
    var lkey: nat
    var owner: nat              // identity of p_desc_owner
    var pbufRef: nat            // lwip_pbuf.pbuf.ref
    var pbufFlags: nat          // lwip_pbuf.pbuf.flags

    constructor (owner: nat)
      ensures nextDesc == null && lkey == 0 && this.owner == owner && pbufRef == 0 && pbufFlags == 0
    {
      nextDesc := null;
      lkey := 0;
      this.owner := owner;
      pbufRef := 0;
      pbufFlags := 0;
    }
  }

  const MAX_STEPS: nat := 0x100_0000  // 1 << 24

  /** No link leaves the set. */
  ghost predicate Closed(nodes: set<MemBufDesc>)
    reads nodes
  {
    forall d | d in nodes && d.nextDesc != null :: d.nextDesc in nodes
  }

  /** The non-NULL links of the nodes, as a value. */
  ghost function Links(nodes: set<MemBufDesc>): (m: map<MemBufDesc, MemBufDesc>)
    reads nodes
  {
    map d | d in nodes && d.nextDesc != null :: d.nextDesc
  }

  /** True exactly when the chain from `node` never reaches NULL. */
  method IsCircle(node: MemBufDesc?, ghost nodes: set<MemBufDesc>) returns (circle: bool)
    requires Closed(nodes) && (node != null ==> node in nodes)
    ensures circle <==> node != null && Endless<MemBufDesc>(Links(nodes), node)
  {
    if node == null { return false; }

    ghost var m: map<MemBufDesc, MemBufDesc> := Links(nodes);
    ghost var x: MemBufDesc := node;
    ghost var last := CatchUpBound(m, x);
    var p1: MemBufDesc, p2: MemBufDesc := node, node;
    ghost var n: nat := 0;
    while p2.nextDesc != null && p2.nextDesc.nextDesc != null
      invariant p1 in nodes && p2 in nodes
      invariant Walk(m, x, n) == Some(p1) && Walk(m, x, 2 * n) == Some(p2)
      invariant forall k: nat | 1 <= k <= n :: Walk(m, x, k) != Walk(m, x, 2 * k)
      invariant n <= last
      decreases last - n
    {
      assert Walk(m, x, 2 * n + 1) == Some(p2.nextDesc);
      assert Walk(m, x, 2 * n + 2) == Some(p2.nextDesc.nextDesc);
      if p1.nextDesc == null {
        assert Walk(m, x, n + 1).None?;
        NoneIsFinal(m, x, n + 1, 2 * n + 2);
      }
      p1 := p1.nextDesc;
      p2 := p2.nextDesc.nextDesc;
      n := n + 1;
      assert 2 * n == 2 * (n - 1) + 2;
      if p1 == p2 {
        RepeatMeansEndless(m, x, n, 2 * n);
        return true;
      }
    }
    assert Walk(m, x, 2 * n + 2).None?;
    return false;
  }

  /** After `last` steps, at most one more than there are links, the hare has met the tortoise or run into NULL. */
  lemma CatchUpBound(m: map<MemBufDesc, MemBufDesc>, node: MemBufDesc) returns (last: nat)
    ensures 1 <= last <= |m| + 1
    ensures Walk(m, node, last).None? || Walk(m, node, last) == Walk(m, node, 2 * last)
  {
    if Endless(m, node) {
      var mu, lambda := EndlessHasShape(m, node);
      last := MeetingPoint(m, node, mu, lambda);
    } else {
      var mu, lambda;
      last, mu, lambda := EndsOrRepeats(m, node, 0, map[]);
      if last == 0 { RepeatMeansEndless(m, node, mu, mu + lambda); }
    }
  }

  /** What the two capped counting loops report for a chain of shape (mu, lambda). */
  function Reported(mu: nat, lambda: nat): (r: (nat, nat))
  {
    var capped := MAX_STEPS + 1;
    if mu > capped then (capped, capped)
    else (mu, if lambda > capped then capped else lambda)
  }

  /** First loop: the hare, twice as fast, comes to stand on the tortoise. */
  method TortoiseMeetsHare(x0: MemBufDesc, ghost nodes: set<MemBufDesc>, ghost first: nat, ghost period: nat)
    returns (tortoise: MemBufDesc, ghost t: nat)
    requires Closed(nodes) && x0 in nodes && Endless(Links(nodes), x0)
    requires RhoShape(Links(nodes), x0, first, period)
    ensures tortoise in nodes && Walk(Links(nodes), x0, t) == Some(tortoise)
    ensures t >= 1 && first <= t && t % period == 0
  {
    ghost var m := Links(nodes);
    ghost var last := MeetingPoint(m, x0, first, period);
    StepsExist(m, x0, 0);
    StepsExist(m, x0, 1);
    tortoise := x0.nextDesc;
    var hare: MemBufDesc := x0.nextDesc.nextDesc;
    t := 1;
    while tortoise != hare
      invariant tortoise in nodes && hare in nodes
      invariant 1 <= t <= last
      invariant Walk(m, x0, t) == Some(tortoise) && Walk(m, x0, 2 * t) == Some(hare)
      decreases last - t
    {
      StepsExist(m, x0, t);
      StepsExist(m, x0, 2 * t);
      StepsExist(m, x0, 2 * t + 1);
      tortoise := tortoise.nextDesc;
      hare := hare.nextDesc.nextDesc;
      t := t + 1;
      assert 2 * t == 2 * (t - 1) + 1 + 1;
    }
    assert 2 * t - t == t;
  }

  /** Second loop: two walkers at the same speed, t links apart, first meet where the cycle begins. */
  method FindMu(x0: MemBufDesc, meeting: MemBufDesc, ghost nodes: set<MemBufDesc>, ghost first: nat, ghost period: nat,
                ghost t: nat) returns (tortoise: MemBufDesc, mu: nat)
    requires Closed(nodes) && x0 in nodes && Endless(Links(nodes), x0)
    requires RhoShape(Links(nodes), x0, first, period)
    requires meeting in nodes && Walk(Links(nodes), x0, t) == Some(meeting)
    requires t >= 1 && t % period == 0
    ensures mu == if first > MAX_STEPS + 1 then MAX_STEPS + 1 else first
    ensures tortoise in nodes && Walk(Links(nodes), x0, mu) == Some(tortoise)
  {
    ghost var m := Links(nodes);
    mu := 0;
    var hare := meeting;
    tortoise := x0;
    while tortoise != hare
      invariant tortoise in nodes && hare in nodes
      invariant Walk(m, x0, mu) == Some(tortoise) && Walk(m, x0, t + mu) == Some(hare)
      invariant mu <= first && mu <= MAX_STEPS
      decreases first - mu
    {
      assert (t + mu - mu) % period == 0;
      StepsExist(m, x0, mu);
      StepsExist(m, x0, t + mu);
      assert t + mu + 1 == t + (mu + 1);
      tortoise := tortoise.nextDesc;
      hare := hare.nextDesc;
      mu := mu + 1;
      if mu > MAX_STEPS { break; }
    }
  }

  /** Third loop: from the node at index mu, count the links back to it. */
  method FindLambda(x0: MemBufDesc, tortoise: MemBufDesc, ghost nodes: set<MemBufDesc>, ghost first: nat, ghost period: nat,
                    ghost mu: nat) returns (lambda: nat)
    requires Closed(nodes) && x0 in nodes && Endless(Links(nodes), x0)
    requires RhoShape(Links(nodes), x0, first, period) && mu <= first
    requires tortoise in nodes && Walk(Links(nodes), x0, mu) == Some(tortoise)
    ensures lambda == if mu < first || period > MAX_STEPS + 1 then MAX_STEPS + 1 else period
  {
    ghost var m := Links(nodes);
    lambda := 1;
    StepsExist(m, x0, mu);
    var hare := tortoise.nextDesc;
    while tortoise != hare
      invariant hare in nodes
      invariant Walk(m, x0, mu) == Some(tortoise) && Walk(m, x0, mu + lambda) == Some(hare)
      invariant 1 <= lambda <= MAX_STEPS
      invariant mu == first ==> lambda <= period
      decreases MAX_STEPS - lambda
    {
      ReturnsAfterPeriod(m, x0, first, period);
      StepsExist(m, x0, mu + lambda);
      assert mu + lambda + 1 == mu + (lambda + 1);
      hare := hare.nextDesc;
      lambda := lambda + 1;
      if lambda > MAX_STEPS { break; }
    }
    if tortoise == hare {
      assert first <= mu && (mu + lambda - mu) % period == 0;
      if lambda < period { Arith.DivModUnique(lambda, period, 0, lambda); }
    }
  }

  /**
   `Floyd_LogCircleInfo`.  Its loops end on every endless chain, and the two numbers logged are the
   least first index on the cycle and the least period, up to the safety cap.
   */
  method FloydCircleInfo(x0: MemBufDesc, ghost nodes: set<MemBufDesc>) returns (mu: nat, lambda: nat)
    requires Closed(nodes) && x0 in nodes && Endless(Links(nodes), x0)
    ensures exists first: nat, period: nat ::
              && IsFirstOnCycle(Links(nodes), x0, first) && IsLeastPeriod(Links(nodes), x0, first, period)
              && (mu, lambda) == Reported(first, period)
  {
    ghost var first, period := EndlessHasShape(Links(nodes), x0);
    var meeting, t := TortoiseMeetsHare(x0, nodes, first, period);
    var start: MemBufDesc;
    start, mu := FindMu(x0, meeting, nodes, first, period, t);
    lambda := FindLambda(x0, start, nodes, first, period, mu);
    assert (mu, lambda) == Reported(first, period);
  }

  /** The diagnosis of `buffersPanic`: no circle, or the reported first index and length of the circle. */
  method BuffersPanic(head: MemBufDesc?, ghost nodes: set<MemBufDesc>) returns (info: Option<(nat, nat)>)
    requires Closed(nodes) && (head != null ==> head in nodes)
    ensures info.Some? <==> head != null && Endless<MemBufDesc>(Links(nodes), head)
    ensures info.Some? ==> exists first: nat, period: nat ::
              && IsFirstOnCycle<MemBufDesc>(Links(nodes), head, first)
              && IsLeastPeriod<MemBufDesc>(Links(nodes), head, first, period)
              && info.value == Reported(first, period)
  {
    var circle := IsCircle(head, nodes);
    if circle {
      var x0: MemBufDesc := head;
      var mu, lambda := FloydCircleInfo(x0, nodes);
      info := Some((mu, lambda));
    } else {
      info := None;
    }
  }

  /** Below the cap the diagnostics are exact: whatever the least index and least period are, they are logged. */
  lemma ReportedIsExact(m: map<MemBufDesc, MemBufDesc>, x0: MemBufDesc, mu: nat, lambda: nat, first: nat, period: nat)
    requires Endless(m, x0)
    requires exists f: nat, p: nat :: IsFirstOnCycle(m, x0, f) && IsLeastPeriod(m, x0, f, p) && (mu, lambda) == Reported(f, p)
    requires IsFirstOnCycle(m, x0, first) && IsLeastPeriod(m, x0, first, period)
    ensures mu == first && lambda == period <==> first <= MAX_STEPS + 1 && period <= MAX_STEPS + 1
  {
    var f: nat, p: nat :| IsFirstOnCycle(m, x0, f) && IsLeastPeriod(m, x0, f, p) && (mu, lambda) == Reported(f, p);
    var a, b := EndlessHasShape(m, x0);
    ShapeIsUnique(m, x0, a, b, f, p);
    ShapeIsUnique(m, x0, a, b, first, period);
  }

  lemma ReturnsAfterPeriod(m: map<MemBufDesc, MemBufDesc>, x0: MemBufDesc, first: nat, period: nat)
    requires RhoShape(m, x0, first, period)
    ensures Walk(m, x0, first) == Walk(m, x0, first + period)
  {
    Arith.DivModUnique(period, period, 1, 0);
    assert (first + period - first) % period == 0;
  }

  lemma StepsExist(m: map<MemBufDesc, MemBufDesc>, x0: MemBufDesc, k: nat)
    requires Endless(m, x0)
    ensures Walk(m, x0, k).Some? && Walk(m, x0, k).value in m
    ensures Walk(m, x0, k + 1) == Some(m[Walk(m, x0, k).value])
  {
    assert Walk(m, x0, k + 1).Some?;
  }
}
