/**
 The receive side of src/vma/dev/cq_mgr.cpp: every good completion takes a work request off the receive
 queue and raises `debt`; `compensate_qp_poll_success` pays the debt back with free buffers, or by
 re-posting the oldest received packet when there are none; `drain_and_proccess` queues datagrams in
 `m_rx_queue` and hands TCP packets on at once.
 */
module CompletionQueue {
  import opened Arith
  import opened Options

  type Buf = nat

  const MAX_CQ_POLL_BATCH: nat := 128   // MCE_MAX_CQ_POLL_BATCH

  function Count(s: seq<Buf>, b: Buf): (n: nat)
  {
    if s == [] then 0 else (if s[0] == b then 1 else 0) + Count(s[1..], b)
  }

  lemma {:induction false} CountConcat(s: seq<Buf>, t: seq<Buf>, b: Buf)
    ensures Count(s + t, b) == Count(s, b) + Count(t, b)
  {
    if s == [] {
      assert s + t == t;
    } else {
      CountConcat(s[1..], t, b);
      assert (s + t)[1..] == s[1..] + t;
    }
  }

  lemma CountSplit(s: seq<Buf>, n: nat, b: Buf)
    requires n <= |s|
    ensures Count(s[..n], b) + Count(s[n..], b) == Count(s, b)
  {
    CountConcat(s[..n], s[n..], b);
    assert s == s[..n] + s[n..];
  }

  lemma {:induction false} CountIsMultiplicity(s: seq<Buf>, b: Buf)
    ensures Count(s, b) == multiset(s)[b]
  {
    if s != [] {
      CountIsMultiplicity(s[1..], b);
      assert s == [s[0]] + s[1..];
    }
  }

  /** The configuration of a queue and its QP. */
  datatype Config = Config(
    wrToPost: nat,        // m_n_sysvar_rx_num_wr_to_post_recv
    level: nat,           // m_n_sysvar_qp_compensation_level
    keepFull: bool,       // m_b_sysvar_cq_keep_qp_full
    rxNumWr: nat,         // qp->m_rx_num_wr
    wceMax: nat)          // m_n_sysvar_progress_engine_wce_max
  {
    ghost predicate Valid() { wrToPost >= 1 && level >= 1 }

    /** The largest debt ever left standing. */
    function Bound(): (b: int)
    {
      if keepFull || wrToPost - 1 > rxNumWr - MAX_CQ_POLL_BATCH then wrToPost - 1
      else rxNumWr - MAX_CQ_POLL_BATCH
    }
  }

  /** Where the buffers are, and the history of m_rx_queue. */
  datatype Rx = Rx(
    debt: int,            // m_qp_rec.debt
    pool: seq<Buf>,       // m_rx_pool
    queue: seq<Buf>,      // m_rx_queue
    posted: seq<Buf>,     // work requests on the receive queue, oldest first
    global: seq<Buf>,     // free list of g_buffer_pool_rx
    app: multiset<Buf>,   // buffers elsewhere: with the sockets, with other queues, or with the owner of a failed packet
    arrived: seq<Buf>,    // datagrams received, oldest first
    gone: seq<Buf>,       // datagrams delivered or given up, in that order
    unpaid: nat)          // completions that failed or were recycled, and so raised no debt
  {
    /** How often a buffer occurs, wherever it is. */
    function Copies(b: Buf): (n: nat)
    {
      Count(pool, b) + Count(queue, b) + Count(posted, b) + Count(global, b) + app[b]
    }
  }

  /**
   What a completion turns out to be.  For packets that leave the queue, `returned` are the buffers the
   sockets have given back to this queue's pool by the time processing is over.
   */
  datatype Kind =
    | Bad(returned: seq<Buf>)
    | Tcp(returned: seq<Buf>)
    | Udp
    | Passed(returned: seq<Buf>)   // a datagram delivered at once, past m_rx_queue
    | Recycled                     // any good completion while recycling

  /** `request_more_buffers`: `level` buffers from the global pool, all or nothing. */
  function MoreBuffers(c: Config, s: Rx): (r: Rx)
  {
    if c.level <= |s.global| then s.(pool := s.pool + s.global[..c.level], global := s.global[c.level..]) else s
  }

  /** Post as many free buffers as are owed, from the front of the pool. */
  function PayDebt(s: Rx): (r: Rx)
  {
    var n := if 0 <= s.debt < |s.pool| then s.debt else |s.pool|;
    s.(debt := s.debt - n, pool := s.pool[n..], posted := s.posted + s.pool[..n])
  }

  /** `compensate_qp_poll_success` for one good completion; true when the given buffer was re-posted. */
  function Compensate(c: Config, s: Rx, buff: Buf): (r: (Rx, bool))
  {
    var debt := s.debt + 1;
    if debt < c.wrToPost then (s.(debt := debt), false)
    else
      var s1 := if s.pool == [] then MoreBuffers(c, s) else s;
      if s1.pool != [] then (PayDebt(s1.(debt := debt)), false)
      else if c.keepFull || debt + MAX_CQ_POLL_BATCH > c.rxNumWr then
        (s.(posted := s.posted + [buff]), true)
      else (s.(debt := debt), false)
  }

  /** A buffer goes to the sockets, and some come back. */
  function HandOver(s: Rx, buff: Buf, returned: seq<Buf>): (r: Rx)
  {
    var app := s.app + multiset{buff};
    if multiset(returned) <= app then s.(app := app - multiset(returned), pool := s.pool + returned)
    else s.(app := app)
  }

  /** A packet goes to its socket at once, unless its buffer is needed. */
  function PassOrRepost(c: Config, s: Rx, buff: Buf, returned: seq<Buf>): (r: Rx)
  {
    var (s1, used) := Compensate(c, s, buff);
    if used then s1 else HandOver(s1, buff, returned)
  }

  /** A datagram that is received and leaves at once. */
  function Noted(s: Rx, buff: Buf): (r: Rx) { s.(arrived := s.arrived + [buff], gone := s.gone + [buff]) }

  /** One completion inside `drain_and_proccess`. */
  function Process(c: Config, s: Rx, buff: Buf, kind: Kind): (r: Rx)
  {
    match kind
    case Bad(returned) => HandOver(s.(unpaid := s.unpaid + 1), buff, returned)
    case Tcp(returned) => PassOrRepost(c, s, buff, returned)
    case Udp =>
      var all := s.queue + [buff];
      var (s1, used) := Compensate(c, s.(queue := all[1..], arrived := s.arrived + [buff]), all[0]);
      if used then s1.(gone := s1.gone + [all[0]]) else s1.(queue := [all[0]] + s1.queue)
    case Passed(returned) => PassOrRepost(c, Noted(s, buff), buff, returned)
    case Recycled => s.(unpaid := s.unpaid + 1, pool := s.pool + [buff])
  }

  predicate IsDatagram(kind: Kind) { kind.Udp? || kind.Passed? }

  /** The completions that raise no debt. */
  predicate IsUnpaid(kind: Kind) { kind.Bad? || kind.Recycled? }

  /** Datagrams are delivered past the queue only while it is empty, and none is queued then. */
  predicate Fits(s: Rx, kinds: seq<Kind>)
  {
    (forall k | k in kinds :: !k.Passed?) || (s.queue == [] && forall k | k in kinds :: !k.Udp?)
  }

  function ProcessAll(c: Config, s: Rx, batch: seq<Buf>, kinds: seq<Kind>): (r: Rx)
    requires |batch| == |kinds|
    decreases |batch|
  {
    if batch == [] then s else ProcessAll(c, Process(c, s, batch[0], kinds[0]), batch[1..], kinds[1..])
  }

  lemma ProcessTail(c: Config, s: Rx, batch: seq<Buf>, kinds: seq<Kind>, i: nat)
    requires i < |batch| == |kinds|
    ensures ProcessAll(c, s, batch[i..], kinds[i..]) == ProcessAll(c, Process(c, s, batch[i], kinds[i]), batch[i + 1..], kinds[i + 1..])
  {
    assert batch[i..][1..] == batch[i + 1..] && kinds[i..][1..] == kinds[i + 1..];
  }

  /** How many completions a poll for at most most of them yields: what the device reports, and what was posted. */
  function PollSizeUpTo(s: Rx, kinds: seq<Kind>, most: nat): (n: nat)
    ensures n <= |s.posted| && n <= |kinds| && n <= most && (n == |s.posted| || n == |kinds| || n == most)
  {
    var n := if |kinds| < most then |kinds| else most;
    if |s.posted| < n then |s.posted| else n
  }

  function PollSize(s: Rx, kinds: seq<Kind>): (n: nat) { PollSizeUpTo(s, kinds, MAX_CQ_POLL_BATCH) }

  /** A poll: the oldest posted buffers complete, in order, and are processed. */
  function PollUpTo(c: Config, s: Rx, kinds: seq<Kind>, most: nat): (r: Rx)
  {
    var n := PollSizeUpTo(s, kinds, most);
    ProcessAll(c, s.(posted := s.posted[n..]), s.posted[..n], kinds[..n])
  }

  /** One turn of the drain loop. */
  function PollAndProcess(c: Config, s: Rx, kinds: seq<Kind>): (r: Rx) { PollUpTo(c, s, kinds, MAX_CQ_POLL_BATCH) }

  /** What every step keeps: the debt is bounded and the queue holds the newest datagrams, in order. */
  ghost predicate Sound(c: Config, s: Rx)
  {
    c.Valid() && 0 <= s.debt <= c.Bound() && s.arrived == s.gone + s.queue
  }

  /** Debt: one more completion is paid for, owed within the bound, or paid with the buffer itself. */
  lemma CompensateKeepsDebt(c: Config, s: Rx, buff: Buf)
    requires c.Valid() && 0 <= s.debt <= c.Bound()
    ensures var s' := Compensate(c, s, buff).0;
            && 0 <= s'.debt <= c.Bound()
            && |s'.posted| + s'.debt == |s.posted| + s.debt + 1
            && s'.queue == s.queue && s'.arrived == s.arrived && s'.gone == s.gone
            && s'.unpaid == s.unpaid && s'.app == s.app
  {
  }

  /** The free buffers at hand for a posting: the queue's own, or else a whole level from the global pool. */
  function FreeFor(c: Config, s: Rx): (free: seq<Buf>)
  {
    if s.pool != [] then s.pool else if c.level <= |s.global| then s.global[..c.level] else []
  }

  /** Of the free buffers the oldest are posted, in order, until owed ones have been or none is left; the rest are the pool. */
  ghost predicate PaysFrom(c: Config, s: Rx, s': Rx, owed: int)
  {
    && s.posted <= s'.posted && s'.posted[|s.posted|..] + s'.pool == FreeFor(c, s)
    && s'.debt == owed - (|s'.posted| - |s.posted|) && (s'.debt == 0 || s'.pool == [])
    && s'.global == (if s.pool == [] then s.global[|FreeFor(c, s)|..] else s.global)
  }

  lemma PayDebtPays(c: Config, s: Rx, owed: nat)
    requires c.Valid() && FreeFor(c, s) != []
    ensures PaysFrom(c, s, PayDebt((if s.pool == [] then MoreBuffers(c, s) else s).(debt := owed)), owed)
  {
    var s1 := (if s.pool == [] then MoreBuffers(c, s) else s).(debt := owed);
    var s' := PayDebt(s1);
    assert s1.pool == FreeFor(c, s);
    var n := |s'.posted| - |s.posted|;
    assert s'.posted[|s.posted|..] == s1.pool[..n];
  }

  /** A posting that is due and finds a free buffer pays the whole debt or uses up what was free; nothing else is posted. */
  lemma CompensatePosts(c: Config, s: Rx, buff: Buf)
    requires c.Valid() && 0 <= s.debt
    ensures var (s', used) := Compensate(c, s, buff);
            if s.debt + 1 >= c.wrToPost && FreeFor(c, s) != [] then !used && PaysFrom(c, s, s', s.debt + 1)
            else s'.pool == s.pool && s'.global == s.global && s'.posted == s.posted + (if used then [buff] else [])
  {
    if s.debt + 1 >= c.wrToPost && FreeFor(c, s) != [] { PayDebtPays(c, s, s.debt + 1); }
  }

  /** A received packet is given up for re-posting exactly when a posting is due, the queue's pool is empty, the global
   pool has less than a whole level, and the queue must be kept full or is about to run dry. */
  lemma RepostIff(c: Config, s: Rx, buff: Buf)
    requires c.Valid()
    ensures Compensate(c, s, buff).1 <==>
              && s.debt + 1 >= c.wrToPost && s.pool == [] && |s.global| < c.level
              && (c.keepFull || s.debt + 1 + MAX_CQ_POLL_BATCH > c.rxNumWr)
  {
  }

  /** So a packet can be given up while free buffers remain: with any level above 1, up to level - 1 of them. */
  lemma GivenUpDespiteFree(c: Config, s: Rx, buff: Buf, n: nat)
    requires c.Valid() && c.keepFull && 1 <= n < c.level
    ensures var free := seq(n, i => i);
            Compensate(c, s.(debt := c.wrToPost - 1, pool := [], global := free), buff).1
  {
  }

  /** A received packet must be given up to be posted again. */
  predicate MustGiveUp(c: Config, s: Rx)
  {
    s.debt + 1 >= c.wrToPost && FreeFor(c, s) == [] && (c.keepFull || s.debt + 1 + MAX_CQ_POLL_BATCH > c.rxNumWr)
  }

  /** What the sockets really give back: only what they have. */
  function Back(app: multiset<Buf>, returned: seq<Buf>): (r: seq<Buf>)
  {
    if multiset(returned) <= app then returned else []
  }

  /** The packet is with the sockets, less what they gave back, which the pool has gained. */
  ghost predicate WithSockets(s: Rx, s': Rx, pool: seq<Buf>, buff: Buf, returned: seq<Buf>)
  {
    var back := Back(s.app + multiset{buff}, returned);
    s'.app == s.app + multiset{buff} - multiset(back) && s'.pool == pool + back
  }

  /** A packet for the sockets is with them, or in need back on the receive queue. */
  ghost predicate PassedOn(c: Config, s: Rx, s': Rx, buff: Buf, returned: seq<Buf>)
  {
    && s'.queue == s.queue
    && if MustGiveUp(c, s) then s'.posted == s.posted + [buff] && s'.app == s.app
       else WithSockets(s, s', Compensate(c, s, buff).0.pool, buff, returned)
  }

  lemma CompensateLeaves(c: Config, s: Rx, buff: Buf)
    ensures var s' := Compensate(c, s, buff).0; s'.queue == s.queue && s'.app == s.app && s'.gone == s.gone
  {
  }

  lemma HandOverPlaces(s: Rx, buff: Buf, returned: seq<Buf>)
    ensures WithSockets(s, HandOver(s, buff, returned), s.pool, buff, returned)
    ensures HandOver(s, buff, returned).queue == s.queue
  {
    assert s.pool + [] == s.pool;
  }

  lemma PassPlaces(c: Config, s: Rx, buff: Buf, returned: seq<Buf>)
    requires c.Valid() && 0 <= s.debt
    ensures PassedOn(c, s, PassOrRepost(c, s, buff, returned), buff, returned)
  {
    var (s1, used) := Compensate(c, s, buff);
    RepostIff(c, s, buff);
    CompensateLeaves(c, s, buff);
    if used {
      CompensatePosts(c, s, buff);
    } else {
      HandOverPlaces(s1, buff, returned);
    }
  }

  /** A datagram is at the end of the queue, and in need the oldest one back on the receive queue. */
  ghost predicate Queued(c: Config, s: Rx, s': Rx, buff: Buf)
  {
    var all := s.queue + [buff];
    && s'.app == s.app
    && if MustGiveUp(c, s) then s'.posted == s.posted + [all[0]] && s'.queue == all[1..] && s'.gone == s.gone + [all[0]]
       else s'.queue == all && s'.gone == s.gone
  }

  lemma UdpPlaces(c: Config, s: Rx, buff: Buf)
    requires c.Valid() && 0 <= s.debt
    ensures Queued(c, s, Process(c, s, buff, Udp), buff)
  {
    var all := s.queue + [buff];
    var s0 := s.(queue := all[1..], arrived := s.arrived + [buff]);
    RepostIff(c, s0, all[0]);
    CompensatePosts(c, s0, all[0]);
    assert [all[0]] + all[1..] == all;
  }

  /** Where a completed packet goes: failed and TCP packets and those passed on to the sockets, datagrams to the end of the
   queue, recycled ones to the pool; and in need, the packet or the oldest datagram back to the receive queue. */
  lemma ProcessPlaces(c: Config, s: Rx, buff: Buf, kind: Kind)
    requires c.Valid() && 0 <= s.debt
    ensures var s' := Process(c, s, buff, kind);
            match kind
            case Bad(returned) => WithSockets(s, s', s.pool, buff, returned) && s'.queue == s.queue && s'.posted == s.posted
            case Tcp(returned) => PassedOn(c, s, s', buff, returned)
            case Udp => Queued(c, s, s', buff)
            case Passed(returned) => PassedOn(c, Noted(s, buff), s', buff, returned)
            case Recycled => s'.pool == s.pool + [buff] && s'.app == s.app && s'.queue == s.queue && s'.posted == s.posted
  {
    match kind
    case Bad(returned) => assert s.pool + [] == s.pool;
    case Tcp(returned) => PassPlaces(c, s, buff, returned);
    case Udp => UdpPlaces(c, s, buff);
    case Passed(returned) => PassPlaces(c, Noted(s, buff), buff, returned);
    case Recycled =>
  }

  lemma MoreBuffersConserves(c: Config, s: Rx, b: Buf)
    ensures MoreBuffers(c, s).Copies(b) == s.Copies(b)
  {
    if c.level <= |s.global| {
      CountSplit(s.global, c.level, b);
      CountConcat(s.pool, s.global[..c.level], b);
    }
  }

  lemma PayDebtConserves(s: Rx, b: Buf)
    ensures PayDebt(s).Copies(b) == s.Copies(b)
  {
    var n := if 0 <= s.debt < |s.pool| then s.debt else |s.pool|;
    CountSplit(s.pool, n, b);
    CountConcat(s.posted, s.pool[..n], b);
  }

  /** No buffer is lost or duplicated by paying the debt. */
  lemma CompensateConserves(c: Config, s: Rx, buff: Buf, b: Buf)
    requires c.Valid() && 0 <= s.debt
    ensures var (s', used) := Compensate(c, s, buff);
            s'.Copies(b) == s.Copies(b) + if used && b == buff then 1 else 0
  {
    var debt := s.debt + 1;
    if debt >= c.wrToPost {
      var s1 := if s.pool == [] then MoreBuffers(c, s) else s;
      if s.pool == [] { MoreBuffersConserves(c, s, b); }
      if s1.pool != [] {
        PayDebtConserves(s1.(debt := debt), b);
      } else {
        CountConcat(s.posted, [buff], b);
      }
    }
  }

  lemma HandOverConserves(s: Rx, buff: Buf, returned: seq<Buf>, b: Buf)
    ensures HandOver(s, buff, returned).Copies(b) == s.Copies(b) + if b == buff then 1 else 0
  {
    CountIsMultiplicity(returned, b);
    CountConcat(s.pool, returned, b);
  }

  /** What one completion does: nothing reordered, debt within its bound, and raised or paid unless it is unpaid. */
  ghost predicate OneKept(c: Config, s: Rx, s': Rx, buff: Buf, kind: Kind)
  {
    && Sound(c, s') && |s'.posted| + s'.debt == |s.posted| + s.debt + (if IsUnpaid(kind) then 0 else 1)
    && s'.unpaid == s.unpaid + (if IsUnpaid(kind) then 1 else 0)
    && s.gone <= s'.gone && s'.arrived == s.arrived + (if IsDatagram(kind) then [buff] else [])
    && (!kind.Udp? ==> s'.queue == s.queue)
  }

  lemma ProcessKeeps(c: Config, s: Rx, buff: Buf, kind: Kind)
    requires Sound(c, s) && (kind.Passed? ==> s.queue == [])
    ensures OneKept(c, s, Process(c, s, buff, kind), buff, kind)
  {
    match kind
    case Bad(returned) =>
    case Tcp(returned) => TcpKeeps(c, s, buff, returned);
    case Udp => UdpKeeps(c, s, buff);
    case Passed(returned) => PassedKeeps(c, s, buff, returned);
    case Recycled =>
  }

  lemma TcpKeeps(c: Config, s: Rx, buff: Buf, returned: seq<Buf>)
    requires Sound(c, s)
    ensures OneKept(c, s, Process(c, s, buff, Tcp(returned)), buff, Tcp(returned))
  {
    CompensateKeepsDebt(c, s, buff);
  }

  lemma UdpKeeps(c: Config, s: Rx, buff: Buf)
    requires Sound(c, s)
    ensures OneKept(c, s, Process(c, s, buff, Udp), buff, Udp)
  {
    var all := s.queue + [buff];
    CompensateKeepsDebt(c, s.(queue := all[1..], arrived := s.arrived + [buff]), all[0]);
    QueueOrder(s.gone, s.queue, buff);
  }

  lemma PassedKeeps(c: Config, s: Rx, buff: Buf, returned: seq<Buf>)
    requires Sound(c, s) && s.queue == []
    ensures OneKept(c, s, Process(c, s, buff, Passed(returned)), buff, Passed(returned))
  {
    TcpKeeps(c, Noted(s, buff), buff, returned);
    PrefixTransitive(s.gone, s.gone + [buff], Process(c, s, buff, Passed(returned)).gone);
  }

  /** Appending to the queue, and moving its oldest entry to the taken ones, keep the order. */
  lemma QueueOrder(gone: seq<Buf>, queue: seq<Buf>, buff: Buf)
    ensures var all := queue + [buff];
            && (gone + queue) + [buff] == gone + ([all[0]] + all[1..])
            && (gone + queue) + [buff] == (gone + [all[0]]) + all[1..]
  {
    var all := queue + [buff];
    assert all == [all[0]] + all[1..];
    assert (gone + queue) + [buff] == gone + all;
    assert gone + all == (gone + [all[0]]) + all[1..];
  }

  /** One completion: nothing lost. */
  lemma ProcessConserves(c: Config, s: Rx, buff: Buf, kind: Kind, b: Buf)
    requires c.Valid() && 0 <= s.debt <= c.Bound()
    ensures Process(c, s, buff, kind).Copies(b) == s.Copies(b) + if b == buff then 1 else 0
  {
    match kind
    case Bad(returned) =>
      HandOverConserves(s.(unpaid := s.unpaid + 1), buff, returned, b);
    case Tcp(returned) => PassConserves(c, s, buff, returned, b);
    case Udp => UdpConserves(c, s, buff, b);
    case Passed(returned) => PassConserves(c, Noted(s, buff), buff, returned, b);
    case Recycled =>
      CountConcat(s.pool, [buff], b);
  }

  lemma PassConserves(c: Config, s: Rx, buff: Buf, returned: seq<Buf>, b: Buf)
    requires c.Valid() && 0 <= s.debt
    ensures PassOrRepost(c, s, buff, returned).Copies(b) == s.Copies(b) + if b == buff then 1 else 0
  {
    CompensateConserves(c, s, buff, b);
    HandOverConserves(Compensate(c, s, buff).0, buff, returned, b);
  }

  lemma UdpConserves(c: Config, s: Rx, buff: Buf, b: Buf)
    requires c.Valid() && 0 <= s.debt <= c.Bound()
    ensures Process(c, s, buff, Udp).Copies(b) == s.Copies(b) + if b == buff then 1 else 0
  {
    var all := s.queue + [buff];
    var s0 := s.(queue := all[1..], arrived := s.arrived + [buff]);
    CompensateConserves(c, s0, all[0], b);
    CompensateKeepsDebt(c, s0, all[0]);
    CountConcat(s.queue, [buff], b);
    CountConcat([all[0]], all[1..], b);
  }

  /** The datagrams among some completions, in order. */
  function Datagrams(batch: seq<Buf>, kinds: seq<Kind>): (r: seq<Buf>)
    requires |batch| == |kinds|
  {
    if batch == [] then []
    else (if IsDatagram(kinds[0]) then [batch[0]] else []) + Datagrams(batch[1..], kinds[1..])
  }

  /** How many of some completions raise no debt. */
  function Unpaid(kinds: seq<Kind>): (n: nat)
  {
    if kinds == [] then 0 else (if IsUnpaid(kinds[0]) then 1 else 0) + Unpaid(kinds[1..])
  }

  lemma FitsTail(c: Config, s: Rx, buff: Buf, kinds: seq<Kind>)
    requires Sound(c, s) && kinds != [] && Fits(s, kinds)
    ensures (kinds[0].Passed? ==> s.queue == []) && Fits(Process(c, s, buff, kinds[0]), kinds[1..])
  {
    assert kinds[0] in kinds && forall k | k in kinds[1..] :: k in kinds;
    if !kinds[0].Passed? || s.queue == [] { ProcessKeeps(c, s, buff, kinds[0]); }
  }

  lemma {:induction false} ProcessAllKeeps(c: Config, s: Rx, batch: seq<Buf>, kinds: seq<Kind>)
    requires Sound(c, s) && |batch| == |kinds| && Fits(s, kinds)
    ensures var s' := ProcessAll(c, s, batch, kinds);
            && Sound(c, s') && |s'.posted| + s'.debt == |s.posted| + s.debt + |batch| - Unpaid(kinds)
            && s'.unpaid == s.unpaid + Unpaid(kinds)
            && s.gone <= s'.gone && s'.arrived == s.arrived + Datagrams(batch, kinds)
    decreases |batch|
  {
    if batch != [] {
      FitsTail(c, s, batch[0], kinds);
      ProcessKeeps(c, s, batch[0], kinds[0]);
      var s1 := Process(c, s, batch[0], kinds[0]);
      ProcessAllKeeps(c, s1, batch[1..], kinds[1..]);
      var s' := ProcessAll(c, s1, batch[1..], kinds[1..]);
      PrefixTransitive(s.gone, s1.gone, s'.gone);
      ConcatAssociative(s.arrived, if IsDatagram(kinds[0]) then [batch[0]] else [], Datagrams(batch[1..], kinds[1..]));
    }
  }

  lemma {:induction false} ProcessAllConserves(c: Config, s: Rx, batch: seq<Buf>, kinds: seq<Kind>, b: Buf)
    requires Sound(c, s) && |batch| == |kinds| && Fits(s, kinds)
    ensures ProcessAll(c, s, batch, kinds).Copies(b) == s.Copies(b) + Count(batch, b)
    decreases |batch|
  {
    if batch != [] {
      FitsTail(c, s, batch[0], kinds);
      ProcessKeeps(c, s, batch[0], kinds[0]);
      ProcessConserves(c, s, batch[0], kinds[0], b);
      ProcessAllConserves(c, Process(c, s, batch[0], kinds[0]), batch[1..], kinds[1..], b);
    }
  }

  lemma FitsPrefix(s: Rx, kinds: seq<Kind>, n: nat, left: seq<Buf>)
    requires Fits(s, kinds) && n <= |kinds|
    ensures Fits(s.(posted := left), kinds[..n])
  {
    assert forall k | k in kinds[..n] :: k in kinds;
  }

  /** A whole poll loses no buffer and makes none up. */
  lemma PollConserves(c: Config, s: Rx, kinds: seq<Kind>, most: nat, b: Buf)
    requires Sound(c, s) && Fits(s, kinds)
    ensures PollUpTo(c, s, kinds, most).Copies(b) == s.Copies(b)
  {
    var n := PollSizeUpTo(s, kinds, most);
    FitsPrefix(s, kinds, n, s.posted[n..]);
    ProcessAllConserves(c, s.(posted := s.posted[n..]), s.posted[..n], kinds[..n], b);
    CountSplit(s.posted, n, b);
  }

  lemma PrefixTransitive(a: seq<Buf>, b: seq<Buf>, c: seq<Buf>)
    requires a <= b <= c
    ensures a <= c
  {
  }

  lemma ConcatAssociative(a: seq<Buf>, b: seq<Buf>, c: seq<Buf>)
    ensures (a + b) + c == a + (b + c)
  {
  }

  lemma CancelPrefix(p: seq<Buf>, a: seq<Buf>, p': seq<Buf>, a': seq<Buf>)
    requires p <= p' && p' + a' == p + a
    ensures p'[|p|..] + a' == a
  {
    assert a == (p + a)[|p|..];
    assert p'[|p|..] + a' == (p' + a')[|p|..];
  }

  // ------------------------------------------------------------------ runs

  /** `compensate_qp_poll_failed`: an idle poll pays what it can. */
  function IdlePoll(c: Config, s: Rx): (r: Rx)
  {
    if s.debt == 0 then s
    else
      var s1 := if s.pool == [] then MoreBuffers(c, s) else s;
      if s1.pool != [] then PayDebt(s1) else s1
  }

  /** `return_extra_buffers` */
  function Trimmed(c: Config, s: Rx): (r: Rx)
  {
    if |s.pool| < 2 * c.level then s
    else s.(pool := s.pool[..c.level], global := s.pool[c.level..] + s.global)
  }

  /** `process_recv_queue`: the oldest datagrams go to the sockets, one for each entry of back. */
  function Served(s: Rx, back: seq<seq<Buf>>): (r: Rx)
    decreases |back|
  {
    if back == [] || s.queue == [] then s
    else
      Served(Deliver(s, back[0]), back[1..])
  }

  /** The oldest datagram leaves the queue for the sockets. */
  function Deliver(s: Rx, returned: seq<Buf>): (r: Rx)
    requires s.queue != []
    ensures r.queue == s.queue[1..] && r.gone == s.gone + [s.queue[0]]
    ensures r.debt == s.debt && r.posted == s.posted && r.arrived == s.arrived && r.unpaid == s.unpaid
  {
    HandOver(s.(queue := s.queue[1..], gone := s.gone + [s.queue[0]]), s.queue[0], returned)
  }

  /** How a poll treats the good packets it finds. */
  datatype Mode =
    | Queueing              // drain_and_proccess: datagrams join m_rx_queue
    | Passing               // poll_and_process_element_rx: everything goes to the sockets at once
    | Recycling             // drain_and_proccess while recycling

  function KindIn(kind: Kind, mode: Mode): (k: Kind)
  {
    match kind
    case Bad(_) => kind
    case Tcp(_) => if mode.Recycling? then Recycled else kind
    case Udp => if mode.Recycling? then Recycled else if mode.Passing? then Passed([]) else kind
    case Passed(_) => if mode.Recycling? then Recycled else if mode.Passing? then kind else Udp
    case Recycled => kind
  }

  /** What the device reports, as the mode treats it. */
  function PollOf(kinds: seq<Kind>, mode: Mode): (r: seq<Kind>)
    ensures |r| == |kinds|
  {
    seq(|kinds|, i requires 0 <= i < |kinds| => KindIn(kinds[i], mode))
  }

  lemma PollOfFits(s: Rx, kinds: seq<Kind>, mode: Mode)
    requires mode.Passing? ==> s.queue == []
    ensures Fits(s, PollOf(kinds, mode))
  {
  }

  /** The limit is looked at after a delivery, so a limit of 0 still lets one through. */
  function AtLeastOne(batchMax: nat): (n: nat) { if batchMax == 0 then 1 else batchMax }

  /** How many datagrams `process_recv_queue` delivers. */
  function ServeSize(s: Rx, batchMax: nat): (n: nat)
  {
    if |s.queue| < AtLeastOne(batchMax) then |s.queue| else AtLeastOne(batchMax)
  }

  /** What the sockets give back during n deliveries. */
  function Backs(back: seq<seq<Buf>>, n: nat): (r: seq<seq<Buf>>)
    ensures |r| == n
  {
    seq(n, i requires 0 <= i < n => if i < |back| then back[i] else [])
  }

  /** `process_recv_queue` */
  function ServeQueue(s: Rx, batchMax: nat, back: seq<seq<Buf>>): (r: Rx)
  {
    Served(s, Backs(back, ServeSize(s, batchMax)))
  }

  /** `poll_and_process_element_rx`: first the queue, and only when that leaves room, the device. */
  function DirectPoll(c: Config, s: Rx, kinds: seq<Kind>, batchMax: nat, back: seq<seq<Buf>>): (r: Rx)
  {
    var s1 := ServeQueue(s, batchMax, back);
    if ServeSize(s, batchMax) >= batchMax then s1
    else if PollSizeUpTo(s1, kinds, batchMax) > 0 then PollUpTo(c, s1, PollOf(kinds, Passing), batchMax)
    else IdlePoll(c, s1)
  }

  /** `reclaim_recv_buffer_helper`: buffers come back to the pool from the sockets. */
  function Reclaimed(s: Rx, bufs: seq<Buf>): (r: Rx)
  {
    if multiset(bufs) <= s.app then s.(app := s.app - multiset(bufs), pool := s.pool + bufs) else s
  }

  /** Others take n buffers from the shared global pool, or put buffers there. */
  function Lent(s: Rx, n: nat): (r: Rx)
  {
    if n <= |s.global| then s.(app := s.app + multiset(s.global[..n]), global := s.global[n..]) else s
  }

  function GivenBack(s: Rx, bufs: seq<Buf>): (r: Rx)
  {
    if multiset(bufs) <= s.app then s.(app := s.app - multiset(bufs), global := bufs + s.global) else s
  }

  /** What happens to a queue. */
  datatype Step =
    | Poll(kinds: seq<Kind>, recycle: bool)
    | Direct(kinds: seq<Kind>, batchMax: nat, back: seq<seq<Buf>>)
    | Serve(batchMax: nat, back: seq<seq<Buf>>)
    | Idle
    | Trim
    | Reclaim(bufs: seq<Buf>)
    | Lend(n: nat)
    | GiveBack(bufs: seq<Buf>)

  function ModeOf(recycle: bool): (m: Mode) { if recycle then Recycling else Queueing }

  function Perform(c: Config, s: Rx, step: Step): (r: Rx)
  {
    match step
    case Poll(kinds, recycle) => PollAndProcess(c, s, PollOf(kinds, ModeOf(recycle)))
    case Direct(kinds, batchMax, back) => DirectPoll(c, s, kinds, batchMax, back)
    case Serve(batchMax, back) => ServeQueue(s, batchMax, back)
    case Idle => IdlePoll(c, s)
    case Trim => Trimmed(c, s)
    case Reclaim(bufs) => Reclaimed(s, bufs)
    case Lend(n) => Lent(s, n)
    case GiveBack(bufs) => GivenBack(s, bufs)
  }

  /** The completions that a step takes from the device, with their buffers. */
  function Polled(s: Rx, step: Step): (r: (seq<Buf>, seq<Kind>))
    ensures |r.0| == |r.1|
  {
    match step
    case Poll(kinds, recycle) =>
      var n := PollSize(s, kinds);
      (s.posted[..n], PollOf(kinds, ModeOf(recycle))[..n])
    case Direct(kinds, batchMax, back) =>
      var n := if ServeSize(s, batchMax) >= batchMax then 0 else PollSizeUpTo(s, kinds, batchMax);
      (s.posted[..n], PollOf(kinds, Passing)[..n])
    case _ => ([], [])
  }

  function StepDatagrams(s: Rx, step: Step): (r: seq<Buf>) { Datagrams(Polled(s, step).0, Polled(s, step).1) }
  function StepUnpaid(s: Rx, step: Step): (n: nat) { Unpaid(Polled(s, step).1) }

  /** The state after any steps, the datagrams received with them, and the completions among them that raised no debt. */
  function PerformAll(c: Config, s: Rx, steps: seq<Step>): (r: Rx)
    decreases |steps|
  {
    if steps == [] then s else PerformAll(c, Perform(c, s, steps[0]), steps[1..])
  }

  function RunDatagrams(c: Config, s: Rx, steps: seq<Step>): (r: seq<Buf>)
    decreases |steps|
  {
    if steps == [] then []
    else StepDatagrams(s, steps[0]) + RunDatagrams(c, Perform(c, s, steps[0]), steps[1..])
  }

  function RunUnpaid(c: Config, s: Rx, steps: seq<Step>): (n: nat)
    decreases |steps|
  {
    if steps == [] then 0 else StepUnpaid(s, steps[0]) + RunUnpaid(c, Perform(c, s, steps[0]), steps[1..])
  }

  lemma {:induction false} DatagramsAlike(batch: seq<Buf>, kinds: seq<Kind>, others: seq<Kind>)
    requires |batch| == |kinds| == |others| && forall i | 0 <= i < |kinds| :: IsDatagram(kinds[i]) == IsDatagram(others[i])
    ensures Datagrams(batch, kinds) == Datagrams(batch, others)
  {
    if batch != [] { DatagramsAlike(batch[1..], kinds[1..], others[1..]); }
  }

  lemma {:induction false} NoDatagrams(batch: seq<Buf>, kinds: seq<Kind>)
    requires |batch| == |kinds| && forall i | 0 <= i < |kinds| :: !IsDatagram(kinds[i])
    ensures Datagrams(batch, kinds) == []
  {
    if batch != [] { NoDatagrams(batch[1..], kinds[1..]); }
  }

  /** The datagrams of a step are the polled packets that the device reports as datagrams, and none while recycling. */
  lemma DatagramsAreReported(s: Rx, step: Step)
    requires step.Poll? || step.Direct?
    ensures var bufs := Polled(s, step).0;
            && |bufs| <= |step.kinds|
            && StepDatagrams(s, step) == if step.Poll? && step.recycle then [] else Datagrams(bufs, step.kinds[..|bufs|])
  {
    var (bufs, kinds) := Polled(s, step);
    if step.Poll? && step.recycle {
      NoDatagrams(bufs, kinds);
    } else {
      DatagramsAlike(bufs, kinds, step.kinds[..|bufs|]);
    }
  }

  /** From s to s': the debt is within its bound, work requests plus debt fall short by lost, and the datagrams came in and
   left in order. */
  ghost predicate Kept(c: Config, s: Rx, s': Rx, came: seq<Buf>, lost: nat)
  {
    && Sound(c, s') && |s'.posted| + s'.debt == |s.posted| + s.debt - lost && s'.unpaid == s.unpaid + lost
    && s.gone <= s'.gone && s'.arrived == s.arrived + came
  }

  lemma KeptQueue(c: Config, s: Rx, s': Rx, came: seq<Buf>, lost: nat)
    requires Sound(c, s) && Kept(c, s, s', came, lost)
    ensures s'.gone[|s.gone|..] + s'.queue == s.queue + came
  {
    ConcatAssociative(s.gone, s.queue, came);
    CancelPrefix(s.gone, s.queue + came, s'.gone, s'.queue);
  }

  lemma KeptTransitive(c: Config, s: Rx, s1: Rx, s2: Rx, came: seq<Buf>, more: seq<Buf>, lost: nat, lost': nat)
    requires Kept(c, s, s1, came, lost) && Kept(c, s1, s2, more, lost')
    ensures Kept(c, s, s2, came + more, lost + lost')
  {
    PrefixTransitive(s.gone, s1.gone, s2.gone);
    ConcatAssociative(s.arrived, came, more);
  }

  lemma {:induction false} ServedKeeps(c: Config, s: Rx, back: seq<seq<Buf>>)
    requires Sound(c, s)
    ensures Kept(c, s, Served(s, back), [], 0) && Served(s, back).posted == s.posted
    ensures |back| >= |s.queue| ==> Served(s, back).queue == []
    decreases |back|
  {
    if back != [] && s.queue != [] {
      var s1 := Deliver(s, back[0]);
      assert s.queue == [s.queue[0]] + s.queue[1..];
      ConcatAssociative(s.gone, [s.queue[0]], s.queue[1..]);
      ServedKeeps(c, s1, back[1..]);
      PrefixTransitive(s.gone, s1.gone, Served(s1, back[1..]).gone);
    }
  }

  /** The pool gains what the sockets gave back, and they keep the rest of what they had and got. */
  ghost predicate Handed(s: Rx, s': Rx, bufs: seq<Buf>)
  {
    s.pool <= s'.pool && s'.app + multiset(s'.pool[|s.pool|..]) == s.app + multiset(bufs)
  }

  lemma MovedOn(a: multiset<Buf>, x: multiset<Buf>, b: multiset<Buf>, a1: multiset<Buf>, y: multiset<Buf>, m: multiset<Buf>,
                a2: multiset<Buf>)
    requires a1 + x == a + b && a2 + y == a1 + m
    ensures a2 + (x + y) == a + (b + m)
  {
    forall e: Buf
      ensures (a2 + (x + y))[e] == (a + (b + m))[e]
    {
      assert (a1 + x)[e] == (a + b)[e] && (a2 + y)[e] == (a1 + m)[e];
    }
  }

  lemma HandedTransitive(s: Rx, s1: Rx, s2: Rx, bufs: seq<Buf>, more: seq<Buf>)
    requires Handed(s, s1, bufs) && Handed(s1, s2, more)
    ensures Handed(s, s2, bufs + more)
  {
    var x, y := s1.pool[|s.pool|..], s2.pool[|s1.pool|..];
    assert s2.pool[|s.pool|..] == x + y;
    MovedOn(s.app, multiset(x), multiset(bufs), s1.app, multiset(y), multiset(more), s2.app);
  }

  /** The n oldest datagrams have gone to the sockets, in order. */
  ghost predicate OldestServed(s: Rx, s': Rx, n: nat)
  {
    n <= |s.queue| && s'.queue == s.queue[n..] && s'.gone == s.gone + s.queue[..n] && Handed(s, s', s.queue[..n])
  }

  lemma DeliverServes(s: Rx, returned: seq<Buf>)
    requires s.queue != []
    ensures OldestServed(s, Deliver(s, returned), 1)
  {
    var s', back := Deliver(s, returned), Back(s.app + multiset{s.queue[0]}, returned);
    HandOverPlaces(s.(queue := s.queue[1..], gone := s.gone + [s.queue[0]]), s.queue[0], returned);
    assert s.queue[..1] == [s.queue[0]];
    assert s'.pool[|s.pool|..] == back;
    assert multiset(back) <= s.app + multiset{s.queue[0]};
  }

  lemma DeliverKeepsPool(s: Rx)
    requires s.queue != []
    ensures Deliver(s, []).pool == s.pool
  {
  }

  lemma ServedFirst(s: Rx, s1: Rx, s2: Rx, n: nat)
    requires OldestServed(s, s1, 1) && OldestServed(s1, s2, n)
    ensures OldestServed(s, s2, n + 1)
  {
    HandedTransitive(s, s1, s2, s.queue[..1], s1.queue[..n]);
    assert s.queue[..n + 1] == s.queue[..1] + s1.queue[..n];
  }

  lemma {:induction false} ServedHands(s: Rx, back: seq<seq<Buf>>)
    requires |back| <= |s.queue|
    ensures OldestServed(s, Served(s, back), |back|)
    decreases |back|
  {
    if back == [] {
      assert s.pool[|s.pool|..] == [] && s.queue[..0] == [];
    } else {
      DeliverServes(s, back[0]);
      ServedHands(Deliver(s, back[0]), back[1..]);
      ServedFirst(s, Deliver(s, back[0]), Served(s, back), |back| - 1);
    }
  }

  /** As long as the sockets give nothing back, the pool stays as it is. */
  lemma {:induction false} ServedKeepsPool(s: Rx, back: seq<seq<Buf>>)
    requires forall i | 0 <= i < |back| :: back[i] == []
    ensures Served(s, back).pool == s.pool
    decreases |back|
  {
    if back != [] && s.queue != [] {
      DeliverKeepsPool(s);
      ServedKeepsPool(Deliver(s, back[0]), back[1..]);
    }
  }

  /** The oldest datagrams go to the sockets, in order, until the queue is empty or the limit, at least one, is reached. */
  lemma ServeDelivers(s: Rx, batchMax: nat, back: seq<seq<Buf>>)
    ensures var s', limit := ServeQueue(s, batchMax, back), if batchMax == 0 then 1 else batchMax;
            var n := |s.queue| - |s'.queue|;
            0 <= n <= limit && (s'.queue == [] || n == limit) && OldestServed(s, s', n)
  {
    ServedHands(s, Backs(back, ServeSize(s, batchMax)));
  }

  lemma ServeKeepsPool(s: Rx, batchMax: nat, back: seq<seq<Buf>>)
    requires forall i | 0 <= i < |back| :: back[i] == []
    ensures ServeQueue(s, batchMax, back).pool == s.pool
  {
    ServedKeepsPool(s, Backs(back, ServeSize(s, batchMax)));
  }

  lemma {:induction false} ServedConserves(s: Rx, back: seq<seq<Buf>>, b: Buf)
    ensures Served(s, back).Copies(b) == s.Copies(b)
    decreases |back|
  {
    if back != [] && s.queue != [] {
      HandOverConserves(s.(queue := s.queue[1..], gone := s.gone + [s.queue[0]]), s.queue[0], back[0], b);
      ServedConserves(Deliver(s, back[0]), back[1..], b);
    }
  }

  /** A pool of twice the level or more is cut down to its oldest level buffers; a smaller one is left alone. */
  lemma TrimCuts(c: Config, s: Rx)
    ensures var s' := Trimmed(c, s);
            && s'.pool <= s.pool && |s'.pool| == (if |s.pool| < 2 * c.level then |s.pool| else c.level)
            && s'.global == s.pool[|s'.pool|..] + s.global
  {
    assert s.pool[|s.pool|..] + s.global == s.global;
  }

  lemma TrimConserves(c: Config, s: Rx, b: Buf)
    ensures Trimmed(c, s).Copies(b) == s.Copies(b)
  {
    if |s.pool| >= 2 * c.level {
      CountSplit(s.pool, c.level, b);
      CountConcat(s.pool[c.level..], s.global, b);
    }
  }

  lemma IdleKeeps(c: Config, s: Rx)
    requires Sound(c, s)
    ensures Kept(c, s, IdlePoll(c, s), [], 0) && IdlePoll(c, s).debt <= s.debt
  {
  }

  /** So does an idle poll, whatever the debt; without a free buffer it changes nothing. */
  lemma IdlePosts(c: Config, s: Rx)
    requires c.Valid() && 0 <= s.debt
    ensures var s' := IdlePoll(c, s);
            if s.debt > 0 && FreeFor(c, s) != [] then PaysFrom(c, s, s', s.debt) else s' == s
  {
    if s.debt > 0 && FreeFor(c, s) != [] {
      PayDebtPays(c, s, s.debt);
      assert s.(debt := s.debt) == s;
    }
  }

  lemma IdleConserves(c: Config, s: Rx, b: Buf)
    ensures IdlePoll(c, s).Copies(b) == s.Copies(b)
  {
    if s.debt != 0 {
      MoreBuffersConserves(c, s, b);
      PayDebtConserves(if s.pool == [] then MoreBuffers(c, s) else s, b);
    }
  }

  lemma ReclaimConserves(s: Rx, bufs: seq<Buf>, b: Buf)
    ensures Reclaimed(s, bufs).Copies(b) == s.Copies(b)
  {
    CountIsMultiplicity(bufs, b);
    CountConcat(s.pool, bufs, b);
  }

  /** What the sockets return joins the end of the pool; of that the oldest stay, and the rest goes on to the global pool. */
  lemma ReclaimJoins(c: Config, s: Rx, bufs: seq<Buf>)
    requires multiset(bufs) <= s.app
    ensures var s' := Trimmed(c, Reclaimed(s, bufs));
            && s'.pool <= s.pool + bufs && s'.global == (s.pool + bufs)[|s'.pool|..] + s.global
            && s'.app + multiset(bufs) == s.app && (|s.pool| + |bufs| < 2 * c.level ==> s'.pool == s.pool + bufs)
  {
    TrimCuts(c, Reclaimed(s, bufs));
  }

  lemma LendConserves(s: Rx, n: nat, b: Buf)
    ensures Lent(s, n).Copies(b) == s.Copies(b)
  {
    if n <= |s.global| {
      CountIsMultiplicity(s.global[..n], b);
      CountSplit(s.global, n, b);
    }
  }

  lemma GiveBackConserves(s: Rx, bufs: seq<Buf>, b: Buf)
    ensures GivenBack(s, bufs).Copies(b) == s.Copies(b)
  {
    CountIsMultiplicity(bufs, b);
    CountConcat(bufs, s.global, b);
  }

  /** A poll keeps the debt within its bound; work requests plus debt fall short by exactly the unpaid completions polled. */
  lemma PollKeeps(c: Config, s: Rx, kinds: seq<Kind>, most: nat)
    requires Sound(c, s) && Fits(s, kinds)
    ensures var n := PollSizeUpTo(s, kinds, most);
            Kept(c, s, PollUpTo(c, s, kinds, most), Datagrams(s.posted[..n], kinds[..n]), Unpaid(kinds[..n]))
  {
    var n := PollSizeUpTo(s, kinds, most);
    FitsPrefix(s, kinds, n, s.posted[n..]);
    ProcessAllKeeps(c, s.(posted := s.posted[n..]), s.posted[..n], kinds[..n]);
  }

  /** Delivery past the queue happens only when the queue is empty. */
  lemma DirectOnlyWhenEmpty(c: Config, s: Rx, batchMax: nat, back: seq<seq<Buf>>)
    requires Sound(c, s) && ServeSize(s, batchMax) < batchMax
    ensures ServeQueue(s, batchMax, back).queue == []
  {
    ServedKeeps(c, s, Backs(back, ServeSize(s, batchMax)));
  }

  /** A direct poll leaves the device alone when the queue alone reaches the limit, and else takes all it may. */
  lemma DirectTakes(s: Rx, kinds: seq<Kind>, batchMax: nat, back: seq<seq<Buf>>)
    ensures var (bufs, _) := Polled(s, Direct(kinds, batchMax, back));
            && bufs <= s.posted
            && (if |s.queue| >= batchMax then bufs == []
                else |bufs| <= |kinds| && |bufs| <= batchMax && (|bufs| == |s.posted| || |bufs| == |kinds| || |bufs| == batchMax))
  {
  }

  lemma DirectKeeps(c: Config, s: Rx, kinds: seq<Kind>, batchMax: nat, back: seq<seq<Buf>>)
    requires Sound(c, s)
    ensures var step := Direct(kinds, batchMax, back);
            Kept(c, s, DirectPoll(c, s, kinds, batchMax, back), StepDatagrams(s, step), StepUnpaid(s, step))
  {
    var s1 := ServeQueue(s, batchMax, back);
    ServedKeeps(c, s, Backs(back, ServeSize(s, batchMax)));
    if ServeSize(s, batchMax) < batchMax {
      DirectOnlyWhenEmpty(c, s, batchMax, back);
      PollOfFits(s1, kinds, Passing);
      PollKeeps(c, s1, PollOf(kinds, Passing), batchMax);
      IdleKeeps(c, s1);
      var n := PollSizeUpTo(s1, kinds, batchMax);
      var came, lost := StepDatagrams(s, Direct(kinds, batchMax, back)), StepUnpaid(s, Direct(kinds, batchMax, back));
      KeptTransitive(c, s, s1, DirectPoll(c, s, kinds, batchMax, back), [], came, 0, lost);
      assert [] + came == came;
    }
  }

  lemma DirectConserves(c: Config, s: Rx, kinds: seq<Kind>, batchMax: nat, back: seq<seq<Buf>>, b: Buf)
    requires Sound(c, s)
    ensures DirectPoll(c, s, kinds, batchMax, back).Copies(b) == s.Copies(b)
  {
    var s1 := ServeQueue(s, batchMax, back);
    ServedConserves(s, Backs(back, ServeSize(s, batchMax)), b);
    if ServeSize(s, batchMax) < batchMax {
      ServedKeeps(c, s, Backs(back, ServeSize(s, batchMax)));
      DirectOnlyWhenEmpty(c, s, batchMax, back);
      PollOfFits(s1, kinds, Passing);
      PollConserves(c, s1, PollOf(kinds, Passing), batchMax, b);
      IdleConserves(c, s1, b);
    }
  }

  lemma PerformKeeps(c: Config, s: Rx, step: Step)
    requires Sound(c, s)
    ensures Kept(c, s, Perform(c, s, step), StepDatagrams(s, step), StepUnpaid(s, step))
  {
    match step
    case Poll(kinds, recycle) =>
      PollOfFits(s, kinds, ModeOf(recycle));
      PollKeeps(c, s, PollOf(kinds, ModeOf(recycle)), MAX_CQ_POLL_BATCH);
    case Direct(kinds, batchMax, back) => DirectKeeps(c, s, kinds, batchMax, back);
    case Serve(batchMax, back) => ServedKeeps(c, s, Backs(back, ServeSize(s, batchMax)));
    case Idle => IdleKeeps(c, s);
    case Trim =>
    case Reclaim(bufs) =>
    case Lend(n) =>
    case GiveBack(bufs) =>
  }

  lemma PerformConserves(c: Config, s: Rx, step: Step, b: Buf)
    requires Sound(c, s)
    ensures Perform(c, s, step).Copies(b) == s.Copies(b)
  {
    match step
    case Poll(kinds, recycle) =>
      PollOfFits(s, kinds, ModeOf(recycle));
      PollConserves(c, s, PollOf(kinds, ModeOf(recycle)), MAX_CQ_POLL_BATCH, b);
    case Direct(kinds, batchMax, back) => DirectConserves(c, s, kinds, batchMax, back, b);
    case Serve(batchMax, back) => ServedConserves(s, Backs(back, ServeSize(s, batchMax)), b);
    case Idle => IdleConserves(c, s, b);
    case Trim => TrimConserves(c, s, b);
    case Reclaim(bufs) => ReclaimConserves(s, bufs, b);
    case Lend(n) => LendConserves(s, n, b);
    case GiveBack(bufs) => GiveBackConserves(s, bufs, b);
  }

  lemma {:induction false} RunIsKept(c: Config, s: Rx, steps: seq<Step>)
    requires Sound(c, s)
    ensures Kept(c, s, PerformAll(c, s, steps), RunDatagrams(c, s, steps), RunUnpaid(c, s, steps))
    decreases |steps|
  {
    if steps != [] {
      var s1 := Perform(c, s, steps[0]);
      PerformKeeps(c, s, steps[0]);
      RunIsKept(c, s1, steps[1..]);
      KeptTransitive(c, s, s1, PerformAll(c, s1, steps[1..]), StepDatagrams(s, steps[0]), RunDatagrams(c, s1, steps[1..]),
                     StepUnpaid(s, steps[0]), RunUnpaid(c, s1, steps[1..]));
    }
  }

  lemma {:induction false} RunConserves(c: Config, s: Rx, steps: seq<Step>, b: Buf)
    requires Sound(c, s)
    ensures PerformAll(c, s, steps).Copies(b) == s.Copies(b)
    decreases |steps|
  {
    if steps != [] {
      PerformKeeps(c, s, steps[0]);
      PerformConserves(c, s, steps[0], b);
      RunConserves(c, Perform(c, s, steps[0]), steps[1..], b);
    }
  }

  /**
   Any run: the debt stays within its bound, work requests on the queue plus debt fall short of what they were by exactly the
   failed and recycled completions that were polled, every buffer is still somewhere, and what was delivered or given up
   followed by the queue is the old queue followed by the datagrams received, in order.
   */
  lemma RunKeeps(c: Config, s: Rx, steps: seq<Step>, b: Buf)
    requires Sound(c, s)
    ensures var s' := PerformAll(c, s, steps);
            && 0 <= s'.debt <= c.Bound()
            && |s'.posted| + s'.debt == |s.posted| + s.debt - RunUnpaid(c, s, steps)
            && s'.Copies(b) == s.Copies(b)
            && Sound(c, s') && s'.arrived == s.arrived + RunDatagrams(c, s, steps)
            && s.gone <= s'.gone && s'.gone[|s.gone|..] + s'.queue == s.queue + RunDatagrams(c, s, steps)
  {
    RunIsKept(c, s, steps);
    RunConserves(c, s, steps, b);
    KeptQueue(c, s, PerformAll(c, s, steps), RunDatagrams(c, s, steps), RunUnpaid(c, s, steps));
  }

  /** The step polls good packets only, and does not recycle them. */
  predicate GoodStep(step: Step)
  {
    && (step.Poll? || step.Direct? ==> forall k | k in step.kinds :: !IsUnpaid(k))
    && (step.Poll? ==> !step.recycle)
  }

  lemma {:induction false} AllPaid(kinds: seq<Kind>)
    requires forall k | k in kinds :: !IsUnpaid(k)
    ensures Unpaid(kinds) == 0
  {
    if kinds != [] {
      assert kinds[0] in kinds;
      AllPaid(kinds[1..]);
    }
  }

  lemma GoodStepIsPaid(s: Rx, step: Step)
    requires GoodStep(step)
    ensures StepUnpaid(s, step) == 0
  {
    var kinds := Polled(s, step).1;
    forall k | k in kinds
      ensures !IsUnpaid(k)
    {
      var i :| 0 <= i < |kinds| && kinds[i] == k;
      assert step.kinds[i] in step.kinds;
    }
    AllPaid(kinds);
  }

  lemma {:induction false} GoodRunIsPaid(c: Config, s: Rx, steps: seq<Step>)
    requires forall step | step in steps :: GoodStep(step)
    ensures RunUnpaid(c, s, steps) == 0
    decreases |steps|
  {
    if steps != [] {
      assert steps[0] in steps;
      GoodStepIsPaid(s, steps[0]);
      GoodRunIsPaid(c, Perform(c, s, steps[0]), steps[1..]);
    }
  }

  /** Over good completions, outstanding work requests plus debt are constant. */
  lemma GoodRunKeepsRequests(c: Config, s: Rx, steps: seq<Step>)
    requires Sound(c, s) && forall step | step in steps :: GoodStep(step)
    ensures var s' := PerformAll(c, s, steps);
            |s'.posted| + s'.debt == |s.posted| + s.debt
  {
    RunIsKept(c, s, steps);
    GoodRunIsPaid(c, s, steps);
  }

  /** In keep-full mode a debt is never left to reach a full posting batch. */
  lemma KeepFullBound(c: Config, s: Rx, steps: seq<Step>)
    requires Sound(c, s) && c.keepFull
    ensures PerformAll(c, s, steps).debt < c.wrToPost
  {
    RunIsKept(c, s, steps);
  }

  // ------------------------------------------------------------------ keeping the receive queue full

  /** Whatever the run before: a posting leaves as many work requests as there were with the debt paid, less those lost
   to unpaid completions, unless the pool has run dry. */
  lemma PostingRefills(c: Config, s: Rx, steps: seq<Step>)
    requires Sound(c, s) && PerformAll(c, s, steps).posted != []
    ensures var r := PerformAll(c, s, steps);
            var (r', used) := Compensate(c, r.(posted := r.posted[1..]), r.posted[0]);
            !used && |r'.posted| >= |r.posted| ==> r'.pool == [] || |r'.posted| == |s.posted| + s.debt - RunUnpaid(c, s, steps)
  {
    RunIsKept(c, s, steps);
    var r := PerformAll(c, s, steps);
    CompensatePosts(c, r.(posted := r.posted[1..]), r.posted[0]);
  }

  function Idles(n: nat): (r: seq<Step>) { if n == 0 then [] else [Idle] + Idles(n - 1) }

  /** Idle polls go on paying until the debt is paid or no free buffer can be had. */
  lemma {:induction false} IdlingPays(c: Config, s: Rx, n: nat)
    requires Sound(c, s) && n >= s.debt
    ensures var s' := PerformAll(c, s, Idles(n));
            && Kept(c, s, s', [], 0)
            && (s'.debt == 0 || FreeFor(c, s') == [])
    decreases n
  {
    if n > 0 {
      var s1 := IdlePoll(c, s);
      assert Idles(n)[1..] == Idles(n - 1);
      IdleKeeps(c, s);
      IdlePosts(c, s);
      if s1 == s {
        IdlingStays(c, s, n - 1);
      } else {
        IdlingPays(c, s1, n - 1);
        KeptTransitive(c, s, s1, PerformAll(c, s1, Idles(n - 1)), [], [], 0, 0);
      }
    }
  }

  lemma {:induction false} IdlingStays(c: Config, s: Rx, n: nat)
    requires IdlePoll(c, s) == s
    ensures PerformAll(c, s, Idles(n)) == s
  {
    if n > 0 {
      assert Idles(n)[1..] == Idles(n - 1);
      IdlingStays(c, s, n - 1);
    }
  }

  /** After any run, enough idle polls fill the receive queue, unless no free buffer can be had. */
  lemma IdlingRefills(c: Config, s: Rx, steps: seq<Step>, n: nat)
    requires Sound(c, s) && n >= PerformAll(c, s, steps).debt
    ensures var s' := PerformAll(c, PerformAll(c, s, steps), Idles(n));
            FreeFor(c, s') == [] || |s'.posted| == |s.posted| + s.debt - RunUnpaid(c, s, steps)
  {
    RunIsKept(c, s, steps);
    IdlingPays(c, PerformAll(c, s, steps), n);
  }

  /** n good completions, for which taken work requests went, took s to s': they were posted for in whole batches of wrToPost,
   with the oldest of the pool, and the debt is what is left over. */
  ghost predicate InBatches(c: Config, s: Rx, s': Rx, n: nat, taken: nat)
    requires c.wrToPost > 0
  {
    var k := s.debt + n - s'.debt;
    && s'.debt == (s.debt + n) % c.wrToPost && s'.global == s.global
    && 0 <= k <= |s.pool| && s.pool[k..] <= s'.pool
    && taken <= |s.posted| + k && s'.posted == (s.posted + s.pool[..k])[taken..]
  }

  lemma CompensateInBatches(c: Config, s: Rx, buff: Buf)
    requires c.Valid() && 0 <= s.debt < c.wrToPost && s.debt < |s.pool|
    ensures var (s', used) := Compensate(c, s, buff); !used && InBatches(c, s, s', 1, 0)
  {
    CompensatePosts(c, s, buff);
    var w, s' := c.wrToPost, Compensate(c, s, buff).0;
    if s.debt + 1 == w {
      DivModUnique(w, w, 1, 0);
      assert s'.posted[|s.posted|..] == s.pool[..w] && s'.pool == s.pool[w..];
    } else {
      DivModUnique(s.debt + 1, w, 0, s.debt + 1);
    }
  }

  /** What comes back joins the pool at its end. */
  lemma HandOverInBatches(c: Config, s: Rx, s1: Rx, buff: Buf, returned: seq<Buf>)
    requires c.wrToPost > 0 && InBatches(c, s, s1, 1, 0)
    ensures InBatches(c, s, HandOver(s1, buff, returned), 1, 0)
  {
    var k := s.debt + 1 - s1.debt;
    PrefixTransitive(s.pool[k..], s1.pool, HandOver(s1, buff, returned).pool);
  }

  lemma PassInBatches(c: Config, s: Rx, buff: Buf, returned: seq<Buf>)
    requires c.Valid() && 0 <= s.debt < c.wrToPost && s.debt < |s.pool|
    ensures InBatches(c, s, PassOrRepost(c, s, buff, returned), 1, 0)
  {
    CompensateInBatches(c, s, buff);
    HandOverInBatches(c, s, Compensate(c, s, buff).0, buff, returned);
  }

  predicate SameBuffers(s: Rx, t: Rx)
  {
    s.debt == t.debt && s.pool == t.pool && s.posted == t.posted && s.global == t.global
  }

  lemma SameBatches(c: Config, s: Rx, s': Rx, t: Rx, t': Rx)
    requires c.wrToPost > 0 && SameBuffers(s, t) && SameBuffers(s', t') && InBatches(c, t, t', 1, 0)
    ensures InBatches(c, s, s', 1, 0)
  {
  }

  /** One good completion, with enough free buffers. */
  lemma OneInBatches(c: Config, s: Rx, buff: Buf, kind: Kind)
    requires c.Valid() && 0 <= s.debt < c.wrToPost && s.debt < |s.pool| && !IsUnpaid(kind)
    ensures InBatches(c, s, Process(c, s, buff, kind), 1, 0)
  {
    match kind
    case Tcp(returned) => PassInBatches(c, s, buff, returned);
    case Udp => UdpInBatches(c, s, buff);
    case Passed(returned) =>
      PassInBatches(c, Noted(s, buff), buff, returned);
      var s' := Process(c, s, buff, kind);
      SameBatches(c, s, s', Noted(s, buff), s');
  }

  lemma UdpInBatches(c: Config, s: Rx, buff: Buf)
    requires c.Valid() && 0 <= s.debt < c.wrToPost && s.debt < |s.pool|
    ensures InBatches(c, s, Process(c, s, buff, Udp), 1, 0)
  {
    var all := s.queue + [buff];
    var s0 := s.(queue := all[1..], arrived := s.arrived + [buff]);
    CompensateInBatches(c, s0, all[0]);
    SameBatches(c, s, Process(c, s, buff, Udp), s0, Compensate(c, s0, all[0]).0);
  }

  /** Enough free buffers for n and m completions leave enough for the m. */
  lemma BatchRoom(c: Config, s: Rx, s1: Rx, n: nat, m: nat, taken: nat)
    requires c.wrToPost > 0 && InBatches(c, s, s1, n, taken) && s.debt + n + m <= |s.pool|
    ensures 0 <= s1.debt < c.wrToPost && s1.debt + m <= |s1.pool|
  {
  }

  lemma BatchesCompose(c: Config, s: Rx, s1: Rx, s2: Rx, n: nat, m: nat, taken: nat, more: nat)
    requires c.wrToPost > 0 && 0 <= s.debt && InBatches(c, s, s1, n, taken) && InBatches(c, s1, s2, m, more)
    requires s.debt + n + m <= |s.pool|
    ensures InBatches(c, s, s2, n + m, taken + more)
  {
    var w := c.wrToPost;
    var k, j := s.debt + n - s1.debt, s1.debt + m - s2.debt;
    ModOfSum(s.debt + n, m, w);
    assert s1.pool[..j] == s.pool[k..k + j];
    assert s.pool[..k + j] == s.pool[..k] + s.pool[k..k + j];
    assert s.posted + s.pool[..k + j] == (s.posted + s.pool[..k]) + s1.pool[..j];
    assert s.pool[k + j..] == s.pool[k..][j..] <= s1.pool[j..];
  }

  lemma ModOfSum(a: nat, m: nat, w: nat)
    requires w > 0
    ensures (a % w + m) % w == (a + m) % w
  {
    var q := (a % w + m) / w;
    assert a + m == w * (a / w) + w * q + (a % w + m) % w == w * (a / w + q) + (a % w + m) % w;
    DivModUnique(a + m, w, a / w + q, (a % w + m) % w);
  }

  lemma {:induction false} AllInBatches(c: Config, s: Rx, batch: seq<Buf>, kinds: seq<Kind>)
    requires c.Valid() && 0 <= s.debt < c.wrToPost && |batch| == |kinds|
    requires s.debt + |batch| <= |s.pool| && forall k | k in kinds :: !IsUnpaid(k)
    ensures InBatches(c, s, ProcessAll(c, s, batch, kinds), |batch|, 0)
    decreases |batch|
  {
    if batch == [] {
      DivModUnique(s.debt, c.wrToPost, 0, s.debt);
    } else {
      var s1 := Process(c, s, batch[0], kinds[0]);
      assert kinds[0] in kinds;
      OneInBatches(c, s, batch[0], kinds[0]);
      BatchRoom(c, s, s1, 1, |batch| - 1, 0);
      AllInBatches(c, s1, batch[1..], kinds[1..]);
      BatchesCompose(c, s, s1, ProcessAll(c, s1, batch[1..], kinds[1..]), 1, |batch| - 1, 0, 0);
    }
  }

  lemma EmptyPoll(c: Config, s: Rx, kinds: seq<Kind>, most: nat)
    requires PollSizeUpTo(s, kinds, most) == 0
    ensures PollUpTo(c, s, kinds, most) == s
  {
    assert s.posted[0..] == s.posted;
  }

  lemma TailOfConcat(a: seq<seq<Buf>>, b: seq<seq<Buf>>)
    requires a != []
    ensures a + b != [] && (a + b)[0] == a[0] && (a + b)[1..] == a[1..] + b
  {
  }

  lemma {:induction false} ServedConcat(s: Rx, a: seq<seq<Buf>>, b: seq<seq<Buf>>)
    requires |a| <= |s.queue|
    ensures Served(s, a + b) == Served(Served(s, a), b)
    decreases |a|
  {
    if a == [] {
      assert a + b == b;
    } else {
      TailOfConcat(a, b);
      ServedConcat(Deliver(s, a[0]), a[1..], b);
    }
  }

  /** s is where n deliveries have led from s0. */
  ghost predicate Serving(s0: Rx, s: Rx, back: seq<seq<Buf>>, n: nat)
  {
    n <= |back| && n + |s.queue| == |s0.queue| && s == Served(s0, back[..n])
  }

  lemma ServeOneMore(s0: Rx, s: Rx, back: seq<seq<Buf>>, n: nat)
    requires Serving(s0, s, back, n) && n < |back| && s.queue != []
    ensures Serving(s0, Deliver(s, back[n]), back, n + 1)
  {
    assert back[..n + 1] == back[..n] + [back[n]];
    ServedConcat(s0, back[..n], [back[n]]);
    var s1 := Deliver(s, back[n]);
    assert Served(s, [back[n]]) == Served(s1, []);
  }

  // ------------------------------------------------------------------ draining

  /** The steps that the first n polls of a drain stand for. */
  function Polls(polls: seq<seq<Kind>>, recycle: bool, n: nat): (r: seq<Step>)
    requires n <= |polls|
    ensures |r| == n
  {
    seq(n, i requires 0 <= i < n => Poll(polls[i], recycle))
  }

  lemma {:induction false} PerformOneMore(c: Config, s: Rx, steps: seq<Step>, step: Step)
    ensures PerformAll(c, s, steps + [step]) == Perform(c, PerformAll(c, s, steps), step)
    decreases |steps|
  {
    if steps == [] {
      assert (steps + [step])[1..] == [];
    } else {
      PerformOneMore(c, Perform(c, s, steps[0]), steps[1..], step);
      assert (steps + [step])[1..] == steps[1..] + [step];
    }
  }

  /** A drain after n polls: where it stands, how many completions it has seen, which buffer came last. */
  function Drained(c: Config, s: Rx, polls: seq<seq<Kind>>, recycle: bool, n: nat): (r: nat)
    requires n <= |polls|
  {
    if n == 0 then 0
    else Drained(c, s, polls, recycle, n - 1) + PollSize(After(c, s, polls, recycle, n - 1), polls[n - 1])
  }

  function After(c: Config, s: Rx, polls: seq<seq<Kind>>, recycle: bool, n: nat): (r: Rx)
    requires n <= |polls|
  {
    PerformAll(c, s, Polls(polls, recycle, n))
  }

  function LastPolled(c: Config, s: Rx, polls: seq<seq<Kind>>, recycle: bool, n: nat): (r: Option<Buf>)
    requires n <= |polls|
  {
    if n == 0 then None
    else
      var s1 := After(c, s, polls, recycle, n - 1);
      var k := PollSize(s1, polls[n - 1]);
      if k == 0 then LastPolled(c, s, polls, recycle, n - 1) else Some(s1.posted[k - 1])
  }

  /** The device's answers have run dry after n polls: the last one was short, or the next one is empty. */
  predicate RunsDry(c: Config, s: Rx, polls: seq<seq<Kind>>, recycle: bool, n: nat)
    requires n <= |polls|
  {
    || n == |polls| || PollSize(After(c, s, polls, recycle, n), polls[n]) == 0
    || (n > 0 && PollSize(After(c, s, polls, recycle, n - 1), polls[n - 1]) < MAX_CQ_POLL_BATCH)
  }

  /** Each of the first n polls was made below the limit and found something, and all but the last were full. */
  ghost predicate PollsInTurn(c: Config, s: Rx, polls: seq<seq<Kind>>, recycle: bool, n: nat, wce: nat)
    requires n <= |polls|
  {
    forall i | 0 <= i < n ::
      && wce + Drained(c, s, polls, recycle, i) < c.wceMax && 0 < PollSize(After(c, s, polls, recycle, i), polls[i])
      && (i + 1 < n ==> PollSize(After(c, s, polls, recycle, i), polls[i]) == MAX_CQ_POLL_BATCH)
  }

  predicate LastWasFull(c: Config, s: Rx, polls: seq<seq<Kind>>, recycle: bool, n: nat)
    requires 0 < n <= |polls|
  {
    PollSize(After(c, s, polls, recycle, n - 1), polls[n - 1]) == MAX_CQ_POLL_BATCH
  }

  /** Where the loop stands: a full last poll leads on, and a short one means the device has run dry. */
  ghost predicate Turning(c: Config, s: Rx, polls: seq<seq<Kind>>, recycle: bool, n: nat, wce: nat, drained: bool, anew: bool)
    requires n <= |polls|
  {
    && PollsInTurn(c, s, polls, recycle, n, wce) && (!drained && n > 0 ==> LastWasFull(c, s, polls, recycle, n))
    && (drained && anew ==> RunsDry(c, s, polls, recycle, n))
  }

  lemma OneMoreTurn(c: Config, s: Rx, polls: seq<seq<Kind>>, recycle: bool, n: nat, wce: nat, ret: nat)
    requires n < |polls| && PollsInTurn(c, s, polls, recycle, n, wce) && wce + Drained(c, s, polls, recycle, n) < c.wceMax
    requires (n > 0 ==> LastWasFull(c, s, polls, recycle, n)) && ret == PollSize(After(c, s, polls, recycle, n), polls[n]) > 0
    ensures PollsInTurn(c, s, polls, recycle, n + 1, wce)
    ensures if ret == MAX_CQ_POLL_BATCH then LastWasFull(c, s, polls, recycle, n + 1) else RunsDry(c, s, polls, recycle, n + 1)
  {
  }

  lemma TurningGoesOn(c: Config, s: Rx, polls: seq<seq<Kind>>, recycle: bool, n: nat, wce: nat, ret: nat, anew: bool)
    requires n < |polls| && Turning(c, s, polls, recycle, n, wce, false, anew) && wce + Drained(c, s, polls, recycle, n) < c.wceMax
    requires ret == PollSize(After(c, s, polls, recycle, n), polls[n]) > 0
    ensures Turning(c, s, polls, recycle, n + 1, wce, ret < MAX_CQ_POLL_BATCH, anew)
  {
    OneMoreTurn(c, s, polls, recycle, n, wce, ret);
  }

  /** The device has nothing for the next poll. */
  predicate Empty(c: Config, s: Rx, polls: seq<seq<Kind>>, recycle: bool, n: nat)
    requires n <= |polls|
  {
    n == |polls| || PollSize(After(c, s, polls, recycle, n), polls[n]) == 0
  }

  /** Where a drain stands after n polls. */
  ghost predicate Draining(c: Config, s0: Rx, s: Rx, polls: seq<seq<Kind>>, recycle: bool, n: nat, total: nat, lastWr: Option<Buf>)
  {
    && n <= |polls| && Sound(c, s0) && s == After(c, s0, polls, recycle, n)
    && total == Drained(c, s0, polls, recycle, n)
    && lastWr == if recycle then LastPolled(c, s0, polls, recycle, n) else None
  }

  lemma StartDraining(c: Config, s0: Rx, polls: seq<seq<Kind>>, recycle: bool)
    requires Sound(c, s0)
    ensures Draining(c, s0, s0, polls, recycle, 0, 0, None)
  {
  }

  lemma DrainingIsSound(c: Config, s0: Rx, s: Rx, polls: seq<seq<Kind>>, recycle: bool, n: nat, total: nat, lastWr: Option<Buf>)
    requires Draining(c, s0, s, polls, recycle, n, total, lastWr)
    ensures Sound(c, s)
  {
    RunIsKept(c, s0, Polls(polls, recycle, n));
  }

  lemma DrainStep(c: Config, s0: Rx, s: Rx, polls: seq<seq<Kind>>, recycle: bool, n: nat, total: nat, lastWr: Option<Buf>)
    requires Draining(c, s0, s, polls, recycle, n, total, lastWr) && n < |polls|
    ensures var k := PollSize(s, polls[n]);
            && k == PollSize(s, PollOf(polls[n], ModeOf(recycle)))
            && (k > 0 ==> Draining(c, s0, PollAndProcess(c, s, PollOf(polls[n], ModeOf(recycle))), polls, recycle, n + 1, total + k,
                                   if recycle then Some(s.posted[k - 1]) else lastWr))
            && (k == 0 ==> PollAndProcess(c, s, PollOf(polls[n], ModeOf(recycle))) == s && RunsDry(c, s0, polls, recycle, n))
            && (k < MAX_CQ_POLL_BATCH ==> RunsDry(c, s0, polls, recycle, n + 1))
  {
    DrainOneMore(c, s0, polls, recycle, n);
    if PollSize(s, polls[n]) == 0 { EmptyPoll(c, s, PollOf(polls[n], ModeOf(recycle)), MAX_CQ_POLL_BATCH); }
  }

  lemma DrainOneMore(c: Config, s: Rx, polls: seq<seq<Kind>>, recycle: bool, n: nat)
    requires n < |polls|
    ensures After(c, s, polls, recycle, n + 1) ==
            PollAndProcess(c, After(c, s, polls, recycle, n), PollOf(polls[n], ModeOf(recycle)))
  {
    var step := Poll(polls[n], recycle);
    assert Polls(polls, recycle, n + 1) == Polls(polls, recycle, n) + [step];
    PerformOneMore(c, s, Polls(polls, recycle, n), step);
  }

  lemma PollInBatches(c: Config, s: Rx, kinds: seq<Kind>, most: nat)
    requires c.Valid() && 0 <= s.debt < c.wrToPost && forall k | k in kinds :: !IsUnpaid(k)
    requires s.debt + PollSizeUpTo(s, kinds, most) <= |s.pool|
    ensures var n := PollSizeUpTo(s, kinds, most); InBatches(c, s, PollUpTo(c, s, kinds, most), n, n)
  {
    var n := PollSizeUpTo(s, kinds, most);
    AllInBatches(c, s.(posted := s.posted[n..]), s.posted[..n], kinds[..n]);
    var s' := PollUpTo(c, s, kinds, most);
    var k := s.debt + n - s'.debt;
    assert (s.posted + s.pool[..k])[n..] == s.posted[n..] + s.pool[..k];
  }

  /** One turn of a drain that queues datagrams. */
  ghost predicate IsTurn(c: Config, s: Rx, s': Rx, kinds: seq<Kind>)
  {
    s' == PollAndProcess(c, s, PollOf(kinds, Queueing))
  }

  lemma DrainTurns(c: Config, s: Rx, polls: seq<seq<Kind>>, n: nat)
    requires n < |polls|
    ensures IsTurn(c, After(c, s, polls, false, n), After(c, s, polls, false, n + 1), polls[n])
  {
    DrainOneMore(c, s, polls, false, n);
  }

  lemma OneMorePollInBatches(c: Config, s: Rx, s1: Rx, s2: Rx, kinds: seq<Kind>, total: nat, total': nat)
    requires c.Valid() && 0 <= s.debt && InBatches(c, s, s1, total, total) && forall k | k in kinds :: !IsUnpaid(k)
    requires total' == total + PollSize(s1, kinds) && s.debt + total' <= |s.pool| && IsTurn(c, s1, s2, kinds)
    ensures InBatches(c, s, s2, total', total')
  {
    var n := PollSize(s1, kinds);
    BatchRoom(c, s, s1, total, n, total);
    GoodInQueueing(kinds);
    PollInBatches(c, s1, PollOf(kinds, Queueing), MAX_CQ_POLL_BATCH);
    BatchesCompose(c, s, s1, s2, total, n, total, n);
  }

  lemma NoneInBatches(c: Config, s: Rx)
    requires 0 <= s.debt < c.wrToPost
    ensures InBatches(c, s, s, 0, 0)
  {
    DivModUnique(s.debt, c.wrToPost, 0, s.debt);
    assert (s.posted + s.pool[..0])[0..] == s.posted;
  }

  /** The first n polls were posted for in batches. */
  ghost predicate DrainedInBatches(c: Config, s: Rx, polls: seq<seq<Kind>>, n: nat)
    requires n <= |polls| && c.wrToPost > 0
  {
    InBatches(c, s, After(c, s, polls, false, n), Drained(c, s, polls, false, n), Drained(c, s, polls, false, n))
  }

  lemma PollInBatchesToo(c: Config, s: Rx, polls: seq<seq<Kind>>, n: nat)
    requires c.Valid() && 0 <= s.debt && n < |polls| && DrainedInBatches(c, s, polls, n) && forall k | k in polls[n] :: !IsUnpaid(k)
    requires s.debt + Drained(c, s, polls, false, n + 1) <= |s.pool|
    ensures DrainedInBatches(c, s, polls, n + 1)
  {
    DrainTurns(c, s, polls, n);
    OneMorePollInBatches(c, s, After(c, s, polls, false, n), After(c, s, polls, false, n + 1), polls[n],
                         Drained(c, s, polls, false, n), Drained(c, s, polls, false, n + 1));
  }

  /** A drain of good completions with enough free buffers posts them in whole batches, oldest first, and owes the rest. */
  lemma {:induction false} DrainInBatches(c: Config, s: Rx, polls: seq<seq<Kind>>, n: nat)
    requires Sound(c, s) && s.debt < c.wrToPost && n <= |polls| && s.debt + Drained(c, s, polls, false, n) <= |s.pool|
    requires forall i | 0 <= i < n :: forall k | k in polls[i] :: !IsUnpaid(k)
    ensures DrainedInBatches(c, s, polls, n)
    decreases n
  {
    if n == 0 {
      NoneInBatches(c, s);
    } else {
      DrainInBatches(c, s, polls, n - 1);
      PollInBatchesToo(c, s, polls, n - 1);
    }
  }

  lemma GoodInQueueing(kinds: seq<Kind>)
    requires forall k | k in kinds :: !IsUnpaid(k)
    ensures forall k | k in PollOf(kinds, Queueing) :: !IsUnpaid(k)
  {
    forall k | k in PollOf(kinds, Queueing)
      ensures !IsUnpaid(k)
    {
      var i :| 0 <= i < |kinds| && PollOf(kinds, Queueing)[i] == k;
      assert kinds[i] in kinds;
    }
  }

  class CqMgr {
    const cfg: Config
    var debt: int
    var pool: seq<Buf>
    var queue: seq<Buf>
    var posted: seq<Buf>
    var global: seq<Buf>
    var wceCounter: nat            // m_n_wce_counter
    var wasDrained: bool           // m_b_was_drained
    var pktDrop: nat               // n_rx_pkt_drop
    var app: multiset<Buf>         // buffers elsewhere
    ghost var arrived: seq<Buf>
    ghost var gone: seq<Buf>
    ghost var unpaid: nat

    ghost function State(): (s: Rx)
      reads this
    {
      Rx(debt, pool, queue, posted, global, app, arrived, gone, unpaid)
    }

    /** A queue whose work requests have just been posted (`add_qp_rx`). */
    constructor (cfg: Config, posted: seq<Buf>, global: seq<Buf>)
      requires cfg.Valid()
      ensures Sound(cfg, State()) && this.cfg == cfg
      ensures State() == Rx(0, [], [], posted, global, multiset{}, [], [], 0)
    {
      this.cfg := cfg;
      this.posted, this.global := posted, global;
      debt, pool, queue, wceCounter, wasDrained, pktDrop := 0, [], [], 0, false, 0;
      app, arrived, gone, unpaid := multiset{}, [], [], 0;
    }

    /** `request_more_buffers` */
    method RequestMoreBuffers() returns (ok: bool)
      modifies this`pool, this`global
      ensures ok <==> cfg.level <= |old(global)|
      ensures State() == MoreBuffers(cfg, old(State()))
    {
      ok := cfg.level <= |global|;
      if ok {
        pool, global := pool + global[..cfg.level], global[cfg.level..];
      }
    }

    /** `return_extra_buffers`: keep `level` buffers when twice as many have piled up. */
    method ReturnExtraBuffers()
      requires cfg.Valid()
      modifies this`pool, this`global
      ensures State() == Trimmed(cfg, old(State())) && |pool| < 2 * cfg.level
    {
      if |pool| < 2 * cfg.level { return; }
      pool, global := pool[..cfg.level], pool[cfg.level..] + global;
    }

    /** `process_recv_queue`: back[i] are the buffers that the sockets give back while they take the i-th datagram. */
    method ProcessRecvQueue(batchMax: nat, back: seq<seq<Buf>>) returns (processed: nat)
      modifies this`queue, this`gone, this`app, this`pool
      ensures processed == ServeSize(old(State()), batchMax) && State() == ServeQueue(old(State()), batchMax, back)
    {
      processed := 0;
      ghost var n := ServeSize(State(), batchMax);
      ghost var backs := Backs(back, n);
      while queue != []
        invariant processed < AtLeastOne(batchMax) && Serving(old(State()), State(), backs, processed)
        decreases |queue|
      {
        ServeOneMore(old(State()), State(), backs, processed);
        TakeDatagram(if processed < |back| then back[processed] else []);
        processed := processed + 1;
        if processed >= batchMax {
          break;
        }
      }
      assert processed == n && backs[..processed] == backs;
    }

    /** The oldest datagram leaves the queue for the sockets. */
    method TakeDatagram(returned: seq<Buf>)
      requires queue != []
      modifies this`queue, this`gone, this`app, this`pool
      ensures State() == Deliver(old(State()), returned)
    {
      var buff := queue[0];
      queue := queue[1..];
      gone := gone + [buff];
      HandToSockets(buff, returned);
    }

    /** Post min(debt, pool) buffers and lower the debt. */
    method PostFreeBuffers()
      requires debt >= 0
      modifies this`debt, this`pool, this`posted
      ensures State() == PayDebt(old(State()))
    {
      var buffers := if debt < |pool| then debt else |pool|;
      posted := posted + pool[..buffers];
      pool := pool[buffers..];
      debt := debt - buffers;
    }

    /** `compensate_qp_poll_failed`: an idle poll also pays what it can. */
    method CompensateQpPollFailed()
      requires Sound(cfg, State())
      modifies this`debt, this`pool, this`posted, this`global
      ensures State() == IdlePoll(cfg, old(State())) && Sound(cfg, State()) && debt <= old(debt)
      ensures old(debt) > 0 && (old(pool) != [] || cfg.level <= |old(global)|) ==> debt < old(debt)
    {
      if debt != 0 {
        var free := |pool| > 0;
        if !free {
          free := RequestMoreBuffers();
        }
        if free {
          PostFreeBuffers();
        }
      }
    }

    /** `compensate_qp_poll_success` */
    method CompensateQpPollSuccess(buff: Buf) returns (used: bool)
      requires cfg.Valid() && debt >= 0
      modifies this`debt, this`pool, this`posted, this`global, this`pktDrop
      ensures (State(), used) == Compensate(cfg, old(State()), buff)
      ensures pktDrop == old(pktDrop) + if used then 1 else 0
    {
      debt := debt + 1;
      if debt < cfg.wrToPost {
        return false;
      }
      var free := |pool| > 0;
      if !free {
        free := RequestMoreBuffers();
      }
      if free {
        PostFreeBuffers();
      } else if cfg.keepFull || debt + MAX_CQ_POLL_BATCH > cfg.rxNumWr {
        pktDrop := pktDrop + 1;
        posted := posted + [buff];
        debt := debt - 1;
        return true;
      }
      return false;
    }

    /** The body of the drain loop for one polled completion. */
    method ProcessElement(buff: Buf, kind: Kind)
      requires Sound(cfg, State()) && (kind.Passed? ==> queue == [])
      modifies this`debt, this`pool, this`queue, this`posted, this`global, this`pktDrop,
               this`app, this`arrived, this`gone, this`unpaid
      ensures State() == Process(cfg, old(State()), buff, kind) && Sound(cfg, State())
    {
      ProcessKeeps(cfg, State(), buff, kind);
      match kind {
        case Bad(returned) => DropBad(buff, returned);
        case Tcp(returned) => PassOn(buff, returned);
        case Udp => QueueDatagram(buff);
        case Passed(returned) => PassDatagram(buff, returned);
        case Recycled => Recycle(buff);
      }
    }

    method DropBad(buff: Buf, returned: seq<Buf>)
      modifies this`app, this`pool, this`unpaid
      ensures State() == Process(cfg, old(State()), buff, Bad(returned))
    {
      unpaid := unpaid + 1;
      HandToSockets(buff, returned);
    }

    /** A TCP packet goes to its socket at once, unless its buffer is needed. */
    method PassOn(buff: Buf, returned: seq<Buf>)
      requires cfg.Valid() && debt >= 0
      modifies this`debt, this`pool, this`posted, this`global, this`pktDrop, this`app
      ensures State() == Process(cfg, old(State()), buff, Tcp(returned))
    {
      var used := CompensateQpPollSuccess(buff);
      if !used {
        HandToSockets(buff, returned);
      }
    }

    /** A datagram goes to its socket at once, unless its buffer is needed. */
    method PassDatagram(buff: Buf, returned: seq<Buf>)
      requires cfg.Valid() && debt >= 0
      modifies this`debt, this`pool, this`posted, this`global, this`pktDrop, this`app, this`arrived, this`gone
      ensures State() == Process(cfg, old(State()), buff, Passed(returned))
    {
      arrived := arrived + [buff];
      gone := gone + [buff];
      PassOn(buff, returned);
    }

    /** `reclaim_recv_buffers`: the sockets return buffers on their own, and extra ones go on to the global pool. */
    method ReclaimRecvBuffers(bufs: seq<Buf>)
      requires cfg.Valid() && multiset(bufs) <= app
      modifies this`app, this`pool, this`global
      ensures State() == Trimmed(cfg, Reclaimed(old(State()), bufs))
    {
      app := app - multiset(bufs);
      for i := 0 to |bufs|
        invariant pool == old(pool) + bufs[..i] && app == old(app) - multiset(bufs) && global == old(global)
      {
        assert bufs[..i + 1] == bufs[..i] + [bufs[i]];
        pool := pool + [bufs[i]];
      }
      assert bufs[..|bufs|] == bufs;
      assert State() == Reclaimed(old(State()), bufs);
      ReturnExtraBuffers();
    }

    /** `reclaim_recv_buffer_helper` on a packet just received. */
    method Recycle(buff: Buf)
      modifies this`pool, this`unpaid, this`pktDrop
      ensures State() == Process(cfg, old(State()), buff, Recycled)
    {
      pktDrop := pktDrop + 1;
      unpaid := unpaid + 1;
      pool := pool + [buff];
    }

    /** A datagram joins the queue, and the oldest one may be taken off it to be re-posted. */
    method QueueDatagram(buff: Buf)
      requires cfg.Valid() && debt >= 0
      modifies this`debt, this`pool, this`queue, this`posted, this`global, this`pktDrop, this`arrived, this`gone
      ensures State() == Process(cfg, old(State()), buff, Udp)
    {
      queue := queue + [buff];
      arrived := arrived + [buff];
      var cur := queue[0];
      queue := queue[1..];
      var used := CompensateQpPollSuccess(cur);
      if used {
        gone := gone + [cur];
      } else {
        queue := [cur] + queue;
      }
    }

    /** `process_recv_buffer`, or the error path: the buffer leaves, others may come back to the pool. */
    method HandToSockets(buff: Buf, returned: seq<Buf>)
      modifies this`app, this`pool
      ensures State() == HandOver(old(State()), buff, returned)
    {
      app := app + multiset{buff};
      if multiset(returned) <= app {
        app := app - multiset(returned);
        pool := pool + returned;
      }
    }

    /** One poll of the drain loop: the oldest work requests complete and are processed in order. */
    method PollOnce(kinds: seq<Kind>, most: nat) returns (ret: nat, last: Buf)
      requires Sound(cfg, State()) && Fits(State(), kinds)
      modifies this`debt, this`pool, this`queue, this`posted, this`global, this`pktDrop,
               this`app, this`arrived, this`gone, this`unpaid
      ensures State() == PollUpTo(cfg, old(State()), kinds, most) && Sound(cfg, State())
      ensures ret == PollSizeUpTo(old(State()), kinds, most) && (ret > 0 ==> last == old(posted)[ret - 1])
    {
      ret := if |kinds| < most then |kinds| else most;
      ret := if |posted| < ret then |posted| else ret;
      last := if ret > 0 then posted[ret - 1] else 0;
      FitsPrefix(State(), kinds, ret, posted[ret..]);
      var batch := posted[..ret];
      posted := posted[ret..];
      ProcessBatch(batch, kinds[..ret]);
    }

    /** The loop over the completions of one poll. */
    method ProcessBatch(batch: seq<Buf>, kinds: seq<Kind>)
      requires Sound(cfg, State()) && |batch| == |kinds| && Fits(State(), kinds)
      modifies this`debt, this`pool, this`queue, this`posted, this`global, this`pktDrop,
               this`app, this`arrived, this`gone, this`unpaid
      ensures State() == ProcessAll(cfg, old(State()), batch, kinds) && Sound(cfg, State())
    {
      ghost var s0 := State();
      assert kinds[0..] == kinds;
      for i := 0 to |batch|
        invariant Sound(cfg, State()) && Fits(State(), kinds[i..])
        invariant ProcessAll(cfg, State(), batch[i..], kinds[i..]) == ProcessAll(cfg, s0, batch, kinds)
      {
        ProcessTail(cfg, State(), batch, kinds, i);
        FitsTail(cfg, State(), batch[i], kinds[i..]);
        assert kinds[i..][1..] == kinds[i + 1..];
        ProcessElement(batch[i], kinds[i]);
      }
    }

    /** `poll_and_process_element_rx` */
    method PollAndProcessElementRx(kinds: seq<Kind>, batchMax: nat, back: seq<seq<Buf>>) returns (processed: nat)
      requires Sound(cfg, State())
      modifies this
      ensures State() == DirectPoll(cfg, old(State()), kinds, batchMax, back) && Sound(cfg, State())
      ensures processed == ServeSize(old(State()), batchMax) + |Polled(old(State()), Direct(kinds, batchMax, back)).0|
    {
      ghost var s := State();
      ServedKeeps(cfg, s, Backs(back, ServeSize(s, batchMax)));
      processed := ProcessRecvQueue(batchMax, back);
      if processed >= batchMax {
        return;
      }
      DirectOnlyWhenEmpty(cfg, s, batchMax, back);
      var ret := PollDevice(kinds, batchMax);
      processed := processed + ret;
    }

    /** The part of `poll_and_process_element_rx` after the queue has been emptied. */
    method PollDevice(kinds: seq<Kind>, batchMax: nat) returns (ret: nat)
      requires Sound(cfg, State()) && queue == []
      modifies this
      ensures ret == PollSizeUpTo(old(State()), kinds, batchMax) && Sound(cfg, State())
      ensures State() == if ret > 0 then PollUpTo(cfg, old(State()), PollOf(kinds, Passing), batchMax) else IdlePoll(cfg, old(State()))
    {
      ghost var s := State();
      PollOfFits(s, kinds, Passing);
      var last;
      ret, last := PollOnce(PollOf(kinds, Passing), batchMax);
      if ret > 0 {
        wceCounter := wceCounter + ret;
        wasDrained := wasDrained || ret < batchMax;
      } else {
        EmptyPoll(cfg, s, PollOf(kinds, Passing), batchMax);
        CompensateQpPollFailed();
      }
    }

    /**
     `drain_and_proccess`.  `polls` is what the device reports at each poll; the loop stops at an empty or short poll or
     after `wceMax` completions, and has then performed `done` of the polls.  While recycling, good completions go
     back to the pool, and the caller is told the last buffer polled.
     */
    method DrainAndProcess(polls: seq<seq<Kind>>, recycle: bool)
      returns (total: nat, lastWr: Option<Buf>, ghost done: nat)
      requires Sound(cfg, State())
      modifies this
      ensures done <= |polls| && State() == After(cfg, old(State()), polls, recycle, done)
      ensures Kept(cfg, old(State()), State(), RunDatagrams(cfg, old(State()), Polls(polls, recycle, done)),
                   RunUnpaid(cfg, old(State()), Polls(polls, recycle, done)))
      ensures gone[|old(gone)|..] + queue == old(queue) + RunDatagrams(cfg, old(State()), Polls(polls, recycle, done))
      ensures total == Drained(cfg, old(State()), polls, recycle, done)
      ensures lastWr == if recycle then LastPolled(cfg, old(State()), polls, recycle, done) else None
      ensures recycle || !old(wasDrained) ==>
                old(wceCounter) + total >= cfg.wceMax || RunsDry(cfg, old(State()), polls, recycle, done)
      ensures PollsInTurn(cfg, old(State()), polls, recycle, done, old(wceCounter)) && (!recycle && old(wasDrained) ==> done == 0)
      ensures if wasDrained then Empty(cfg, old(State()), polls, recycle, done) && wceCounter == old(wceCounter) + total
              else wceCounter == 0
    {
      ghost var s := State();
      total, lastWr, done := Drain(polls, recycle);
      RunIsKept(cfg, s, Polls(polls, recycle, done));
      KeptQueue(cfg, s, State(), RunDatagrams(cfg, s, Polls(polls, recycle, done)), RunUnpaid(cfg, s, Polls(polls, recycle, done)));
    }

    /** One turn of the drain loop. */
    method DrainOnce(polls: seq<seq<Kind>>, recycle: bool, i: nat, ghost s0: Rx, ghost total: nat, ghost lastWr: Option<Buf>)
      returns (ret: nat, last: Buf)
      requires i < |polls| && Draining(cfg, s0, State(), polls, recycle, i, total, lastWr)
      modifies this`debt, this`pool, this`queue, this`posted, this`global, this`pktDrop,
               this`app, this`arrived, this`gone, this`unpaid
      ensures ret > 0 ==> Draining(cfg, s0, State(), polls, recycle, i + 1, total + ret, if recycle then Some(last) else lastWr)
      ensures ret == PollSize(After(cfg, s0, polls, recycle, i), polls[i])
      ensures ret == 0 ==> State() == old(State()) && RunsDry(cfg, s0, polls, recycle, i)
      ensures ret < MAX_CQ_POLL_BATCH ==> RunsDry(cfg, s0, polls, recycle, i + 1)
    {
      DrainStep(cfg, s0, State(), polls, recycle, i, total, lastWr);
      DrainingIsSound(cfg, s0, State(), polls, recycle, i, total, lastWr);
      PollOfFits(State(), polls[i], ModeOf(recycle));
      ret, last := PollOnce(PollOf(polls[i], ModeOf(recycle)), MAX_CQ_POLL_BATCH);
    }

    method Drain(polls: seq<seq<Kind>>, recycle: bool) returns (total: nat, lastWr: Option<Buf>, ghost done: nat)
      requires Sound(cfg, State())
      modifies this
      ensures Draining(cfg, old(State()), State(), polls, recycle, done, total, lastWr)
      ensures recycle || !old(wasDrained) ==>
                old(wceCounter) + total >= cfg.wceMax || RunsDry(cfg, old(State()), polls, recycle, done)
      ensures PollsInTurn(cfg, old(State()), polls, recycle, done, old(wceCounter)) && (!recycle && old(wasDrained) ==> done == 0)
      ensures if wasDrained then Empty(cfg, old(State()), polls, recycle, done) && wceCounter == old(wceCounter) + total
              else wceCounter == 0
    {
      total, lastWr, done := 0, None, 0;
      var i := 0;
      StartDraining(cfg, State(), polls, recycle);
      if recycle { wasDrained := false; }
      while cfg.wceMax > wceCounter && !wasDrained
        invariant i == done && Draining(cfg, old(State()), State(), polls, recycle, i, total, lastWr)
        invariant wceCounter == old(wceCounter) + total && (!recycle && old(wasDrained) ==> wasDrained && i == 0)
        invariant Turning(cfg, old(State()), polls, recycle, i, old(wceCounter), wasDrained, recycle || !old(wasDrained))
        decreases |polls| - i, !wasDrained
      {
        if i == |polls| {
          wasDrained := true;   // the device reports nothing
          return;
        }
        var ret, last := DrainOnce(polls, recycle, i, old(State()), total, lastWr);
        if ret == 0 {
          wasDrained := true;
          return;
        }
        TurningGoesOn(cfg, old(State()), polls, recycle, i, old(wceCounter), ret, recycle || !old(wasDrained));
        if recycle { lastWr := Some(last); }
        i, done := i + 1, done + 1;
        wceCounter := wceCounter + ret;
        wasDrained := ret < MAX_CQ_POLL_BATCH;
        total := total + ret;
      }
      wceCounter := 0;
      wasDrained := false;
    }
  }
}
