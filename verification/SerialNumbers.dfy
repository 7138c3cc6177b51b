/**
 The poll serial numbers of src/vma/dev/cq_mgr.cpp and cq_mgr_mlx5.cpp: every completion queue that has
 polled something publishes (its id, its own 32-bit count) as the new global serial number, and
 `request_notification` arms a queue only if the number the caller read is still the global one.
 */
module SerialNumbers {
  import opened Arith

  const TWO32: nat := 0x1_0000_0000

  type CqId = id: nat | 1 <= id < TWO32 witness 1

  /** The packed union: cq_id in the low word, cq_sn in the high word. */
  function Pack(id: CqId, sn: nat): (r: nat)
  {
    id + TWO32 * sn
  }

  lemma PackInjective(id: CqId, sn: nat, id': CqId, sn': nat)
    requires Pack(id, sn) == Pack(id', sn')
    ensures id == id' && sn == sn'
  {
    DivModUnique(Pack(id, sn), TWO32, sn, id);
    DivModUnique(Pack(id, sn), TWO32, sn', id');
  }

  /** One publication: queue `id` advanced its count by `count`. */
  datatype Publication = Publication(id: CqId, count: nat)

  /** How far queue `id` has counted over a history, without wrap-around. */
  function Total(h: seq<Publication>, id: CqId): (n: nat)
  {
    if h == [] then 0
    else Total(h[..|h| - 1], id) + if h[|h| - 1].id == id then h[|h| - 1].count else 0
  }

  /** The global serial number after a history. */
  function Global(h: seq<Publication>): (r: nat)
  {
    if h == [] then 0
    else var id := h[|h| - 1].id; Pack(id, Total(h, id) % TWO32)
  }

  ghost predicate Counting(h: seq<Publication>)
  {
    forall i | 0 <= i < |h| :: h[i].count >= 1
  }

  lemma {:induction false} TotalGrows(h: seq<Publication>, i: nat, j: nat, id: CqId)
    requires i <= j <= |h|
    ensures Total(h[..i], id) <= Total(h[..j], id)
    ensures Counting(h) && i < j && h[j - 1].id == id ==> Total(h[..i], id) < Total(h[..j], id)
    decreases j
  {
    if i < j {
      TotalGrows(h, i, j - 1, id);
      assert h[..j][..j - 1] == h[..j - 1];
    }
  }

  /** The number names the queue that published last, in its low word, and how far it has counted, in its high word. */
  lemma GlobalNamesLast(h: seq<Publication>)
    requires h != []
    ensures Global(h) % TWO32 == h[|h| - 1].id
    ensures Global(h) / TWO32 == Total(h, h[|h| - 1].id) % TWO32
  {
    var id := h[|h| - 1].id;
    DivModUnique(Global(h), TWO32, Total(h, id) % TWO32, id);
  }

  /**
   Exactly when an old number shows up again: the same queue published both and counted a multiple of
   2^32 in between.
   */
  lemma RepeatsExactlyOnWrap(h: seq<Publication>, i: nat, j: nat)
    requires i < j <= |h|
    ensures Global(h[..i]) == Global(h[..j]) <==>
              && i > 0 && h[i - 1].id == h[j - 1].id
              && (Total(h[..j], h[j - 1].id) - Total(h[..i], h[j - 1].id)) % TWO32 == 0
  {
    var id := h[j - 1].id;
    assert h[..j][|h[..j]| - 1] == h[j - 1];
    if i > 0 {
      assert h[..i][|h[..i]| - 1] == h[i - 1];
      TotalGrows(h, i, j, id);
      SameResidue(Total(h[..i], id), Total(h[..j], id), TWO32);
      if Global(h[..i]) == Global(h[..j]) {
        PackInjective(h[i - 1].id, Total(h[..i], h[i - 1].id) % TWO32, id, Total(h[..j], id) % TWO32);
      }
    }
  }

  /** While no queue has counted to 2^32, no number is ever published twice. */
  lemma NeverRepeats(h: seq<Publication>, i: nat, j: nat)
    requires i < j <= |h| && Counting(h) && Total(h, h[j - 1].id) < TWO32
    ensures Global(h[..i]) != Global(h[..j])
  {
    var id := h[j - 1].id;
    RepeatsExactlyOnWrap(h, i, j);
    TotalGrows(h, i, j, id);
    TotalGrows(h, j, |h|, id);
    assert h[..|h|] == h;
    var d := Total(h[..j], id) - Total(h[..i], id);
    DivModUnique(d, TWO32, 0, d);
  }

  /** The serial numbers and the notification flag of all completion queues. */
  class CqSerials {
    var globalSn: nat               // m_n_global_sn
    var pollSn: map<CqId, nat>      // m_n_cq_poll_sn of each queue
    var armed: set<CqId>            // m_b_notification_armed of each queue
    ghost var history: seq<Publication>

    ghost predicate Valid()
      reads this
    {
      && Counting(history) && globalSn == Global(history)
      && (forall i | 0 <= i < |history| :: history[i].id in pollSn)
      && (forall id | id in pollSn :: pollSn[id] == Total(history, id) % TWO32)
    }

    constructor (ids: set<CqId>)
      ensures Valid() && history == [] && pollSn.Keys == ids && armed == {}
    {
      globalSn := 0;
      pollSn := map id | id in ids :: 0;
      armed := {};
      history := [];
    }

    /** `cq_mgr::poll`: `ret` completions came out of the verbs poll; they count as one. */
    method Poll(id: CqId, ret: int) returns (cqPollSn: nat)
      requires Valid() && id in pollSn
      modifies this`globalSn, this`pollSn, this`history
      ensures Valid() && cqPollSn == globalSn && pollSn.Keys == old(pollSn.Keys)
      ensures history == old(history) + if ret > 0 then [Publication(id, 1)] else []
    {
      if ret <= 0 {
        return globalSn;
      }
      Publish(id, 1);
      cqPollSn := globalSn;
    }

    /** `cq_mgr_mlx5::update_global_sn` after polling some completions, possibly none. */
    method UpdateGlobalSn(id: CqId, numPolled: nat) returns (cqPollSn: nat)
      requires Valid() && id in pollSn
      modifies this`globalSn, this`pollSn, this`history
      ensures Valid() && cqPollSn == globalSn && pollSn.Keys == old(pollSn.Keys)
      ensures history == old(history) + if numPolled > 0 then [Publication(id, numPolled)] else []
    {
      if numPolled > 0 {
        Publish(id, numPolled);
      }
      cqPollSn := globalSn;
    }

    method Publish(id: CqId, count: nat)
      requires Valid() && id in pollSn && count >= 1
      modifies this`globalSn, this`pollSn, this`history
      ensures Valid() && history == old(history) + [Publication(id, count)] && pollSn.Keys == old(pollSn.Keys)
    {
      AddModulo(Total(history, id), count, TWO32);
      pollSn := pollSn[id := (pollSn[id] + count) % TWO32];
      globalSn := Pack(id, pollSn[id]);
      ghost var h := history;
      history := history + [Publication(id, count)];
      assert history[..|history| - 1] == h;
    }

    /**
     `request_notification`.  `readAt` is how many publications had happened when the caller read userSn.
     While no queue has wrapped its counter the check is passed only if nothing was polled since.
     */
    method RequestNotification(id: CqId, userSn: nat, verbsOk: bool, ghost readAt: nat) returns (ret: int)
      requires Valid() && readAt <= |history| && userSn == Global(history[..readAt])
      modifies this`armed
      ensures ret == 1 <==> Global(history) > 0 && Global(history) != Global(history[..readAt])
      ensures ret != 1 && (forall q | q in pollSn :: Total(history, q) < TWO32) ==> readAt == |history|
      ensures readAt == |history| ==> ret == if id in old(armed) || verbsOk then 0 else -1
      ensures armed == old(armed) + if ret == 0 then {id} else {}
    {
      ret := -1;
      ghost var h := history;
      assert h[..|h|] == h;
      if readAt < |h| && (forall q | q in pollSn :: Total(h, q) < TWO32) {
        NeverRepeats(h, readAt, |h|);
      }
      if globalSn > 0 && userSn != globalSn {
        return 1;
      }
      if id !in armed {
        if verbsOk {
          ret := 0;
          armed := armed + {id};
        }
      } else {
        ret := 0;
      }
    }
  }

  lemma AddModulo(a: nat, b: nat, n: nat)
    requires n >= 1
    ensures (a % n + b) % n == (a + b) % n
  {
    var q, r := a / n, a % n;
    assert a == n * q + r;
    var q', r' := (r + b) / n, (r + b) % n;
    assert r + b == n * q' + r';
    assert a + b == n * (q + q') + r' by { assert n * (q + q') == n * q + n * q'; }
    DivModUnique(a + b, n, q + q', r');
  }
}
