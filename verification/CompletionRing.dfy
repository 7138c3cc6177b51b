/**
 The completion ring of src/vma/dev/cq_mgr_mlx5.cpp (`get_cqe64`, `check_error_completion`) and
 src/vma/dev/cq_mgr_mlx5.inl (`check_cqe`).

 The device writes completion k into slot k mod size and flips the owner bit on every lap; the
 consumer tells a fresh entry from a stale one by comparing that bit with bit log2(size) of its own
 32-bit index.  The methods below are the individual steps of both sides: any interleaving of them is
 a run, and `Valid` is what every step keeps.
 */
module CompletionRing {
  import opened Options
  import opened Arith
  import opened Bits

  const CQE_REQ_ERR: bv8 := 0xd
  const CQE_RESP_ERR: bv8 := 0xe
  const CQE_INVALID: bv8 := 0xf

  /** One ring entry: the byte `op_own` (opcode in the high nibble, owner in bit 0) and everything else. */
  datatype Cqe = Cqe(opOwn: bv8, body: nat)

  /** What the device reports: a 4-bit opcode and a body. */
  datatype Completion = Completion(opcode: bv8, body: nat)

  function Tag(opcode: bv8, owner: bool): (r: bv8)
  {
    (opcode << 4) | (if owner then 1 else 0)
  }

  /** The nibbles of a tag can be read back. */
  lemma TagFields(opcode: bv8, owner: bool)
    requires opcode < 16
    ensures Tag(opcode, owner) >> 4 == opcode
    ensures Tag(opcode, owner) & 1 == (if owner then 1 else 0)
    ensures Tag(opcode, owner) & 0x80 == 0 <==> opcode < 8
  {
  }

  /** The owner bit the device writes with completion k. */
  predicate Lap(k: nat, size: nat)
    requires size >= 1
  {
    (k / size) % 2 == 1
  }

  /** The opcodes `get_cqe64` hands out as completions, and those it hands out as errors. */
  predicate IsNormal(opcode: bv8) { opcode < 8 }
  predicate IsError(opcode: bv8) { opcode == CQE_REQ_ERR || opcode == CQE_RESP_ERR }

  function Slot(k: nat, size: nat): (r: nat)
    requires size >= 1
    ensures r < size
  {
    k % size
  }

  /** Within one window of `size` completions no two share a slot. */
  lemma SlotsDiffer(j: nat, k: nat, size: nat)
    requires size >= 1 && j < k < j + size
    ensures Slot(j, size) != Slot(k, size)
  {
    SameResidue(j, k, size);
    DivModUnique(k - j, size, 0, k - j);
  }

  /** A lap later the slot is the same and the owner bit is flipped. */
  lemma NextLap(k: nat, size: nat)
    requires size >= 1
    ensures Slot(k + size, size) == Slot(k, size) && Lap(k + size, size) == !Lap(k, size)
  {
    AddLap(k, size);
  }

  /** The low bits of the wrapped index of completion n are its slot. */
  lemma SlotBits(n: nat, index: nat, logSize: nat)
    requires logSize < 32 && index == n % Pow2(32)
    ensures BitAnd(index, Pow2(logSize) - 1) == Slot(n, Pow2(logSize))
  {
    WrapKeepsLowBits(n, 32, logSize);
    AndLowMask(index, logSize);
  }

  /** Bit log2(size) of the wrapped index of completion n is its lap parity. */
  lemma LapBit(n: nat, index: nat, logSize: nat)
    requires logSize < 32 && index == n % Pow2(32)
    ensures BitAnd(index, Pow2(logSize)) != 0 <==> Lap(n, Pow2(logSize))
  {
    WrapKeepsLowBits(n, 32, logSize);
    AndOneBit(index, logSize);
  }

  /** The last lap of completions is in the cells, save the body being rewritten; cells not reached yet are invalid. */
  ghost predicate Shows(cells: seq<Cqe>, produced: seq<Completion>, writing: bool)
  {
    && |cells| >= 1
    && (forall k | 0 <= k < |produced| :: produced[k].opcode < 16)
    && (forall k | 0 <= k < |produced| && |produced| <= k + |cells| ::
          cells[Slot(k, |cells|)].opOwn == Tag(produced[k].opcode, Lap(k, |cells|)))
    && (forall k | 0 <= k < |produced| && |produced| + (if writing then 1 else 0) <= k + |cells| ::
          cells[Slot(k, |cells|)].body == produced[k].body)
    && (forall i | |produced| <= i < |cells| :: cells[i].opOwn == Tag(CQE_INVALID, false))
  }

  /** The slot written next holds no completion of the last size - 1, nor is it one of the later fresh slots. */
  lemma FreshSlot(n: nat, size: nat)
    requires size >= 1
    ensures forall k | 0 <= k < n && n < k + size :: Slot(k, size) != Slot(n, size)
    ensures n < size ==> Slot(n, size) == n
  {
    forall k | 0 <= k < n && n < k + size
      ensures Slot(k, size) != Slot(n, size)
    {
      SlotsDiffer(k, n, size);
    }
    if n < size { DivModUnique(n, size, 0, n); }
  }

  lemma WriteShows(cells: seq<Cqe>, produced: seq<Completion>, writing: bool, body: nat)
    requires Shows(cells, produced, writing)
    ensures var i := Slot(|produced|, |cells|);
            Shows(cells[i := cells[i].(body := body)], produced, true)
  {
    FreshSlot(|produced|, |cells|);
  }

  /** Completion n of the last lap survives whatever body the device writes next if and only if the device is not exactly
   one lap ahead of it. */
  lemma SurvivesWriteIff(cells: seq<Cqe>, produced: seq<Completion>, n: nat)
    requires Shows(cells, produced, false) && n < |produced| <= n + |cells|
    ensures var i := Slot(|produced|, |cells|);
            (forall body: nat :: cells[i := cells[i].(body := body)][Slot(n, |cells|)].body == produced[n].body) <==>
            |produced| != n + |cells|
  {
    var size, m := |cells|, |produced|;
    var i := Slot(m, size);
    if m == n + size {
      NextLap(n, size);
      var other := produced[n].body + 1;
      assert cells[i := cells[i].(body := other)][Slot(n, size)].body != produced[n].body;
    } else {
      SlotsDiffer(n, m, size);
    }
  }

  lemma PublishShows(cells: seq<Cqe>, produced: seq<Completion>, opcode: bv8)
    requires Shows(cells, produced, true) && opcode < 16
    ensures var i := Slot(|produced|, |cells|);
            Shows(cells[i := cells[i].(opOwn := Tag(opcode, Lap(|produced|, |cells|)))],
                  produced + [Completion(opcode, cells[i].body)], false)
  {
    FreshSlot(|produced|, |cells|);
  }

  class Ring {
    const logSize: nat
    const size: nat                // m_cq_size, a power of two
    const cqes: array<Cqe>         // m_cqes
    var consIndex: nat             // m_cq_cons_index, 32 bits
    var doorbell: nat              // *m_cq_dbell, before byte swapping
    var deviceIndex: nat           // the device's own count of published completions

    ghost var produced: seq<Completion>   // everything the device has published
    ghost var delivered: seq<Completion>  // everything the consumer has been given
    ghost var writing: bool               // the device is rewriting the body of the next slot

    ghost predicate Valid()
      reads this, cqes
    {
      && logSize < 32 && size == Pow2(logSize) == cqes.Length
      && |delivered| <= |produced| <= |delivered| + size
      && delivered == produced[..|delivered|]
      && deviceIndex == |produced|
      && consIndex == |delivered| % Pow2(32)
      && (writing ==> |produced| < |delivered| + size)
      && Shows(cqes[..], produced, writing)
    }

    constructor (logSize: nat)
      requires logSize < 32
      ensures Valid() && size == Pow2(logSize) && produced == [] && delivered == []
    {
      this.logSize := logSize;
      size := Pow2(logSize);
      cqes := new Cqe[Pow2(logSize)](_ => Cqe(Tag(CQE_INVALID, false), 0));
      consIndex := 0;
      doorbell := 0;
      deviceIndex := 0;
      produced := [];
      delivered := [];
      writing := false;
      new;
      DivModUnique(0, Pow2(32), 0, 0);
    }

    /** The device starts a completion: the body of the next slot changes, its owner byte does not yet. */
    method DeviceWriteBody(body: nat)
      requires Valid() && |produced| < |delivered| + size
      modifies this`writing, cqes
      ensures Valid() && writing && cqes[Slot(|produced|, size)].body == body
    {
      WriteShows(cqes[..], produced, writing, body);
      var i := deviceIndex % size;
      ghost var cells := cqes[..];
      cqes[i] := cqes[i].(body := body);
      assert cqes[..] == cells[i := cells[i].(body := body)];
      writing := true;
    }

    /** The device publishes the completion whose body it has written, by writing opcode and owner bit. */
    method DevicePublish(opcode: bv8)
      requires Valid() && writing && opcode < 16
      modifies this`writing, this`produced, this`deviceIndex, cqes
      ensures Valid() && !writing
      ensures produced == old(produced) + [Completion(opcode, old(cqes[Slot(|produced|, size)].body))]
    {
      PublishShows(cqes[..], produced, opcode);
      var i := deviceIndex % size;
      ghost var cells := cqes[..];
      var tag := Tag(opcode, (deviceIndex / size) % 2 == 1);
      cqes[i] := cqes[i].(opOwn := tag);
      assert cqes[..] == cells[i := cells[i].(opOwn := tag)];
      produced := produced + [Completion(opcode, cells[i].body)];
      deviceIndex := deviceIndex + 1;
      writing := false;
    }

    /**
     Bit log2(size) of the 32-bit consumer index is the lap parity of the next completion, and its low
     bits are the slot, however often the index has wrapped.
     */
    lemma IndexBits()
      requires Valid()
      ensures BitAnd(consIndex, size - 1) == Slot(|delivered|, size)
      ensures BitAnd(consIndex, size) != 0 <==> Lap(|delivered|, size)
    {
      SlotBits(|delivered|, consIndex, logSize);
      LapBit(|delivered|, consIndex, logSize);
    }

    /** What the slot at the consumer index shows: the next completion if there is one, else something stale. */
    lemma NextSlot()
      requires Valid()
      ensures |delivered| < |produced| ==>
                var c, e := produced[|delivered|], cqes[Slot(|delivered|, size)];
                e.opOwn == Tag(c.opcode, Lap(|delivered|, size)) && e.body == c.body
      ensures |delivered| == |produced| ==>
                var e := cqes[Slot(|delivered|, size)];
                e.opOwn & 1 != (if Lap(|delivered|, size) then 1 else 0) || e.opOwn == Tag(CQE_INVALID, Lap(|delivered|, size))
    {
      var n := |delivered|;
      if n == |produced| {
        if n < size {
          DivModUnique(n, size, 0, n);
        } else {
          NextLap(n - size, size);
          TagFields(produced[n - size].opcode, Lap(n - size, size));
        }
      }
    }

    /**
     `get_cqe64`: hands out the completions in the order the device published them, none lost, none twice;
     a completion is handed out as such or as an error according to its opcode, and nothing is handed out
     exactly when everything published has been delivered (or the next opcode is one it does not know).
     As in the code the caller gets the place of the entry, and reads it there later.
     */
    method GetCqe64() returns (cqe: Option<nat>, cqeErr: Option<nat>)
      requires Valid()
      modifies this`consIndex, this`doorbell, this`delivered
      ensures Valid()
      ensures old(|delivered|) == |produced| ==> cqe.None? && cqeErr.None? && delivered == old(delivered)
      ensures old(|delivered|) < |produced| ==>
                var c := produced[old(|delivered|)];
                && cqe == (if IsNormal(c.opcode) then Some(Slot(old(|delivered|), size)) else None)
                && cqeErr == (if IsError(c.opcode) then Some(Slot(old(|delivered|), size)) else None)
                && cqes[Slot(old(|delivered|), size)] == Cqe(Tag(c.opcode, Lap(old(|delivered|), size)), c.body)
                && delivered == old(delivered) + (if IsNormal(c.opcode) || IsError(c.opcode) then [c] else [])
      ensures cqe.Some? || cqeErr.Some? ==> doorbell == consIndex
    {
      IndexBits();
      NextSlot();
      var at := BitAnd(consIndex, size - 1);
      var e := cqes[at];
      var opOwn := e.opOwn;
      cqe, cqeErr := None, None;
      var clear: bv8 := if BitAnd(consIndex, size) == 0 then 1 else 0;
      if |delivered| < |produced| { TagFields(produced[|delivered|].opcode, Lap(|delivered|, size)); }
      if opOwn & 1 == clear {
        return;
      } else if opOwn & 0x80 != 0 {
        cqeErr := CheckErrorCompletion(at);
        return;
      }
      Advance(Completion(opOwn >> 4, e.body));
      cqe := Some(at);
    }

    /** `check_error_completion`: only the two error opcodes are consumed. */
    method CheckErrorCompletion(at: nat) returns (r: Option<nat>)
      requires Valid() && at < size
      requires var e := cqes[at];
               IsError(e.opOwn >> 4) ==> |delivered| < |produced| && produced[|delivered|] == Completion(e.opOwn >> 4, e.body)
      modifies this`consIndex, this`doorbell, this`delivered
      ensures Valid()
      ensures r == (if IsError(cqes[at].opOwn >> 4) then Some(at) else None)
      ensures delivered == old(delivered) + (if r.Some? then [Completion(cqes[at].opOwn >> 4, cqes[at].body)] else [])
      ensures r.Some? ==> doorbell == consIndex
    {
      var e := cqes[at];
      if e.opOwn >> 4 == CQE_REQ_ERR || e.opOwn >> 4 == CQE_RESP_ERR {
        Advance(Completion(e.opOwn >> 4, e.body));
        return Some(at);
      }
      return None;
    }

    /** Reading a handed-out entry later: it is intact as long as the device has not started on its slot again. */
    lemma LateRead(n: nat)
      requires Valid() && n < |produced| && |produced| + (if writing then 1 else 0) <= n + size
      ensures cqes[Slot(n, size)] == Cqe(Tag(produced[n].opcode, Lap(n, size)), produced[n].body)
    {
    }

    /** Increment the 32-bit index and ring the doorbell. */
    method Advance(ghost c: Completion)
      requires Valid() && |delivered| < |produced| && c == produced[|delivered|]
      modifies this`consIndex, this`doorbell, this`delivered
      ensures Valid() && delivered == old(delivered) + [c] && doorbell == consIndex
    {
      WrapIncrement(|delivered|, Pow2(32));
      consIndex := (consIndex + 1) % Pow2(32);
      doorbell := consIndex;
      delivered := delivered + [c];
    }

    /** `check_cqe`: the receive path's look at the same slot; it does not consume. */
    method CheckCqe() returns (r: Option<nat>)
      requires Valid()
      ensures r.Some? <==> |delivered| < |produced| && produced[|delivered|].opcode != CQE_INVALID
      ensures r.Some? ==> r.value == Slot(|delivered|, size) && cqes[r.value].body == produced[|delivered|].body
      ensures r.Some? ==> cqes[r.value].opOwn >> 4 == produced[|delivered|].opcode
    {
      IndexBits();
      NextSlot();
      var at := BitAnd(consIndex, size - 1);
      var e := cqes[at];
      var lapBit: bv8 := if BitAnd(consIndex, size) != 0 then 1 else 0;
      if |delivered| < |produced| { TagFields(produced[|delivered|].opcode, Lap(|delivered|, size)); }
      if e.opOwn >> 4 != CQE_INVALID && (e.opOwn & 1) ^ lapBit == 0 {
        return Some(at);
      }
      return None;
    }
  }
}
