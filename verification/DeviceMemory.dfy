/**
 The cyclic on-device memory of src/vma/dev/dm_mgr.cpp: `copy_data` writes a packet into a contiguous
 8-byte aligned run, skipping the end of the memory when the packet does not fit there, and
 `release_data` frees the oldest one.
 */
module DeviceMemory {
  import opened Arith
  import opened Bits

  const TWO32: nat := 0x1_0000_0000

  /** DM_ALIGN_SIZE(length, 7), in 32-bit unsigned arithmetic. */
  function Align8(length: nat): (r: nat)
  {
    BitClear((length + 7) % TWO32, 7)
  }

  /** Rounding up to a multiple of 8 is exact unless length + 7 overflows 32 bits, when it gives 0. */
  lemma Align8Rounds(length: nat)
    requires length < TWO32
    ensures Align8(length) % 8 == 0
    ensures length <= TWO32 - 8 ==> length <= Align8(length) < length + 8
    ensures length > TWO32 - 8 ==> Align8(length) == 0
  {
    if length <= TWO32 - 8 {
      DivModUnique(length + 7, TWO32, 0, length + 7);
      RoundDown8(length + 7);
    } else {
      DivModUnique(length + 7, TWO32, 1, length + 7 - TWO32);
      RoundDown8(length + 7 - TWO32);
    }
  }

  lemma RoundDown8(v: nat)
    ensures BitClear(v, 7) % 8 == 0 && BitClear(v, 7) <= v < BitClear(v, 7) + 8
  {
    assert Pow2(3) == 8;
    ClearLowMask(v, 3);
    DivModUnique(v - v % 8, 8, v / 8, 0);
  }

  /** Identity of a transmit buffer descriptor (`mem_buf_desc_t*`). */
  type BuffId = nat

  /**
   A live packet: it reserves `pad + len` bytes from the running position `at`, skips the padding and
   holds `data`.  Positions count bytes since the start, so position p is the byte p modulo the
   allocation.
   */
  datatype Region = Region(buff: BuffId, at: int, pad: nat, data: seq<bv8>) {
    function Len(): nat { |data| }
    function Reserved(): nat { pad + |data| }
    function DataAt(): int { at + pad }
    function End(): int { at + pad + |data| }
  }

  /** The offset of a running position, `base` being the running position of the current lap's byte 0. */
  function Offset(position: int, base: int, allocation: nat): (r: int)
  {
    if position < base then position - base + allocation else position - base
  }

  function TotalReserved(live: seq<Region>): (r: nat)
  {
    if live == [] then 0 else live[0].Reserved() + TotalReserved(live[1..])
  }

  /** Reservations follow one another without gaps from position `from` to position `to`. */
  ghost predicate Consecutive(live: seq<Region>, from: int, to: int)
  {
    if live == [] then from == to
    else live[0].at == from && live[0].Len() > 0 && Consecutive(live[1..], live[0].End(), to)
  }

  lemma {:induction false} TotalIsDistance(live: seq<Region>, from: int, to: int)
    requires Consecutive(live, from, to)
    ensures TotalReserved(live) == to - from
  {
    if live != [] { TotalIsDistance(live[1..], live[0].End(), to); }
  }

  lemma {:induction false} AppendConsecutive(live: seq<Region>, from: int, to: int, r: Region)
    requires Consecutive(live, from, to) && r.at == to && r.Len() > 0
    ensures Consecutive(live + [r], from, r.End())
  {
    if live == [] {
      assert (live + [r])[1..] == [];
    } else {
      AppendConsecutive(live[1..], live[0].End(), to, r);
      assert (live + [r])[1..] == live[1..] + [r];
    }
  }

  /** In a consecutive run, regions lie inside the run and earlier ones end before later ones start. */
  lemma {:induction false} ConsecutiveOrder(live: seq<Region>, from: int, to: int, i: nat, j: nat)
    requires Consecutive(live, from, to) && i <= j < |live|
    ensures from <= live[i].at && live[j].End() <= to
    ensures i < j ==> live[i].End() <= live[j].at
  {
    ConsecutiveBounds(live, from, to, i);
    ConsecutiveBounds(live, from, to, j);
    if i < j {
      if i == 0 {
        ConsecutiveBounds(live[1..], live[0].End(), to, j - 1);
      } else {
        ConsecutiveOrder(live[1..], live[0].End(), to, i - 1, j - 1);
      }
    }
  }

  lemma {:induction false} ConsecutiveBounds(live: seq<Region>, from: int, to: int, i: nat)
    requires Consecutive(live, from, to) && i < |live|
    ensures from <= live[i].at && live[i].End() <= to && from < to
  {
    if live[1..] == [] {
    } else if i > 0 {
      ConsecutiveBounds(live[1..], live[0].End(), to, i - 1);
    } else {
      ConsecutiveBounds(live[1..], live[0].End(), to, 0);
    }
  }

  /** Every position of a consecutive run belongs to a region. */
  lemma {:induction false} RegionAt(live: seq<Region>, from: int, to: int, p: int) returns (i: nat)
    requires Consecutive(live, from, to) && from <= p < to
    ensures i < |live| && live[i].at <= p < live[i].End()
  {
    if p < live[0].End() {
      i := 0;
    } else {
      i := RegionAt(live[1..], live[0].End(), to, p);
      i := i + 1;
    }
  }

  /** The geometry of the memory: what `m_head` and `m_used` say about the live packets, oldest first. */
  datatype Layout = Layout(allocation: nat, head: nat, used: nat, base: int, live: seq<Region>) {

    /** Where a live packet's bytes are. */
    function Start(r: Region): (o: int)
    {
      Offset(r.DataAt(), base, allocation)
    }

    /** The offset of the oldest reservation: (head - used) modulo the allocation. */
    function Tail(): (t: int)
    {
      if head >= used then head - used else head - used + allocation
    }

    /** The packets lie between tail and head, and none straddles the end of the memory. */
    ghost predicate Valid()
    {
      && used <= allocation && (head < allocation || head == allocation == 0)
      && Consecutive(live, base + head - used, base + head)
      && (forall i | 0 <= i < |live| :: live[i].DataAt() < base ==> live[i].End() <= base)
    }

    ghost predicate Aligned()
    {
      && allocation % 8 == 0 && head % 8 == 0 && base % 8 == 0
      && (forall i | 0 <= i < |live| :: live[i].DataAt() % 8 == 0)
    }

    /** Free bytes from the head up to the tail or the end of the memory. */
    function RunAtHead(): (n: int)
    {
      if used == allocation then 0
      else if Tail() <= head then allocation - head
      else Tail() - head
    }

    /** The live data is one piece, so the bytes before the tail are free. */
    predicate DoesNotWrap()
    {
      used <= head
    }

    /** The reservation has byte b of the memory. */
    ghost predicate Reserves(r: Region, b: int)
    {
      exists p :: r.at <= p < r.End() && Offset(p, base, allocation) == b
    }

    ghost predicate Taken(b: int)
    {
      exists i :: 0 <= i < |live| && Reserves(live[i], b)
    }

    /** The n bytes from offset o lie in the memory and no live reservation has any of them. */
    ghost predicate Free(o: int, n: nat)
    {
      0 <= o && o + n <= allocation && forall b | o <= b < o + n :: !Taken(b)
    }

    /** Whether n bytes can be had: from the head on, or else from offset 0, if all that is reserved lies before the head.
     With nothing reserved the bytes from offset 0 must lie before the head too. */
    ghost predicate Accepts(n: nat)
    {
      Free(head, n) || ((forall b | Taken(b) :: b < head) && Free(0, n) && (live == [] ==> n <= head))
    }

    /** A packet goes to the head if the bytes there are free, and else to offset 0. */
    ghost function Target(n: nat): (o: nat) { if Free(head, n) then head else 0 }

    /** What is skipped at the end of the memory then. */
    ghost function Skipped(n: nat): (k: int) { if Free(head, n) then 0 else allocation - head }

    /** `len` bytes fit at the head, or at offset 0 after skipping `pad` bytes at the end of the memory. */
    predicate HasRoom(pad: nat, len: nat)
    {
      && used < allocation
      && (pad == 0 ==> len <= RunAtHead())
      && (pad > 0 ==> pad == allocation - head && 0 < len <= Tail() && DoesNotWrap())
    }

    /** Append a packet after the padding. */
    function Append(buff: BuffId, pad: nat, data: seq<bv8>): (l: Layout)
      requires HasRoom(pad, |data|)
    {
      var at := if pad > 0 then 0 else head;
      var base' := if pad > 0 then base + allocation else base;
      var base'' := if at + |data| == allocation then base' + allocation else base';
      Layout(allocation, if at + |data| == allocation then 0 else at + |data|, used + pad + |data|, base'',
             if data == [] then live else live + [Region(buff, base + head, pad, data)])
    }

    /** Free the oldest packet. */
    function DropOldest(): (l: Layout)
      requires live != [] && live[0].Reserved() <= used
    {
      Layout(allocation, head, used - live[0].Reserved(), base, live[1..])
    }

    /** Live packets are contiguous, aligned, inside the memory, and no two share a byte. */
    lemma Placement(i: nat, j: nat)
      requires Valid() && i <= j < |live|
      ensures 0 <= Start(live[i]) && Start(live[i]) + live[i].Len() <= allocation
      ensures Aligned() ==> Start(live[i]) % 8 == 0
      ensures i < j ==> Start(live[i]) + live[i].Len() <= Start(live[j]) || Start(live[j]) + live[j].Len() <= Start(live[i])
    {
      ConsecutiveOrder(live, base + head - used, base + head, i, j);
      if Aligned() { StartAligned(i); }
    }

    lemma StartAligned(i: nat)
      requires Aligned() && i < |live|
      ensures Start(live[i]) % 8 == 0
    {
      Sum8(live[i].DataAt(), base);
      Sum8(live[i].DataAt() - base, allocation);
    }

    lemma TakenAt(p: int)
      requires Valid() && base + head - used <= p < base + head
      ensures Taken(Offset(p, base, allocation))
    {
      var i := RegionAt(live, base + head - used, base + head, p);
      assert Reserves(live[i], Offset(p, base, allocation));
    }

    /** The reserved bytes are those from the tail to the head, around the end of the memory. */
    lemma TakenIff(b: int)
      requires Valid()
      ensures Taken(b) <==> if used <= head then head - used <= b < head else 0 <= b < head || Tail() <= b < allocation
    {
      if Taken(b) {
        var i :| 0 <= i < |live| && Reserves(live[i], b);
        ConsecutiveBounds(live, base + head - used, base + head, i);
      } else {
        if base + head - used <= base + b < base + head && b >= 0 { TakenAt(base + b); }
        if base + head - used <= base + b - allocation < base { TakenAt(base + b - allocation); }
      }
    }

    /** `RunAtHead` is the longest free run from the head on. */
    lemma RunIsLongest(n: nat)
      requires Valid() && n > 0
      ensures Free(head, n) <==> n <= RunAtHead()
    {
      forall b { TakenIff(b); }
      if n > RunAtHead() && head + n <= allocation {
        assert Taken(head + RunAtHead());
      }
    }

    /** What the head, the tail and the lengths say about room is what the bytes of the live reservations say. */
    lemma AcceptsIff(n: nat)
      requires Valid() && n > 0
      ensures Accepts(n) <==> n <= RunAtHead() || (DoesNotWrap() && n <= Tail())
    {
      RunIsLongest(n);
      forall b { TakenIff(b); }
      if !DoesNotWrap() {
        assert Taken(Tail());
      } else if live != [] {
        ConsecutiveBounds(live, base + head - used, base + head, 0);
        if n > Tail() && n <= allocation { assert Taken(Tail()); }
      } else if n <= Tail() {
        assert Free(0, n);
      }
    }

    /**
     An empty memory refuses what is longer than both the bytes before the head and those from it on, although
     every byte is free: exactly then the copy is refused where free bytes before the reservations would do.
     */
    lemma EmptyRefusesIff(n: nat)
      requires Valid() && 0 < n <= allocation && live == []
      ensures Free(0, n)
      ensures !Accepts(n) <==> head < n && allocation - head < n
    {
      forall b { TakenIff(b); }
      UsedIsTotal();
      AcceptsIff(n);
    }

    /** `m_used` is the sum of the reservations, and the oldest one starts at the tail. */
    lemma UsedIsTotal()
      requires Valid()
      ensures used == TotalReserved(live)
      ensures live != [] ==> Offset(live[0].at, base, allocation) == Tail()
    {
      TotalIsDistance(live, base + head - used, base + head);
    }

    lemma AppendKeeps(buff: BuffId, pad: nat, data: seq<bv8>)
      requires Valid() && HasRoom(pad, |data|)
      ensures Append(buff, pad, data).Valid()
    {
      var l := Append(buff, pad, data);
      if data != [] {
        AppendConsecutive(live, base + head - used, base + head, Region(buff, base + head, pad, data));
      }
      forall i | 0 <= i < |l.live|
        ensures l.live[i].DataAt() < l.base ==> l.live[i].End() <= l.base
      {
        if i < |live| {
          ConsecutiveOrder(live, base + head - used, base + head, i, i);
        }
      }
    }

    lemma AppendKeepsAligned(buff: BuffId, pad: nat, data: seq<bv8>)
      requires Aligned() && HasRoom(pad, |data|) && |data| % 8 == 0
      ensures Append(buff, pad, data).Aligned()
    {
      Sum8(head, |data|);
      Sum8(0, |data|);
      Sum8(base, allocation);
      Sum8(base + allocation, allocation);
      Sum8(base, head);
      assert pad > 0 ==> base + head + pad == base + allocation;
    }

    /** A new packet goes to a place no live packet uses, and moves none of them. */
    lemma AppendIsClear(buff: BuffId, pad: nat, data: seq<bv8>, i: nat)
      requires Valid() && HasRoom(pad, |data|) && i < |live|
      ensures Append(buff, pad, data).Start(live[i]) == Start(live[i])
      ensures var at := if pad > 0 then 0 else head;
              Start(live[i]) + live[i].Len() <= at || at + |data| <= Start(live[i])
    {
      ConsecutiveOrder(live, base + head - used, base + head, i, i);
    }

    lemma DropOldestKeeps()
      requires Valid() && live != []
      ensures live[0].Reserved() <= used && DropOldest().Valid()
    {
      UsedIsTotal();
      var l := DropOldest();
      assert l.base + l.head - l.used == live[0].End();
    }
  }

  /** For example 200 bytes in an empty memory of 256 with its head in the middle. */
  lemma EmptyRefusal()
    ensures var l := Layout(256, 128, 0, 0, []); l.Valid() && l.Free(0, 200) && !l.Accepts(200)
  {
    Layout(256, 128, 0, 0, []).EmptyRefusesIff(200);
  }

  lemma Sum8(a: int, b: int)
    requires a % 8 == 0 && b % 8 == 0
    ensures (a + b) % 8 == 0 && (a - b) % 8 == 0
  {
  }

  lemma ModAtMost(x: nat, n: nat)
    requires 1 <= n && x <= n
    ensures x % n == if x == n then 0 else x
  {
    if x == n { DivModUnique(n, n, 1, 0); } else { DivModUnique(x, n, 0, x); }
  }

  /** The bytes from offset s on are the given data. */
  ghost predicate HoldsAt(bytes: seq<bv8>, s: int, data: seq<bv8>)
  {
    0 <= s && s + |data| <= |bytes| && bytes[s..s + |data|] == data
  }

  /** Every live packet's bytes are in the memory, where the layout puts them. */
  ghost predicate Stored(l: Layout, bytes: seq<bv8>)
  {
    |bytes| == l.allocation && forall i | 0 <= i < |l.live| :: HoldsAt(bytes, l.Start(l.live[i]), l.live[i].data)
  }

  function Overwrite(bytes: seq<bv8>, at: nat, data: seq<bv8>): (r: seq<bv8>)
    requires at + |data| <= |bytes|
  {
    bytes[..at] + data + bytes[at + |data|..]
  }

  lemma OverwriteElsewhere(bytes: seq<bv8>, at: nat, data: seq<bv8>, s: int, other: seq<bv8>)
    requires at + |data| <= |bytes| && HoldsAt(bytes, s, other)
    requires s + |other| <= at || at + |data| <= s
    ensures HoldsAt(Overwrite(bytes, at, data), s, other)
  {
    var r := Overwrite(bytes, at, data);
    assert |r| == |bytes|;
    forall k | 0 <= k < |other|
      ensures r[s + k] == other[k]
    {
      assert bytes[s..s + |other|][k] == other[k];
    }
  }

  /** Writing a new packet leaves every live packet's bytes alone and stores its own. */
  lemma AppendStores(l: Layout, bytes: seq<bv8>, buff: BuffId, pad: nat, data: seq<bv8>)
    requires l.Valid() && Stored(l, bytes) && l.HasRoom(pad, |data|)
    ensures var at := if pad > 0 then 0 else l.head;
            at + |data| <= |bytes| && Stored(l.Append(buff, pad, data), Overwrite(bytes, at, data))
  {
    var at := if pad > 0 then 0 else l.head;
    var l' := l.Append(buff, pad, data);
    forall i | 0 <= i < |l'.live|
      ensures HoldsAt(Overwrite(bytes, at, data), l'.Start(l'.live[i]), l'.live[i].data)
    {
      if i < |l.live| {
        l.AppendIsClear(buff, pad, data, i);
        OverwriteElsewhere(bytes, at, data, l.Start(l.live[i]), l.live[i].data);
      }
    }
  }

  /** Each live packet's buffer records its reservation, and no buffer holds two packets. */
  ghost predicate Charged(live: seq<Region>, lengths: map<BuffId, nat>)
  {
    && (forall i | 0 <= i < |live| :: live[i].buff in lengths && lengths[live[i].buff] == live[i].Reserved())
    && (forall i, j | 0 <= i < j < |live| :: live[i].buff != live[j].buff)
  }

  /** Everything the memory must satisfy between calls. */
  ghost predicate Sound(l: Layout, bytes: seq<bv8>)
  {
    l.Valid() && l.Aligned() && Stored(l, bytes)
  }

  lemma AppendSound(l: Layout, bytes: seq<bv8>, buff: BuffId, pad: nat, data: seq<bv8>) returns (l': Layout)
    requires Sound(l, bytes) && l.HasRoom(pad, |data|) && |data| % 8 == 0
    ensures l'.used == l.used + pad + |data| && l'.allocation == l.allocation
    ensures l'.head == var at := if pad > 0 then 0 else l.head;
                       if at + |data| == l.allocation then 0 else at + |data|
    ensures var at := if pad > 0 then 0 else l.head;
            && at + |data| <= |bytes|
            && Sound(l', Overwrite(bytes, at, data))
            && Appended(l, l', buff, data, at)
    ensures data != [] ==> l'.live[|l.live|].Reserved() == pad + |data|
  {
    l.AppendKeeps(buff, pad, data);
    l.AppendKeepsAligned(buff, pad, data);
    AppendStores(l, bytes, buff, pad, data);
    l' := l.Append(buff, pad, data);
    forall i | 0 <= i < |l.live|
      ensures l'.Start(l.live[i]) == l.Start(l.live[i])
    {
      l.AppendIsClear(buff, pad, data, i);
    }
  }

  lemma AppendCharges(l: Layout, l': Layout, lengths: map<BuffId, nat>, buff: BuffId, data: seq<bv8>, addr: nat, n: nat)
    requires Charged(l.live, lengths) && Appended(l, l', buff, data, addr)
    requires forall i | 0 <= i < |l.live| :: l.live[i].buff != buff
    requires data != [] ==> l'.live[|l.live|].Reserved() == n
    ensures Charged(l'.live, lengths[buff := n])
  {
    var lengths' := lengths[buff := n];
    forall i | 0 <= i < |l'.live|
      ensures l'.live[i].buff in lengths' && lengths'[l'.live[i].buff] == l'.live[i].Reserved()
    {
      if i < |l.live| { assert l'.live[i] == l.live[i]; }
    }
    forall i, j | 0 <= i < j < |l'.live|
      ensures l'.live[i].buff != l'.live[j].buff
    {
      assert l'.live[i] == l.live[i];
      if j < |l.live| { assert l'.live[j] == l.live[j]; }
    }
  }

  lemma DropOldestSound(l: Layout, bytes: seq<bv8>)
    requires Sound(l, bytes) && l.live != []
    ensures l.live[0].Reserved() <= l.used && Sound(l.DropOldest(), bytes)
  {
    l.DropOldestKeeps();
  }

  /** l' is l with one more packet, the newest, at offset addr; no older packet has moved. */
  ghost predicate Appended(l: Layout, l': Layout, buff: BuffId, data: seq<bv8>, addr: nat)
  {
    && |l'.live| == |l.live| + (if data == [] then 0 else 1)
    && (forall i | 0 <= i < |l.live| :: l'.live[i] == l.live[i] && l'.Start(l'.live[i]) == l.Start(l.live[i]))
    && (data != [] ==>
            var r := l'.live[|l.live|];
            r.buff == buff && r.data == data && addr == l'.Start(r))
  }

  ghost predicate Booked(l: Layout, bytes: seq<bv8>, lengths: map<BuffId, nat>)
  {
    Sound(l, bytes) && Charged(l.live, lengths)
  }

  lemma AppendBooked(l: Layout, bytes: seq<bv8>, lengths: map<BuffId, nat>, buff: BuffId, pad: nat, data: seq<bv8>, at: nat)
    returns (l': Layout)
    requires Booked(l, bytes, lengths) && l.HasRoom(pad, |data|) && |data| % 8 == 0 && at == if pad > 0 then 0 else l.head
    requires forall i | 0 <= i < |l.live| :: l.live[i].buff != buff
    ensures l'.allocation == l.allocation && l'.used == l.used + pad + |data|
    ensures at + |data| <= |bytes| == l.allocation && l'.head == if at + |data| == l.allocation then 0 else at + |data|
    ensures Booked(l', Overwrite(bytes, at, data), lengths[buff := pad + |data|]) && Appended(l, l', buff, data, at)
  {
    l' := AppendSound(l, bytes, buff, pad, data);
    AppendCharges(l, l', lengths, buff, data, at, pad + |data|);
  }

  class DmMgr {
    const allocation: nat          // m_allocation
    const mem: array<bv8>          // the device memory from start_va
    var head: nat                  // m_head
    var used: nat                  // m_used
    var statPackets: nat           // n_tx_dev_mem_pkt_count
    var statBytes: nat             // n_tx_dev_mem_byte_count
    var statOob: nat               // n_tx_dev_mem_oob

    ghost var layout: Layout       // where the unreleased packets are

    var lengths: map<BuffId, nat>  // tx.dev_mem_length of each buffer; a buffer never seen has 0

    ghost predicate Valid()
      reads this, mem
    {
      && layout.allocation == allocation && layout.head == head && layout.used == used
      && Booked(layout, mem[..], lengths)
    }

    /** The buffer holds no live packet. */
    ghost predicate Idle(buff: BuffId)
      reads this
    {
      forall i | 0 <= i < |layout.live| :: layout.live[i].buff != buff
    }

    function LengthOf(buff: BuffId): (n: nat)
      reads this
    {
      if buff in lengths then lengths[buff] else 0
    }

    constructor (blocks: nat)
      ensures Valid() && layout.live == [] && allocation == 64 * blocks
    {
      allocation := 64 * blocks;
      mem := new bv8[64 * blocks];
      head, used, statPackets, statBytes, statOob := 0, 0, 0, 0, 0;
      layout := Layout(64 * blocks, 0, 0, 0, []);
      lengths := map[];
      new;
      assert allocation == 8 * (8 * blocks);
    }

    /** The checks of `copy_data`: whether there is room, and how many bytes at the end of the memory are skipped for it. */
    method FindRoom(aligned: nat) returns (room: bool, pad: nat)
      requires Valid()
      ensures aligned == 0 ==> (room <==> used < allocation)
      ensures aligned > 0 ==>
                (room <==> aligned <= layout.RunAtHead() || (layout.DoesNotWrap() && aligned <= layout.Tail()))
      ensures aligned > 0 ==> (room <==> layout.Accepts(aligned))
      ensures room ==> layout.HasRoom(pad, aligned) && pad == layout.Skipped(aligned)
    {
      if aligned > 0 {
        layout.RunIsLongest(aligned);
        layout.AcceptsIff(aligned);
      }
      room, pad := used < allocation, 0;
      if !room {
        return;
      }
      if head >= used {
        if allocation - head < aligned {
          if head - used >= aligned {
            pad := allocation - head;
          } else {
            room := false;
          }
        }
      } else if allocation - used < aligned {
        room := false;
      }
    }

    /**
     Copy a packet.  It is refused exactly when its aligned length fits neither at the head nor, when the
     live data is one piece, before the tail, which is to say when the free bytes are not there; otherwise it
     becomes the newest live packet, its bytes are where the descriptor says, and every older packet keeps its
     place and its bytes.
     */
    method CopyData(src: seq<bv8>, length: nat, buff: BuffId) returns (ok: bool, addr: nat)
      requires Valid() && Idle(buff)
      requires length < TWO32 && Align8(length) <= |src|
      modifies this, mem
      ensures Valid()
      ensures Align8(length) == 0 ==> (ok <==> old(used) < allocation)
      ensures Align8(length) > 0 ==>
                (ok <==> || Align8(length) <= old(layout).RunAtHead()
                         || (old(layout).DoesNotWrap() && Align8(length) <= old(layout).Tail()))
      ensures Align8(length) > 0 ==> (ok <==> old(layout).Accepts(Align8(length)))
      ensures ok ==> Appended(old(layout), layout, buff, src[..Align8(length)], addr)
      ensures ok ==> addr == old(layout).Target(Align8(length))
      ensures ok ==> used == old(used) + Align8(length) + old(layout).Skipped(Align8(length))
      ensures !ok ==> layout == old(layout) && mem[..] == old(mem[..]) && LengthOf(buff) == 0
      ensures statOob == old(statOob) + (if ok then 0 else 1)
      ensures statPackets == old(statPackets) + (if ok then 1 else 0)
      ensures statBytes == old(statBytes) + (if ok then length else 0)
    {
      Align8Rounds(length);
      var aligned := Align8(length);
      lengths := lengths[buff := 0];
      addr := 0;
      var pad;
      ok, pad := FindRoom(aligned);
      if ok {
        addr := Place(src[..aligned], pad, buff);
        statPackets := statPackets + 1;
        statBytes := statBytes + length;
      } else {
        statOob := statOob + 1;
      }
    }

    /** The write and the bookkeeping of an accepted copy, after skipping `pad` bytes at the end of the memory. */
    method Place(data: seq<bv8>, pad: nat, buff: BuffId) returns (addr: nat)
      requires Valid() && Idle(buff) && |data| % 8 == 0 && layout.HasRoom(pad, |data|)
      modifies this`head, this`used, this`layout, this`lengths, mem
      ensures Valid() && Appended(old(layout), layout, buff, data, addr)
      ensures addr == (if pad > 0 then 0 else old(head)) && used == old(used) + pad + |data|
    {
      ghost var layout' := AppendBooked(layout, mem[..], lengths, buff, pad, data, if pad > 0 then 0 else head);
      if pad > 0 { head := 0; }
      addr := head;
      WriteWords(addr, data);
      head := Wrapped(head + |data|, allocation);
      lengths := lengths[buff := pad + |data|];
      used := used + pad + |data|;
      layout := layout';
      assert Booked(layout, mem[..], lengths);
    }

    static method Wrapped(x: nat, n: nat) returns (r: nat)
      requires 1 <= n && x <= n
      ensures r == if x == n then 0 else x
    {
      ModAtMost(x, n);
      r := x % n;
    }

    /** The copy loop: 8 bytes at a time. */
    method WriteWords(at: nat, data: seq<bv8>)
      requires |data| % 8 == 0 && at + |data| <= mem.Length
      modifies mem
      ensures mem[..] == Overwrite(old(mem[..]), at, data)
    {
      var offset := 0;
      while offset < |data|
        invariant 0 <= offset <= |data| && offset % 8 == 0
        invariant forall k | 0 <= k < offset :: mem[at + k] == data[k]
        invariant forall k | 0 <= k < mem.Length && !(at <= k < at + offset) :: mem[k] == old(mem[k])
      {
        forall k | at + offset <= k < at + offset + 8 {
          mem[k] := data[k - at];
        }
        offset := offset + 8;
      }
    }

    /** Release the oldest packet, or a buffer that holds no device memory. */
    method ReleaseData(buff: BuffId)
      requires Valid()
      requires (layout.live != [] && buff == layout.live[0].buff) || (LengthOf(buff) == 0 && Idle(buff))
      modifies this`used, this`layout, this`lengths
      ensures Valid() && LengthOf(buff) == 0
      ensures old(Idle(buff)) ==> layout == old(layout)
      ensures !old(Idle(buff)) ==> old(layout.live[0].Reserved()) <= old(used) && layout == old(layout).DropOldest()
    {
      ghost var oldest := layout.live != [] && buff == layout.live[0].buff;
      if oldest { DropOldestSound(layout, mem[..]); }
      used := used - LengthOf(buff);
      lengths := lengths[buff := 0];
      if oldest { layout := layout.DropOldest(); }
    }
  }
}
