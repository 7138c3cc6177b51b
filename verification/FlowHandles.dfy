/** The 32-bit filter handles of tools/daemon/flow.c: table, bucket and node packed by the HANDLE_* macros. */
module FlowHandles {
  import opened Arith
  import opened Bits

  const TWO32: nat := 0x1_0000_0000

  /** Conversion of a C int to uint32_t. */
  function U32(x: int): (r: nat) { x % TWO32 }

  function HandleSet(ht: int, bkt: int, id: int): (h: nat)
  {
    BitOr(BitOr(TableField(ht), BucketField(bkt)), IdField(id))
  }

  function TableField(ht: int): (r: nat) { BitAnd((U32(ht) * 0x10_0000) % TWO32, 0xFFF0_0000) }   // << 20
  function BucketField(bkt: int): (r: nat) { BitAnd((U32(bkt) * 0x1000) % TWO32, 0x000F_F000) }   // << 12
  function IdField(id: int): (r: nat) { BitAnd(U32(id), 0x0000_0FFF) }

  function HandleHt(h: nat): (r: nat) { BitAnd(h, 0xFFF0_0000) / 0x10_0000 }
  function HandleBkt(h: nat): (r: nat) { BitAnd(h, 0x000F_F000) / 0x1000 }
  function HandleId(h: nat): (r: nat) { BitAnd(h, 0x0000_0FFF) }

  lemma Powers()
    ensures Pow2(8) == 0x100 && Pow2(12) == 0x1000 && Pow2(20) == 0x10_0000
  {
    Pow2Values();
    AddPow2(4, 8);
    AddPow2(8, 12);
  }

  /** x shifted left, and right, by k places. */
  function Up(x: nat, k: nat): (r: nat) { if k == 0 then x else 2 * Up(x, k - 1) }
  function Down(x: nat, k: nat): (r: nat) { if k == 0 then x else Down(x / 2, k - 1) }

  lemma {:induction false} UpIsTimes(x: nat, k: nat)
    ensures Up(x, k) == x * Pow2(k)
  {
    if k > 0 {
      UpIsTimes(x, k - 1);
      TwiceProduct(x, Pow2(k - 1));
    }
  }

  lemma TwiceProduct(x: nat, y: nat)
    ensures x * (2 * y) == 2 * (x * y)
  {
  }

  lemma {:induction false} DownIsDivision(x: nat, k: nat)
    ensures Down(x, k) == x / Pow2(k)
  {
    if k > 0 {
      DownIsDivision(x / 2, k - 1);
      DivModDouble(x, Pow2(k - 1));
    }
  }

  lemma Shift12(x: nat)
    ensures Up(x, 12) == x * 0x1000 && Down(x, 12) == x / 0x1000
  {
    Powers();
    UpIsTimes(x, 12);
    DownIsDivision(x, 12);
  }

  lemma Shift20(x: nat)
    ensures Up(x, 20) == x * 0x10_0000 && Down(x, 20) == x / 0x10_0000
  {
    Powers();
    UpIsTimes(x, 20);
    DownIsDivision(x, 20);
  }

  /** A mask shifted by k selects from the bits above k. */
  lemma {:induction false} AndShifted(v: nat, m: nat, k: nat)
    ensures BitAnd(v, Up(m, k)) == Up(BitAnd(Down(v, k), m), k)
  {
    if k > 0 {
      AndShifted(v / 2, m, k - 1);
      assert BitAnd(v, 2 * Up(m, k - 1)) == 2 * BitAnd(v / 2, Up(m, k - 1));
    }
  }

  /** Or-ing numbers whose bits do not overlap adds them. */
  lemma {:induction false} OrDisjoint(hi: nat, lo: nat, k: nat)
    requires lo < Up(1, k)
    ensures BitOr(Up(hi, k), lo) == Up(hi, k) + lo
    decreases k
  {
    if k > 0 { OrDisjoint(hi, lo / 2, k - 1); }
  }

  /** Truncation to 32 bits keeps every shorter field. */
  lemma FieldOfU32(x: int, unit: nat, room: nat)
    requires unit >= 1 && unit * room == TWO32
    ensures U32(x) % unit == x % unit
  {
    var q, u := x / TWO32, U32(x);
    var p, r := u / unit, u % unit;
    assert x == TWO32 * q + u && u == unit * p + r;
    assert x == unit * (room * q + p) + r by {
      assert unit * (room * q + p) == (unit * room) * q + unit * p;
    }
    DivModUnique(x, unit, room * q + p, r);
  }

  /** Shifting left in 32 bits drops the high bits of the field. */
  lemma ShiftWraps(u: nat, unit: nat, room: nat)
    requires unit >= 1 && room >= 1 && unit * room == TWO32
    ensures (u * unit) % TWO32 == (u % room) * unit
  {
    var q, r := u / room, u % room;
    assert u == room * q + r;
    assert u * unit == TWO32 * q + r * unit by {
      assert (room * q) * unit == (unit * room) * q;
    }
    assert r * unit <= (room - 1) * unit;
    DivModUnique(u * unit, TWO32, q, r * unit);
  }

  lemma ShiftedTable(ht: int)
    ensures TableField(ht) == (ht % 0x1000) * 0x10_0000
  {
    var a := U32(ht) % 0x1000;
    ShiftWraps(U32(ht), 0x10_0000, 0x1000);
    MaskTable(a * 0x10_0000);
    FieldOfU32(ht, 0x1000, 0x10_0000);
    DivModUnique(a * 0x10_0000, 0x10_0000, a, 0);
  }

  lemma MaskTable(h: nat)
    requires h < TWO32
    ensures BitAnd(h, 0xFFF0_0000) == (h / 0x10_0000) * 0x10_0000
  {
    Powers();
    Shift20(0xFFF);
    Shift20(h);
    AndShifted(h, 0xFFF, 20);
    AndLowMask(h / 0x10_0000, 12);
    Shift20(h / 0x10_0000);
    DivModUnique(h / 0x10_0000, 0x1000, 0, h / 0x10_0000);
  }

  lemma ShiftedBucket(bkt: int)
    ensures BucketField(bkt) == (bkt % 0x100) * 0x1000
  {
    var a := U32(bkt) % 0x10_0000;
    ShiftWraps(U32(bkt), 0x1000, 0x10_0000);
    MaskBucket(a * 0x1000);
    FieldOfU32(bkt, 0x100, 0x100_0000);
    DivModUnique(a * 0x1000, 0x1000, a, 0);
    assert a % 0x100 == U32(bkt) % 0x100 by {
      var q := U32(bkt) / 0x10_0000;
      assert U32(bkt) == 0x100 * (0x1000 * q + a / 0x100) + a % 0x100;
      DivModUnique(U32(bkt), 0x100, 0x1000 * q + a / 0x100, a % 0x100);
    }
  }

  lemma MaskBucket(h: nat)
    ensures BitAnd(h, 0x000F_F000) == ((h / 0x1000) % 0x100) * 0x1000
  {
    Powers();
    Shift12(0xFF);
    Shift12(h);
    AndShifted(h, 0xFF, 12);
    AndLowMask(h / 0x1000, 8);
    Shift12((h / 0x1000) % 0x100);
  }

  /** The handle in plain arithmetic; out-of-range fields are truncated to their widths. */
  lemma HandleIsSum(ht: int, bkt: int, id: int)
    ensures HandleSet(ht, bkt, id) == (ht % 0x1000) * 0x10_0000 + (bkt % 0x100) * 0x1000 + id % 0x1000
  {
    ShiftedTable(ht);
    ShiftedBucket(bkt);
    MaskedId(id);
    PackSum(ht % 0x1000, bkt % 0x100, id % 0x1000);
  }

  lemma MaskedId(id: int)
    ensures IdField(id) == id % 0x1000
  {
    Powers();
    AndLowMask(U32(id), 12);
    FieldOfU32(id, 0x1000, 0x10_0000);
  }

  lemma PackSum(hi: nat, mid: nat, lo: nat)
    requires hi < 0x1000 && mid < 0x100 && lo < 0x1000
    ensures BitOr(BitOr(hi * 0x10_0000, mid * 0x1000), lo) == hi * 0x10_0000 + mid * 0x1000 + lo
  {
    Shift20(hi);
    Shift20(1);
    OrDisjoint(hi, mid * 0x1000, 20);
    Shift12(hi * 0x100 + mid);
    Shift12(1);
    OrDisjoint(hi * 0x100 + mid, lo, 12);
  }

  /** Packing and unpacking: each field comes back as long as it fits its width, and truncated otherwise. */
  lemma HandleRoundTrip(ht: int, bkt: int, id: int)
    ensures HandleHt(HandleSet(ht, bkt, id)) == ht % 0x1000
    ensures HandleBkt(HandleSet(ht, bkt, id)) == bkt % 0x100
    ensures HandleId(HandleSet(ht, bkt, id)) == id % 0x1000
  {
    HandleIsSum(ht, bkt, id);
    Unpack(HandleSet(ht, bkt, id), ht % 0x1000, bkt % 0x100, id % 0x1000);
  }

  lemma Unpack(h: nat, hi: nat, mid: nat, lo: nat)
    requires hi < 0x1000 && mid < 0x100 && lo < 0x1000 && h == hi * 0x10_0000 + mid * 0x1000 + lo
    ensures HandleHt(h) == hi && HandleBkt(h) == mid && HandleId(h) == lo
  {
    Powers();
    DivModUnique(h, 0x10_0000, hi, mid * 0x1000 + lo);
    DivModUnique(h, 0x1000, hi * 0x100 + mid, lo);
    DivModUnique(hi * 0x100 + mid, 0x100, hi, mid);
    MaskTable(h);
    MaskBucket(h);
    AndLowMask(h, 12);
    DivModUnique(hi * 0x10_0000, 0x10_0000, hi, 0);
    DivModUnique(mid * 0x1000, 0x1000, mid, 0);
  }
}
