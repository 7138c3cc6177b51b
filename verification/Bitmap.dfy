/**
 The bitmap of tools/daemon/bitmap.h: bits packed in 32-bit words.  The words are read as a predicate on
 bit numbers; the operations are proved against it.
 */
module Bitmap {
  import opened Bits

  const ITEM_SIZE: nat := 32            // BITMAP_ITEM_SIZE
  const FULL: nat := 0xFFFF_FFFF        // (bitmap_item_t)(-1)

  type Word32 = w: nat | w <= FULL

  /** Bit i of a sequence of words. */
  predicate IsSet(ws: seq<Word32>, i: nat)
  {
    i / ITEM_SIZE < |ws| && TestBit(ws[i / ITEM_SIZE], i % ITEM_SIZE)
  }

  function Mask(bit: nat): (m: Word32)
  {
    MaskFits(bit % ITEM_SIZE);
    Pow2(bit % ITEM_SIZE)
  }

  lemma MaskFits(k: nat)
    requires k < ITEM_SIZE
    ensures Pow2(k) <= FULL
  {
    Pow2Values();
    Pow2Monotone(k, 32);
  }

  /** Two bits with the same word and the same place in it are the same bit. */
  lemma SameBit(i: nat, j: nat)
    ensures i / ITEM_SIZE == j / ITEM_SIZE && i % ITEM_SIZE == j % ITEM_SIZE <==> i == j
  {
  }

  /** Or-ing in the mask of a bit sets that bit and no other. */
  lemma SetWord(ws: seq<Word32>, bit: nat, j: nat)
    requires bit / ITEM_SIZE < |ws|
    ensures BitOr(ws[bit / ITEM_SIZE], Mask(bit)) <= FULL
    ensures IsSet(ws[bit / ITEM_SIZE := BitOr(ws[bit / ITEM_SIZE], Mask(bit))], j) <==> IsSet(ws, j) || j == bit
  {
    var w := ws[bit / ITEM_SIZE];
    Pow2Values();
    OrStaysBelow(w, Mask(bit), 32);
    TestBitOr(w, Mask(bit), j % ITEM_SIZE);
    TestBitPow2(bit % ITEM_SIZE, j % ITEM_SIZE);
    SameBit(bit, j);
  }

  /** Masking a bit out clears that bit and no other. */
  lemma ClearWord(ws: seq<Word32>, bit: nat, j: nat)
    requires bit / ITEM_SIZE < |ws|
    ensures IsSet(ws[bit / ITEM_SIZE := BitClear(ws[bit / ITEM_SIZE], Mask(bit))], j) <==> IsSet(ws, j) && j != bit
  {
    TestBitClear(ws[bit / ITEM_SIZE], Mask(bit), j % ITEM_SIZE);
    TestBitPow2(bit % ITEM_SIZE, j % ITEM_SIZE);
    SameBit(bit, j);
  }

  function SetBit(ws: seq<Word32>, bit: nat): (r: seq<Word32>)
    requires bit / ITEM_SIZE < |ws|
    ensures |r| == |ws|
    ensures forall j: nat :: IsSet(r, j) <==> IsSet(ws, j) || j == bit
  {
    SetWord(ws, bit, 0);
    var r := ws[bit / ITEM_SIZE := BitOr(ws[bit / ITEM_SIZE], Mask(bit))];
    assert forall j: nat :: IsSet(r, j) <==> IsSet(ws, j) || j == bit by {
      forall j: nat
        ensures IsSet(r, j) <==> IsSet(ws, j) || j == bit
      {
        SetWord(ws, bit, j);
      }
    }
    r
  }

  function ClearBit(ws: seq<Word32>, bit: nat): (r: seq<Word32>)
    requires bit / ITEM_SIZE < |ws|
    ensures |r| == |ws|
    ensures forall j: nat :: IsSet(r, j) <==> IsSet(ws, j) && j != bit
  {
    var r := ws[bit / ITEM_SIZE := BitClear(ws[bit / ITEM_SIZE], Mask(bit))];
    assert forall j: nat :: IsSet(r, j) <==> IsSet(ws, j) && j != bit by {
      forall j: nat
        ensures IsSet(r, j) <==> IsSet(ws, j) && j != bit
      {
        ClearWord(ws, bit, j);
      }
    }
    r
  }

  /** The lowest clear bit of the words from i on, or -1. */
  function FirstZeroFrom(ws: seq<Word32>, i: nat): (r: int)
    requires i <= ITEM_SIZE * |ws|
    ensures r == -1 || (i <= r < ITEM_SIZE * |ws| && !IsSet(ws, r))
    ensures forall j: nat | i <= j < (if r == -1 then ITEM_SIZE * |ws| else r) :: IsSet(ws, j)
    decreases ITEM_SIZE * |ws| - i
  {
    if i == ITEM_SIZE * |ws| then -1
    else if !IsSet(ws, i) then i
    else FirstZeroFrom(ws, i + 1)
  }

  function FirstZero(ws: seq<Word32>): (r: int) { FirstZeroFrom(ws, 0) }

  /** The C library's ffs(): one plus the lowest set bit, zero for zero. */
  function Ffs(x: nat): (r: nat)
  {
    if x == 0 then 0 else if x % 2 == 1 then 1 else 1 + Ffs(x / 2)
  }

  lemma {:induction false} FfsIsLowest(x: nat)
    requires x != 0
    ensures Ffs(x) >= 1 && TestBit(x, Ffs(x) - 1)
    ensures forall i: nat | i < Ffs(x) - 1 :: !TestBit(x, i)
  {
    if x % 2 == 0 {
      FfsIsLowest(x / 2);
      forall i: nat | i < Ffs(x) - 1
        ensures !TestBit(x, i)
      {
        if i > 0 { assert !TestBit(x / 2, i - 1); }
      }
    }
  }

  lemma {:induction false} ComplementBits(w: nat, k: nat, i: nat)
    requires w < Pow2(k)
    ensures TestBit(Pow2(k) - 1 - w, i) <==> i < k && !TestBit(w, i)
    decreases k
  {
    if k == 0 {
      ZeroHasNoBits(i);
    } else {
      var n := Pow2(k - 1);
      var c := 2 * n - 1 - w;
      assert c / 2 == n - 1 - w / 2 && c % 2 == 1 - w % 2;
      if i > 0 { ComplementBits(w / 2, k - 1, i - 1); }
    }
  }

  /** In a word that is not full, ffs of the complement finds the lowest clear bit. */
  lemma FirstClearBit(w: Word32)
    requires w != FULL
    ensures 1 <= Ffs(FULL - w) <= ITEM_SIZE
    ensures !TestBit(w, Ffs(FULL - w) - 1)
    ensures forall i: nat | i < Ffs(FULL - w) - 1 :: TestBit(w, i)
  {
    var r := Ffs(FULL - w) - 1;
    Pow2Values();
    FfsIsLowest(FULL - w);
    ComplementBits(w, 32, r);
    forall i: nat | i < r
      ensures TestBit(w, i)
    {
      ComplementBits(w, 32, i);
    }
  }

  lemma FullWord(i: nat)
    requires i < ITEM_SIZE
    ensures TestBit(FULL, i)
  {
    Pow2Values();
    ComplementBits(FULL, 32, i);
    ZeroHasNoBits(i);
  }

  /** What `bitmap_test_group` reports: the common value of a run of bits, or -1. */
  ghost function GroupValue(ws: seq<Word32>, size: nat, start: nat, count: nat): (v: int)
  {
    if start + count > size then -1
    else if exists j: nat :: start <= j < start + count && IsSet(ws, j) != IsSet(ws, start) then -1
    else if IsSet(ws, start) then 1 else 0
  }

  class Bitmap {
    const size: nat
    const words: array<Word32>     // bitmap

    ghost predicate Valid()
    {
      words.Length == (size + ITEM_SIZE - 1) / ITEM_SIZE
    }

    ghost function View(): (ws: seq<Word32>)
      reads words
    {
      words[..]
    }

    /** `bitmap_create` */
    constructor (size: nat)
      ensures Valid() && this.size == size && fresh(words)
      ensures forall i: nat :: !IsSet(View(), i)
    {
      this.size := size;
      words := new Word32[(size + ITEM_SIZE - 1) / ITEM_SIZE](_ => 0);
      new;
      forall i: nat
        ensures !IsSet(View(), i)
      {
        ZeroHasNoBits(i % ITEM_SIZE);
      }
    }

    /** A bitmap whose words are at hand. */
    constructor Of(ws: seq<Word32>)
      ensures Valid() && size == ITEM_SIZE * |ws| && fresh(words) && View() == ws
    {
      size := ITEM_SIZE * |ws|;
      words := new Word32[|ws|](i requires 0 <= i < |ws| => ws[i]);
    }

    /** `bitmap_set` */
    method Set(bit: nat)
      requires bit / ITEM_SIZE < words.Length
      modifies words
      ensures View() == SetBit(old(View()), bit)
    {
      ghost var ws := View();
      SetWord(ws, bit, 0);
      words[bit / ITEM_SIZE] := BitOr(words[bit / ITEM_SIZE], Mask(bit));
      assert View() == ws[bit / ITEM_SIZE := BitOr(ws[bit / ITEM_SIZE], Mask(bit))];
    }

    /** `bitmap_clear` */
    method Clear(bit: nat)
      requires bit / ITEM_SIZE < words.Length
      modifies words
      ensures View() == ClearBit(old(View()), bit)
    {
      ghost var ws := View();
      words[bit / ITEM_SIZE] := BitClear(words[bit / ITEM_SIZE], Mask(bit));
      assert View() == ws[bit / ITEM_SIZE := BitClear(ws[bit / ITEM_SIZE], Mask(bit))];
    }

    /** `bitmap_test` */
    method Test(bit: nat) returns (r: int)
      requires bit / ITEM_SIZE < words.Length
      ensures r == if IsSet(View(), bit) then 1 else 0
    {
      AndOneBit(words[bit / ITEM_SIZE], bit % ITEM_SIZE);
      r := if BitAnd(words[bit / ITEM_SIZE], Mask(bit)) != 0 then 1 else 0;
    }

    /** `bitmap_find_first_zero`: the lowest clear bit of the words, or -1 when every bit of every word is set. */
    method FindFirstZero() returns (r: int)
      requires Valid()
      ensures r == FirstZero(View())
    {
      for i := 0 to words.Length
        invariant forall j: nat | j < ITEM_SIZE * i :: IsSet(View(), j)
      {
        if words[i] != FULL {
          FirstClearBit(words[i]);
          r := i * ITEM_SIZE + Ffs(FULL - words[i]) - 1;
          assert r / ITEM_SIZE == i && r % ITEM_SIZE == Ffs(FULL - words[i]) - 1;
          assert !IsSet(View(), r) && forall j: nat | j < r :: IsSet(View(), j);
          return;
        }
        forall j: nat | j < ITEM_SIZE * (i + 1)
          ensures IsSet(View(), j)
        {
          FullWord(j % ITEM_SIZE);
        }
      }
      return -1;
    }

    /** `bitmap_test_group` */
    method TestGroup(start: nat, count: nat) returns (value: int)
      requires Valid() && (start + count <= size ==> start / ITEM_SIZE < words.Length)
      ensures value == GroupValue(View(), size, start, count)
    {
      value := -1;
      if start + count <= size {
        value := Test(start);
        var i := 1;
        while i < count
          invariant 1 <= i && (i <= count || count == 0)
          invariant forall j: nat | start <= j < start + i && j < start + count :: IsSet(View(), j) == IsSet(View(), start)
        {
          var v := Test(start + i);
          if v != value {
            return -1;
          }
          i := i + 1;
        }
      }
    }

    /** `bitmap_find_group`: the first place from start on where the group has the value, or -1. */
    method FindGroup(start: nat, count: nat, value: int) returns (r: int)
      requires Valid() && (count == 0 ==> size % ITEM_SIZE != 0)
      ensures r >= 0 ==> start <= r && r + count <= size && GroupValue(View(), size, r, count) == value
      ensures r >= 0 ==> forall i: nat | start <= i < r :: GroupValue(View(), size, i, count) != value
      ensures r < 0 ==> r == -1 && forall i: nat | start <= i && i + count <= size :: GroupValue(View(), size, i, count) != value
    {
      if start + count <= size {
        var last := size - count;
        for i := start to last + 1
          invariant forall k: nat | start <= k < i :: GroupValue(View(), size, k, count) != value
        {
          var v := TestGroup(i, count);
          if value == v {
            return i;
          }
        }
      }
      return -1;
    }
  }
}
