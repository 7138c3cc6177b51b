/**
 The Internet checksum of tools/daemon/notify.c (`calc_csum`), against the one's complement sum of
 section 1 of RFC 1071.  The code adds all words into a wide accumulator and folds the carries back
 exactly twice; that is enough for every buffer of up to 65538 words and not for longer ones.
 */
module Checksum {
  import opened Arith

  type Byte = b: nat | b < 256
  type Word = w: nat | w < 0x1_0000

  const MOST_WORDS: nat := 65538

  function WordOf(lo: Byte, hi: Byte): (w: Word) { (lo as int) + 256 * (hi as int) }

  /** The buffer as little-endian 16-bit words; an odd last byte is the low half of a last word. */
  function Words(buf: seq<Byte>): (ws: seq<Word>)
    ensures |ws| == (|buf| + 1) / 2
  {
    if |buf| == 0 then []
    else if |buf| == 1 then [buf[0]]
    else [WordOf(buf[0], buf[1])] + Words(buf[2..])
  }

  function Sum(ws: seq<Word>): (s: nat)
  {
    if ws == [] then 0 else ws[0] + Sum(ws[1..])
  }

  /** One's complement addition: the carry out of the top goes back in at the bottom. */
  function OnesAdd(a: Word, b: Word): (r: Word)
  {
    if a + b > 0xFFFF then a + b - 0xFFFF else a + b
  }

  function OnesSum(ws: seq<Word>): (r: Word)
  {
    if ws == [] then 0 else OnesAdd(ws[0], OnesSum(ws[1..]))
  }

  /** The first fold of the accumulator. */
  function Fold(s: nat): (r: nat) { s / 0x1_0000 + s % 0x1_0000 }

  /** What `calc_csum` makes of the accumulated sum: two folds, complement, truncation to 16 bits. */
  function Finish(s: nat): (r: Word)
  {
    var f := Fold(s);
    0xFFFF - (f + f / 0x1_0000) % 0x1_0000
  }

  function Csum(buf: seq<Byte>): (r: Word) { Finish(Sum(Words(buf))) }

  /** `calc_csum` */
  method CalcCsum(buf: seq<Byte>) returns (answer: Word)
    ensures answer == Csum(buf)
  {
    var sum := AddWords(buf);
    sum := sum / 0x1_0000 + sum % 0x1_0000;
    sum := sum + sum / 0x1_0000;
    answer := 0xFFFF - sum % 0x1_0000;
  }

  /** The loop of `calc_csum`, with the odd byte after it. */
  method AddWords(buf: seq<Byte>) returns (sum: nat)
    ensures sum == Sum(Words(buf))
  {
    var ptr, nbytes := 0, |buf|;
    sum := 0;
    assert buf[0..] == buf;
    while nbytes > 1
      invariant 0 <= ptr && 0 <= nbytes && ptr + nbytes == |buf|
      invariant sum + Sum(Words(buf[ptr..])) == Sum(Words(buf))
      decreases nbytes
    {
      assert buf[ptr..][2..] == buf[ptr + 2..];
      sum := sum + WordOf(buf[ptr], buf[ptr + 1]);
      ptr := ptr + 2;
      nbytes := nbytes - 2;
    }
    if nbytes == 1 {
      assert buf[ptr..] == [buf[ptr]];
      sum := sum + buf[ptr];
    }
  }

  /** The 16-bit representative of s modulo 65535: zero only for zero. */
  function Rep(s: nat): (r: Word)
  {
    if s == 0 then 0 else (s - 1) % 0xFFFF + 1
  }

  lemma RepUnique(s: nat, q: nat, r: Word)
    requires s == 0xFFFF * q + r && (r == 0 ==> s == 0)
    ensures Rep(s) == r
  {
    if s > 0 { DivModUnique(s - 1, 0xFFFF, q, r - 1); }
  }

  lemma RepDecompose(s: nat) returns (q: nat)
    ensures s == 0xFFFF * q + Rep(s)
  {
    q := if s == 0 then 0 else (s - 1) / 0xFFFF;
  }

  /** The one's complement sum depends only on the plain sum. */
  lemma {:induction false} OnesSumIsRep(ws: seq<Word>)
    ensures OnesSum(ws) == Rep(Sum(ws))
  {
    if ws != [] {
      OnesSumIsRep(ws[1..]);
      var q := RepDecompose(Sum(ws[1..]));
      if ws[0] + OnesSum(ws[1..]) > 0xFFFF {
        RepUnique(Sum(ws), q + 1, OnesSum(ws));
      } else {
        RepUnique(Sum(ws), q, OnesSum(ws));
      }
    }
  }

  /** The second addition of the code does not itself carry out of 16 bits. */
  predicate TwoFoldsFit(s: nat)
  {
    Fold(s) % 0x1_0000 + Fold(s) / 0x1_0000 <= 0xFFFF
  }

  /** Two folds give the complement of the one's complement sum exactly when the second one does not carry. */
  lemma FinishIsComplement(s: nat)
    requires s < 0x4000_0000 * 0x1_0000   // no C `int` length can sum to more
    ensures Finish(s) == 0xFFFF - Rep(s) <==> TwoFoldsFit(s)
  {
    var f := Fold(s);
    FinishFromDigits(s, s / 0x1_0000, s % 0x1_0000, f / 0x1_0000, f % 0x1_0000);
  }

  /** The same over the digits of s and of its first fold. */
  lemma FinishFromDigits(s: nat, hi: nat, lo: nat, h: nat, l: nat)
    requires s == 0x1_0000 * hi + lo && lo < 0x1_0000 && hi + lo == 0x1_0000 * h + l && l < 0x1_0000 && h <= 0x4000
    requires Fold(s) == hi + lo && Fold(s) / 0x1_0000 == h
    ensures Finish(s) == 0xFFFF - Rep(s) <==> l + h <= 0xFFFF
  {
    var f := hi + lo;
    if l + h <= 0xFFFF {
      DivModUnique(f + h, 0x1_0000, h, l + h);
      RepUnique(s, hi + h, l + h);
    } else {
      DivModUnique(f + h, 0x1_0000, h + 1, l + h - 0x1_0000);
      RepUnique(s, hi + h + 1, l + h - 0xFFFF);
    }
  }

  lemma {:induction false} SumBound(ws: seq<Word>)
    ensures Sum(ws) <= 0xFFFF * |ws|
  {
    if ws != [] { SumBound(ws[1..]); }
  }

  /** Up to 65538 words `calc_csum` is the complement of the one's complement sum. */
  lemma CsumIsComplement(buf: seq<Byte>)
    requires |Words(buf)| <= MOST_WORDS
    ensures Csum(buf) == 0xFFFF - OnesSum(Words(buf))
  {
    var s := Sum(Words(buf));
    SumBound(Words(buf));
    OnesSumIsRep(Words(buf));
    FinishIsComplement(s);
  }

  /** A buffer of n words, all ones but for a last significant word 1, that two folds get wrong. */
  function Stubborn(words: nat): (buf: seq<Byte>)
  {
    seq(2 * words, i requires 0 <= i < 2 * words =>
      if i < 2 * MOST_WORDS then 255 else if i == 2 * MOST_WORDS then 1 else 0)
  }

  lemma {:induction false} SumConcat(a: seq<Word>, b: seq<Word>)
    ensures Sum(a + b) == Sum(a) + Sum(b)
  {
    if a == [] {
      assert a + b == b;
    } else {
      SumConcat(a[1..], b);
      assert (a + b)[1..] == a[1..] + b;
    }
  }

  lemma {:induction false} WordAt(buf: seq<Byte>, i: nat)
    requires i < |Words(buf)|
    ensures Words(buf)[i] == WordOf(buf[2 * i], if 2 * i + 1 < |buf| then buf[2 * i + 1] else 0)
  {
    if i > 0 { WordAt(buf[2..], i - 1); }
  }

  lemma {:induction false} SumOfEqual(ws: seq<Word>, w: Word)
    requires forall i | 0 <= i < |ws| :: ws[i] == w
    ensures Sum(ws) == |ws| * w
  {
    if ws != [] {
      SumOfEqual(ws[1..], w);
      assert |ws| * w == (|ws| - 1) * w + w;
    }
  }

  /** For every length beyond 65538 words some buffer gets a wrong checksum. */
  lemma LongBuffersFail(words: nat)
    requires MOST_WORDS < words < 0x4000_0000
    ensures |Words(Stubborn(words))| == words
    ensures Csum(Stubborn(words)) != 0xFFFF - OnesSum(Words(Stubborn(words)))
  {
    var buf := Stubborn(words);
    var ws := Words(buf);
    forall i | 0 <= i < words
      ensures ws[i] == if i < MOST_WORDS then 0xFFFF else if i == MOST_WORDS then 1 else 0
    {
      WordAt(buf, i);
    }
    var ones, one, zeros := ws[..MOST_WORDS], ws[MOST_WORDS..MOST_WORDS + 1], ws[MOST_WORDS + 1..];
    SumOfEqual(ones, 0xFFFF);
    SumOfEqual(zeros, 0);
    assert one == [1] && Sum(one) == 1;
    assert ws == ones + one + zeros;
    SumConcat(ones + one, zeros);
    SumConcat(ones, one);
    assert Sum(ws) == 0xFFFF * MOST_WORDS + 1;
    OnesSumIsRep(ws);
    FinishIsComplement(Sum(ws));
  }

  /** Store a 16-bit word at word offset i. */
  function PutWord(buf: seq<Byte>, i: nat, w: Word): (r: seq<Byte>)
    requires 2 * i + 1 < |buf|
  {
    buf[2 * i := w % 256][2 * i + 1 := w / 256]
  }

  lemma {:induction false} SumPutWord(buf: seq<Byte>, i: nat, w: Word)
    requires 2 * i + 1 < |buf| && buf[2 * i] == 0 && buf[2 * i + 1] == 0
    ensures Sum(Words(PutWord(buf, i, w))) == Sum(Words(buf)) + w
    decreases i
  {
    var buf' := PutWord(buf, i, w);
    if i == 0 {
      assert buf'[2..] == buf[2..];
    } else {
      SumPutWord(buf[2..], i - 1, w);
      assert buf'[2..] == PutWord(buf[2..], i - 1, w);
    }
  }

  lemma RepAbsorbs(s: nat)
    ensures Rep(s + (0xFFFF - Rep(s))) == 0xFFFF
  {
    var q := RepDecompose(s);
    RepUnique(s + (0xFFFF - Rep(s)), q, 0xFFFF);
  }

  /** Storing the checksum in its zeroed field makes the checksum of the whole zero. */
  lemma StoredChecksumVerifies(buf: seq<Byte>, field: nat)
    requires |Words(buf)| <= MOST_WORDS
    requires 2 * field + 1 < |buf| && buf[2 * field] == 0 && buf[2 * field + 1] == 0
    ensures Csum(PutWord(buf, field, Csum(buf))) == 0
  {
    CsumIsComplement(buf);
    OnesSumIsRep(Words(buf));
    SumPutWord(buf, field, Csum(buf));
    ComplementVerifies(PutWord(buf, field, Csum(buf)), Sum(Words(buf)));
  }

  lemma ComplementVerifies(after: seq<Byte>, s: nat)
    requires |Words(after)| <= MOST_WORDS && Sum(Words(after)) == s + (0xFFFF - Rep(s))
    ensures Csum(after) == 0
  {
    RepAbsorbs(s);
    OnesSumIsRep(Words(after));
    CsumIsComplement(after);
  }
}
