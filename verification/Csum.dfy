/** The Internet checksum of `lib/csum.c`, on a little-endian host: RFC 1071 section 1 and
    RFC 1624 section 3. */
module Csum {

  newtype Byte = x: int | 0 <= x < 256
  type U16 = x: int | 0 <= x < 0x1_0000
  type U32 = x: int | 0 <= x < 0x1_0000_0000

  const ONES: U16 := 0xffff

  // ---- Sums and their ones-complement fold -----------------------------------------------

  function Word(lo: Byte, hi: Byte): U16 {
    lo as int + 256 * hi as int
  }

  /** The sum of the data's 16-bit words, an odd last byte counting as a word of its own. */
  function WordSum(data: seq<Byte>): nat {
    if |data| == 0 then 0
    else if |data| == 1 then data[0] as nat
    else Word(data[0], data[1]) + WordSum(data[2..])
  }

  /** The ones-complement sum of a total: 0 for nothing, else its residue in 1..65535. */
  function Fold(x: nat): U16 {
    if x == 0 then 0 else (x - 1) % 0xffff + 1
  }

  predicate Congruent(x: int, y: int) {
    (x - y) % 0xffff == 0
  }

  lemma FoldUnique(x: nat, y: nat)
    ensures Fold(x) == Fold(y) <==> Congruent(x, y) && (x == 0 <==> y == 0)
  {
    if x > 0 && y > 0 {
      assert (x - 1) - (y - 1) == x - y;
    }
  }

  lemma FoldCongruent(x: nat)
    ensures Congruent(Fold(x), x)
  {
  }

  /** csum_finish */
  method Finish(total: U32) returns (r: U16)
    ensures r == ONES - Fold(total)
  {
    var partial := total;
    while partial / 0x1_0000 != 0
      invariant Fold(partial) == Fold(total)
      decreases partial
    {
      FoldUnique(partial, partial % 0x1_0000 + partial / 0x1_0000);
      partial := partial % 0x1_0000 + partial / 0x1_0000;
    }
    r := ONES - partial;
  }

  /** What the machine keeps of a sum that exceeds 32 bits by at most one carry. */
  function Wrap(x: nat): U32
    requires x < 0x2_0000_0000
  {
    if x < 0x1_0000_0000 then x else x - 0x1_0000_0000
  }

  /** csum_add16 */
  function Add16(partial: U32, x: U16): U32 {
    Wrap(partial + x)
  }

  /** csum_add32 */
  function Add32(partial: U32, x: U32): U32 {
    Wrap(partial + x / 0x1_0000 + x % 0x1_0000)
  }

  /** csum_continue: the sum, less whatever was lost when the accumulator wrapped around. */
  method Continue(start: U32, data: seq<Byte>) returns (partial: U32)
    ensures (start + WordSum(data) - partial) % 0x1_0000_0000 == 0
    ensures start + WordSum(data) < 0x1_0000_0000 ==> partial == start + WordSum(data)
  {
    partial := start;
    var i := 0;
    ghost var carries: nat := 0;
    while |data| - i > 1
      invariant 0 <= i <= |data|
      invariant partial + 0x1_0000_0000 * carries + WordSum(data[i..]) == start + WordSum(data)
    {
      assert data[i..][2..] == data[i + 2..];
      ghost var sum := partial + Word(data[i], data[i + 1]);
      carries := if sum < 0x1_0000_0000 then carries else carries + 1;
      partial := Add16(partial, Word(data[i], data[i + 1]));
      i := i + 2;
    }
    if |data| - i > 0 {
      var sum := partial + data[i] as int;
      carries := if sum < 0x1_0000_0000 then carries else carries + 1;
      partial := Wrap(sum);
    }
    Carried(start + WordSum(data) - partial, carries);
  }

  lemma Carried(lost: int, carries: nat)
    requires lost == 0x1_0000_0000 * carries
    ensures lost % 0x1_0000_0000 == 0
  {
  }

  /** The checksum of data whose sum fits the 32-bit accumulator. */
  function ChecksumOf(data: seq<Byte>): U16 {
    ONES - Fold(WordSum(data))
  }

  /** csum */
  method Checksum(data: seq<Byte>) returns (r: U16)
    ensures WordSum(data) < 0x1_0000_0000 ==> r == ChecksumOf(data)
  {
    var partial := Continue(0, data);
    r := Finish(partial);
  }

  /** Summing in two goes, the first an even number of bytes long, is summing at once. */
  lemma {:induction false} SumOfParts(a: seq<Byte>, b: seq<Byte>)
    requires |a| % 2 == 0
    ensures WordSum(a + b) == WordSum(a) + WordSum(b)
  {
    if a == [] {
      assert a + b == b;
    } else {
      assert (a + b)[2..] == a[2..] + b;
      SumOfParts(a[2..], b);
    }
  }

  /** An odd last byte counts as if a zero byte followed it. */
  lemma {:induction false} OddByteIsPadded(data: seq<Byte>)
    requires |data| % 2 == 1
    ensures WordSum(data) == WordSum(data + [0])
  {
    var padded := data + [0];
    if |data| == 1 {
      assert padded[2..] == [];
    } else {
      assert padded[2..] == data[2..] + [0];
      OddByteIsPadded(data[2..]);
    }
  }

  lemma SplitWord(lo: U16, hi: U16)
    ensures (lo + 0x1_0000 * hi) % 0x1_0000 == lo && (lo + 0x1_0000 * hi) / 0x1_0000 == hi
  {
  }

  /** csum_add32 adds what the four bytes of a word in memory add. */
  lemma Add32IsFourBytes(partial: U32, a: Byte, b: Byte, c: Byte, d: Byte)
    ensures WordSum([a, b, c, d]) <= 2 * ONES
    ensures Add32(partial, Word(a, b) + 0x1_0000 * Word(c, d)) == Wrap(partial + WordSum([a, b, c, d]))
  {
    SplitWord(Word(a, b), Word(c, d));
    assert [a, b, c, d][2..] == [c, d];
    assert WordSum([c, d]) == Word(c, d) + WordSum([c, d][2..]);
  }

  // ---- Incremental update ----------------------------------------------------------------

  /** recalc_csum16 */
  method Recalc16(oldCsum: U16, oldWord: U16, newWord: U16) returns (r: U16)
    ensures r == Recalculated16(oldCsum, oldWord, newWord)
  {
    r := Finish((ONES - oldCsum) + (ONES - oldWord) + newWord);
  }

  /** recalc_csum32 */
  method Recalc32(oldCsum: U16, oldWord: U32, newWord: U32) returns (r: U16)
    ensures r == Recalculated32(oldCsum, oldWord, newWord)
  {
    var low := Recalc16(oldCsum, oldWord % 0x1_0000, newWord % 0x1_0000);
    r := Recalc16(low, oldWord / 0x1_0000, newWord / 0x1_0000);
  }

  /** What Recalc16 returns. */
  function Recalculated16(oldCsum: U16, oldWord: U16, newWord: U16): U16 {
    ONES - Fold((ONES - oldCsum) + (ONES - oldWord) + newWord)
  }

  function Recalculated32(oldCsum: U16, oldWord: U32, newWord: U32): U16 {
    Recalculated16(Recalculated16(oldCsum, oldWord % 0x1_0000, newWord % 0x1_0000), oldWord / 0x1_0000, newWord / 0x1_0000)
  }

  /** The data with the 16-bit word at byte offset `2 * k` replaced. */
  function WithWord(data: seq<Byte>, k: nat, w: U16): seq<Byte>
    requires 2 * k + 1 < |data|
  {
    data[2 * k := (w % 256) as Byte][2 * k + 1 := (w / 256) as Byte]
  }

  function WordAt(data: seq<Byte>, k: nat): U16
    requires 2 * k + 1 < |data|
  {
    Word(data[2 * k], data[2 * k + 1])
  }

  lemma {:induction false} WordSumUpdate(data: seq<Byte>, k: nat, w: U16)
    requires 2 * k + 1 < |data|
    ensures WordSum(WithWord(data, k, w)) + WordAt(data, k) == WordSum(data) + w
  {
    if k == 0 {
      assert WithWord(data, k, w)[2..] == data[2..];
    } else {
      assert WithWord(data, k, w)[2..] == WithWord(data[2..], k - 1, w);
      WordSumUpdate(data[2..], k - 1, w);
    }
  }

  predicate AllZero(data: seq<Byte>) {
    forall i | 0 <= i < |data| :: data[i] == 0
  }

  lemma {:induction false} ZeroSum(data: seq<Byte>)
    ensures WordSum(data) == 0 <==> AllZero(data)
  {
    if |data| >= 2 {
      ZeroSum(data[2..]);
      assert AllZero(data) <==> data[0] == 0 && data[1] == 0 && AllZero(data[2..]) by {
        if AllZero(data[2..]) && data[0] == 0 && data[1] == 0 {
          forall i | 0 <= i < |data| ensures data[i] == 0 {
            if i >= 2 {
              assert data[i] == data[2..][i - 2];
            }
          }
        }
      }
    }
  }

  /** Any checksum that is right modulo 65535 is updated to the right one, given that the new
      data is not all zero and the sum that is folded is not zero. */
  lemma UpdateCongruent(oldCsum: U16, sum: nat, oldWord: U16, newWord: U16, newSum: nat)
    requires Congruent(ONES - oldCsum, sum) && newSum + oldWord == sum + newWord
    ensures Congruent(ONES - Recalculated16(oldCsum, oldWord, newWord), newSum)
    ensures (ONES - oldCsum) + (ONES - oldWord) + newWord > 0 ==>
              (Recalculated16(oldCsum, oldWord, newWord) == ONES - Fold(newSum) <==> newSum != 0)
  {
    var t := (ONES - oldCsum) + (ONES - oldWord) + newWord;
    FoldCongruent(t);
    assert Congruent(t, newSum);
    FoldUnique(t, newSum);
  }

  /** recalc_csum16 of a right checksum is the checksum of the changed data exactly when that
      data is not all zero. */
  lemma Recalc16Right(data: seq<Byte>, k: nat, w: U16)
    requires 2 * k + 1 < |data|
    ensures Recalculated16(ChecksumOf(data), WordAt(data, k), w) == ChecksumOf(WithWord(data, k, w))
            <==> !AllZero(WithWord(data, k, w))
  {
    WordSumUpdate(data, k, w);
    ZeroSum(WithWord(data, k, w));
    FoldCongruent(WordSum(data));
    WordBelowSum(data, k);
    UpdateCongruent(ChecksumOf(data), WordSum(data), WordAt(data, k), w, WordSum(WithWord(data, k, w)));
  }

  lemma WordBelowSum(data: seq<Byte>, k: nat)
    requires 2 * k + 1 < |data|
    ensures WordAt(data, k) <= WordSum(data)
  {
    WordSumUpdate(data, k, 0);
  }

  /** Updating one half of a 32-bit field and then the other. */
  lemma UpdateTwice(sum: nat, lo: U16, hi: U16, newLo: U16, newHi: U16, half: nat, newSum: nat)
    requires lo <= sum && half + lo == sum + newLo && newSum + hi == half + newHi
    ensures Recalculated16(Recalculated16(ONES - Fold(sum), lo, newLo), hi, newHi) == ONES - Fold(newSum) <==> newSum != 0
  {
    FoldCongruent(sum);
    UpdateCongruent(ONES - Fold(sum), sum, lo, newLo, half);
    UpdateCongruent(Recalculated16(ONES - Fold(sum), lo, newLo), half, hi, newHi, newSum);
  }

  lemma Halves(oldCsum: U16, lo: U16, hi: U16, newLo: U16, newHi: U16)
    ensures Recalculated32(oldCsum, lo + 0x1_0000 * hi, newLo + 0x1_0000 * newHi)
         == Recalculated16(Recalculated16(oldCsum, lo, newLo), hi, newHi)
  {
    SplitWord(lo, hi);
    SplitWord(newLo, newHi);
  }

  /** The same for recalc_csum32, on the two adjacent words of a 32-bit field. */
  lemma Recalc32Right(data: seq<Byte>, k: nat, lo: U16, hi: U16)
    requires 2 * k + 3 < |data|
    ensures var changed := WithWord(WithWord(data, k, lo), k + 1, hi);
            var oldField := WordAt(data, k) + 0x1_0000 * WordAt(data, k + 1);
            Recalculated32(ChecksumOf(data), oldField, lo + 0x1_0000 * hi) == ChecksumOf(changed) <==> !AllZero(changed)
  {
    var half := WithWord(data, k, lo);
    var changed := WithWord(half, k + 1, hi);
    var wasLo, wasHi := WordAt(data, k), WordAt(data, k + 1);
    assert WordAt(half, k + 1) == wasHi;
    WordSumUpdate(data, k, lo);
    WordSumUpdate(half, k + 1, hi);
    WordBelowSum(data, k);
    ZeroSum(changed);
    Halves(ChecksumOf(data), wasLo, wasHi, lo, hi);
    UpdateTwice(WordSum(data), wasLo, wasHi, lo, hi, WordSum(half), WordSum(changed));
  }

  lemma Verifies(sum: nat, c: U16)
    ensures Fold(sum + c) == ONES <==> Congruent(c, ONES - Fold(sum)) && sum + c != 0
  {
    FoldCongruent(sum);
    FoldUnique(sum + c, 0xffff);
  }

  /** Data that carries its own checksum sums to a checksum of zero, and only the right value
      (or its ones-complement twin) does that. */
  lemma ReceiverAccepts(data: seq<Byte>, k: nat, c: U16)
    requires 2 * k + 1 < |data| && WordAt(data, k) == 0
    ensures ChecksumOf(WithWord(data, k, c)) == 0 <==> Congruent(c, ChecksumOf(data)) && !AllZero(WithWord(data, k, c))
    ensures c == ChecksumOf(data) ==> ChecksumOf(WithWord(data, k, c)) == 0
  {
    WordSumUpdate(data, k, c);
    ZeroSum(WithWord(data, k, c));
    Verifies(WordSum(data), c);
  }
}
