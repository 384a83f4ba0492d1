/**
 The decoder's store as fuota.c keeps it in flash: check-bit rows packed into a triangular matrix,
 data blocks in a second area, and an erased last word marking a row that is not stored.
*/
module Packed {
  import opened Options
  import opened Gf2
  import opened Decoder
  import opened Words

  /** M_NWORDS */
  function NWords(row: nat): nat { row / 32 + 1 }

  /** m_offset, with the shifts written as products. */
  function MOffset(row: nat): nat {
    var d, f := row / 32, row % 32;
    d * (d + 1) * 16 + f * (d + 1)
  }

  /** The rows tile the matrix: each starts where the one before it ends. */
  lemma MOffsetNext(row: nat)
    ensures MOffset(row + 1) == MOffset(row) + NWords(row)
  {
    var d, f := row / 32, row % 32;
    if f == 31 {
      assert (row + 1) / 32 == d + 1 && (row + 1) % 32 == 0;
      assert (d + 1) * (d + 2) * 16 == d * (d + 1) * 16 + 32 * (d + 1) by {
        assert (d + 1) * (d + 2) == d * (d + 1) + 2 * (d + 1);
      }
    } else {
      assert (row + 1) / 32 == d && (row + 1) % 32 == f + 1;
    }
  }

  /** Distinct rows do not overlap. */
  lemma {:induction false} MOffsetMonotone(i: nat, j: nat)
    requires i < j
    ensures MOffset(i) + NWords(i) <= MOffset(j)
    decreases j
  {
    MOffsetNext(j - 1);
    if i < j - 1 {
      MOffsetMonotone(i, j - 1);
    }
  }

  lemma {:induction false} MOffsetAtLeast(row: nat)
    ensures MOffset(row) >= row
    decreases row
  {
    if row > 0 {
      MOffsetNext(row - 1);
      MOffsetAtLeast(row - 1);
    }
  }

  lemma MulBound(x: nat, y: nat, a: nat, b: nat)
    requires x <= a && y <= b
    ensures x * y <= a * b
  {
    assert x * y <= a * y <= a * b;
  }

  /** No intermediate value of m_offset overflows 32 bits for 16-bit chunk counts. */
  lemma MOffsetFits(row: nat)
    requires row <= 0x1_0000
    ensures MOffset(row) * 4 < 0x1_0000_0000 && (row / 32) * (row / 32 + 1) * 16 <= MOffset(row)
  {
    MulBound(row / 32, row / 32 + 1, 2048, 2049);
    MulBound(row % 32, row / 32 + 1, 31, 2049);
  }

  /** The word offset of block i. */
  function BOffset(i: nat, nw: nat): nat { nw * i }

  lemma BOffsetNext(i: nat, nw: nat)
    ensures BOffset(i + 1, nw) == BOffset(i, nw) + nw
  {
  }

  lemma BOffsetMonotone(i: nat, j: nat, nw: nat)
    requires i < j
    ensures BOffset(i, nw) + nw <= BOffset(j, nw)
  {
    assert nw * (i + 1) <= nw * j;
  }

  /** The value an erased flash word reads as; one is fuota_flash_bitdefault. */
  function Erased(one: bool): Word { if one then Not(ZeroWord()) else ZeroWord() }

  function ErasedData(one: bool): bv32 { if one then 0xFFFF_FFFF else 0 }

  /** Matrix words are stored inverted when erased flash reads as ones. */
  function Plain(one: bool, w: Word): Word { if one then Not(w) else w }

  lemma PlainErased(one: bool, w: Word)
    ensures Plain(one, w) == ZeroWord() <==> w == Erased(one)
    ensures Plain(one, Plain(one, w)) == w
  {
    assert Not(Not(w)) == w && Not(Not(ZeroWord())) == ZeroWord();
  }

  /** Bit k of matrix row i. */
  predicate RowBit(m: seq<Word>, i: nat, k: nat, one: bool)
    requires MOffset(i) + k / 32 < |m|
  {
    Plain(one, m[MOffset(i) + k / 32])[k % 32]
  }

  predicate RowStored(m: seq<Word>, i: nat, one: bool)
    requires MOffset(i) + NWords(i) <= |m|
  {
    m[MOffset(i) + NWords(i) - 1] != Erased(one)
  }

  function RowOf(m: seq<Word>, b: seq<bv32>, i: nat, ct: nat, nw: nat, one: bool): (r: Row)
    requires MOffset(i) + NWords(i) <= |m| && BOffset(i, nw) + nw <= |b| && i < ct
    ensures Shape(r, ct, nw)
  {
    Row(seq(ct, k requires 0 <= k < ct => k <= i && RowBit(m, i, k, one)), b[BOffset(i, nw)..BOffset(i, nw) + nw])
  }

  ghost predicate Sizes(m: seq<Word>, b: seq<bv32>, ct: nat, nw: nat) {
    MOffset(ct) <= |m| && BOffset(ct, nw) <= |b|
  }

  lemma SizesAt(m: seq<Word>, b: seq<bv32>, i: nat, ct: nat, nw: nat)
    requires Sizes(m, b, ct, nw) && i < ct
    ensures MOffset(i) + NWords(i) <= |m| && BOffset(i, nw) + nw <= |b|
  {
    MOffsetMonotone(i, ct);
    BOffsetMonotone(i, ct, nw);
  }

  ghost predicate AllErased<T>(a: seq<T>, off: nat, n: nat, erased: T)
    requires off + n <= |a|
  {
    forall k :: off <= k < off + n ==> a[k] == erased
  }

  /** A stored row has top bit i and nothing above it in its last word; a row that is not stored
      has only erased matrix and block words. */
  ghost predicate RowOk(m: seq<Word>, b: seq<bv32>, i: nat, nw: nat, one: bool)
    requires MOffset(i) + NWords(i) <= |m| && BOffset(i, nw) + nw <= |b|
  {
    if RowStored(m, i, one) then
      && RowBit(m, i, i, one)
      && forall k :: i < k < 32 * NWords(i) ==> !RowBit(m, i, k, one)
    else
      && AllErased(m, MOffset(i), NWords(i), Erased(one))
      && AllErased(b, BOffset(i, nw), nw, ErasedData(one))
  }

  ghost predicate Ok(m: seq<Word>, b: seq<bv32>, ct: nat, nw: nat, one: bool)
    requires Sizes(m, b, ct, nw)
  {
    forall i :: 0 <= i < ct ==>
      MOffset(i) + NWords(i) <= |m| && BOffset(i, nw) + nw <= |b| && RowOk(m, b, i, nw, one)
  }

  /** The abstract store the two flash areas hold. */
  ghost function StoreOf(m: seq<Word>, b: seq<bv32>, ct: nat, nw: nat, one: bool): (st: Store)
    requires Sizes(m, b, ct, nw) && Ok(m, b, ct, nw, one)
    ensures |st| == ct
  {
    seq(ct, i requires 0 <= i < ct =>
      if RowStored(m, i, one) then Some(RowOf(m, b, i, ct, nw, one)) else None)
  }

  lemma StoreOfWF(m: seq<Word>, b: seq<bv32>, ct: nat, nw: nat, one: bool)
    requires Sizes(m, b, ct, nw) && Ok(m, b, ct, nw, one)
    ensures WF(StoreOf(m, b, ct, nw, one), ct, nw)
  {
  }

  /** Erased flash holds the empty store. */
  lemma ErasedIsEmpty(m: seq<Word>, b: seq<bv32>, ct: nat, nw: nat, one: bool)
    requires Sizes(m, b, ct, nw) && AllErased(m, 0, |m|, Erased(one)) && AllErased(b, 0, |b|, ErasedData(one))
    ensures Ok(m, b, ct, nw, one) && StoreOf(m, b, ct, nw, one) == Empty(ct)
  {
    forall i | 0 <= i < ct
      ensures MOffset(i) + NWords(i) <= |m| && BOffset(i, nw) + nw <= |b| && RowOk(m, b, i, nw, one) && !RowStored(m, i, one)
    {
      SizesAt(m, b, i, ct, nw);
    }
  }

  /** The word before row i + 1 is the last word of row i: it tells whether row i is stored. */
  lemma LastWord(m: seq<Word>, b: seq<bv32>, i: nat, ct: nat, nw: nat, one: bool)
    requires Sizes(m, b, ct, nw) && Ok(m, b, ct, nw, one) && i < ct
    ensures 0 < MOffset(i + 1) <= |m|
    ensures m[MOffset(i + 1) - 1] != Erased(one) <==> StoreOf(m, b, ct, nw, one)[i].Some?
  {
    MOffsetNext(i);
    SizesAt(m, b, i, ct, nw);
  }

  /** Row i is stored exactly when bit i of its row reads as set. */
  lemma StoredIffTopBit(m: seq<Word>, b: seq<bv32>, i: nat, ct: nat, nw: nat, one: bool)
    requires Sizes(m, b, ct, nw) && Ok(m, b, ct, nw, one) && i < ct
    ensures MOffset(i) + NWords(i) <= |m|
    ensures RowStored(m, i, one) <==> RowBit(m, i, i, one)
  {
    SizesAt(m, b, i, ct, nw);
    if !RowStored(m, i, one) {
      assert m[MOffset(i) + i / 32] == Erased(one);
      PlainErased(one, Erased(one));
    }
  }

  /** The word-wise XOR of packed check bits with row i is the XOR of the bit vectors. */
  lemma XorRowBits(c: seq<Word>, c': seq<Word>, m: seq<Word>, b: seq<bv32>, i: nat, ct: nat, nw: nat, one: bool)
    requires Sizes(m, b, ct, nw) && Ok(m, b, ct, nw, one) && i < ct
    requires MOffset(i) + NWords(i) <= |m| && BOffset(i, nw) + nw <= |b|
    requires RowStored(m, i, one)
    requires |c| == |c'| && NWords(i) <= |c| && ct <= 32 * |c|
    requires forall j :: 0 <= j < NWords(i) ==> c'[j] == XorWord(c[j], Plain(one, m[MOffset(i) + j]))
    requires forall j :: NWords(i) <= j < |c| ==> c'[j] == c[j]
    ensures BitsOf(c', ct) == XorBits(BitsOf(c, ct), RowOf(m, b, i, ct, nw, one).bits)
    ensures forall k :: ct <= k < 32 * |c| ==> BitAt(c', k) == BitAt(c, k)
  {
    forall k | 0 <= k < 32 * |c|
      ensures BitAt(c', k) == (BitAt(c, k) != (k <= i && RowBit(m, i, k, one)))
    {
      if k / 32 < NWords(i) {
        assert c'[k / 32] == XorWord(c[k / 32], Plain(one, m[MOffset(i) + k / 32]));
        assert k > i ==> !RowBit(m, i, k, one);
      }
    }
  }

  /** M_ISSET */
  predicate IsSet(one: bool, val: Word, mask: Word) {
    if one then And(val, mask) == ZeroWord() else And(val, mask) != ZeroWord()
  }

  lemma IsSetTestsPlain(one: bool, val: Word, k: nat)
    requires k < 32
    ensures IsSet(one, val, Mask(k)) <==> Plain(one, val)[k]
  {
    TestBit(val, k);
  }

  /** Programming row i and block i of an empty pivot stores exactly that row and touches no other. */
  lemma StoreRow(m: seq<Word>, m': seq<Word>, b: seq<bv32>, b': seq<bv32>, c: seq<Word>, d: seq<bv32>,
                 i: nat, ct: nat, nw: nat, one: bool)
    requires Sizes(m, b, ct, nw) && Ok(m, b, ct, nw, one) && i < ct && |m'| == |m| && |b'| == |b|
    requires MOffset(i) + NWords(i) <= |m| && BOffset(i, nw) + nw <= |b|
    requires NWords(i) <= |c| && ct <= 32 * |c| && |d| == nw
    requires BitAt(c, i) && forall k :: i < k < 32 * |c| ==> !BitAt(c, k)
    requires forall k :: 0 <= k < NWords(i) ==> m'[MOffset(i) + k] == Plain(one, c[k])
    requires forall k :: 0 <= k < |m| && !(MOffset(i) <= k < MOffset(i) + NWords(i)) ==> m'[k] == m[k]
    requires forall k :: 0 <= k < nw ==> b'[BOffset(i, nw) + k] == d[k]
    requires forall k :: 0 <= k < |b| && !(BOffset(i, nw) <= k < BOffset(i, nw) + nw) ==> b'[k] == b[k]
    ensures Ok(m', b', ct, nw, one)
    ensures StoreOf(m', b', ct, nw, one) == StoreOf(m, b, ct, nw, one)[i := Some(Row(BitsOf(c, ct), d))]
  {
    forall k | 0 <= k < 32 * NWords(i) ensures RowBit(m', i, k, one) == BitAt(c, k) {
      PlainErased(one, c[k / 32]);
      assert m'[MOffset(i) + k / 32] == Plain(one, c[k / 32]);
    }
    StoredBit(m', i, one);
    assert RowOk(m', b', i, nw, one);
    forall j | 0 <= j < ct && j != i
      ensures MOffset(j) + NWords(j) <= |m| && BOffset(j, nw) + nw <= |b|
      ensures RowStored(m', j, one) == RowStored(m, j, one) && RowOk(m', b', j, nw, one)
      ensures RowOf(m', b', j, ct, nw, one) == RowOf(m, b, j, ct, nw, one)
    {
      SizesAt(m, b, j, ct, nw);
      RowUntouched(m, m', b, b', i, j, ct, nw, one);
    }
    assert RowOf(m', b', i, ct, nw, one) == Row(BitsOf(c, ct), d) by {
      assert b'[BOffset(i, nw)..BOffset(i, nw) + nw] == d;
    }
  }

  /** A row with its top bit set has a last word that is not erased. */
  lemma StoredBit(m: seq<Word>, i: nat, one: bool)
    requires MOffset(i) + NWords(i) <= |m| && RowBit(m, i, i, one)
    ensures RowStored(m, i, one)
  {
    PlainErased(one, m[MOffset(i) + i / 32]);
  }

  lemma RowUntouched(m: seq<Word>, m': seq<Word>, b: seq<bv32>, b': seq<bv32>, i: nat, j: nat, ct: nat, nw: nat, one: bool)
    requires i < ct && j < ct && i != j && |m'| == |m| && |b'| == |b|
    requires MOffset(j) + NWords(j) <= |m| && BOffset(j, nw) + nw <= |b|
    requires forall k :: 0 <= k < |m| && !(MOffset(i) <= k < MOffset(i) + NWords(i)) ==> m'[k] == m[k]
    requires forall k :: 0 <= k < |b| && !(BOffset(i, nw) <= k < BOffset(i, nw) + nw) ==> b'[k] == b[k]
    requires RowOk(m, b, j, nw, one)
    ensures RowStored(m', j, one) == RowStored(m, j, one) && RowOk(m', b', j, nw, one)
    ensures RowOf(m', b', j, ct, nw, one) == RowOf(m, b, j, ct, nw, one)
  {
    if i < j {
      MOffsetMonotone(i, j);
      BOffsetMonotone(i, j, nw);
    } else {
      MOffsetMonotone(j, i);
      BOffsetMonotone(j, i, nw);
    }
    assert m'[MOffset(j)..MOffset(j) + NWords(j)] == m[MOffset(j)..MOffset(j) + NWords(j)];
    forall k | 0 <= k < 32 * NWords(j) ensures RowBit(m', j, k, one) == RowBit(m, j, k, one) {
      assert k / 32 < NWords(j);
    }
    assert b'[BOffset(j, nw)..BOffset(j, nw) + nw] == b[BOffset(j, nw)..BOffset(j, nw) + nw];
  }

  /** Rows whose pivot is empty have only erased words. */
  lemma EmptyRowErased(m: seq<Word>, b: seq<bv32>, i: nat, ct: nat, nw: nat, one: bool)
    requires Sizes(m, b, ct, nw) && Ok(m, b, ct, nw, one) && i < ct && StoreOf(m, b, ct, nw, one)[i].None?
    ensures MOffset(i) + NWords(i) <= |m| && BOffset(i, nw) + nw <= |b|
    ensures AllErased(m, MOffset(i), NWords(i), Erased(one)) && AllErased(b, BOffset(i, nw), nw, ErasedData(one))
  {
  }

  lemma StoredRowIs(m: seq<Word>, b: seq<bv32>, i: nat, ct: nat, nw: nat, one: bool)
    requires Sizes(m, b, ct, nw) && Ok(m, b, ct, nw, one) && i < ct
    ensures MOffset(i) + NWords(i) <= |m| && BOffset(i, nw) + nw <= |b|
    ensures StoreOf(m, b, ct, nw, one)[i].Some? <==> RowBit(m, i, i, one)
    ensures StoreOf(m, b, ct, nw, one)[i].Some? ==>
              RowStored(m, i, one) && StoreOf(m, b, ct, nw, one)[i].value == RowOf(m, b, i, ct, nw, one)
              && StoreOf(m, b, ct, nw, one)[i].value.data == b[BOffset(i, nw)..BOffset(i, nw) + nw]
  {
    StoredIffTopBit(m, b, i, ct, nw, one);
  }

  lemma RowBitTest(m: seq<Word>, i: nat, k: nat, one: bool)
    requires MOffset(i) + k / 32 < |m|
    ensures IsSet(one, m[MOffset(i) + k / 32], Mask(k % 32)) <==> RowBit(m, i, k, one)
  {
    IsSetTestsPlain(one, m[MOffset(i) + k / 32], k % 32);
  }
}
