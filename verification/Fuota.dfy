/** services/fuota/fuota.c: a fountain-code session on write-once flash. */
module Fuota {
  import opened Gf2
  import opened Words
  import opened Packed
  import opened Flash

  const FUOTA_MORE := 0
  const FUOTA_COMPLETE := 1
  const FUOTA_UNPACKED := 2
  const FUOTA_ERROR := -1
  const FUOTA_MAGIC := 0x03291982
  const UINT32_MAX := 0xFFFF_FFFF

  /** G_WORDS */
  function GWords(ct: nat): nat { (ct + 31) / 32 }

  /** g_avalanche((chunk_id * n) + i), in 32-bit arithmetic. */
  function HashWord(hash: nat -> Word, id: nat, n: nat, i: nat): Word {
    hash((id * n % 0x1_0000_0000 + i) % 0x1_0000_0000)
  }

  /** The check bits of a chunk; hash stands for g_avalanche, whose values do not matter. */
  function CheckBits(hash: nat -> Word, id: nat, ct: nat): (v: seq<bool>)
    ensures |v| == ct
  {
    seq(ct, k requires 0 <= k < ct => HashWord(hash, id, GWords(ct), k / 32)[k % 32])
  }

  /** g_checkbits; the bits past ct in the last word come out clear. */
  method GCheckbits(hash: nat -> Word, id: nat, row: array<Word>, ct: nat)
    requires ct > 0 && row.Length == GWords(ct)
    modifies row
    ensures BitsOf(row[..], ct) == CheckBits(hash, id, ct)
    ensures forall k :: ct <= k < 32 * row.Length ==> !BitAt(row[..], k)
  {
    var n := GWords(ct);
    var i := 0;
    while i < n
      invariant 0 <= i <= n
      invariant forall j :: 0 <= j < i ==> row[j] == HashWord(hash, id, n, j)
    {
      row[i] := HashWord(hash, id, n, i);
      i := i + 1;
    }
    ghost var full := row[..];
    var mask := LowMask(ct % 32);
    LowMaskZero(ct % 32);
    if mask != ZeroWord() {
      row[i - 1] := And(row[i - 1], mask);
    }
    assert row[..] == if mask == ZeroWord() then full else full[n - 1 := And(full[n - 1], mask)];
    TailCleared(hash, id, full, row[..], ct);
  }

  lemma TailCleared(hash: nat -> Word, id: nat, full: seq<Word>, row: seq<Word>, ct: nat)
    requires ct > 0 && |full| == GWords(ct) && forall j :: 0 <= j < |full| ==> full[j] == HashWord(hash, id, |full|, j)
    requires var last := |full| - 1;
             row == if ct % 32 == 0 then full else full[last := And(full[last], LowMask(ct % 32))]
    ensures BitsOf(row, ct) == CheckBits(hash, id, ct)
    ensures forall k :: ct <= k < 32 * |row| ==> !BitAt(row, k)
  {
    hide HashWord;
    var n := |full|;
    forall k | 0 <= k < 32 * n ensures BitAt(row, k) == (k < ct && HashWord(hash, id, n, k / 32)[k % 32]) {
      LastWordBits(ct, k);
    }
  }

  /** The bits below ct: all of the words before the last one, and the low ct % 32 of that. */
  lemma LastWordBits(ct: nat, k: nat)
    requires ct > 0 && k < 32 * GWords(ct)
    ensures k < ct <==> k / 32 < GWords(ct) - 1 || ct % 32 == 0 || k % 32 < ct % 32
    ensures k / 32 < GWords(ct)
  {
  }

  /** m_rmb */
  method MRmb(row: array<Word>, nwords: nat) returns (r: nat)
    requires nwords <= row.Length && 32 * nwords <= UINT32_MAX
    ensures r == UINT32_MAX || r < 32 * nwords
    ensures r == UINT32_MAX ==> forall k :: 0 <= k < 32 * nwords ==> !BitAt(row[..], k)
    ensures r != UINT32_MAX ==> BitAt(row[..], r) && forall k :: r < k < 32 * nwords ==> !BitAt(row[..], k)
  {
    var n := nwords;
    while n > 0
      invariant 0 <= n <= nwords
      invariant forall k :: 32 * n <= k < 32 * nwords ==> !BitAt(row[..], k)
    {
      n := n - 1;
      var w := row[n];
      if w != ZeroWord() {
        r := (n + 1) * 32 - (Clz(w, 31) + 1);
        assert r / 32 == n && r % 32 == 31 - Clz(w, 31);
        forall k | r < k < 32 * nwords ensures !BitAt(row[..], k) {
          if k < 32 * (n + 1) {
            assert k / 32 == n && k % 32 > 31 - Clz(w, 31);
          }
        }
        return;
      }
    }
    return UINT32_MAX;
  }

  /** Moving block i from the blocks still to combine into the accumulator d keeps their total. */
  lemma CombineMove(d: seq<bv32>, v: seq<bool>, blocks: seq<seq<bv32>>, i: nat, nw: nat)
    requires i < |v| && i < |blocks| && |d| == nw && forall k :: 0 <= k <= i ==> |blocks[k]| == nw
    ensures XorWords(d, Combine(v, blocks, i + 1, nw))
            == XorWords(if v[i] then XorWords(d, blocks[i]) else d, Combine(v, blocks, i, nw))
  {
    WordsAssoc(d, Combine(v, blocks, i, nw), blocks[i]);
  }

  /** The blocks of out laid end to end. */
  function Flat(out: seq<seq<bv32>>, nw: nat): (w: seq<bv32>)
    requires forall k :: 0 <= k < |out| ==> |out[k]| == nw
    ensures |w| == BOffset(|out|, nw)
  {
    if out == [] then []
    else
      BOffsetNext(|out| - 1, nw);
      Flat(out[..|out| - 1], nw) + out[|out| - 1]
  }

  lemma {:induction false} FlatAt(out: seq<seq<bv32>>, j: nat, nw: nat)
    requires j < |out| && forall k :: 0 <= k < |out| ==> |out[k]| == nw
    ensures BOffset(j, nw) + nw <= BOffset(|out|, nw)
    ensures Flat(out, nw)[BOffset(j, nw)..BOffset(j, nw) + nw] == out[j]
    decreases |out|
  {
    var n := |out| - 1;
    BOffsetMonotone(j, |out|, nw);
    if j < n {
      FlatAt(out[..n], j, nw);
      BOffsetMonotone(j, n, nw);
      assert Flat(out, nw)[BOffset(j, nw)..BOffset(j, nw) + nw]
          == Flat(out[..n], nw)[BOffset(j, nw)..BOffset(j, nw) + nw];
    }
  }

  /** Testing the packed word of bit k against its mask reads bit k of the vector. */
  lemma TestAt(c: seq<Word>, v: seq<bool>, k: nat)
    requires k < |v| <= 32 * |c| && BitsOf(c, |v|) == v
    ensures And(c[k / 32], Mask(k % 32)) != ZeroWord() <==> v[k]
  {
    TestBit(c[k / 32], k % 32);
    assert v[k] == BitAt(c, k);
  }

  method Cleared(nw: nat) returns (dst: array<bv32>)
    ensures fresh(dst) && dst[..] == ZeroWords(nw)
  {
    dst := new bv32[nw](_ => 0);
  }

  /** fuota_gen_chunk: the XOR of the source blocks that the chunk's check bits select. */
  method GenChunk(hash: nat -> Word, src: array<bv32>, id: nat, ct: nat, nw: nat, ghost blocks: seq<seq<bv32>>)
    returns (dst: array<bv32>)
    requires ct > 0 && Source(blocks, ct, nw) && src[..] == Flat(blocks, nw)
    ensures fresh(dst) && dst[..] == Combine(CheckBits(hash, id, ct), blocks, ct, nw)
  {
    hide CheckBits, BitsOf, And, Mask, XorWords, Flat, Combine, BOffset, ZeroWord;
    var c := new Word[GWords(ct)];
    GCheckbits(hash, id, c, ct);
    dst := Cleared(nw);
    ghost var v, cw := CheckBits(hash, id, ct), c[..];
    ghost var all := Combine(v, blocks, ct, nw);
    WordsIdentity(all, dst[..]);
    var i, idx, mask := ct, ct / 32, Mask(ct % 32);
    while i > 0
      modifies dst
      invariant 0 <= i <= ct && idx == i / 32 && mask == Mask(i % 32) && c[..] == cw
      invariant XorWords(dst[..], Combine(v, blocks, i, nw)) == all
    {
      i := i - 1;
      idx, mask := MPrev(idx, mask, i);
      TestAt(c[..], v, i);
      CombineMove(dst[..], v, blocks, i, nw);
      FlatAt(blocks, i, nw);
      if And(c[idx], mask) != ZeroWord() {
        XorF2R(dst, src, BOffset(i, nw), nw);
      }
    }
    WordsIdentity(dst[..], dst[..]);
    CombineEmpty(v, blocks, nw);
  }

  /** m_prev: word index and mask of the bit below. */
  method MPrev(idx: nat, mask: Word, ghost i: nat) returns (idx': nat, mask': Word)
    requires idx == (i + 1) / 32 && mask == Mask((i + 1) % 32)
    ensures idx' == i / 32 && mask' == Mask(i % 32)
  {
    RotateMask((i + 1) % 32);
    TestBit(mask, 0);
    idx' := idx;
    if And(mask, Mask(0)) != ZeroWord() {
      idx' := idx - 1;
    }
    mask' := RotateRight(mask);
  }
}
