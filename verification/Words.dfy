/** 32-bit words as bit sequences, lowest bit first, with the operations fuota.c applies to uint32_t. */
module Words {

  type Word = w: seq<bool> | |w| == 32 witness
    [false, false, false, false, false, false, false, false, false, false, false, false, false, false, false, false,
     false, false, false, false, false, false, false, false, false, false, false, false, false, false, false, false]

  function ZeroWord(): Word { seq(32, _ => false) }

  function Not(a: Word): Word { seq(32, k requires 0 <= k < 32 => !a[k]) }

  function And(a: Word, b: Word): Word { seq(32, k requires 0 <= k < 32 => a[k] && b[k]) }

  function XorWord(a: Word, b: Word): Word { seq(32, k requires 0 <= k < 32 => a[k] != b[k]) }

  /** (w >> 1) | (w << 31) */
  function RotateRight(w: Word): Word { w[1..] + [w[0]] }

  /** 1 << k: M_BITMSK of fuota.c for k in 0..31. */
  function Mask(k: nat): Word
    requires k < 32
  {
    ZeroWord()[k := true]
  }

  /** (1 << k) - 1: the k low bits. */
  function LowMask(k: nat): Word
    requires k < 32
  {
    seq(32, j => j < k)
  }

  /** The unsigned value of the low n bits. */
  function Value(w: seq<bool>, n: nat): nat
    requires n <= |w|
  {
    if n == 0 then 0 else Value(w, n - 1) + if w[n - 1] then Pow2(n - 1) else 0
  }

  function Pow2(n: nat): nat { if n == 0 then 1 else 2 * Pow2(n - 1) }

  /** Mask(k) and LowMask(k) have the values 2^k and 2^k - 1. */
  lemma {:induction false} MaskValues(k: nat, n: nat)
    requires k < 32 && n <= 32
    ensures Value(Mask(k), n) == if k < n then Pow2(k) else 0
    ensures Value(LowMask(k), n) == Pow2(if k < n then k else n) - 1
    decreases n
  {
    if n > 0 {
      MaskValues(k, n - 1);
    }
  }

  /** Testing a word against the mask of bit k tests bit k. */
  lemma TestBit(w: Word, k: nat)
    requires k < 32
    ensures And(w, Mask(k)) != ZeroWord() <==> w[k]
  {
    if w[k] {
      assert And(w, Mask(k))[k] != ZeroWord()[k];
    } else {
      assert And(w, Mask(k)) == ZeroWord();
    }
  }

  /** Rotating a mask right gives the mask of the bit below; bit 0 wraps to bit 31. */
  lemma RotateMask(k: nat)
    requires k < 32
    ensures RotateRight(Mask(k)) == Mask(if k == 0 then 31 else k - 1)
  {
  }

  lemma LowMaskZero(k: nat)
    requires k < 32
    ensures LowMask(k) == ZeroWord() <==> k == 0
  {
    assert k > 0 ==> LowMask(k)[0] != ZeroWord()[0];
  }

  /** __builtin_clz, searching down from bit k: the number of zero bits above the highest one. */
  function Clz(w: Word, k: nat): (c: nat)
    requires k < 32 && w != ZeroWord() && forall j :: k < j < 32 ==> !w[j]
    ensures c < 32 && w[31 - c] && forall j :: 31 - c < j < 32 ==> !w[j]
  {
    if k == 0 || w[k] then
      assert k == 0 && !w[0] ==> w == ZeroWord();
      31 - k
    else Clz(w, k - 1)
  }

  /** Bit k of a vector packed 32 to a word, lowest first. */
  predicate BitAt(ws: seq<Word>, k: nat)
    requires k / 32 < |ws|
  {
    ws[k / 32][k % 32]
  }

  function BitsOf(ws: seq<Word>, n: nat): (bs: seq<bool>)
    requires n <= 32 * |ws|
    ensures |bs| == n
  {
    seq(n, k requires 0 <= k < n => BitAt(ws, k))
  }
}
