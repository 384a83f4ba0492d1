/**
 Linear algebra over GF(2) for the fountain code: rows pair a vector of check bits with the
 data block that the same XORs have been applied to.
*/
module Gf2 {
  import opened Bits

  datatype Row = Row(bits: seq<bool>, data: seq<bv32>)

  predicate Shape(r: Row, ct: nat, nw: nat) {
    |r.bits| == ct && |r.data| == nw
  }

  function XorBits(a: seq<bool>, b: seq<bool>): (r: seq<bool>)
    requires |a| == |b|
    ensures |r| == |a|
  {
    seq(|a|, k requires 0 <= k < |a| => a[k] != b[k])
  }

  lemma Xor32Assoc(a: bv32, b: bv32, s: bv32)
    ensures Xor32(a, Xor32(b, s)) == Xor32(Xor32(a, b), s)
  {
  }

  lemma Xor32Swap(a: bv32, b: bv32, s: bv32)
    ensures Xor32(Xor32(a, s), b) == Xor32(Xor32(a, b), s)
  {
    Xor32Identity(Xor32(a, s), b);
    Xor32Assoc(b, a, s);
    Xor32Identity(a, b);
  }

  lemma Xor32Identity(a: bv32, b: bv32)
    ensures Xor32(a, 0) == a && Xor32(a, a) == 0 && Xor32(a, b) == Xor32(b, a)
    ensures Xor32(a, b) == 0 ==> a == b
  {
  }

  lemma Xor32Cancel(a: bv32, b: bv32, s: bv32)
    ensures Xor32(Xor32(a, s), Xor32(b, s)) == Xor32(a, b)
  {
    Xor32Assoc(Xor32(a, s), b, s);
    Xor32Swap(a, b, s);
    Xor32Assoc(Xor32(a, b), s, s);
    Xor32Identity(s, s);
    Xor32Identity(Xor32(a, b), 0);
  }

  function XorWords(a: seq<bv32>, b: seq<bv32>): (r: seq<bv32>)
    requires |a| == |b|
    ensures |r| == |a|
  {
    seq(|a|, k requires 0 <= k < |a| => Xor32(a[k], b[k]))
  }

  function Xor(a: Row, b: Row): (r: Row)
    requires |a.bits| == |b.bits| && |a.data| == |b.data|
    ensures Shape(r, |a.bits|, |a.data|)
  {
    Row(XorBits(a.bits, b.bits), XorWords(a.data, b.data))
  }

  function ZeroBits(ct: nat): (r: seq<bool>) ensures |r| == ct { seq(ct, _ => false) }

  function ZeroWords(nw: nat): (r: seq<bv32>) ensures |r| == nw { seq(nw, _ => 0) }

  function Zero(ct: nat, nw: nat): (r: Row)
    ensures Shape(r, ct, nw)
  {
    Row(ZeroBits(ct), ZeroWords(nw))
  }

  /** The row that selects block i alone and carries no data. */
  function Unit(i: nat, ct: nat, nw: nat): (r: Row)
    requires i < ct
    ensures Shape(r, ct, nw)
  {
    Row(ZeroBits(ct)[i := true], ZeroWords(nw))
  }

  lemma WordsCancel(a: seq<bv32>, b: seq<bv32>, s: seq<bv32>)
    requires |a| == |b| == |s|
    ensures XorWords(XorWords(a, s), XorWords(b, s)) == XorWords(a, b)
  {
    forall k | 0 <= k < |a| ensures Xor32(Xor32(a[k], s[k]), Xor32(b[k], s[k])) == Xor32(a[k], b[k]) {
      Xor32Cancel(a[k], b[k], s[k]);
    }
  }

  lemma WordsAssoc(a: seq<bv32>, b: seq<bv32>, s: seq<bv32>)
    requires |a| == |b| == |s|
    ensures XorWords(a, XorWords(b, s)) == XorWords(XorWords(a, b), s)
    ensures XorWords(XorWords(a, s), b) == XorWords(XorWords(a, b), s)
  {
    forall k | 0 <= k < |a|
      ensures Xor32(a[k], Xor32(b[k], s[k])) == Xor32(Xor32(a[k], b[k]), s[k])
      ensures Xor32(Xor32(a[k], s[k]), b[k]) == Xor32(Xor32(a[k], b[k]), s[k])
    {
      Xor32Assoc(a[k], b[k], s[k]);
      Xor32Swap(a[k], b[k], s[k]);
    }
  }

  lemma WordsIdentity(a: seq<bv32>, b: seq<bv32>)
    requires |a| == |b|
    ensures XorWords(a, ZeroWords(|a|)) == a
    ensures XorWords(a, a) == ZeroWords(|a|)
    ensures XorWords(a, b) == XorWords(b, a)
  {
    forall k | 0 <= k < |a|
      ensures Xor32(a[k], 0) == a[k] && Xor32(a[k], a[k]) == 0 && Xor32(a[k], b[k]) == Xor32(b[k], a[k])
    {
      Xor32Identity(a[k], b[k]);
    }
  }

  lemma Cancel(a: Row, b: Row, s: Row)
    requires |a.bits| == |b.bits| == |s.bits| && |a.data| == |b.data| == |s.data|
    ensures Xor(Xor(a, s), Xor(b, s)) == Xor(a, b)
  {
    WordsCancel(a.data, b.data, s.data);
  }

  lemma Assoc(a: Row, b: Row, s: Row)
    requires |a.bits| == |b.bits| == |s.bits| && |a.data| == |b.data| == |s.data|
    ensures Xor(a, Xor(b, s)) == Xor(Xor(a, b), s)
    ensures Xor(Xor(a, s), b) == Xor(Xor(a, b), s)
  {
    WordsAssoc(a.data, b.data, s.data);
  }

  lemma Identity(a: Row, b: Row)
    requires |a.bits| == |b.bits| && |a.data| == |b.data|
    ensures Xor(a, Zero(|a.bits|, |a.data|)) == a
    ensures Xor(a, a) == Zero(|a.bits|, |a.data|)
    ensures Xor(a, b) == Xor(b, a)
  {
    WordsIdentity(a.data, b.data);
  }

  /** The XOR of the blocks src[k], k < n, that v selects. */
  function Combine(v: seq<bool>, src: seq<seq<bv32>>, n: nat, nw: nat): (r: seq<bv32>)
    requires n <= |v| && n <= |src| && forall k :: 0 <= k < n ==> |src[k]| == nw
    ensures |r| == nw
  {
    if n == 0 then ZeroWords(nw)
    else if v[n - 1] then XorWords(Combine(v, src, n - 1, nw), src[n - 1])
    else Combine(v, src, n - 1, nw)
  }

  lemma CombineEmpty(v: seq<bool>, src: seq<seq<bv32>>, nw: nat)
    ensures Combine(v, src, 0, nw) == ZeroWords(nw)
  {
  }

  ghost predicate Source(src: seq<seq<bv32>>, ct: nat, nw: nat) {
    |src| == ct && forall k :: 0 <= k < ct ==> |src[k]| == nw
  }

  lemma {:induction false} CombineXor(a: seq<bool>, b: seq<bool>, src: seq<seq<bv32>>, n: nat, nw: nat)
    requires |a| == |b| && n <= |a| && n <= |src| && forall k :: 0 <= k < n ==> |src[k]| == nw
    ensures Combine(XorBits(a, b), src, n, nw) == XorWords(Combine(a, src, n, nw), Combine(b, src, n, nw))
  {
    if n == 0 {
    } else {
      CombineXor(a, b, src, n - 1, nw);
      var s, x, y := src[n - 1], Combine(a, src, n - 1, nw), Combine(b, src, n - 1, nw);
      if a[n - 1] && b[n - 1] {
        WordsCancel(x, y, s);
      } else {
        WordsAssoc(x, y, s);
      }
    }
  }

  /** The GF(2) span of a list of vectors, by the coefficient of the last one. */
  predicate InSpan(v: seq<bool>, vs: seq<seq<bool>>)
    requires forall k :: 0 <= k < |vs| ==> |vs[k]| == |v|
    decreases |vs|
  {
    if vs == [] then v == ZeroBits(|v|)
    else InSpan(v, vs[..|vs| - 1]) || InSpan(XorBits(v, vs[|vs| - 1]), vs[..|vs| - 1])
  }
}
