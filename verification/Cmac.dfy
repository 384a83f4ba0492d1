/**
 AES-CMAC of RFC 4493, section 2, over an arbitrary block cipher, and its byte-wise form in
 aes/aes-common.c.
*/
module Cmac {

  type Block = s: seq<bv8> | |s| == 16 witness [0, 0, 0, 0, 0, 0, 0, 0, 0, 0, 0, 0, 0, 0, 0, 0]

  type Cipher = Block -> Block

  function Xor8(a: bv8, b: bv8): bv8 { a ^ b }

  function XorB(a: Block, b: Block): Block { seq(16, k requires 0 <= k < 16 => Xor8(a[k], b[k])) }

  function Zero(): Block { seq(16, _ => 0) }

  /** One byte of a sequence shifted left by one bit, next being the byte behind it. */
  function ShiftByte(b: bv8, next: bv8): bv8 { (b << 1) | (if Msb(next) then 1 else 0) }

  predicate Msb(b: bv8) { b & 0x80 != 0 }

  function ShiftLeft(s: seq<bv8>): (r: seq<bv8>)
    ensures |r| == |s|
  {
    seq(|s|, k requires 0 <= k < |s| => ShiftByte(s[k], if k + 1 < |s| then s[k + 1] else 0))
  }

  /** Multiplication by x, section 2.3. */
  function Dbl(b: Block): Block {
    var r := ShiftLeft(b);
    if Msb(b[0]) then r[15 := Xor8(r[15], 0x87)] else r
  }

  function K1(enc: Cipher): Block { Dbl(enc(Zero())) }

  function K2(enc: Cipher): Block { Dbl(K1(enc)) }

  function Pad(m: seq<bv8>): Block
    requires |m| < 16
  {
    m + [0x80] + seq(15 - |m|, _ => 0)
  }

  lemma PadAt(m: seq<bv8>)
    requires |m| < 16
    ensures forall k :: 0 <= k < 16 ==> Pad(m)[k] == if k < |m| then m[k] else if k == |m| then 0x80 else 0
  {
  }

  // Section 2.4

  function BlockCount(m: seq<bv8>): (n: nat)
    ensures 16 * (n - 1) <= |m| <= 16 * n && n > 0
  {
    if |m| == 0 then 1 else (|m| + 15) / 16
  }

  function LastBlock(enc: Cipher, m: seq<bv8>): Block {
    var r := m[16 * (BlockCount(m) - 1)..];
    if |r| == 16 then XorB(r, K1(enc)) else XorB(Pad(r), K2(enc))
  }

  function Chain(enc: Cipher, m: seq<bv8>, i: nat): Block
    requires 16 * i <= |m|
  {
    if i == 0 then Zero() else enc(XorB(Chain(enc, m, i - 1), m[16 * (i - 1)..16 * i]))
  }

  function Tag(enc: Cipher, m: seq<bv8>): Block {
    enc(XorB(Chain(enc, m, BlockCount(m) - 1), LastBlock(enc, m)))
  }

  lemma Xor8Algebra(a: bv8, b: bv8, c: bv8)
    ensures Xor8(Xor8(a, b), c) == Xor8(a, Xor8(b, c)) && Xor8(a, b) == Xor8(b, a) && Xor8(a, 0) == a
  {
  }

  lemma XorBAssoc(a: Block, b: Block, c: Block)
    ensures XorB(XorB(a, b), c) == XorB(a, XorB(b, c)) && XorB(a, b) == XorB(b, a) && XorB(Zero(), a) == a
  {
    hide Xor8;
    forall k | 0 <= k < 16
      ensures Xor8(Xor8(a[k], b[k]), c[k]) == Xor8(a[k], Xor8(b[k], c[k])) && Xor8(a[k], b[k]) == Xor8(b[k], a[k]) && Xor8(0, a[k]) == a[k]
    {
      Xor8Algebra(a[k], b[k], c[k]);
      Xor8Algebra(a[k], 0, 0);
    }
  }

  lemma SliceBehind(pre: seq<bv8>, b: seq<bv8>, p: nat, n: nat)
    requires p + n <= |b|
    ensures (pre + b)[|pre| + p..|pre| + p + n] == b[p..p + n]
    ensures p + n == |b| ==> (pre + b)[|pre| + p..] == b[p..p + n]
  {
  }

  lemma ChainStart(enc: Cipher, pre: seq<bv8>, m: seq<bv8>)
    requires pre <= m && (pre == [] || |pre| == 16)
    ensures pre == [] ==> Chain(enc, m, 0) == Zero()
    ensures pre != [] ==> Chain(enc, m, 1) == enc(pre)
  {
    if pre != [] {
      assert m[16 * 0..16 * 1] == pre;
      assert Chain(enc, m, 0) == Zero();
      XorBAssoc(pre, pre, pre);
    }
  }

  lemma ChainNext(enc: Cipher, m: seq<bv8>, i: nat)
    requires 16 * (i + 1) <= |m|
    ensures Chain(enc, m, i + 1) == enc(XorB(Chain(enc, m, i), m[16 * i..16 * (i + 1)]))
  {
  }

  /** The last block is xored with its subkey whether before or after it meets the chain value. */
  lemma TagLast(enc: Cipher, m: seq<bv8>, i: nat)
    requires 16 * i < |m| <= 16 * (i + 1)
    ensures var r, x := m[16 * i..], Chain(enc, m, i);
            Tag(enc, m) == if |r| == 16 then enc(XorB(XorB(x, r), K1(enc))) else enc(XorB(XorB(x, Pad(r)), K2(enc)))
  {
    hide XorB, Pad, Dbl, K1, K2, Chain;
    assert BlockCount(m) == i + 1;
    var r, x := m[16 * i..], Chain(enc, m, i);
    if |r| == 16 {
      XorBAssoc(x, r, K1(enc));
    } else {
      XorBAssoc(x, Pad(r), K2(enc));
    }
  }

  // ---------------------------------------------------------------------------------------------
  // aes-common.c

  /** lmic_aes_encrypt */
  method Encrypt(a: array<bv8>, enc: Cipher)
    requires a.Length == 16
    modifies a
    ensures a[..] == enc(old(a[..]))
  {
    var r := enc(a[..]);
    forall k | 0 <= k < 16 {
      a[k] := r[k];
    }
  }

  lemma ShiftedAt(s: seq<bv8>, k: nat)
    requires k < |s|
    ensures ShiftLeft(s)[k] == ShiftByte(s[k], if k + 1 < |s| then s[k + 1] else 0)
  {
  }

  /** shift_left */
  method ShiftLeftInPlace(buf: array<bv8>)
    modifies buf
    ensures buf[..] == ShiftLeft(old(buf[..]))
  {
    hide ShiftByte, ShiftLeft;
    ghost var s := buf[..];
    var k := 0;
    while k < buf.Length
      invariant 0 <= k <= buf.Length
      invariant (forall j :: k <= j < buf.Length ==> buf[j] == s[j]) && (forall j :: 0 <= j < k ==> buf[j] == ShiftLeft(s)[j])
    {
      var next := if k + 1 < buf.Length then buf[k + 1] else 0;
      ShiftedAt(s, k);
      buf[k] := ShiftByte(buf[k], next);
      k := k + 1;
    }
  }

  /** The derivation of K1, or of K2 from K1, in os_aes_cmac. */
  method DoubleInPlace(key: array<bv8>)
    requires key.Length == 16
    modifies key
    ensures key[..] == Dbl(old(key[..]))
  {
    hide ShiftLeft, Xor8, Msb;
    var msb := Msb(key[0]);
    ShiftLeftInPlace(key);
    if msb {
      key[15] := Xor8(key[15], 0x87);
    }
  }

  /** One round of the inner loop of os_aes_cmac: takes in up to 16 bytes from position p. */
  method Absorb(aux: array<bv8>, buf: array<bv8>, p: nat, len: nat) returns (n: nat, needPadding: bool)
    requires aux.Length == 16 && aux != buf && p + len <= buf.Length && len > 0
    modifies aux
    ensures n == (if len < 16 then len else 16) && needPadding == (len < 16)
    ensures aux[..] == XorB(old(aux[..]), if len < 16 then Pad(buf[p..p + len]) else buf[p..p + 16])
  {
    hide Xor8, Pad;
    ghost var x, d := aux[..], buf[p..p + len];
    n, needPadding := 0, false;
    while n < 16
      invariant 0 <= n <= 16 && n <= len && !needPadding
      invariant buf[p..p + len] == d && forall k :: 0 <= k < n ==> aux[k] == Xor8(x[k], d[k])
      invariant forall k :: n <= k < 16 ==> aux[k] == x[k]
    {
      if n == len {
        aux[n] := Xor8(aux[n], 0x80);
        needPadding := true;
        break;
      }
      assert d[n] == buf[p + n];
      aux[n] := Xor8(aux[n], buf[p + n]);
      n := n + 1;
    }
    if len < 16 {
      PadAt(d);
    } else {
      forall k | 0 <= k < 16 ensures d[..16][k] == buf[p..p + 16][k] {
        assert d[k] == buf[p + k];
      }
    }
    ghost var b := if len < 16 then Pad(d) else d[..16];
    forall k | 0 <= k < 16 ensures aux[k] == Xor8(x[k], b[k]) {
      Xor8Algebra(x[k], 0, 0);
    }
    assert aux[..] == XorB(x, b);
  }

  /** Xors the subkey into aux: K2 if the last block was padded. */
  method AddSubkey(aux: array<bv8>, enc: Cipher, needPadding: bool)
    requires aux.Length == 16
    modifies aux
    ensures aux[..] == XorB(old(aux[..]), if needPadding then K2(enc) else K1(enc))
  {
    hide Xor8, Dbl;
    ghost var x := aux[..];
    var key := new bv8[16](_ => 0);
    assert key[..] == Zero();
    Encrypt(key, enc);
    DoubleInPlace(key);
    if needPadding {
      DoubleInPlace(key);
    }
    forall k | 0 <= k < 16 {
      aux[k] := Xor8(aux[k], key[k]);
    }
  }

  /** One round of os_aes_cmac: block i of the message, whose first part pre is not in the buffer. */
  method CmacBlock(aux: array<bv8>, buf: array<bv8>, p: nat, rest: nat, enc: Cipher, ghost pre: seq<bv8>, ghost i: nat) returns (n: nat)
    requires aux.Length == 16 && aux != buf && p + rest <= buf.Length && rest > 0 && |pre| + p == 16 * i
    requires aux[..] == Chain(enc, pre + buf[..p + rest], i)
    modifies aux
    ensures n == if rest < 16 then rest else 16
    ensures aux[..] == if rest <= 16 then Tag(enc, pre + buf[..p + rest]) else Chain(enc, pre + buf[..p + rest], i + 1)
  {
    hide XorB, Dbl, Pad, Chain, LastBlock, BlockCount, K1, K2;
    ghost var b := buf[..p + rest];
    ghost var m := pre + b;
    var needPadding;
    n, needPadding := Absorb(aux, buf, p, rest);
    if rest <= 16 {
      assert b[p..p + rest] == buf[p..p + rest];
      SliceBehind(pre, b, p, rest);
      TagLast(enc, m, i);
    } else {
      assert b[p..p + 16] == buf[p..p + 16];
      SliceBehind(pre, b, p, 16);
      ChainNext(enc, m, i);
    }
    if n == rest {
      AddSubkey(aux, enc, needPadding);
    }
    Encrypt(aux, enc);
  }

  /** os_aes_cmac: the tag of the message, with aux itself in front if prepend. An empty buffer is not
      processed: what is left is the chain value of the prefix. */
  method OsAesCmac(buf: array<bv8>, len: nat, aux: array<bv8>, prepend: bool, enc: Cipher)
    requires aux.Length == 16 && aux != buf && len <= buf.Length && len < 0x1_0000
    modifies aux
    ensures len > 0 ==> aux[..] == Tag(enc, (if prepend then old(aux[..]) else []) + buf[..len])
    ensures len == 0 ==> aux[..] == if prepend then enc(old(aux[..])) else Zero()
  {
    hide XorB, Dbl, Pad, Zero, Chain, LastBlock, BlockCount, K1, K2;
    ghost var pre := if prepend then aux[..] else [];
    ghost var b := buf[..len];
    ghost var m := pre + b;
    if prepend {
      Encrypt(aux, enc);
    } else {
      forall k | 0 <= k < 16 {
        aux[k] := 0;
      }
    }
    ghost var i := if prepend then 1 else 0;
    ChainStart(enc, pre, m);
    var p, rest := 0, len;
    while rest > 0
      invariant 0 <= rest && p + rest == len && buf[..len] == b
      invariant rest > 0 ==> |pre| + p == 16 * i && aux[..] == Chain(enc, m, i)
      invariant rest == 0 && len > 0 ==> aux[..] == Tag(enc, m)
      invariant len == 0 ==> aux[..] == if prepend then enc(pre) else Zero()
    {
      var n := CmacBlock(aux, buf, p, rest, enc, pre, i);
      p, rest := p + n, rest - n;
      i := i + 1;
    }
  }

  // ---------------------------------------------------------------------------------------------
  // Counter mode

  /** m xored with the encryptions of ctr, next(ctr), next(next(ctr)), ... */
  function CtrMode(enc: Cipher, next: Block -> Block, ctr: Block, m: seq<bv8>): (r: seq<bv8>)
    ensures |r| == |m|
    decreases |m|
  {
    if |m| <= 16 then XorStream(m, enc(ctr))
    else XorStream(m[..16], enc(ctr)) + CtrMode(enc, next, next(ctr), m[16..])
  }

  function XorStream(m: seq<bv8>, ks: Block): (r: seq<bv8>)
    requires |m| <= 16
    ensures |r| == |m|
  {
    seq(|m|, k requires 0 <= k < |m| => Xor8(m[k], ks[k]))
  }

  /** The counter of aes-common.c is the last byte alone. */
  function NextByte(c: Block): Block { c[15 := Inc8(c[15])] }

  function Inc8(b: bv8): bv8 { b + 1 }

  lemma CtrStep(enc: Cipher, next: Block -> Block, c: Block, m: seq<bv8>, n: nat)
    requires m != [] && n == if |m| < 16 then |m| else 16
    ensures CtrMode(enc, next, c, m) == XorStream(m[..n], enc(c)) + if n < |m| then CtrMode(enc, next, next(c), m[n..]) else []
  {
    assert n == |m| ==> m[..n] == m;
  }

  lemma CtrEmpty(enc: Cipher, next: Block -> Block, c: Block)
    ensures CtrMode(enc, next, c, []) == []
  {
  }

  /** What remains of the message m from position p on, with counter c. */
  ghost function Rest(enc: Cipher, next: Block -> Block, c: Block, m: seq<bv8>, p: nat): (r: seq<bv8>)
    requires p <= |m|
    ensures |r| == |m| - p
  {
    if p == |m| then [] else CtrMode(enc, next, c, m[p..])
  }

  lemma RestStep(enc: Cipher, next: Block -> Block, c: Block, m: seq<bv8>, p: nat, n: nat)
    requires p < |m| && n == if |m| - p < 16 then |m| - p else 16
    ensures Rest(enc, next, c, m, p) == XorStream(m[p..p + n], enc(c)) + Rest(enc, next, next(c), m, p + n)
  {
    CtrStep(enc, next, c, m[p..], n);
    assert m[p..][..n] == m[p..p + n] && m[p..][n..] == m[p + n..];
  }

  lemma RestAll(enc: Cipher, next: Block -> Block, c: Block, m: seq<bv8>)
    ensures Rest(enc, next, c, m, 0) == CtrMode(enc, next, c, m)
  {
    assert m[0..] == m;
    CtrEmpty(enc, next, c);
  }

  /** Xors the first n bytes of a key stream into buf from position p on. */
  method XorInPlace(buf: array<bv8>, p: nat, n: nat, ks: array<bv8>)
    requires ks.Length == 16 && ks != buf && n <= 16 && p + n <= buf.Length
    modifies buf
    ensures buf[..p + n] == old(buf[..p]) + XorStream(old(buf[p..p + n]), ks[..]) && buf[p + n..] == old(buf[p + n..])
  {
    hide Xor8;
    var i := 0;
    while i < n
      invariant 0 <= i <= n && forall k :: p <= k < p + i ==> buf[k] == Xor8(old(buf[k]), ks[k - p])
      invariant forall k :: 0 <= k < buf.Length && (k < p || k >= p + i) ==> buf[k] == old(buf[k])
    {
      buf[p + i] := Xor8(buf[p + i], ks[i]);
      i := i + 1;
    }
  }

  /** One round of os_aes_ctr. */
  method CtrBlock(buf: array<bv8>, p: nat, n: nat, aux: array<bv8>, enc: Cipher)
    requires aux.Length == 16 && aux != buf && n <= 16 && p + n <= buf.Length
    modifies buf, aux
    ensures buf[..p + n] == old(buf[..p]) + XorStream(old(buf[p..p + n]), enc(old(aux[..])))
    ensures buf[p + n..] == old(buf[p + n..]) && aux[..] == NextByte(old(aux[..]))
  {
    hide XorStream, NextByte, Xor8;
    ghost var c := aux[..];
    var ctr := new bv8[16];
    forall k | 0 <= k < 16 {
      ctr[k] := aux[k];
    }
    assert ctr[..] == c;
    Encrypt(ctr, enc);
    assert ctr[..] == enc(c);
    ghost var b := buf[..];
    assert buf[..p] == b[..p] && buf[p..p + n] == b[p..p + n];
    XorInPlace(buf, p, n, ctr);
    assert buf[..p + n] == b[..p] + XorStream(b[p..p + n], enc(c));
    aux[15] := Inc8(aux[15]);
    NextByteIs(c, aux[..]);
    assert buf[..p + n] == b[..p] + XorStream(b[p..p + n], enc(c)) && b[..p] == old(buf[..p]) && b[p..p + n] == old(buf[p..p + n]);
  }

  /** os_aes_ctr: encrypts the buffer in place. */
  method OsAesCtr(buf: array<bv8>, aux: array<bv8>, enc: Cipher)
    requires aux.Length == 16 && aux != buf
    modifies buf, aux
    ensures buf[..] == CtrMode(enc, NextByte, old(aux[..]), old(buf[..]))
  {
    hide XorStream, NextByte, Xor8, CtrMode, Rest;
    ghost var m := buf[..];
    RestAll(enc, NextByte, aux[..], m);
    ghost var whole := Rest(enc, NextByte, aux[..], m, 0);
    var p, rest := 0, buf.Length;
    while rest > 0
      invariant 0 <= rest && 0 <= p && p + rest == buf.Length
      invariant buf[p..] == m[p..] && whole == buf[..p] + Rest(enc, NextByte, aux[..], m, p)
      decreases rest
    {
      var n := if rest < 16 then rest else 16;
      CtrKeeps(enc, NextByte, aux[..], m, p, n, whole, buf[..p]);
      Slices(buf[..], m, p, n);
      CtrBlock(buf, p, n, aux, enc);
      p, rest := p + n, rest - n;
    }
    RestNone(enc, NextByte, aux[..], m);
    assert buf[..p] == buf[..];
  }

  lemma Slices(b: seq<bv8>, m: seq<bv8>, p: nat, n: nat)
    requires p + n <= |m| == |b| && b[p..] == m[p..]
    ensures b[p..p + n] == m[p..p + n] && b[p + n..] == m[p + n..]
  {
    assert b[p..][..n] == b[p..p + n] && b[p..][n..] == b[p + n..] && m[p..][..n] == m[p..p + n] && m[p..][n..] == m[p + n..];
  }

  lemma RestNone(enc: Cipher, next: Block -> Block, c: Block, m: seq<bv8>)
    ensures Rest(enc, next, c, m, |m|) == []
  {
  }

  lemma CtrKeeps(enc: Cipher, next: Block -> Block, c: Block, m: seq<bv8>, p: nat, n: nat, whole: seq<bv8>, done: seq<bv8>)
    requires p < |m| && n == (if |m| - p < 16 then |m| - p else 16) && whole == done + Rest(enc, next, c, m, p)
    ensures whole == done + XorStream(m[p..p + n], enc(c)) + Rest(enc, next, next(c), m, p + n)
  {
    hide XorStream, Rest;
    RestStep(enc, next, c, m, p, n);
  }

  lemma NextByteIs(c: Block, c': Block)
    requires c' == c[15 := Inc8(c[15])]
    ensures c' == NextByte(c)
  {
  }
}
