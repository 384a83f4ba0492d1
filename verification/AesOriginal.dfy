/** os_aes of aes/aes-original.c: one loop over 32-bit words for CMAC and CTR mode. */
module AesOriginal {
  import opened Cmac
  import opened Bits
  import opened Ints

  /** Four bytes, most significant first, as a word. */
  function Word4(b0: bv8, b1: bv8, b2: bv8, b3: bv8): bv32 {
    ((b0 as bv32) << 24) | ((b1 as bv32) << 16) | ((b2 as bv32) << 8) | (b3 as bv32)
  }

  /** The byte of w that is k bytes from the top. */
  function ByteOf(w: bv32, k: nat): bv8
    requires k < 4
  {
    if k == 0 then ((w >> 24) & 0xff) as bv8
    else if k == 1 then ((w >> 16) & 0xff) as bv8
    else if k == 2 then ((w >> 8) & 0xff) as bv8
    else (w & 0xff) as bv8
  }

  lemma WordBytes(b0: bv8, b1: bv8, b2: bv8, b3: bv8)
    ensures var w := Word4(b0, b1, b2, b3); ByteOf(w, 0) == b0 && ByteOf(w, 1) == b1 && ByteOf(w, 2) == b2 && ByteOf(w, 3) == b3
  {
  }

  lemma BytesWord(w: bv32)
    ensures Word4(ByteOf(w, 0), ByteOf(w, 1), ByteOf(w, 2), ByteOf(w, 3)) == w
  {
  }

  lemma XorWord4(a0: bv8, a1: bv8, a2: bv8, a3: bv8, b0: bv8, b1: bv8, b2: bv8, b3: bv8)
    ensures Xor32(Word4(a0, a1, a2, a3), Word4(b0, b1, b2, b3)) == Word4(Xor8(a0, b0), Xor8(a1, b1), Xor8(a2, b2), Xor8(a3, b3))
  {
  }

  lemma ShiftByteCarry(b: bv8, next: bv8)
    ensures ShiftByte(b, next) == (b << 1) | (next >> 7)
    ensures Msb(next) <==> next >> 7 != 0
  {
  }

  lemma TopBit(b0: bv8, b1: bv8, b2: bv8, b3: bv8)
    ensures Word4(b0, b1, b2, b3) >> 31 == (b0 >> 7) as bv32
  {
  }

  lemma TopIsMsb(b0: bv8, b1: bv8, b2: bv8, b3: bv8)
    ensures Top(Word4(b0, b1, b2, b3)) <==> Msb(b0)
  {
    TopBit(b0, b1, b2, b3);
  }

  lemma ShiftCarry(b0: bv8, b1: bv8, b2: bv8, b3: bv8, c: bv8)
    requires c <= 1
    ensures (Word4(b0, b1, b2, b3) << 1) | (c as bv32)
         == Word4((b0 << 1) | (b1 >> 7), (b1 << 1) | (b2 >> 7), (b2 << 1) | (b3 >> 7), (b3 << 1) | c)
  {
  }

  lemma Reduce(b0: bv8, b1: bv8, b2: bv8, b3: bv8)
    ensures Xor32(Word4(b0, b1, b2, b3), 0x87) == Word4(b0, b1, b2, Xor8(b3, 0x87))
  {
  }

  /** Shifting four bytes into a word from below replaces it. */
  lemma LoadWord4(t: bv32, b0: bv8, b1: bv8, b2: bv8, b3: bv8)
    ensures ((((((((t << 8) | (b0 as bv32)) << 8) | (b1 as bv32)) << 8) | (b2 as bv32)) << 8) | (b3 as bv32)) == Word4(b0, b1, b2, b3)
  {
  }

  function Swap(x: bv32): bv32 { ((x & 0xff) << 24) | ((x & 0xff00) << 8) | ((x & 0xff0000) >> 8) | (x >> 24) }

  /** On a little-endian machine, swapmsbf reads four bytes as a big-endian word. */
  lemma SwapWord4(b0: bv8, b1: bv8, b2: bv8, b3: bv8)
    ensures Swap(Word4(b3, b2, b1, b0)) == Word4(b0, b1, b2, b3)
  {
  }

  // ---------------------------------------------------------------------------------------------
  // Blocks as four words

  datatype Quad = Quad(a0: bv32, a1: bv32, a2: bv32, a3: bv32)

  function WordAt(b: seq<bv8>, i: nat): bv32
    requires i + 4 <= |b|
  {
    Word4(b[i], b[i + 1], b[i + 2], b[i + 3])
  }

  lemma FourBytes(b: Block, i: nat)
    requires i <= 12
    ensures WordAt(b, i) == Word4(b[i], b[i + 1], b[i + 2], b[i + 3])
  {
  }

  function ToWords(b: Block): Quad { Quad(WordAt(b, 0), WordAt(b, 4), WordAt(b, 8), WordAt(b, 12)) }

  function WordOf(q: Quad, g: nat): bv32 { if g == 0 then q.a0 else if g == 1 then q.a1 else if g == 2 then q.a2 else q.a3 }

  function ToBytes(q: Quad): Block { seq(16, k requires 0 <= k < 16 => ByteOf(WordOf(q, k / 4), k % 4)) }

  lemma ByteAt(b: Block, g: nat, r: nat)
    requires g < 4 && r < 4
    ensures ByteOf(WordOf(ToWords(b), g), r) == b[4 * g + r]
  {
    hide Word4, ByteOf;
    WordBytes(b[4 * g], b[4 * g + 1], b[4 * g + 2], b[4 * g + 3]);
  }

  lemma BytesOfWords(b: Block)
    ensures ToBytes(ToWords(b)) == b
  {
    hide ByteOf, ToWords, WordOf;
    forall k | 0 <= k < 16 ensures ToBytes(ToWords(b))[k] == b[k] {
      ByteAt(b, k / 4, k % 4);
      assert 4 * (k / 4) + k % 4 == k;
    }
  }

  lemma WordsOfBytes(q: Quad)
    ensures ToWords(ToBytes(q)) == q
  {
    hide Word4, ByteOf;
    BytesWord(q.a0);
    BytesWord(q.a1);
    BytesWord(q.a2);
    BytesWord(q.a3);
  }

  function XorQ(p: Quad, q: Quad): Quad {
    Quad(Xor32(p.a0, q.a0), Xor32(p.a1, q.a1), Xor32(p.a2, q.a2), Xor32(p.a3, q.a3))
  }

  lemma XorWords(a: Block, b: Block)
    ensures XorQ(ToWords(a), ToWords(b)) == ToWords(XorB(a, b))
  {
    hide Word4, Xor8;
    XorWord(a, b, 0);
    XorWord(a, b, 4);
    XorWord(a, b, 8);
    XorWord(a, b, 12);
  }

  lemma XorWord(a: Block, b: Block, i: nat)
    requires i <= 12
    ensures Xor32(WordAt(a, i), WordAt(b, i)) == WordAt(XorB(a, b), i)
  {
    hide Word4, Xor8;
    XorWord4(a[i], a[i + 1], a[i + 2], a[i + 3], b[i], b[i + 1], b[i + 2], b[i + 3]);
  }

  predicate Top(a: bv32) { a >> 31 != 0 }

  function Shl(a: bv32): bv32 { a << 1 }

  function ShlWord(a: bv32, next: bv32): bv32 { (a << 1) | (next >> 31) }

  /** One step of the subkey computation. */
  function DblQ(q: Quad): Quad {
    var r := Quad(ShlWord(q.a0, q.a1), ShlWord(q.a1, q.a2), ShlWord(q.a2, q.a3), Shl(q.a3));
    if Top(q.a0) then r.(a3 := Xor32(r.a3, 0x87)) else r
  }

  lemma ShlWordIs(b: seq<bv8>, i: nat)
    requires i + 8 <= |b|
    ensures ShlWord(WordAt(b, i), WordAt(b, i + 4)) == WordAt(ShiftLeft(b), i)
  {
    hide Word4, ShiftByte;
    TopBit(b[i + 4], b[i + 5], b[i + 6], b[i + 7]);
    ShiftCarry(b[i], b[i + 1], b[i + 2], b[i + 3], b[i + 4] >> 7);
    ShiftByteCarry(b[i], b[i + 1]);
    ShiftByteCarry(b[i + 1], b[i + 2]);
    ShiftByteCarry(b[i + 2], b[i + 3]);
    ShiftByteCarry(b[i + 3], b[i + 4]);
  }

  lemma ShiftLast(b0: bv8, b1: bv8, b2: bv8, b3: bv8)
    ensures Shl(Word4(b0, b1, b2, b3)) == Word4((b0 << 1) | (b1 >> 7), (b1 << 1) | (b2 >> 7), (b2 << 1) | (b3 >> 7), b3 << 1)
  {
  }

  lemma ShiftByteLast(b: bv8)
    ensures ShiftByte(b, 0) == b << 1
  {
  }

  lemma ShlLastWord(b: Block)
    ensures Shl(WordAt(b, 12)) == WordAt(ShiftLeft(b), 12)
  {
    hide Word4, ShiftByte, Shl;
    ShiftLast(b[12], b[13], b[14], b[15]);
    ShiftByteCarry(b[12], b[13]);
    ShiftByteCarry(b[13], b[14]);
    ShiftByteCarry(b[14], b[15]);
    ShiftByteLast(b[15]);
  }

  lemma DblWords(b: Block)
    ensures DblQ(ToWords(b)) == ToWords(Dbl(b))
  {
    hide Word4, ShiftLeft, ShlWord, Xor8, Xor32, Top, Msb, Shl;
    ShlWordIs(b, 0);
    ShlWordIs(b, 4);
    ShlWordIs(b, 8);
    ShlLastWord(b);
    TopIsMsb(b[0], b[1], b[2], b[3]);
    var r := ShiftLeft(b);
    Reduce(r[12], r[13], r[14], r[15]);
  }

  /** The block cipher on words; AesRounds is about how os_aes computes it. */
  function EncQ(enc: Cipher, q: Quad): Quad { ToWords(enc(ToBytes(q))) }

  lemma EncWords(enc: Cipher, b: Block)
    ensures EncQ(enc, ToWords(b)) == ToWords(enc(b))
  {
    BytesOfWords(b);
  }

  // ---------------------------------------------------------------------------------------------
  // Loading a block

  function PadByte(m: seq<bv8>, k: nat): bv8 { if k < |m| then m[k] else if k == |m| then 0x80 else 0 }

  function Push(t: bv32, b: bv8): bv32 { (t << 8) | (b as bv32) }

  /** The code at LOADDATA: up to 16 bytes from position p, padded. */
  method LoadData(buf: array<bv8>, p: nat, rest: nat) returns (a: Quad)
    requires p + rest <= buf.Length && rest > 0
    ensures a == ToWords(if rest < 16 then Pad(buf[p..p + rest]) else buf[p..p + 16])
  {
    hide Push, Word4, WordAt, PadByte;
    ghost var m := buf[p..p + rest];
    ghost var d := seq(16, k requires 0 <= k < 16 => PadByte(m, k));
    var a0, a1, a2, a3, t1: bv32 := 0, 0, 0, 0, 0;
    var w := 0;
    while w < 4
      invariant 0 <= w <= 4 && buf[p..p + rest] == m
      invariant (w >= 1 ==> a3 == WordAt(d, 4 * (w - 1))) && (w >= 2 ==> a2 == WordAt(d, 4 * (w - 2)))
      invariant (w >= 3 ==> a1 == WordAt(d, 4 * (w - 3))) && (w >= 4 ==> a0 == WordAt(d, 4 * (w - 4)))
    {
      t1 := LoadWord(t1, buf, p, rest, 4 * w);
      FourBytes(d, 4 * w);
      a0, a1, a2, a3 := a1, a2, a3, t1;
      w := w + 1;
    }
    Padded(m);
    assert rest >= 16 ==> buf[p..p + 16] == m[..16];
    a := Quad(a0, a1, a2, a3);
  }

  /** Four bytes of the padded block, from k on, are shifted into t. */
  method LoadWord(t: bv32, buf: array<bv8>, p: nat, rest: nat, k: nat) returns (t1: bv32)
    requires p + rest <= buf.Length
    ensures var m := buf[p..p + rest]; t1 == Word4(PadByte(m, k), PadByte(m, k + 1), PadByte(m, k + 2), PadByte(m, k + 3))
  {
    hide Push, Word4;
    ghost var m := buf[p..p + rest];
    t1 := t;
    var t0 := k;
    while t0 < k + 4
      invariant k <= t0 <= k + 4 && buf[p..p + rest] == m
      invariant t1 == PushAll(t, m, k, t0)
    {
      assert t0 < rest ==> buf[p + t0] == m[t0];
      t1 := Push(t1, if t0 < rest then buf[p + t0] else if t0 == rest then 0x80 else 0);
      t0 := t0 + 1;
    }
    PushFour(t, PadByte(m, k), PadByte(m, k + 1), PadByte(m, k + 2), PadByte(m, k + 3));
    PushAllIs(t, m, k);
  }

  ghost function PushAll(t: bv32, m: seq<bv8>, k: nat, end: nat): bv32
    requires k <= end
  {
    if end == k then t else Push(PushAll(t, m, k, end - 1), PadByte(m, end - 1))
  }

  lemma PushAllIs(t: bv32, m: seq<bv8>, k: nat)
    ensures PushAll(t, m, k, k + 4)
         == Push(Push(Push(Push(t, PadByte(m, k)), PadByte(m, k + 1)), PadByte(m, k + 2)), PadByte(m, k + 3))
  {
    hide Push, PadByte;
    assert PushAll(t, m, k, k + 1) == Push(t, PadByte(m, k));
    assert PushAll(t, m, k, k + 2) == Push(PushAll(t, m, k, k + 1), PadByte(m, k + 1));
    assert PushAll(t, m, k, k + 3) == Push(PushAll(t, m, k, k + 2), PadByte(m, k + 2));
  }

  lemma PushFour(t: bv32, b0: bv8, b1: bv8, b2: bv8, b3: bv8)
    ensures Push(Push(Push(Push(t, b0), b1), b2), b3) == Word4(b0, b1, b2, b3)
  {
    LoadWord4(t, b0, b1, b2, b3);
  }

  lemma Padded(m: seq<bv8>)
    ensures seq(16, k requires 0 <= k < 16 => PadByte(m, k)) == if |m| < 16 then Pad(m) else m[..16]
  {
    if |m| < 16 {
      PadAt(m);
    }
  }

  // ---------------------------------------------------------------------------------------------
  // The loop

  function QuadOf(a: seq<bv32>): Quad
    requires |a| == 4
  {
    Quad(a[0], a[1], a[2], a[3])
  }

  /** The 16 bytes that four words occupy on a little-endian machine. */
  function AuxBytes(a: seq<bv32>): Block
    requires |a| == 4
  {
    [ByteOf(a[0], 3), ByteOf(a[0], 2), ByteOf(a[0], 1), ByteOf(a[0], 0),
     ByteOf(a[1], 3), ByteOf(a[1], 2), ByteOf(a[1], 1), ByteOf(a[1], 0),
     ByteOf(a[2], 3), ByteOf(a[2], 2), ByteOf(a[2], 1), ByteOf(a[2], 0),
     ByteOf(a[3], 3), ByteOf(a[3], 2), ByteOf(a[3], 1), ByteOf(a[3], 0)]
  }

  lemma SwapIs(w: bv32)
    ensures Swap(w) == Word4(ByteOf(w, 3), ByteOf(w, 2), ByteOf(w, 1), ByteOf(w, 0))
  {
    BytesWord(w);
    SwapWord4(ByteOf(w, 3), ByteOf(w, 2), ByteOf(w, 1), ByteOf(w, 0));
  }

  lemma SwapQuad(a: seq<bv32>)
    requires |a| == 4
    ensures Quad(Swap(a[0]), Swap(a[1]), Swap(a[2]), Swap(a[3])) == ToWords(AuxBytes(a))
  {
    hide Word4, ByteOf, Swap;
    SwapIs(a[0]);
    SwapIs(a[1]);
    SwapIs(a[2]);
    SwapIs(a[3]);
  }

  lemma ZeroQuad()
    ensures Quad(0, 0, 0, 0) == ToWords(Zero())
  {
  }

  /** The subkey loop: from the encryption of the zero block to K1 or K2. */
  method Subkey(a0: Quad, sub: nat, ghost enc: Cipher) returns (a: Quad)
    requires 1 <= sub <= 2 && a0 == ToWords(enc(Zero()))
    ensures a == ToWords(if sub == 1 then K1(enc) else K2(enc))
  {
    hide DblQ, Dbl;
    a := a0;
    var t1 := sub;
    DblWords(enc(Zero()));
    DblWords(K1(enc));
    while t1 > 0
      invariant 0 <= t1 <= sub
      invariant a == ToWords(if t1 == sub then enc(Zero()) else if t1 == sub - 1 then K1(enc) else K2(enc))
    {
      a := DblQ(a);
      t1 := t1 - 1;
    }
  }

  /** The input block of the CMAC step at position p. */
  function InputBlock(m: seq<bv8>): Block
    requires m != []
  {
    if |m| < 16 then Pad(m) else m[..16]
  }

  /** From LOADDATA to the end of the encryption, entered once or, with a subkey to be derived first,
      twice: x is the chain value in aux. */
  method MicBlock(buf: array<bv8>, p: nat, rest: nat, sub0: nat, aux: array<bv32>, enc: Cipher, ghost x: Block) returns (a: Quad)
    requires p + rest == buf.Length && rest > 0 && aux.Length == 4 && sub0 <= 2 && QuadOf(aux[..]) == ToWords(x)
    modifies aux
    ensures sub0 == 0 ==> a == ToWords(enc(XorB(x, InputBlock(buf[p..]))))
    ensures sub0 > 0 ==> a == ToWords(enc(XorB(XorB(x, InputBlock(buf[p..])), if sub0 == 1 then K1(enc) else K2(enc))))
  {
    hide XorQ, ToWords, ToBytes, XorB, Dbl, DblQ, Zero, Pad, K1, K2, QuadOf;
    ghost var d := InputBlock(buf[p..]);
    ghost var y := x;
    var sub, load := sub0, sub0 == 0;
    a := Quad(0, 0, 0, 0);
    while true
      invariant 0 <= sub <= 2 && QuadOf(aux[..]) == ToWords(y) && (load <==> sub == 0) && (sub > 0 ==> sub == sub0)
      invariant y == if sub == sub0 then x else XorB(x, if sub0 == 1 then K1(enc) else K2(enc))
      invariant !load ==> a == Quad(0, 0, 0, 0)
      decreases sub
    {
      if load {
        a := LoadData(buf, p, rest);
        assert buf[p..p + rest] == buf[p..] && (rest >= 16 ==> buf[p..p + 16] == buf[p..][..16]);
        a := XorAux(a, aux, d, y);
        EncWords(enc, XorB(d, y));
      } else {
        ZeroQuad();
        EncWords(enc, Zero());
      }
      a := EncQ(enc, a);
      if sub != 0 {
        a := Subkey(a, sub, enc);
        ghost var k := if sub == 1 then K1(enc) else K2(enc);
        AddAux(aux, a, y, k);
        y := XorB(y, k);
        sub, load := 0, true;
        a := Quad(0, 0, 0, 0);
        continue;
      }
      break;
    }
    XorOrder(x, d, if sub0 == 1 then K1(enc) else K2(enc));
  }

  method XorAux(a: Quad, aux: array<bv32>, ghost d: Block, ghost y: Block) returns (r: Quad)
    requires aux.Length == 4 && a == ToWords(d) && QuadOf(aux[..]) == ToWords(y)
    ensures r == ToWords(XorB(d, y))
  {
    hide ToWords, XorB, Xor32;
    r := XorQ(a, Quad(aux[0], aux[1], aux[2], aux[3]));
    XorWords(d, y);
  }

  method AddAux(aux: array<bv32>, a: Quad, ghost y: Block, ghost k: Block)
    requires aux.Length == 4 && QuadOf(aux[..]) == ToWords(y) && a == ToWords(k)
    modifies aux
    ensures QuadOf(aux[..]) == ToWords(XorB(y, k))
  {
    hide ToWords, XorB, Xor32;
    XorWords(y, k);
    aux[0], aux[1], aux[2], aux[3] := Xor32(aux[0], a.a0), Xor32(aux[1], a.a1), Xor32(aux[2], a.a2), Xor32(aux[3], a.a3);
  }

  lemma XorOrder(x: Block, d: Block, k: Block)
    ensures XorB(d, x) == XorB(x, d) && XorB(d, XorB(x, k)) == XorB(XorB(x, d), k)
  {
    hide XorB;
    XorBAssoc(d, x, k);
    XorBAssoc(x, d, k);
  }

  /** The start of os_aes: aux is cleared or brought into word order. */
  method LoadAux(aux: array<bv32>, noaux: bool)
    requires aux.Length == 4
    modifies aux
    ensures QuadOf(aux[..]) == ToWords(if noaux then Zero() else AuxBytes(old(aux[..])))
  {
    hide ToWords, AuxBytes, Swap, Zero;
    if noaux {
      ZeroQuad();
      aux[0], aux[1], aux[2], aux[3] := 0, 0, 0, 0;
    } else {
      SwapQuad(aux[..]);
      aux[0], aux[1], aux[2], aux[3] := Swap(aux[0]), Swap(aux[1]), Swap(aux[2]), Swap(aux[3]);
    }
  }

  method StoreAux(aux: array<bv32>, a: Quad)
    requires aux.Length == 4
    modifies aux
    ensures QuadOf(aux[..]) == a
  {
    aux[0], aux[1], aux[2], aux[3] := a.a0, a.a1, a.a2, a.a3;
  }

  /** os_aes in mode AES_MIC: without AES_MICNOAUX, aux is put in front of the message. The length is
      held in 16 bits and compared as a signed number, so that only messages of 1 to 32767 bytes are
      processed. */
  method OsAesMic(buf: array<bv8>, noaux: bool, aux: array<bv32>, enc: Cipher) returns (r: bv32)
    requires aux.Length == 4 && buf.Length < 0x1_0000
    modifies aux
    ensures r == aux[0]
    ensures 1 <= buf.Length <= 0x7FFF ==>
              QuadOf(aux[..]) == ToWords(Tag(enc, (if noaux then [] else AuxBytes(old(aux[..]))) + buf[..]))
    ensures !(1 <= buf.Length <= 0x7FFF) ==> QuadOf(aux[..]) == ToWords(if noaux then Zero() else AuxBytes(old(aux[..])))
  {
    hide ToWords, ToBytes, AuxBytes, Zero, XorB, Tag, Chain, K1, K2, Pad, QuadOf, InputBlock, EncQ, S2, U2;
    SignedLength(buf.Length);
    ghost var pre := if noaux then [] else AuxBytes(aux[..]);
    ghost var m := pre + buf[..];
    ghost var i := 0;
    ChainStart(enc, pre, m);
    LoadAux(aux, noaux);
    var first, p, rest := !noaux, 0, buf.Length;
    while S2(rest) > 0
      invariant 0 <= rest < 0x1_0000
      invariant S2(rest) > 0 ==> p + rest == buf.Length && 0 < rest <= 0x7FFF
      invariant first ==> pre != [] && p == 0 && rest == buf.Length && QuadOf(aux[..]) == ToWords(pre)
      invariant !first && S2(rest) > 0 ==> |pre| + p == 16 * i && QuadOf(aux[..]) == ToWords(Chain(enc, m, i))
      invariant !first && S2(rest) <= 0 && 1 <= buf.Length <= 0x7FFF ==> QuadOf(aux[..]) == ToWords(Tag(enc, m))
      invariant S2(buf.Length) <= 0 ==> QuadOf(aux[..]) == ToWords(if noaux then Zero() else pre) && rest == buf.Length
      decreases first, if S2(rest) > 0 then rest else 0
    {
      if first {
        var a := FirstBlock(aux, enc, pre);
        StoreAux(aux, a);
        i := 1;
      } else {
        var sub := if rest > 16 then 0 else if rest == 16 then 1 else 2;
        ghost var x := Chain(enc, m, i);
        NextInput(pre, buf[..], m, enc, i, p, rest);
        var a := MicBlock(buf, p, rest, sub, aux, enc, x);
        StoreAux(aux, a);
        p := p + 16;
        SignedLength(rest);
        rest := U2(rest - 16);
        i := i + 1;
      }
      first := false;
    }
    return aux[0];
  }

  /** On the same message, prefix block and key, both implementations compute the same tag. */
  method MicsAgree(buf: array<bv8>, noaux: bool, words: array<bv32>, bytes: array<bv8>, enc: Cipher)
    requires 1 <= buf.Length <= 0x7FFF && words.Length == 4 && bytes.Length == 16 && bytes != buf
    requires bytes[..] == AuxBytes(words[..])
    modifies words, bytes
    ensures QuadOf(words[..]) == ToWords(bytes[..])
  {
    hide AuxBytes, ToWords, QuadOf, Tag;
    assert buf[..buf.Length] == buf[..];
    ghost var r := OsAesMic(buf, noaux, words, enc);
    OsAesCmac(buf, buf.Length, bytes, !noaux, enc);
  }

  /** The first block is aux itself. */
  method FirstBlock(aux: array<bv32>, enc: Cipher, ghost pre: Block) returns (a: Quad)
    requires aux.Length == 4 && QuadOf(aux[..]) == ToWords(pre)
    ensures a == ToWords(enc(pre))
  {
    EncWords(enc, pre);
    a := EncQ(enc, Quad(aux[0], aux[1], aux[2], aux[3]));
  }

  /** What the block at position p contributes. */
  lemma NextInput(pre: seq<bv8>, b: seq<bv8>, m: seq<bv8>, enc: Cipher, i: nat, p: nat, rest: nat)
    requires m == pre + b && p + rest == |b| && rest > 0 && |pre| + p == 16 * i
    ensures rest > 16 ==> Chain(enc, m, i + 1) == enc(XorB(Chain(enc, m, i), InputBlock(b[p..])))
    ensures rest <= 16 ==> Tag(enc, m) == enc(XorB(XorB(Chain(enc, m, i), InputBlock(b[p..])), if rest == 16 then K1(enc) else K2(enc)))
  {
    hide XorB, Pad, K1, K2, Tag, Chain;
    var n := if rest < 16 then rest else 16;
    SliceBehind(pre, b, p, n);
    assert b[p..][..n] == b[p..p + n];
    if rest > 16 {
      ChainNext(enc, m, i);
    } else {
      assert b[p..] == b[p..p + n];
      TagLast(enc, m, i);
    }
  }

  // ---------------------------------------------------------------------------------------------
  // Counter mode

  /** The counter of aes-original.c is the last word. */
  function NextWord(c: Block): Block {
    var q := ToWords(c);
    ToBytes(q.(a3 := Inc32(q.a3)))
  }

  function Inc32(w: bv32): bv32 { w + 1 }

  predicate Full(b: bv8) { b == 0xff }

  function Shl8(w: bv32): bv32 { w << 8 }

  function ShlBytes(w: bv32, n: nat): bv32 {
    if n == 0 then w else if n == 1 then Shl8(w) else if n == 2 then Shl8(Shl8(w)) else Shl8(Shl8(Shl8(w)))
  }

  function TopByte(w: bv32): bv8 { ((w >> 24) & 0xff) as bv8 }

  lemma TopByte1(w: bv32)
    ensures TopByte(w) == ByteOf(w, 0) && TopByte(Shl8(w)) == ByteOf(w, 1)
  {
  }

  lemma TopByte2(w: bv32)
    ensures TopByte(Shl8(Shl8(w))) == ByteOf(w, 2)
  {
  }

  lemma TopByte3(w: bv32)
    ensures TopByte(Shl8(Shl8(Shl8(w)))) == ByteOf(w, 3)
  {
  }

  lemma StreamByte(a: Quad, k: nat)
    requires k < 16
    ensures ToBytes(a)[k] == TopByte(ShlBytes(WordOf(a, k / 4), k % 4))
  {
    hide ByteOf, TopByte, Shl8;
    var w := WordOf(a, k / 4);
    TopByte1(w);
    TopByte2(w);
    TopByte3(w);
  }

  /** Xors the key stream block a into buf at position p, a byte at a time from the top of a0. */
  method XorWordStream(buf: array<bv8>, p: nat, n: nat, a: Quad)
    requires 1 <= n <= 16 && p + n <= buf.Length
    modifies buf
    ensures buf[..p + n] == old(buf[..p]) + XorStream(old(buf[p..p + n]), ToBytes(a)) && buf[p + n..] == old(buf[p + n..])
  {
    hide ToBytes, TopByte, Xor8, Shl8, Stage;
    ghost var ks := ToBytes(a);
    var a0, a1, a2 := a.a0, a.a1, a.a2;
    StageStart(a);
    var t1 := 0;
    while t1 < n
      invariant 0 <= t1 <= n && Stage(a, t1, a0, a1, a2)
      invariant forall k :: p <= k < p + t1 ==> buf[k] == Xor8(old(buf[k]), ks[k - p])
      invariant forall k :: 0 <= k < buf.Length && (k < p || k >= p + t1) ==> buf[k] == old(buf[k])
    {
      StageStep(a, t1, a0, a1, a2);
      buf[p + t1] := Xor8(buf[p + t1], TopByte(a0));
      a0 := Shl8(a0);
      if t1 % 4 == 3 {
        a0, a1, a2 := a1, a2, a.a3;
      }
      t1 := t1 + 1;
    }
  }

  /** The words after k bytes have been taken. */
  ghost predicate Stage(a: Quad, k: nat, a0: bv32, a1: bv32, a2: bv32) {
    (k < 16 ==> a0 == ShlBytes(WordOf(a, k / 4), k % 4)) && a1 == WordOf(a, k / 4 + 1) && a2 == WordOf(a, k / 4 + 2)
  }

  lemma StageStart(a: Quad)
    ensures Stage(a, 0, a.a0, a.a1, a.a2)
  {
  }

  lemma StageStep(a: Quad, k: nat, a0: bv32, a1: bv32, a2: bv32)
    requires k < 16 && Stage(a, k, a0, a1, a2)
    ensures ToBytes(a)[k] == TopByte(a0)
    ensures if k % 4 == 3 then Stage(a, k + 1, a1, a2, a.a3) else Stage(a, k + 1, Shl8(a0), a1, a2)
  {
    hide ToBytes, TopByte, Shl8;
    StreamByte(a, k);
    var g, r := k / 4, k % 4;
    assert k == 4 * g + r;
    assert (k + 1) / 4 == (if r == 3 then g + 1 else g) && (k + 1) % 4 == (if r == 3 then 0 else r + 1);
  }

  lemma NextWords(a: seq<bv32>, a': seq<bv32>, c: Block)
    requires |a| == |a'| == 4 && QuadOf(a) == ToWords(c) && a' == a[3 := Inc32(a[3])]
    ensures QuadOf(a') == ToWords(NextWord(c))
  {
    hide ToWords, ToBytes, Inc32;
    WordsOfBytes(QuadOf(a'));
  }

  /** One round of the loop in mode AES_CTR; c is the counter block in aux. */
  method CtrWordBlock(buf: array<bv8>, p: nat, n: nat, aux: array<bv32>, enc: Cipher, ghost c: Block)
    requires aux.Length == 4 && 1 <= n <= 16 && p + n <= buf.Length && QuadOf(aux[..]) == ToWords(c)
    modifies buf, aux
    ensures buf[..p + n] == old(buf[..p]) + XorStream(old(buf[p..p + n]), enc(c)) && buf[p + n..] == old(buf[p + n..])
    ensures QuadOf(aux[..]) == ToWords(NextWord(c))
  {
    hide ToWords, ToBytes, NextWord, XorStream, QuadOf;
    EncWords(enc, c);
    var a := EncQ(enc, QuadOf(aux[..]));
    BytesOfWords(enc(c));
    XorWordStream(buf, p, n, a);
    ghost var w, b := aux[..], buf[..];
    aux[3] := Inc32(aux[3]);
    assert buf[..p + n] == b[..p + n] && buf[p + n..] == b[p + n..];
    NextWords(w, aux[..], c);
  }

  /** os_aes in mode AES_CTR: the buffer is encrypted in place, if it has at most 32767 bytes. */
  method OsAesCtrMode(buf: array<bv8>, aux: array<bv32>, enc: Cipher)
    requires aux.Length == 4 && buf.Length < 0x1_0000
    modifies buf, aux
    ensures buf.Length <= 0x7FFF ==> buf[..] == CtrMode(enc, NextWord, AuxBytes(old(aux[..])), old(buf[..]))
    ensures buf.Length > 0x7FFF ==> buf[..] == old(buf[..])
  {
    hide ToWords, ToBytes, AuxBytes, NextWord, XorStream, CtrMode, Rest, QuadOf, S2, U2;
    SignedLength(buf.Length);
    ghost var m, c := buf[..], AuxBytes(aux[..]);
    RestAll(enc, NextWord, c, m);
    ghost var whole := Rest(enc, NextWord, c, m, 0);
    LoadAux(aux, false);
    var p, rest := 0, buf.Length;
    while S2(rest) > 0
      invariant 0 <= rest < 0x1_0000 && QuadOf(aux[..]) == ToWords(c) && 0 <= p
      invariant S2(rest) > 0 ==> p + rest == buf.Length && 0 < rest <= 0x7FFF && buf[p..] == m[p..] && whole == buf[..p] + Rest(enc, NextWord, c, m, p)
      invariant S2(rest) <= 0 ==> if buf.Length <= 0x7FFF then buf[..] == whole else buf[..] == m
      decreases if S2(rest) > 0 then rest else 0
    {
      var n := if rest > 16 then 16 else rest;
      CtrKeeps(enc, NextWord, c, m, p, n, whole, buf[..p]);
      Slices(buf[..], m, p, n);
      CtrWordBlock(buf, p, n, aux, enc, c);
      c := NextWord(c);
      if n == rest {
        RestNone(enc, NextWord, c, m);
        assert buf[..p + n] == buf[..];
      }
      p := p + 16;
      SignedLength(rest);
      rest := U2(rest - 16);
    }
  }

  // ---------------------------------------------------------------------------------------------
  // The two counters

  lemma AddWord4(b0: bv8, b1: bv8, b2: bv8, b3: bv8)
    ensures Inc32(Word4(b0, b1, b2, b3)) == Word4(b0, b1, b2, Inc8(b3)) <==> !Full(b3)
  {
  }

  /** The two implementations step a counter block alike exactly if its last byte does not overflow. */
  lemma SameStep(c: Block)
    ensures NextWord(c) == NextByte(c) <==> !Full(c[15])
  {
    hide Word4, ByteOf, ToBytes, ToWords, NextByte, NextWord, Inc32, Inc8, Full;
    AddWord4(c[12], c[13], c[14], c[15]);
    StepWords(c);
    BytesOfWords(NextByte(c));
    BytesOfWords(NextWord(c));
  }

  lemma StepWords(c: Block)
    ensures var q := ToWords(c);
            && q.a3 == Word4(c[12], c[13], c[14], c[15])
            && ToWords(NextWord(c)) == q.(a3 := Inc32(q.a3))
            && ToWords(NextByte(c)) == q.(a3 := Word4(c[12], c[13], c[14], Inc8(c[15])))
  {
    hide Word4, ToBytes, Inc32, Inc8;
    var q := ToWords(c);
    WordsOfBytes(q.(a3 := Inc32(q.a3)));
  }

  /** The number of key stream blocks for a message. */
  function StreamBlocks(m: seq<bv8>): nat { (|m| + 15) / 16 }

  /** The last byte of counter c does not overflow in n blocks. */
  predicate CounterFits(c: Block, n: nat) { n <= 1 || c[15] as int + n <= 256 }

  lemma FitsNext(c: Block, n: nat)
    ensures CounterFits(c, n) <==> n <= 1 || (!Full(c[15]) && CounterFits(NextByte(c), n - 1))
  {
    hide Full, Inc8;
    CountByte(c[15]);
  }

  lemma CountByte(b: bv8)
    ensures if Full(b) then b as int == 255 else Inc8(b) as int == b as int + 1
  {
    assert b == 0xFF || b < 0xFF;
  }

  /** The two implementations of counter mode agree, whatever the cipher, on messages short enough for
      the last byte of the counter. */
  lemma {:induction false} CtrAgree(enc: Cipher, c: Block, m: seq<bv8>)
    requires CounterFits(c, StreamBlocks(m))
    ensures CtrMode(enc, NextByte, c, m) == CtrMode(enc, NextWord, c, m)
    decreases |m|
  {
    hide XorStream, NextByte, NextWord, CounterFits;
    if |m| > 16 {
      FitsNext(c, StreamBlocks(m));
      SameStep(c);
      CtrAgree(enc, NextByte(c), m[16..]);
    }
  }

  function Counter(next: Block -> Block, c: Block, k: nat): Block
    decreases k
  {
    if k == 0 then c else Counter(next, next(c), k - 1)
  }

  /** Otherwise they use different counter blocks for some block of the message. */
  lemma {:induction false} CountersDiffer(c: Block, n: nat) returns (k: nat)
    requires !CounterFits(c, n)
    ensures k < n && Counter(NextByte, c, k) != Counter(NextWord, c, k)
    decreases n
  {
    hide NextByte, NextWord, CounterFits;
    FitsNext(c, n);
    SameStep(c);
    if Full(c[15]) {
      k := 1;
      assert Counter(NextByte, NextByte(c), 0) == NextByte(c) && Counter(NextWord, NextWord(c), 0) == NextWord(c);
    } else {
      k := CountersDiffer(NextByte(c), n - 1);
      k := k + 1;
    }
  }

  /** Byte 16k + r of the output, from byte r of the encrypted counter block k. */
  lemma {:induction false} CtrAt(enc: Cipher, next: Block -> Block, c: Block, m: seq<bv8>, k: nat, r: nat)
    requires r < 16 && 16 * k + r < |m|
    ensures CtrMode(enc, next, c, m)[16 * k + r] == Xor8(m[16 * k + r], enc(Counter(next, c, k))[r])
    decreases k
  {
    hide Xor8;
    if k > 0 {
      CtrAt(enc, next, next(c), m[16..], k - 1, r);
    }
  }

  /** Encrypts the one block d to ones and all others to zeros. */
  function Telltale(d: Block): Cipher { x => if x == d then seq(16, _ => 0xFF as bv8) else Zero() }

  /** So for messages of that length, and for no others, the two implementations of counter mode agree
      for every cipher. */
  lemma CtrAgreeIff(c: Block, m: seq<bv8>)
    ensures (forall enc: Cipher :: CtrMode(enc, NextByte, c, m) == CtrMode(enc, NextWord, c, m)) <==> CounterFits(c, StreamBlocks(m))
  {
    hide NextByte, NextWord, CtrMode, Counter, CounterFits;
    if CounterFits(c, StreamBlocks(m)) {
      forall enc: Cipher ensures CtrMode(enc, NextByte, c, m) == CtrMode(enc, NextWord, c, m) {
        CtrAgree(enc, c, m);
      }
    } else {
      var k := CountersDiffer(c, StreamBlocks(m));
      FirstCounter(c);
      var enc := Telltale(Counter(NextByte, c, k));
      CtrAt(enc, NextByte, c, m, k, 0);
      CtrAt(enc, NextWord, c, m, k, 0);
      OnesDiffer(m[16 * k]);
      assert CtrMode(enc, NextByte, c, m) != CtrMode(enc, NextWord, c, m);
    }
  }

  lemma FirstCounter(c: Block)
    ensures Counter(NextByte, c, 0) == Counter(NextWord, c, 0)
  {
  }

  lemma OnesDiffer(b: bv8)
    ensures Xor8(b, 0xFF) != Xor8(b, 0)
  {
  }
}
