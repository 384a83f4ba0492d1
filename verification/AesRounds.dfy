/**
 The AES block cipher, section 5 of FIPS 197, for any substitution box, in two forms: byte by byte
 with the key schedule on the fly (aes/aes-ideetron.c), and by tables of words over an expanded key
 (aes/aes-original.c).
*/
module AesRounds {
  import opened Bits
  import opened Cmac
  import opened AesOriginal

  type SBox = bv8 -> bv8

  // ---------------------------------------------------------------------------------------------
  // Specification: byte r + 4c of a block is in row r and column c

  function Mul2(b: bv8): bv8 { if Msb(b) then (b << 1) ^ 0x1b else b << 1 }

  function SubBytes(s: SBox, b: Block): Block { seq(16, k requires 0 <= k < 16 => s(b[k])) }

  function ShiftRows(b: Block): Block { seq(16, k requires 0 <= k < 16 => b[k % 4 + 4 * ((k / 4 + k % 4) % 4)]) }

  /** Row r of the product of a column with the polynomial {03}x^3 + {01}x^2 + {01}x + {02}. */
  function MixByte(b: Block, r: nat, c: nat): bv8
    requires r < 4 && c < 4
  {
    var x0, x1 := b[r + 4 * c], b[(r + 1) % 4 + 4 * c];
    var x2, x3 := b[(r + 2) % 4 + 4 * c], b[(r + 3) % 4 + 4 * c];
    Xor8(Xor8(Xor8(Mul2(x0), Xor8(Mul2(x1), x1)), x2), x3)
  }

  function MixColumns(b: Block): Block { seq(16, k requires 0 <= k < 16 => MixByte(b, k % 4, k / 4)) }

  function Round(s: SBox, b: Block, key: Block): Block { XorB(MixColumns(ShiftRows(SubBytes(s, b))), key) }

  function FinalRound(s: SBox, b: Block, key: Block): Block { XorB(ShiftRows(SubBytes(s, b)), key) }

  function Rcon(i: nat): bv8
    requires i > 0
  {
    if i == 1 then 1 else Mul2(Rcon(i - 1))
  }

  /** Byte j of the word added to the first column of the next round key. */
  function KeyCore(s: SBox, k: Block, i: nat, j: nat): bv8
    requires i > 0 && j < 4
  {
    Xor8(s(k[12 + (j + 1) % 4]), if j == 0 then Rcon(i) else 0)
  }

  function NextKey(s: SBox, k: Block, i: nat): (r: Block)
    requires i > 0
  {
    seq(16, n requires 0 <= n < 16 => NextKeyByte(s, k, i, n))
  }

  function NextKeyByte(s: SBox, k: Block, i: nat, n: nat): bv8
    requires i > 0 && n < 16
  {
    Xor8(k[n], if n < 4 then KeyCore(s, k, i, n) else NextKeyByte(s, k, i, n - 4))
  }

  function RoundKey(s: SBox, key: Block, i: nat): Block { if i == 0 then key else NextKey(s, RoundKey(s, key, i - 1), i) }

  function Rounds(s: SBox, key: Block, b: Block, i: nat): Block {
    if i == 0 then XorB(b, key) else Round(s, Rounds(s, key, b, i - 1), RoundKey(s, key, i))
  }

  function AesCipher(s: SBox, key: Block, b: Block): Block {
    FinalRound(s, Rounds(s, key, b, 9), RoundKey(s, key, 10))
  }

  // ---------------------------------------------------------------------------------------------
  // aes-original.c: tables and rounds on words

  function E1(s: SBox, x: bv8): bv32 { Word4(Mul2(s(x)), s(x), s(x), Xor8(Mul2(s(x)), s(x))) }

  function E2(s: SBox, x: bv8): bv32 { Word4(Xor8(Mul2(s(x)), s(x)), Mul2(s(x)), s(x), s(x)) }

  function E3(s: SBox, x: bv8): bv32 { Word4(s(x), Xor8(Mul2(s(x)), s(x)), Mul2(s(x)), s(x)) }

  function E4(s: SBox, x: bv8): bv32 { Word4(s(x), s(x), Xor8(Mul2(s(x)), s(x)), Mul2(s(x))) }

  /** A substitution box and the four tables of words made from it. */
  datatype Tables = Tables(s: SBox, e1: bv8 -> bv32, e2: bv8 -> bv32, e3: bv8 -> bv32, e4: bv8 -> bv32)

  ghost predicate FromBox(t: Tables) {
    && (forall x :: t.e1(x) == E1(t.s, x)) && (forall x :: t.e2(x) == E2(t.s, x))
    && (forall x :: t.e3(x) == E3(t.s, x)) && (forall x :: t.e4(x) == E4(t.s, x))
  }

  /** AES_key4 and four times AES_expr4. */
  function TableRound(t: Tables, a: Quad, k: Quad): Quad {
    Quad(Xor32(Xor32(Xor32(Xor32(k.a0, t.e1(ByteOf(a.a0, 0))), t.e2(ByteOf(a.a1, 1))), t.e3(ByteOf(a.a2, 2))), t.e4(ByteOf(a.a3, 3))),
         Xor32(Xor32(Xor32(Xor32(k.a1, t.e4(ByteOf(a.a0, 3))), t.e1(ByteOf(a.a1, 0))), t.e2(ByteOf(a.a2, 1))), t.e3(ByteOf(a.a3, 2))),
         Xor32(Xor32(Xor32(Xor32(k.a2, t.e3(ByteOf(a.a0, 2))), t.e4(ByteOf(a.a1, 3))), t.e1(ByteOf(a.a2, 0))), t.e2(ByteOf(a.a3, 1))),
         Xor32(Xor32(Xor32(Xor32(k.a3, t.e2(ByteOf(a.a0, 1))), t.e3(ByteOf(a.a1, 2))), t.e4(ByteOf(a.a2, 3))), t.e1(ByteOf(a.a3, 0))))
  }

  function Column(s: SBox, k: bv32, x0: bv8, x1: bv8, x2: bv8, x3: bv8): bv32 {
    Xor32(Xor32(Xor32(Xor32(k, E1(s, x0)), E2(s, x1)), E3(s, x2)), E4(s, x3))
  }

  /** The byte that a round makes of four bytes and a key byte. */
  function MixOf(s: SBox, x0: bv8, x1: bv8, x2: bv8, x3: bv8, k: bv8): bv8 {
    Xor8(Xor8(Xor8(Xor8(Mul2(s(x0)), Xor8(Mul2(s(x1)), s(x1))), s(x2)), s(x3)), k)
  }

  /** The column that four table entries and a key word add up to. */
  lemma TableColumn(s: SBox, k0: bv8, k1: bv8, k2: bv8, k3: bv8, x0: bv8, x1: bv8, x2: bv8, x3: bv8)
    ensures Column(s, Word4(k0, k1, k2, k3), x0, x1, x2, x3)
         == Word4(MixOf(s, x0, x1, x2, x3, k0), MixOf(s, x1, x2, x3, x0, k1), MixOf(s, x2, x3, x0, x1, k2), MixOf(s, x3, x0, x1, x2, k3))
  {
    hide Word4, Xor8, Xor32, Mul2;
    ColumnOf(k0, k1, k2, k3, s(x0), s(x1), s(x2), s(x3), Mul2(s(x0)), Mul2(s(x1)), Mul2(s(x2)), Mul2(s(x3)));
  }

  lemma ColumnOf(k0: bv8, k1: bv8, k2: bv8, k3: bv8, y0: bv8, y1: bv8, y2: bv8, y3: bv8, d0: bv8, d1: bv8, d2: bv8, d3: bv8)
    ensures Xor32(Xor32(Xor32(Xor32(Word4(k0, k1, k2, k3), Word4(d0, y0, y0, Xor8(d0, y0))), Word4(Xor8(d1, y1), d1, y1, y1)),
                        Word4(y2, Xor8(d2, y2), d2, y2)), Word4(y3, y3, Xor8(d3, y3), d3))
         == Word4(Xor8(Xor8(Xor8(Xor8(d0, Xor8(d1, y1)), y2), y3), k0), Xor8(Xor8(Xor8(Xor8(d1, Xor8(d2, y2)), y3), y0), k1),
                  Xor8(Xor8(Xor8(Xor8(d2, Xor8(d3, y3)), y0), y1), k2), Xor8(Xor8(Xor8(Xor8(d3, Xor8(d0, y0)), y1), y2), k3))
  {
    hide Word4, Xor8, Xor32;
    Xor5(k0, k1, k2, k3, d0, y0, y0, Xor8(d0, y0), Xor8(d1, y1), d1, y1, y1, y2, Xor8(d2, y2), d2, y2, y3, y3, Xor8(d3, y3), d3);
    Reorder(k0, d0, Xor8(d1, y1), y2, y3);
    Reorder(k1, y0, d1, Xor8(d2, y2), y3);
    Reorder(k2, y0, y1, d2, Xor8(d3, y3));
    Reorder(k3, Xor8(d0, y0), y1, y2, d3);
  }

  /** The XOR of five words, byte by byte. */
  lemma Xor5(k0: bv8, k1: bv8, k2: bv8, k3: bv8, a0: bv8, a1: bv8, a2: bv8, a3: bv8, b0: bv8, b1: bv8, b2: bv8, b3: bv8,
             c0: bv8, c1: bv8, c2: bv8, c3: bv8, d0: bv8, d1: bv8, d2: bv8, d3: bv8)
    ensures Xor32(Xor32(Xor32(Xor32(Word4(k0, k1, k2, k3), Word4(a0, a1, a2, a3)), Word4(b0, b1, b2, b3)), Word4(c0, c1, c2, c3)), Word4(d0, d1, d2, d3))
         == Word4(Xor8(Xor8(Xor8(Xor8(k0, a0), b0), c0), d0), Xor8(Xor8(Xor8(Xor8(k1, a1), b1), c1), d1),
                  Xor8(Xor8(Xor8(Xor8(k2, a2), b2), c2), d2), Xor8(Xor8(Xor8(Xor8(k3, a3), b3), c3), d3))
  {
    hide Word4, Xor8, Xor32;
    XorWord4(k0, k1, k2, k3, a0, a1, a2, a3);
    XorWord4(Xor8(k0, a0), Xor8(k1, a1), Xor8(k2, a2), Xor8(k3, a3), b0, b1, b2, b3);
    XorWord4(Xor8(Xor8(k0, a0), b0), Xor8(Xor8(k1, a1), b1), Xor8(Xor8(k2, a2), b2), Xor8(Xor8(k3, a3), b3), c0, c1, c2, c3);
    XorWord4(Xor8(Xor8(Xor8(k0, a0), b0), c0), Xor8(Xor8(Xor8(k1, a1), b1), c1),
             Xor8(Xor8(Xor8(k2, a2), b2), c2), Xor8(Xor8(Xor8(k3, a3), b3), c3), d0, d1, d2, d3);
  }

  lemma Swap8(x: bv8, a: bv8, b: bv8)
    ensures Xor8(Xor8(x, a), b) == Xor8(Xor8(x, b), a) && Xor8(a, b) == Xor8(b, a)
  {
  }

  lemma ToLast(k: bv8, b: bv8, c: bv8, d: bv8)
    ensures Xor8(Xor8(Xor8(k, b), c), d) == Xor8(Xor8(Xor8(b, c), d), k)
  {
    hide Xor8;
    Swap8(0, k, b);
    Swap8(b, k, c);
    Swap8(Xor8(b, c), k, d);
  }

  lemma Reorder(k: bv8, a: bv8, b: bv8, c: bv8, d: bv8)
    ensures var x := Xor8(Xor8(Xor8(Xor8(k, a), b), c), d);
            && x == Xor8(Xor8(Xor8(Xor8(a, b), c), d), k) && x == Xor8(Xor8(Xor8(Xor8(b, c), d), a), k)
            && x == Xor8(Xor8(Xor8(Xor8(c, d), a), b), k) && x == Xor8(Xor8(Xor8(Xor8(d, a), b), c), k)
  {
    hide Xor8;
    ToLast(k, a, b, c);
    Swap8(Xor8(Xor8(a, b), c), k, d);
    ToLast(a, b, c, d);
    ToLast(b, c, d, a);
    ToLast(c, d, a, b);
  }

  lemma Assoc32(x: bv32, a: bv32, b: bv32)
    ensures Xor32(Xor32(x, a), b) == Xor32(x, Xor32(a, b))
  {
  }

  lemma Comm32(a: bv32, b: bv32)
    ensures Xor32(a, b) == Xor32(b, a)
  {
  }

  lemma Swap32(x: bv32, a: bv32, b: bv32)
    ensures Xor32(Xor32(x, a), b) == Xor32(Xor32(x, b), a)
  {
    hide Xor32;
    Assoc32(x, a, b);
    Assoc32(x, b, a);
    Comm32(a, b);
  }

  lemma Rotate(k: bv32, a: bv32, b: bv32, c: bv32, d: bv32)
    ensures Xor32(Xor32(Xor32(Xor32(k, a), b), c), d) == Xor32(Xor32(Xor32(Xor32(k, d), a), b), c)
  {
    hide Xor32;
    Swap32(Xor32(Xor32(k, a), b), c, d);
    Swap32(Xor32(k, a), b, d);
    Swap32(k, a, d);
  }

  /** The byte of b that ShiftRows brings to row r of column c. */
  function Source(b: Block, r: nat, c: nat): bv8
    requires r < 4 && c < 4
  {
    b[4 * ((c + r) % 4) + r]
  }

  lemma ShiftedByte(s: SBox, b: Block, r: nat, c: nat)
    requires r < 4 && c < 4
    ensures ShiftRows(SubBytes(s, b))[4 * c + r] == s(Source(b, r, c))
  {
    assert (4 * c + r) % 4 == r && (4 * c + r) / 4 == c;
  }

  /** Byte r of column c after MixColumns and AddRoundKey. */
  lemma MixedByte(b: Block, key: Block, r: nat, c: nat)
    requires r < 4 && c < 4
    ensures XorB(MixColumns(b), key)[4 * c + r]
         == Xor8(Xor8(Xor8(Xor8(Mul2(b[4 * c + r]), Xor8(Mul2(b[4 * c + (r + 1) % 4]), b[4 * c + (r + 1) % 4])),
                           b[4 * c + (r + 2) % 4]), b[4 * c + (r + 3) % 4]), key[4 * c + r])
  {
    hide Xor8, Mul2;
    assert (4 * c + r) % 4 == r && (4 * c + r) / 4 == c;
  }

  /** Byte r of column c after a whole round. */
  lemma RoundByte(s: SBox, b: Block, key: Block, r: nat, c: nat)
    requires r < 4 && c < 4
    ensures Round(s, b, key)[4 * c + r]
         == MixOf(s, Source(b, r, c), Source(b, (r + 1) % 4, c), Source(b, (r + 2) % 4, c), Source(b, (r + 3) % 4, c), key[4 * c + r])
  {
    hide Xor8, Mul2, Source, ShiftRows, SubBytes, MixColumns, XorB;
    MixedByte(ShiftRows(SubBytes(s, b)), key, r, c);
    ShiftedByte(s, b, r, c);
    ShiftedByte(s, b, (r + 1) % 4, c);
    ShiftedByte(s, b, (r + 2) % 4, c);
    ShiftedByte(s, b, (r + 3) % 4, c);
  }

  lemma RoundBytes(s: SBox, b: Block, key: Block, c: nat)
    requires c < 4
    ensures var r, n := Round(s, b, key), 4 * c;
            var x0, x1, x2, x3 := Source(b, 0, c), Source(b, 1, c), Source(b, 2, c), Source(b, 3, c);
            && r[n] == MixOf(s, x0, x1, x2, x3, key[n]) && r[n + 1] == MixOf(s, x1, x2, x3, x0, key[n + 1])
            && r[n + 2] == MixOf(s, x2, x3, x0, x1, key[n + 2]) && r[n + 3] == MixOf(s, x3, x0, x1, x2, key[n + 3])
  {
    hide MixOf, Source, Round;
    RoundByte(s, b, key, 0, c);
    RoundByte(s, b, key, 1, c);
    RoundByte(s, b, key, 2, c);
    RoundByte(s, b, key, 3, c);
  }

  /** Word c of a round. */
  lemma RoundWord(s: SBox, b: Block, key: Block, c: nat)
    requires c < 4
    ensures WordAt(Round(s, b, key), 4 * c)
         == Column(s, WordAt(key, 4 * c), Source(b, 0, c), Source(b, 1, c), Source(b, 2, c), Source(b, 3, c))
  {
    hide Word4, MixOf, Column, Source, Round, WordAt;
    RoundBytes(s, b, key, c);
    FourBytes(key, 4 * c);
    FourBytes(Round(s, b, key), 4 * c);
    TableColumn(s, key[4 * c], key[4 * c + 1], key[4 * c + 2], key[4 * c + 3],
                Source(b, 0, c), Source(b, 1, c), Source(b, 2, c), Source(b, 3, c));
  }

  function Columns(s: SBox, a: Quad, k: Quad): Quad {
    Quad(Column(s, k.a0, ByteOf(a.a0, 0), ByteOf(a.a1, 1), ByteOf(a.a2, 2), ByteOf(a.a3, 3)),
         Column(s, k.a1, ByteOf(a.a1, 0), ByteOf(a.a2, 1), ByteOf(a.a3, 2), ByteOf(a.a0, 3)),
         Column(s, k.a2, ByteOf(a.a2, 0), ByteOf(a.a3, 1), ByteOf(a.a0, 2), ByteOf(a.a1, 3)),
         Column(s, k.a3, ByteOf(a.a3, 0), ByteOf(a.a0, 1), ByteOf(a.a1, 2), ByteOf(a.a2, 3)))
  }

  /** The order in which the macros add up a column does not matter. */
  lemma TableColumns(t: Tables, a: Quad, k: Quad)
    requires FromBox(t)
    ensures TableRound(t, a, k) == Columns(t.s, a, k)
  {
    hide Xor32, E1, E2, E3, E4, ByteOf;
    var s := t.s;
    var b0, b1, b2, b3 := E1(s, ByteOf(a.a1, 0)), E2(s, ByteOf(a.a2, 1)), E3(s, ByteOf(a.a3, 2)), E4(s, ByteOf(a.a0, 3));
    Rotate(k.a1, b0, b1, b2, b3);
    var c0, c1, c2, c3 := E1(s, ByteOf(a.a2, 0)), E2(s, ByteOf(a.a3, 1)), E3(s, ByteOf(a.a0, 2)), E4(s, ByteOf(a.a1, 3));
    Rotate(k.a2, c0, c1, c2, c3);
    Rotate(k.a2, c3, c0, c1, c2);
    var d0, d1, d2, d3 := E1(s, ByteOf(a.a3, 0)), E2(s, ByteOf(a.a0, 1)), E3(s, ByteOf(a.a1, 2)), E4(s, ByteOf(a.a2, 3));
    Rotate(k.a3, d0, d1, d2, d3);
    Rotate(k.a3, d3, d0, d1, d2);
    Rotate(k.a3, d2, d3, d0, d1);
  }

  /** The bytes that ShiftRows brings to column c, by words. */
  lemma BytesAt(b: Block, c: nat)
    requires c < 4
    ensures var q := ToWords(b);
            && ByteOf(WordOf(q, c), 0) == Source(b, 0, c) && ByteOf(WordOf(q, (c + 1) % 4), 1) == Source(b, 1, c)
            && ByteOf(WordOf(q, (c + 2) % 4), 2) == Source(b, 2, c) && ByteOf(WordOf(q, (c + 3) % 4), 3) == Source(b, 3, c)
  {
    hide ByteOf, WordOf, ToWords;
    ByteAt(b, c, 0);
    ByteAt(b, (c + 1) % 4, 1);
    ByteAt(b, (c + 2) % 4, 2);
    ByteAt(b, (c + 3) % 4, 3);
  }

  /** Word c of r is the column that a round makes of the quads a and k. */
  ghost predicate ColumnAt(s: SBox, a: Quad, k: Quad, r: Quad, c: nat) {
    Column(s, WordOf(k, c), ByteOf(WordOf(a, c), 0), ByteOf(WordOf(a, (c + 1) % 4), 1),
           ByteOf(WordOf(a, (c + 2) % 4), 2), ByteOf(WordOf(a, (c + 3) % 4), 3)) == WordOf(r, c)
  }

  lemma RoundColumn(s: SBox, b: Block, key: Block, c: nat)
    requires c < 4
    ensures ColumnAt(s, ToWords(b), ToWords(key), ToWords(Round(s, b, key)), c)
  {
    hide Word4, Round, Column, ByteOf, Source, WordOf, ToWords, WordAt;
    BytesAt(b, c);
    WordIs(key, c);
    WordIs(Round(s, b, key), c);
    RoundWord(s, b, key, c);
  }

  lemma WordIs(b: Block, c: nat)
    requires c < 4
    ensures WordOf(ToWords(b), c) == WordAt(b, 4 * c)
  {
    hide WordAt;
  }

  lemma ColumnIs(s: SBox, a: Quad, k: Quad, r: Quad, c: nat)
    requires c < 4 && ColumnAt(s, a, k, r, c)
    ensures WordOf(r, c) == WordOf(Columns(s, a, k), c)
  {
    hide Column, ByteOf;
    if c == 0 {
    } else if c == 1 {
    } else if c == 2 {
    }
  }

  lemma ColumnsAre(s: SBox, a: Quad, k: Quad, r: Quad)
    requires ColumnAt(s, a, k, r, 0) && ColumnAt(s, a, k, r, 1) && ColumnAt(s, a, k, r, 2) && ColumnAt(s, a, k, r, 3)
    ensures r == Columns(s, a, k)
  {
    hide ColumnAt, Columns;
    ColumnIs(s, a, k, r, 0);
    ColumnIs(s, a, k, r, 1);
    ColumnIs(s, a, k, r, 2);
    ColumnIs(s, a, k, r, 3);
  }

  lemma FourColumns(t: Tables, a: Quad, k: Quad, r: Quad)
    requires FromBox(t) && ColumnAt(t.s, a, k, r, 0) && ColumnAt(t.s, a, k, r, 1) && ColumnAt(t.s, a, k, r, 2) && ColumnAt(t.s, a, k, r, 3)
    ensures TableRound(t, a, k) == r
  {
    hide Columns, ColumnAt, TableRound, FromBox;
    TableColumns(t, a, k);
    ColumnsAre(t.s, a, k, r);
  }

  /** A table round is a round. */
  lemma TableRoundIs(t: Tables, b: Block, key: Block)
    requires FromBox(t)
    ensures TableRound(t, ToWords(b), ToWords(key)) == ToWords(Round(t.s, b, key))
  {
    hide ColumnAt, TableRound, FromBox, ToWords, Round;
    RoundColumn(t.s, b, key, 0);
    RoundColumn(t.s, b, key, 1);
    RoundColumn(t.s, b, key, 2);
    RoundColumn(t.s, b, key, 3);
    FourColumns(t, ToWords(b), ToWords(key), ToWords(Round(t.s, b, key)));
  }

  /** AES_expr: one word of the last round. */
  function FinalWord(s: SBox, k: bv32, r0: bv32, r1: bv32, r2: bv32, r3: bv32): bv32 {
    Xor32(Xor32(Xor32(Xor32(k, Word4(s(ByteOf(r0, 0)), 0, 0, 0)), Word4(0, s(ByteOf(r1, 1)), 0, 0)), Word4(0, 0, s(ByteOf(r2, 2)), 0)),
          Word4(0, 0, 0, s(ByteOf(r3, 3))))
  }

  function TableFinal(s: SBox, t: Quad, k: Quad): Quad {
    Quad(FinalWord(s, k.a0, t.a0, t.a1, t.a2, t.a3), FinalWord(s, k.a1, t.a1, t.a2, t.a3, t.a0),
         FinalWord(s, k.a2, t.a2, t.a3, t.a0, t.a1), FinalWord(s, k.a3, t.a3, t.a0, t.a1, t.a2))
  }

  lemma FinalWordIs(s: SBox, k0: bv8, k1: bv8, k2: bv8, k3: bv8, r0: bv32, r1: bv32, r2: bv32, r3: bv32)
    ensures FinalWord(s, Word4(k0, k1, k2, k3), r0, r1, r2, r3)
         == Word4(Xor8(s(ByteOf(r0, 0)), k0), Xor8(s(ByteOf(r1, 1)), k1), Xor8(s(ByteOf(r2, 2)), k2), Xor8(s(ByteOf(r3, 3)), k3))
  {
    hide Word4, Xor8, Xor32, ByteOf;
    var y0, y1, y2, y3 := s(ByteOf(r0, 0)), s(ByteOf(r1, 1)), s(ByteOf(r2, 2)), s(ByteOf(r3, 3));
    Xor5(k0, k1, k2, k3, y0, 0, 0, 0, 0, y1, 0, 0, 0, 0, y2, 0, 0, 0, 0, y3);
    XorZeros(k0, y0);
    XorZeros(k1, y1);
    XorZeros(k2, y2);
    XorZeros(k3, y3);
  }

  lemma XorZeros(k: bv8, y: bv8)
    ensures Xor8(k, 0) == k && Xor8(Xor8(k, y), 0) == Xor8(k, y) == Xor8(y, k)
  {
  }

  lemma TableFinalColumn(s: SBox, b: Block, key: Block, c: nat)
    requires c < 4
    ensures var q := ToWords(b);
            FinalWord(s, WordAt(key, 4 * c), WordOf(q, c), WordOf(q, (c + 1) % 4), WordOf(q, (c + 2) % 4), WordOf(q, (c + 3) % 4))
            == WordAt(FinalRound(s, b, key), 4 * c)
  {
    hide Word4, FinalRound, FinalWord, ByteOf, Source, Xor8, WordOf, ToWords, WordAt;
    var q := ToWords(b);
    FourBytes(key, 4 * c);
    BytesAt(b, c);
    FinalColumn(s, b, key, c);
    FinalWordIs(s, key[4 * c], key[4 * c + 1], key[4 * c + 2], key[4 * c + 3],
                WordOf(q, c), WordOf(q, (c + 1) % 4), WordOf(q, (c + 2) % 4), WordOf(q, (c + 3) % 4));
  }

  lemma TableFinalIs(s: SBox, b: Block, key: Block)
    ensures TableFinal(s, ToWords(b), ToWords(key)) == ToWords(FinalRound(s, b, key))
  {
    hide Word4, FinalRound, FinalWord, WordAt;
    TableFinalColumn(s, b, key, 0);
    TableFinalColumn(s, b, key, 1);
    TableFinalColumn(s, b, key, 2);
    TableFinalColumn(s, b, key, 3);
  }

  lemma FinalColumn(s: SBox, b: Block, key: Block, c: nat)
    requires c < 4
    ensures WordAt(FinalRound(s, b, key), 4 * c)
         == Word4(Xor8(s(Source(b, 0, c)), key[4 * c]), Xor8(s(Source(b, 1, c)), key[4 * c + 1]),
                  Xor8(s(Source(b, 2, c)), key[4 * c + 2]), Xor8(s(Source(b, 3, c)), key[4 * c + 3]))
  {
    hide Word4, Xor8, Source, ShiftRows, SubBytes, WordAt;
    FourBytes(FinalRound(s, b, key), 4 * c);
    ShiftedByte(s, b, 0, c);
    ShiftedByte(s, b, 1, c);
    ShiftedByte(s, b, 2, c);
    ShiftedByte(s, b, 3, c);
  }

  // ---------------------------------------------------------------------------------------------
  // aes-original.c: key schedule and encryption

  const AES_RCON: seq<bv32> := [0x01000000, 0x02000000, 0x04000000, 0x08000000, 0x10000000,
                                0x20000000, 0x40000000, 0x80000000, 0x1B000000, 0x36000000]

  lemma RconIs(i: nat)
    requires 1 <= i <= 10
    ensures AES_RCON[i - 1] == Word4(Rcon(i), 0, 0, 0)
  {
    assert Rcon(1) == 0x01;
    assert Rcon(2) == 0x02;
    assert Rcon(3) == 0x04;
    assert Rcon(4) == 0x08;
    assert Rcon(5) == 0x10;
    assert Rcon(6) == 0x20;
    assert Rcon(7) == 0x40;
    assert Rcon(8) == 0x80;
    assert Rcon(9) == 0x1B;
    assert Rcon(10) == 0x36;
  }

  /** SubWord(RotWord(w)) */
  function SubRot(s: SBox, w: bv32): bv32 { Word4(s(ByteOf(w, 1)), s(ByteOf(w, 2)), s(ByteOf(w, 3)), s(ByteOf(w, 0))) }

  /** Word n of the expanded key. */
  ghost function KeyWord(s: SBox, key: Block, n: nat): bv32 { WordAt(RoundKey(s, key, n / 4), 4 * (n % 4)) }

  lemma NextKeyAt(s: SBox, k: Block, i: nat, n: nat)
    requires i > 0 && n < 16
    ensures NextKey(s, k, i)[n] == Xor8(k[n], if n < 4 then KeyCore(s, k, i, n) else NextKey(s, k, i)[n - 4])
  {
    hide Xor8, KeyCore;
  }

  /** The words of the next round key. */
  lemma NextKeyWord(s: SBox, k: Block, i: nat, c: nat)
    requires i > 0 && c < 4
    ensures WordAt(NextKey(s, k, i), 4 * c)
         == Xor32(if c == 0 then Word4(KeyCore(s, k, i, 0), KeyCore(s, k, i, 1), KeyCore(s, k, i, 2), KeyCore(s, k, i, 3))
                  else WordAt(NextKey(s, k, i), 4 * (c - 1)), WordAt(k, 4 * c))
  {
    hide Word4, Xor8, Xor32, KeyCore, NextKey;
    var r, n := NextKey(s, k, i), 4 * c;
    NextKeyAt(s, k, i, n);
    NextKeyAt(s, k, i, n + 1);
    NextKeyAt(s, k, i, n + 2);
    NextKeyAt(s, k, i, n + 3);
    if c == 0 {
      XorWord4(k[0], k[1], k[2], k[3], KeyCore(s, k, i, 0), KeyCore(s, k, i, 1), KeyCore(s, k, i, 2), KeyCore(s, k, i, 3));
      Comm32(WordAt(k, 0), Word4(KeyCore(s, k, i, 0), KeyCore(s, k, i, 1), KeyCore(s, k, i, 2), KeyCore(s, k, i, 3)));
    } else {
      XorWord4(k[n], k[n + 1], k[n + 2], k[n + 3], r[n - 4], r[n - 3], r[n - 2], r[n - 1]);
      Comm32(WordAt(k, n), WordAt(r, n - 4));
    }
  }

  lemma KeyCoreWord(s: SBox, k: Block, i: nat)
    requires 1 <= i <= 10
    ensures Word4(KeyCore(s, k, i, 0), KeyCore(s, k, i, 1), KeyCore(s, k, i, 2), KeyCore(s, k, i, 3))
         == Xor32(SubRot(s, WordAt(k, 12)), AES_RCON[i - 1])
  {
    hide Word4, Xor8, Xor32, ByteOf, Rcon;
    RconIs(i);
    WordBytes(k[12], k[13], k[14], k[15]);
    XorWord4(s(k[13]), s(k[14]), s(k[15]), s(k[12]), Rcon(i), 0, 0, 0);
  }

  /** Each word of the expanded key from the one before it and the one four before it. */
  lemma KeyWordNext(s: SBox, key: Block, n: nat)
    requires 4 <= n < 44
    ensures KeyWord(s, key, n)
         == Xor32(if n % 4 == 0 then Xor32(SubRot(s, KeyWord(s, key, n - 1)), AES_RCON[(n - 4) / 4]) else KeyWord(s, key, n - 1),
                  KeyWord(s, key, n - 4))
  {
    hide Word4, Xor32, KeyCore, NextKey, SubRot, WordAt;
    var i, c := n / 4, n % 4;
    var k := RoundKey(s, key, i - 1);
    assert n == 4 * i + c;
    assert (n - 4) / 4 == i - 1 && (n - 4) % 4 == c;
    NextKeyWord(s, k, i, c);
    if c == 0 {
      assert (n - 1) / 4 == i - 1 && (n - 1) % 4 == 3;
      KeyCoreWord(s, k, i);
    } else {
      assert (n - 1) / 4 == i && (n - 1) % 4 == c - 1;
    }
  }

  /** aesroundkeys: expands the key in the first four words in place. */
  method AesRoundKeys(aeskey: array<bv32>, s: SBox)
    requires aeskey.Length == 44
    modifies aeskey
    ensures forall n :: 0 <= n < 44 ==> aeskey[n] == KeyWord(s, AuxBytes(old(aeskey[..4])), n)
  {
    hide KeyWord, AuxBytes, Swap, SubRot, Xor32;
    ghost var key := AuxBytes(aeskey[..4]);
    SwapQuad(aeskey[..4]);
    FirstKeyWords(s, key);
    aeskey[0], aeskey[1], aeskey[2], aeskey[3] := Swap(aeskey[0]), Swap(aeskey[1]), Swap(aeskey[2]), Swap(aeskey[3]);
    var b := aeskey[3];
    var i := 4;
    while i < 44
      invariant 4 <= i <= 44 && b == aeskey[i - 1]
      invariant forall n :: 0 <= n < i ==> aeskey[n] == KeyWord(s, key, n)
    {
      KeyWordNext(s, key, i);
      if i % 4 == 0 {
        b := Xor32(SubRot(s, b), AES_RCON[(i - 4) / 4]);
      }
      b := Xor32(b, aeskey[i - 4]);
      aeskey[i] := b;
      i := i + 1;
    }
  }

  lemma FirstKeyWords(s: SBox, key: Block)
    ensures Quad(KeyWord(s, key, 0), KeyWord(s, key, 1), KeyWord(s, key, 2), KeyWord(s, key, 3)) == ToWords(key)
  {
    hide Word4;
  }

  function QuadAt(ki: seq<bv32>, n: nat): Quad
    requires n + 4 <= |ki|
  {
    Quad(ki[n], ki[n + 1], ki[n + 2], ki[n + 3])
  }

  ghost predicate Expanded(ki: seq<bv32>, s: SBox, key: Block) {
    |ki| == 44 && forall n :: 0 <= n < 44 ==> ki[n] == KeyWord(s, key, n)
  }

  lemma KeyWordAt(s: SBox, key: Block, i: nat, c: nat)
    requires c < 4
    ensures KeyWord(s, key, 4 * i + c) == WordAt(RoundKey(s, key, i), 4 * c)
  {
    hide WordAt, RoundKey;
    assert (4 * i + c) / 4 == i && (4 * i + c) % 4 == c;
  }

  lemma ExpandedAt(ki: seq<bv32>, s: SBox, key: Block, i: nat)
    requires Expanded(ki, s, key) && i <= 10
    ensures QuadAt(ki, 4 * i) == ToWords(RoundKey(s, key, i))
  {
    hide WordAt, RoundKey, KeyWord;
    KeyWordAt(s, key, i, 0);
    KeyWordAt(s, key, i, 1);
    KeyWordAt(s, key, i, 2);
    KeyWordAt(s, key, i, 3);
  }

  /** The encryption of one block in os_aes. */
  method TableEncrypt(a0: Quad, ki: array<bv32>, tables: Tables, ghost key: Block) returns (a: Quad)
    requires ki.Length == 44 && FromBox(tables) && Expanded(ki[..], tables.s, key)
    ensures a == EncQ(x => AesCipher(tables.s, key, x), a0)
  {
    hide FromBox, Expanded, Rounds, RoundKey, TableRound, TableFinal, ToWords, ToBytes, XorQ, QuadAt, EncQ, AesCipher;
    ghost var s, b := tables.s, ToBytes(a0);
    FirstRound(ki[..], s, key, a0);
    a := XorQ(a0, QuadAt(ki[..], 0));
    var k := 0;
    ghost var j := 0;
    while k < 32
      invariant k == 8 * j && j <= 4 && a == ToWords(Rounds(s, key, b, 2 * j))
    {
      NextRound(ki[..], tables, key, b, 2 * j);
      var t := TableRound(tables, a, QuadAt(ki[..], k + 4));
      NextRound(ki[..], tables, key, b, 2 * j + 1);
      a := TableRound(tables, t, QuadAt(ki[..], k + 8));
      k, j := k + 8, j + 1;
    }
    NextRound(ki[..], tables, key, b, 8);
    var t := TableRound(tables, a, QuadAt(ki[..], k + 4));
    LastRound(ki[..], s, key, a0);
    a := TableFinal(tables.s, t, QuadAt(ki[..], k + 8));
  }

  lemma FirstRound(ki: seq<bv32>, s: SBox, key: Block, a0: Quad)
    requires |ki| == 44 && Expanded(ki, s, key)
    ensures XorQ(a0, QuadAt(ki, 0)) == ToWords(Rounds(s, key, ToBytes(a0), 0))
  {
    hide Expanded, ToWords, ToBytes, XorB, XorQ;
    WordsOfBytes(a0);
    ExpandedAt(ki, s, key, 0);
    XorWords(ToBytes(a0), key);
  }

  lemma NextRound(ki: seq<bv32>, t: Tables, key: Block, b: Block, i: nat)
    requires |ki| == 44 && FromBox(t) && Expanded(ki, t.s, key) && i < 10
    ensures TableRound(t, ToWords(Rounds(t.s, key, b, i)), QuadAt(ki, 4 * (i + 1))) == ToWords(Rounds(t.s, key, b, i + 1))
  {
    hide TableRound, ToWords, Round, RoundKey, FromBox, Expanded;
    ExpandedAt(ki, t.s, key, i + 1);
    TableRoundIs(t, Rounds(t.s, key, b, i), RoundKey(t.s, key, i + 1));
  }

  lemma LastRound(ki: seq<bv32>, s: SBox, key: Block, a0: Quad)
    requires |ki| == 44 && Expanded(ki, s, key)
    ensures TableFinal(s, ToWords(Rounds(s, key, ToBytes(a0), 9)), QuadAt(ki, 40)) == EncQ(x => AesCipher(s, key, x), a0)
  {
    hide TableFinal, ToWords, FinalRound, RoundKey, Rounds, ToBytes, Expanded;
    ExpandedAt(ki, s, key, 10);
    TableFinalIs(s, Rounds(s, key, ToBytes(a0), 9), RoundKey(s, key, 10));
  }
}
