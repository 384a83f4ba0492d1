/** aes/aes-ideetron.c: the block cipher byte by byte, over a state of four rows and four columns. */
module AesIdeetron {
  import opened Cmac
  import opened AesRounds

  /** The state whose first n bytes, column by column, are those of y and whose others are those of x. */
  ghost predicate Mixed(st: array2<bv8>, x: Block, y: Block, n: nat)
    reads st
  {
    && st.Length0 == 4 && st.Length1 == 4
    && forall r, c :: 0 <= r < 4 && 0 <= c < 4 ==> st[r, c] == (if r + 4 * c < n then y else x)[r + 4 * c]
  }

  /** Byte r + 4c of the block b is in row r and column c. */
  ghost predicate Holds(st: array2<bv8>, b: Block)
    reads st
  {
    Mixed(st, b, b, 0)
  }

  /** Writes the next byte of y, in row row of column col. */
  method Put(st: array2<bv8>, row: nat, col: nat, v: bv8, ghost x: Block, ghost y: Block)
    requires row < 4 && col < 4 && Mixed(st, x, y, 4 * col + row) && v == y[row + 4 * col]
    modifies st
    ensures Mixed(st, x, y, 4 * col + row + 1)
  {
    st[row, col] := v;
  }

  /** The byte that is next to be replaced. */
  lemma NextByteOf(st: array2<bv8>, row: nat, col: nat, x: Block, y: Block)
    requires row < 4 && col < 4 && Mixed(st, x, y, 4 * col + row)
    ensures st.Length0 == 4 && st.Length1 == 4 && st[row, col] == x[row + 4 * col]
  {
  }

  /** The state with all its bytes replaced, or with none. */
  lemma MixedEnds(st: array2<bv8>, x: Block, y: Block)
    ensures Mixed(st, x, y, 0) <==> Holds(st, x)
    ensures Mixed(st, x, y, 16) <==> Holds(st, y)
  {
  }

  /** AES_Add_Round_Key */
  method AddRoundKey(st: array2<bv8>, key: array<bv8>, ghost b: Block)
    requires Holds(st, b) && key.Length == 16
    modifies st
    ensures Holds(st, XorB(b, key[..]))
  {
    hide Xor8, Mixed, Holds;
    ghost var y := XorB(b, key[..]);
    MixedEnds(st, b, y);
    for col := 0 to 4
      invariant Mixed(st, b, y, 4 * col)
    {
      for row := 0 to 4
        invariant Mixed(st, b, y, 4 * col + row)
      {
        NextByteOf(st, row, col, b, y);
        Put(st, row, col, Xor8(st[row, col], key[row + 4 * col]), b, y);
      }
    }
    MixedEnds(st, b, y);
  }

  /** The substitution of every byte of the state. */
  method SubState(st: array2<bv8>, s: SBox, ghost b: Block)
    requires Holds(st, b)
    modifies st
    ensures Holds(st, SubBytes(s, b))
  {
    hide Mixed, Holds;
    ghost var y := SubBytes(s, b);
    MixedEnds(st, b, y);
    for col := 0 to 4
      invariant Mixed(st, b, y, 4 * col)
    {
      for row := 0 to 4
        invariant Mixed(st, b, y, 4 * col + row)
      {
        NextByteOf(st, row, col, b, y);
        Put(st, row, col, s(st[row, col]), b, y);
      }
    }
    MixedEnds(st, b, y);
  }

  /** AES_Shift_Rows */
  method ShiftState(st: array2<bv8>, ghost b: Block)
    requires Holds(st, b)
    modifies st
    ensures Holds(st, ShiftRows(b))
  {
    hide ShiftRows, Holds, Mixed;
    Square(st, b);
    Cells(st, b);
    ShiftedCells(b);
    ShiftRow1(st);
    ShiftRow2(st);
    ShiftRow3(st);
    Cells(st, ShiftRows(b));
  }

  method ShiftRow1(st: array2<bv8>)
    requires st.Length0 == 4 && st.Length1 == 4
    modifies st
    ensures forall r, c :: 0 <= r < 4 && 0 <= c < 4 ==> st[r, c] == old(if r == 1 then st[1, (c + 1) % 4] else st[r, c])
  {
    var buffer := st[1, 0];
    st[1, 0] := st[1, 1];
    st[1, 1] := st[1, 2];
    st[1, 2] := st[1, 3];
    st[1, 3] := buffer;
  }

  method ShiftRow2(st: array2<bv8>)
    requires st.Length0 == 4 && st.Length1 == 4
    modifies st
    ensures forall r, c :: 0 <= r < 4 && 0 <= c < 4 ==> st[r, c] == old(if r == 2 then st[2, (c + 2) % 4] else st[r, c])
  {
    var buffer := st[2, 0];
    st[2, 0] := st[2, 2];
    st[2, 2] := buffer;
    buffer := st[2, 1];
    st[2, 1] := st[2, 3];
    st[2, 3] := buffer;
  }

  method ShiftRow3(st: array2<bv8>)
    requires st.Length0 == 4 && st.Length1 == 4
    modifies st
    ensures forall r, c :: 0 <= r < 4 && 0 <= c < 4 ==> st[r, c] == old(if r == 3 then st[3, (c + 3) % 4] else st[r, c])
  {
    var buffer := st[3, 3];
    st[3, 3] := st[3, 2];
    st[3, 2] := st[3, 1];
    st[3, 1] := st[3, 0];
    st[3, 0] := buffer;
  }

  /** The sixteen cells of a state, one by one. */
  lemma Cells(st: array2<bv8>, b: Block)
    requires st.Length0 == 4 && st.Length1 == 4
    ensures Holds(st, b) <==>
      && (st[0, 0] == b[0] && st[1, 0] == b[1] && st[2, 0] == b[2] && st[3, 0] == b[3])
      && (st[0, 1] == b[4] && st[1, 1] == b[5] && st[2, 1] == b[6] && st[3, 1] == b[7])
      && (st[0, 2] == b[8] && st[1, 2] == b[9] && st[2, 2] == b[10] && st[3, 2] == b[11])
      && (st[0, 3] == b[12] && st[1, 3] == b[13] && st[2, 3] == b[14] && st[3, 3] == b[15])
  {
  }

  lemma Square(st: array2<bv8>, b: Block)
    requires Holds(st, b)
    ensures st.Length0 == 4 && st.Length1 == 4
  {
  }

  lemma ShiftedCells(b: Block)
    ensures ShiftRows(b) == [b[0], b[5], b[10], b[15], b[4], b[9], b[14], b[3], b[8], b[13], b[2], b[7], b[12], b[1], b[6], b[11]]
  {
  }

  /** AES_Mix_Collums */
  method MixState(st: array2<bv8>, ghost x: Block)
    requires Holds(st, x)
    modifies st
    ensures Holds(st, MixColumns(x))
  {
    hide MixColumns;
    for col := 0 to 4
      invariant Mixed(st, x, MixColumns(x), 4 * col)
    {
      MixColumn(st, col, x);
    }
  }

  /** One column; a and b are its bytes and their doubles. */
  method MixColumn(st: array2<bv8>, c: nat, ghost x: Block)
    requires c < 4 && Mixed(st, x, MixColumns(x), 4 * c)
    modifies st
    ensures Mixed(st, x, MixColumns(x), 4 * c + 4)
  {
    hide Mul2, Xor8, MixColumns;
    ghost var y := MixColumns(x);
    var a, b := Doubles(st, c, x, y);
    hide Mixed;
    MixedColumn(x, c);
    MixOrder(a[0], a[1], a[2], a[3], b[0], b[1], b[2], b[3]);
    WriteColumn(st, c, x, y,
                Xor8(Xor8(Xor8(Xor8(b[0], a[1]), b[1]), a[2]), a[3]),
                Xor8(Xor8(Xor8(Xor8(a[0], b[1]), a[2]), b[2]), a[3]),
                Xor8(Xor8(Xor8(Xor8(a[0], a[1]), b[2]), a[3]), b[3]),
                Xor8(Xor8(Xor8(Xor8(a[0], b[0]), a[1]), a[2]), b[3]));
  }

  /** The bytes of a column and their doubles. */
  method Doubles(st: array2<bv8>, c: nat, ghost x: Block, ghost y: Block) returns (a: array<bv8>, b: array<bv8>)
    requires c < 4 && Mixed(st, x, y, 4 * c)
    ensures a.Length == b.Length == 4 && fresh(a) && fresh(b)
    ensures forall k :: 0 <= k < 4 ==> a[k] == x[k + 4 * c] && b[k] == Mul2(x[k + 4 * c])
  {
    hide Mul2;
    a, b := new bv8[4](_ => 0), new bv8[4](_ => 0);
    for r := 0 to 4
      invariant forall k :: 0 <= k < r ==> a[k] == x[k + 4 * c] && b[k] == Mul2(x[k + 4 * c])
    {
      a[r] := st[r, c];
      b[r] := Mul2(st[r, c]);
    }
  }

  method WriteColumn(st: array2<bv8>, c: nat, ghost x: Block, ghost y: Block, y0: bv8, y1: bv8, y2: bv8, y3: bv8)
    requires c < 4 && Mixed(st, x, y, 4 * c)
    requires y0 == y[4 * c] && y1 == y[1 + 4 * c] && y2 == y[2 + 4 * c] && y3 == y[3 + 4 * c]
    modifies st
    ensures Mixed(st, x, y, 4 * c + 4)
  {
    hide Mixed;
    Put(st, 0, c, y0, x, y);
    Put(st, 1, c, y1, x, y);
    Put(st, 2, c, y2, x, y);
    Put(st, 3, c, y3, x, y);
  }

  lemma MixedColumn(x: Block, c: nat)
    requires c < 4
    ensures var a0, a1, a2, a3 := x[4 * c], x[1 + 4 * c], x[2 + 4 * c], x[3 + 4 * c];
            && MixColumns(x)[4 * c] == Xor8(Xor8(Xor8(Mul2(a0), Xor8(Mul2(a1), a1)), a2), a3)
            && MixColumns(x)[1 + 4 * c] == Xor8(Xor8(Xor8(Mul2(a1), Xor8(Mul2(a2), a2)), a3), a0)
            && MixColumns(x)[2 + 4 * c] == Xor8(Xor8(Xor8(Mul2(a2), Xor8(Mul2(a3), a3)), a0), a1)
            && MixColumns(x)[3 + 4 * c] == Xor8(Xor8(Xor8(Mul2(a3), Xor8(Mul2(a0), a0)), a1), a2)
  {
    hide Mul2, Xor8, MixColumns;
    MixedCell(x, 0, c);
    MixedCell(x, 1, c);
    MixedCell(x, 2, c);
    MixedCell(x, 3, c);
  }

  lemma MixedCell(x: Block, r: nat, c: nat)
    requires r < 4 && c < 4
    ensures MixColumns(x)[r + 4 * c] == MixByte(x, r, c)
  {
    hide MixByte;
    assert (r + 4 * c) % 4 == r && (r + 4 * c) / 4 == c;
  }

  lemma MixOrder(a0: bv8, a1: bv8, a2: bv8, a3: bv8, b0: bv8, b1: bv8, b2: bv8, b3: bv8)
    ensures Xor8(Xor8(Xor8(Xor8(b0, a1), b1), a2), a3) == Xor8(Xor8(Xor8(b0, Xor8(b1, a1)), a2), a3)
    ensures Xor8(Xor8(Xor8(Xor8(a0, b1), a2), b2), a3) == Xor8(Xor8(Xor8(b1, Xor8(b2, a2)), a3), a0)
    ensures Xor8(Xor8(Xor8(Xor8(a0, a1), b2), a3), b3) == Xor8(Xor8(Xor8(b2, Xor8(b3, a3)), a0), a1)
    ensures Xor8(Xor8(Xor8(Xor8(a0, b0), a1), a2), b3) == Xor8(Xor8(Xor8(b3, Xor8(b0, a0)), a1), a2)
  {
    hide Xor8;
    Pair(b0, a1, b1);
    Pair(Xor8(a0, b1), a2, b2);
    ToLast(a0, b1, Xor8(b2, a2), a3);
    Pair(Xor8(Xor8(a0, a1), b2), a3, b3);
    ToLast(a0, a1, b2, Xor8(b3, a3));
    ToLast(a1, b2, Xor8(b3, a3), a0);
    Pair(0, a0, b0);
    Swap8(0, a0, b0);
    ToLast(Xor8(a0, b0), a1, a2, b3);
    ToLast(a1, a2, b3, Xor8(a0, b0));
    ToLast(a2, b3, Xor8(b0, a0), a1);
    Swap8(Xor8(b3, Xor8(b0, a0)), a2, a1);
  }

  lemma Pair(x: bv8, a: bv8, b: bv8)
    ensures Xor8(Xor8(x, a), b) == Xor8(x, Xor8(b, a))
  {
  }

  /** AES_Calculate_Round_Key */
  method CalculateRoundKey(round: nat, key: array<bv8>, s: SBox)
    requires round > 0 && key.Length == 16
    modifies key
    ensures key[..] == NextKey(s, old(key[..]), round)
  {
    hide Xor8, Mul2, NextKey;
    ghost var k: Block := key[..];
    var temp := new bv8[4](_ => 0);
    temp[0], temp[1], temp[2], temp[3] := s(key[13]), s(key[14]), s(key[15]), s(key[12]);
    var rcon := CalculateRcon(round);
    temp[0] := Xor8(temp[0], rcon);
    CoreBytes(s, k, round);
    AddTemp(key, temp, k, s, round);
  }

  /** Byte n of the word that temp holds before column n / 4 is written, and after. */
  ghost function Previous(s: SBox, k: Block, round: nat, n: nat): bv8
    requires round > 0 && n < 20
  {
    if n < 4 then KeyCore(s, k, round, n) else NextKey(s, k, round)[n - 4]
  }

  /** The new key so far: the first n bytes. */
  ghost predicate KeyMixed(key: seq<bv8>, k: Block, next: Block, n: nat) {
    |key| == 16 && forall i :: 0 <= i < 16 ==> key[i] == if i < n then next[i] else k[i]
  }

  /** The last loop of AES_Calculate_Round_Key: each column is added to temp, and temp to the next. */
  method AddTemp(key: array<bv8>, temp: array<bv8>, ghost k: Block, ghost s: SBox, ghost round: nat)
    requires round > 0 && key.Length == 16 && temp.Length == 4 && key != temp && key[..] == k
    requires forall j :: 0 <= j < 4 ==> temp[j] == Previous(s, k, round, j)
    modifies key, temp
    ensures key[..] == NextKey(s, k, round)
  {
    ghost var next := NextKey(s, k, round);
    assert KeyMixed(key[..], k, next, 0);
    hide Xor8, NextKey, KeyCore, Previous, KeyMixed;
    for i := 0 to 4
      invariant forall j :: 0 <= j < 4 ==> temp[j] == Previous(s, k, round, j + 4 * i)
      invariant KeyMixed(key[..], k, next, 4 * i)
    {
      AddColumn(key, temp, i, k, s, round);
    }
    KeyDone(key[..], k, next);
  }

  lemma KeyDone(key: seq<bv8>, k: Block, next: Block)
    requires KeyMixed(key, k, next, 16)
    ensures key == next
  {
  }

  method AddColumn(key: array<bv8>, temp: array<bv8>, i: nat, ghost k: Block, ghost s: SBox, ghost round: nat)
    requires round > 0 && i < 4 && key.Length == 16 && temp.Length == 4 && key != temp
    requires forall j :: 0 <= j < 4 ==> temp[j] == Previous(s, k, round, j + 4 * i)
    requires KeyMixed(key[..], k, NextKey(s, k, round), 4 * i)
    modifies key, temp
    ensures forall j :: 0 <= j < 4 ==> temp[j] == Previous(s, k, round, j + 4 * (i + 1))
    ensures KeyMixed(key[..], k, NextKey(s, k, round), 4 * (i + 1))
  {
    hide Xor8, NextKey, KeyCore, Previous, KeyMixed;
    ghost var next := NextKey(s, k, round);
    for j := 0 to 4
      invariant forall m :: 0 <= m < j ==> temp[m] == next[m + 4 * i]
      invariant forall m :: j <= m < 4 ==> temp[m] == Previous(s, k, round, m + 4 * i)
      invariant KeyMixed(key[..], k, next, 4 * i + j)
    {
      ghost var was := key[..];
      NextFromPrevious(s, k, round, j + 4 * i);
      KeyAdd(was, k, next, j + 4 * i);
      key[j + 4 * i] := Xor8(key[j + 4 * i], temp[j]);
      temp[j] := key[j + 4 * i];
      assert key[..] == was[j + 4 * i := next[j + 4 * i]];
    }
    PreviousAfter(temp[..], s, k, round, i);
    assert forall j :: 0 <= j < 4 ==> temp[j] == temp[..][j];
  }

  lemma KeyAdd(key: seq<bv8>, k: Block, next: Block, n: nat)
    requires n < 16 && KeyMixed(key, k, next, n)
    ensures |key| == 16 && key[n] == k[n] && KeyMixed(key[n := next[n]], k, next, n + 1)
  {
  }

  lemma NextFromPrevious(s: SBox, k: Block, round: nat, n: nat)
    requires round > 0 && n < 16
    ensures NextKey(s, k, round)[n] == Xor8(k[n], Previous(s, k, round, n))
  {
    hide Xor8, KeyCore, NextKey;
    NextKeyAt(s, k, round, n);
  }

  lemma PreviousAfter(temp: seq<bv8>, s: SBox, k: Block, round: nat, i: nat)
    requires round > 0 && i < 4 && |temp| == 4 && forall j :: 0 <= j < 4 ==> temp[j] == NextKey(s, k, round)[j + 4 * i]
    ensures forall j :: 0 <= j < 4 ==> temp[j] == Previous(s, k, round, j + 4 * (i + 1))
  {
    hide KeyCore, NextKey;
    forall j | 0 <= j < 4 ensures temp[j] == Previous(s, k, round, j + 4 * (i + 1)) {
      assert j + 4 * (i + 1) - 4 == j + 4 * i;
    }
  }

  lemma CoreBytes(s: SBox, k: Block, i: nat)
    requires i > 0
    ensures KeyCore(s, k, i, 0) == Xor8(s(k[13]), Rcon(i)) && KeyCore(s, k, i, 1) == s(k[14])
    ensures KeyCore(s, k, i, 2) == s(k[15]) && KeyCore(s, k, i, 3) == s(k[12])
  {
  }

  /** The loop that doubles the round constant. */
  method CalculateRcon(round: nat) returns (rcon: bv8)
    requires round > 0
    ensures rcon == Rcon(round)
  {
    rcon := 0x01;
    var left, done := round, 1;
    while left != 1
      invariant 1 <= left && done == round - left + 1 && rcon == Rcon(done)
    {
      rcon := Mul2(rcon);
      left := left - 1;
      done := done + 1;
    }
  }

  /** lmic_aes_encrypt */
  method LmicAesEncrypt(data: array<bv8>, key: array<bv8>, s: SBox)
    requires data.Length == 16 && key.Length == 16
    modifies data
    ensures data[..] == AesCipher(s, old(key[..]), old(data[..]))
  {
    hide Mixed, Holds, SubBytes, ShiftRows, MixColumns, XorB, NextKey;
    ghost var b: Block, k: Block := data[..], key[..];
    var st := Load(data);
    var roundKey := new bv8[16](i requires 0 <= i < 16 reads key => key[i]);
    assert roundKey[..] == k;
    AddRoundKey(st, roundKey, b);
    var round := 1;
    while round < 10
      invariant 1 <= round <= 10 && data != roundKey && data[..] == b
      invariant roundKey[..] == RoundKey(s, k, round - 1)
      invariant Holds(st, Rounds(s, k, b, round - 1))
    {
      ghost var x := Rounds(s, k, b, round - 1);
      SubState(st, s, x);
      ShiftState(st, SubBytes(s, x));
      MixState(st, ShiftRows(SubBytes(s, x)));
      CalculateRoundKey(round, roundKey, s);
      AddRoundKey(st, roundKey, MixColumns(ShiftRows(SubBytes(s, x))));
      round := round + 1;
    }
    ghost var x := Rounds(s, k, b, 9);
    SubState(st, s, x);
    ShiftState(st, SubBytes(s, x));
    CalculateRoundKey(round, roundKey, s);
    AddRoundKey(st, roundKey, ShiftRows(SubBytes(s, x)));
    Unload(st, data, AesCipher(s, k, b));
  }

  /** Copies the input to the state. */
  method Load(data: array<bv8>) returns (st: array2<bv8>)
    requires data.Length == 16
    ensures fresh(st) && Holds(st, data[..])
  {
    st := new bv8[4, 4]((_, _) => 0);
    ghost var zero: Block, b: Block := seq(16, _ => 0), data[..];
    assert Mixed(st, zero, b, 0);
    hide Mixed, Holds;
    for col := 0 to 4
      invariant Mixed(st, zero, b, 4 * col) && data[..] == b
    {
      for row := 0 to 4
        invariant Mixed(st, zero, b, 4 * col + row) && data[..] == b
      {
        Put(st, row, col, data[row + 4 * col], zero, b);
      }
    }
    MixedEnds(st, zero, b);
  }

  /** Copies the state to the output. */
  method Unload(st: array2<bv8>, data: array<bv8>, ghost b: Block)
    requires data.Length == 16 && Holds(st, b)
    modifies data
    ensures data[..] == b
  {
    for col := 0 to 4
      invariant forall n :: 0 <= n < 4 * col ==> data[n] == b[n]
    {
      for row := 0 to 4
        invariant forall n :: 0 <= n < 4 * col + row ==> data[n] == b[n]
      {
        data[row + 4 * col] := st[row, col];
      }
    }
  }
}
