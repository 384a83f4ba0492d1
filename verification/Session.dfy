/** services/fuota/fuota.c: the session object and its operations. */
module Session {
  import opened Options
  import opened Gf2
  import opened Words
  import opened Decoder
  import opened Fountain
  import opened Packed
  import opened Flash
  import opened Fuota

  class FuotaSession {
    const one: bool              // fuota_flash_bitdefault
    const pageNw: nat            // words per flash page
    const hash: nat -> Word      // g_avalanche
    const matrix: array<Word>
    const blocks: array<bv32>
    var magic: nat
    var sid: nat
    var chunkCt: nat
    var chunkNw: nat
    var complete: bool           // word tainted
    var unpacking: bool          // word tainted
    var done: bool               // word tainted
    ghost var received: seq<Row> // the chunks processed while the session wanted more

    ghost predicate Valid()
      reads this, matrix, blocks
    {
      && magic == FUOTA_MAGIC && chunkCt > 0 && chunkNw > 0 && pageNw > 0
      && matrix.Length < 0x4000_0000 && blocks.Length % pageNw == 0
      && Sizes(matrix[..], blocks[..], chunkCt, chunkNw) && Rows(received, chunkCt, chunkNw)
      && (done ==> unpacking) && (unpacking ==> complete)
      && (complete <==> Complete(History()))
      && (!unpacking ==> Ok(matrix[..], blocks[..], chunkCt, chunkNw, one)
                         && StoreOf(matrix[..], blocks[..], chunkCt, chunkNw, one) == History())
      && (done ==> blocks[..BOffset(chunkCt, chunkNw)] == Flat(Decoded(), chunkNw))
    }

    /** The store that the received chunks lead to. */
    ghost function History(): (st: Store)
      reads this
      requires Rows(received, chunkCt, chunkNw)
      ensures WF(st, chunkCt, chunkNw)
    {
      Run(received, chunkCt, chunkNw)
    }

    ghost function Decoded(): (out: seq<seq<bv32>>)
      reads this
      requires Rows(received, chunkCt, chunkNw) && Complete(History())
      ensures Source(out, chunkCt, chunkNw)
    {
      Unpack(History(), chunkCt, chunkCt, chunkNw)
    }

    /** fuota_init on erased flash. */
    constructor (one: bool, pageNw: nat, hash: nat -> Word, matrix: array<Word>, blocks: array<bv32>,
                 sid: nat, chunkCt: nat, chunkNw: nat)
      requires chunkCt > 0 && chunkNw > 0 && pageNw > 0 && matrix.Length < 0x4000_0000
      requires blocks.Length % pageNw == 0 && Sizes(matrix[..], blocks[..], chunkCt, chunkNw)
      requires AllErased(matrix[..], 0, matrix.Length, Erased(one)) && AllErased(blocks[..], 0, blocks.Length, ErasedData(one))
      ensures Valid() && !complete && !unpacking && !done && received == []
      ensures this.one == one && this.pageNw == pageNw && this.hash == hash && this.matrix == matrix && this.blocks == blocks
      ensures this.sid == sid && this.chunkCt == chunkCt && this.chunkNw == chunkNw
    {
      this.one, this.pageNw, this.hash, this.matrix, this.blocks := one, pageNw, hash, matrix, blocks;
      magic, this.sid, this.chunkCt, this.chunkNw := FUOTA_MAGIC, sid, chunkCt, chunkNw;
      complete, unpacking, done := false, false, false;
      received := [];
      new;
      ErasedIsEmpty(matrix[..], blocks[..], chunkCt, chunkNw, one);
      assert History()[0].None?;
    }

    /** check_session */
    predicate CheckSession()
      reads this
    {
      magic == FUOTA_MAGIC && !(unpacking && !done)
    }

    /** The row count that fuota_state reports: m_count. */
    method MCount() returns (count: nat)
      requires Valid() && !unpacking
      ensures count == Filled(History(), chunkCt)
      ensures count == Rank(Vectors(received), chunkCt)
    {
      hide Ok, StoreOf, Run, Rank, Flat, Unpack;
      ghost var st := History();
      FilledIsRank(received, chunkCt, chunkNw);
      count := 0;
      var ct := chunkCt;
      while ct > 0
        invariant 0 <= ct <= chunkCt
        invariant count + Filled(st, ct) == Filled(st, chunkCt)
      {
        LastWord(matrix[..], blocks[..], ct - 1, chunkCt, chunkNw, one);
        if matrix[MOffset(ct) - 1] != Erased(one) {
          count := count + 1;
        }
        ct := ct - 1;
      }
    }

    /** m_complete */
    method MComplete(ghost st: Store) returns (all: bool)
      requires Sizes(matrix[..], blocks[..], chunkCt, chunkNw) && Ok(matrix[..], blocks[..], chunkCt, chunkNw, one)
      requires st == StoreOf(matrix[..], blocks[..], chunkCt, chunkNw, one)
      ensures all <==> Complete(st)
    {
      hide Ok, StoreOf;
      var ct := chunkCt;
      while ct > 0
        invariant 0 <= ct <= chunkCt
        invariant forall i :: ct <= i < chunkCt ==> st[i].Some?
      {
        LastWord(matrix[..], blocks[..], ct - 1, chunkCt, chunkNw, one);
        if matrix[MOffset(ct) - 1] == Erased(one) {
          return false;
        }
        ct := ct - 1;
      }
      return true;
    }

    /** fuota_state without its optional outputs. */
    method State() returns (rv: int)
      ensures rv == if !CheckSession() then FUOTA_ERROR else if done then FUOTA_UNPACKED
                    else if complete then FUOTA_COMPLETE else FUOTA_MORE
    {
      if !CheckSession() {
        return FUOTA_ERROR;
      }
      if done {
        return FUOTA_UNPACKED;
      }
      if complete {
        return FUOTA_COMPLETE;
      }
      return FUOTA_MORE;
    }

    /** XORs stored row i and its block into check bits c and data d. */
    method XorRow(c: array<Word>, d: array<bv32>, i: nat, ghost st: Store)
      requires Sizes(matrix[..], blocks[..], chunkCt, chunkNw) && Ok(matrix[..], blocks[..], chunkCt, chunkNw, one)
      requires st == StoreOf(matrix[..], blocks[..], chunkCt, chunkNw, one)
      requires {c as object, d} !! {matrix as object, blocks} && c as object != d
      requires c.Length == GWords(chunkCt) && d.Length == chunkNw && i < chunkCt && st[i].Some?
      requires forall k :: chunkCt <= k < 32 * c.Length ==> !BitAt(c[..], k)
      modifies c, d
      ensures Shape(st[i].value, chunkCt, chunkNw)
      ensures Row(BitsOf(c[..], chunkCt), d[..]) == Xor(Row(old(BitsOf(c[..], chunkCt)), old(d[..])), st[i].value)
      ensures forall k :: chunkCt <= k < 32 * c.Length ==> !BitAt(c[..], k)
    {
      hide Ok, RowOk, StoreOf, RowOf, BitsOf, XorBits, XorWords, RowBit, BitAt, Plain, XorWord, MOffset, BOffset;
      ghost var m, b, c0 := matrix[..], blocks[..], c[..];
      StoredRowIs(m, b, i, chunkCt, chunkNw, one);
      XorMF2R(c, matrix, MOffset(i), NWords(i), one);
      XorRowBits(c0, c[..], m, b, i, chunkCt, chunkNw, one);
      XorF2R(d, blocks, BOffset(i, chunkNw), chunkNw);
    }

    /** The elimination loop of fuota_process: reduces check bits c and data d by every stored row. */
    method Eliminate(c: array<Word>, d: array<bv32>, ghost st: Store)
      requires Sizes(matrix[..], blocks[..], chunkCt, chunkNw) && Ok(matrix[..], blocks[..], chunkCt, chunkNw, one)
      requires st == StoreOf(matrix[..], blocks[..], chunkCt, chunkNw, one)
      requires {c as object, d} !! {matrix as object, blocks} && c as object != d && c.Length == GWords(chunkCt) && d.Length == chunkNw
      requires forall k :: chunkCt <= k < 32 * c.Length ==> !BitAt(c[..], k)
      modifies c, d
      ensures WF(st, chunkCt, chunkNw)
      ensures Row(BitsOf(c[..], chunkCt), d[..])
           == Residue(st, Row(old(BitsOf(c[..], chunkCt)), old(d[..])), chunkCt, chunkNw)
      ensures forall k :: chunkCt <= k < 32 * c.Length ==> !BitAt(c[..], k)
    {
      hide Ok, RowOk, StoreOf, RowOf, BitsOf, XorBits, XorWords, RowBit, BitAt, And, Mask, IsSet, Plain, XorWord, MOffset, BOffset, ZeroWord;
      ghost var m, b := matrix[..], blocks[..];
      StoreOfWF(m, b, chunkCt, chunkNw, one);
      ghost var z := Residue(st, Row(BitsOf(c[..], chunkCt), d[..]), chunkCt, chunkNw);
      var i, idx, mask := chunkCt, chunkCt / 32, Mask(chunkCt % 32);
      while i > 0
        modifies c, d
        invariant 0 <= i <= chunkCt && idx == i / 32 && mask == Mask(i % 32)
        invariant m == matrix[..] && b == blocks[..]
        invariant Reduce(st, Row(BitsOf(c[..], chunkCt), d[..]), i, chunkCt, chunkNw) == z
        invariant forall k :: chunkCt <= k < 32 * c.Length ==> !BitAt(c[..], k)
      {
        i := i - 1;
        idx, mask := MPrev(idx, mask, i);
        StoredRowIs(m, b, i, chunkCt, chunkNw, one);
        TestAt(c[..], BitsOf(c[..], chunkCt), i);
        RowBitTest(m, i, i, one);
        if And(c[idx], mask) != ZeroWord() && IsSet(one, matrix[MOffset(i) + idx], mask) {
          XorRow(c, d, i, st);
        }
      }
    }

    /** Programs the reduced chunk c, d at its top pivot i, whose row must still be erased. */
    method StoreChunk(c: array<Word>, d: array<bv32>, i: nat, ghost st: Store)
      requires Sizes(matrix[..], blocks[..], chunkCt, chunkNw) && Ok(matrix[..], blocks[..], chunkCt, chunkNw, one)
      requires st == StoreOf(matrix[..], blocks[..], chunkCt, chunkNw, one)
      requires {c as object, d} !! {matrix as object, blocks} && c as object != d && matrix as object != blocks
      requires c.Length == GWords(chunkCt) && d.Length == chunkNw && i < chunkCt && st[i].None? && pageNw > 0
      requires BitAt(c[..], i) && forall k :: i < k < 32 * c.Length ==> !BitAt(c[..], k)
      modifies c, matrix, blocks
      ensures Sizes(matrix[..], blocks[..], chunkCt, chunkNw) && Ok(matrix[..], blocks[..], chunkCt, chunkNw, one)
      ensures StoreOf(matrix[..], blocks[..], chunkCt, chunkNw, one)
           == st[i := Some(Row(old(BitsOf(c[..], chunkCt)), d[..]))]
      ensures forall k :: 0 <= k < matrix.Length && matrix[k] != old(matrix[k]) ==> old(matrix[k]) == Erased(one)
      ensures forall k :: 0 <= k < blocks.Length && blocks[k] != old(blocks[k]) ==> old(blocks[k]) == ErasedData(one)
    {
      hide Ok, RowOk, StoreOf, RowOf, BitsOf, BitAt, Plain, MOffset, BOffset;
      ghost var m, b, c0 := matrix[..], blocks[..], c[..];
      EmptyRowErased(m, b, i, chunkCt, chunkNw, one);
      MatrixWrite(matrix, MOffset(i), c, NWords(i), pageNw, one);
      assert blocks[..] == b;
      FlashWrite(blocks, BOffset(i, chunkNw), d, chunkNw, false, pageNw, ErasedData(one));
      StoreRow(m, matrix[..], b, blocks[..], c0, d[..], i, chunkCt, chunkNw, one);
    }

    /** The part of fuota_process between its state check and its completeness check. */
    method Absorb(chunkId: nat, chunk: seq<bv32>, ghost st: Store) returns (stored: bool)
      requires Sizes(matrix[..], blocks[..], chunkCt, chunkNw) && Ok(matrix[..], blocks[..], chunkCt, chunkNw, one)
      requires st == StoreOf(matrix[..], blocks[..], chunkCt, chunkNw, one)
      requires matrix as object != blocks && matrix.Length < 0x4000_0000
      requires chunkCt > 0 && pageNw > 0 && |chunk| == chunkNw
      modifies matrix, blocks
      ensures Sizes(matrix[..], blocks[..], chunkCt, chunkNw) && Ok(matrix[..], blocks[..], chunkCt, chunkNw, one)
      ensures WF(st, chunkCt, chunkNw)
      ensures StoreOf(matrix[..], blocks[..], chunkCt, chunkNw, one)
           == Step(st, Row(CheckBits(hash, chunkId, chunkCt), chunk), chunkCt, chunkNw)
      ensures !stored ==> StoreOf(matrix[..], blocks[..], chunkCt, chunkNw, one) == st
      ensures forall k :: 0 <= k < matrix.Length && matrix[k] != old(matrix[k]) ==> old(matrix[k]) == Erased(one)
      ensures forall k :: 0 <= k < blocks.Length && blocks[k] != old(blocks[k]) ==> old(blocks[k]) == ErasedData(one)
    {
      hide Ok, StoreOf, Step, BitsOf, BitAt, CheckBits, Sizes, Reduce;
      ghost var r := Row(CheckBits(hash, chunkId, chunkCt), chunk);
      ghost var m, b := matrix[..], blocks[..];
      StoreOfWF(m, b, chunkCt, chunkNw, one);
      var d := Copied(chunk);
      var c := new Word[GWords(chunkCt)];
      GCheckbits(hash, chunkId, c, chunkCt);
      assert matrix[..] == m && blocks[..] == b && d[..] == chunk;
      Eliminate(c, d, st);
      assert matrix[..] == m && blocks[..] == b;
      MatrixBound();
      var i := MRmb(c, GWords(chunkCt));
      TopOfPacked(c[..], i, chunkCt);
      ReduceBits(st, r, chunkCt, chunkCt, chunkNw);
      StepCases(st, r, chunkCt, chunkNw);
      stored := i < chunkCt;
      if stored {
        StoreChunk(c, d, i, st);
      }
    }

    /** fuota_process. A session that wants more keeps the chunk exactly as Step does and reports
        COMPLETE exactly when the received check bits have full rank; flash words are only ever
        programmed from the erased state. In any other state nothing changes. */
    method Process(chunkId: nat, chunk: seq<bv32>) returns (rv: int)
      requires Valid() && |chunk| == chunkNw && matrix as object != blocks
      modifies this`complete, this`received, matrix, blocks
      ensures Valid()
      ensures old(!complete) ==>
                && received == old(received) + [Row(CheckBits(hash, chunkId, chunkCt), chunk)]
                && complete == (rv == FUOTA_COMPLETE)
                && rv == if Rank(Vectors(received), chunkCt) == chunkCt then FUOTA_COMPLETE else FUOTA_MORE
      ensures old(complete) ==>
                && received == old(received) && complete
                && matrix[..] == old(matrix[..]) && blocks[..] == old(blocks[..])
                && rv == if !unpacking then FUOTA_COMPLETE else if done then FUOTA_UNPACKED else FUOTA_ERROR
      ensures forall k :: 0 <= k < matrix.Length && matrix[k] != old(matrix[k]) ==> old(matrix[k]) == Erased(one)
      ensures forall k :: 0 <= k < blocks.Length && blocks[k] != old(blocks[k]) ==> old(blocks[k]) == ErasedData(one)
    {
      hide Ok, StoreOf, Run, Step, Rank, Flat, Unpack, CheckBits;
      var state := State();
      if state != FUOTA_MORE {
        return state;
      }
      ghost var r := Row(CheckBits(hash, chunkId, chunkCt), chunk);
      var stored := Absorb(chunkId, chunk, History());
      RunStep(received, r, chunkCt, chunkNw);
      received := received + [r];
      CompleteIffSpansAll(received, chunkCt, chunkNw);
      if stored {
        var all := MComplete(History());
        if all {
          complete := true;
          return FUOTA_COMPLETE;
        }
      }
      return FUOTA_MORE;
    }

    /** fuota_flash_read of block i. */
    method ReadBlock(i: nat) returns (d: array<bv32>)
      requires BOffset(i, chunkNw) + chunkNw <= blocks.Length
      ensures fresh(d) && d[..] == blocks[BOffset(i, chunkNw)..BOffset(i, chunkNw) + chunkNw]
    {
      d := Copied(blocks[BOffset(i, chunkNw)..BOffset(i, chunkNw) + chunkNw]);
    }

    /** The inner loop of fuota_unpack: XORs into d every decoded block below i that matrix row i selects. */
    method DecodeBlock(i: nat, d: array<bv32>, buffer: BwState, ghost out: seq<seq<bv32>>, ghost v: seq<bool>)
      requires i < chunkCt && d.Length == chunkNw && |out| == i < |v| && MOffset(i) + NWords(i) <= matrix.Length
      requires forall k :: 0 <= k < i ==> |out[k]| == chunkNw && v[k] == RowBit(matrix[..], i, k, one)
      requires buffer.Valid(blocks) && buffer.Written(blocks) == Flat(out, chunkNw)
      requires {d as object} !! {matrix, blocks, buffer, buffer.buf}
      modifies d
      ensures d[..] == XorWords(old(d[..]), Combine(v, out, i, chunkNw))
    {
      hide RowBit, XorWords, Flat, BOffset, MOffset, IsSet, Mask, BwState.Valid, BwState.Written;
      ghost var m, w := matrix[..], buffer.Written(blocks);
      ghost var all := XorWords(d[..], Combine(v, out, i, chunkNw));
      var j, idx, mask := i, i / 32, Mask(i % 32);
      while j > 0
        modifies d
        invariant 0 <= j <= i && idx == j / 32 && mask == Mask(j % 32)
        invariant m == matrix[..] && w == buffer.Written(blocks)
        invariant XorWords(d[..], Combine(v, out, j, chunkNw)) == all
      {
        j := j - 1;
        idx, mask := MPrev(idx, mask, j);
        RowBitTest(m, i, j, one);
        CombineMove(d[..], v, out, j, chunkNw);
        FlatAt(out, j, chunkNw);
        if IsSet(one, matrix[MOffset(i) + idx], mask) {
          XorBF2R(d, blocks, BOffset(j, chunkNw), chunkNw, buffer);
        }
      }
      CombineEmpty(v, out, chunkNw);
      WordsIdentity(d[..], d[..]);
    }

    /** One round of the outer loop of fuota_unpack: reads raw block i, decodes it, and writes it back. */
    method DecodeNext(i: nat, buffer: BwState, ghost out: seq<seq<bv32>>, ghost r: Row, ghost b: seq<bv32>)
      requires i < chunkCt && |out| == i && Shape(r, chunkCt, chunkNw) && MOffset(i) + NWords(i) <= matrix.Length
      requires forall k :: 0 <= k < i ==> |out[k]| == chunkNw && r.bits[k] == RowBit(matrix[..], i, k, one)
      requires BOffset(i, chunkNw) + chunkNw <= blocks.Length == |b|
      requires r.data == b[BOffset(i, chunkNw)..BOffset(i, chunkNw) + chunkNw]
      requires {matrix as object, blocks} !! {buffer, buffer.buf} && matrix as object != blocks
      requires buffer.Valid(blocks) && buffer.base + buffer.off == BOffset(i, chunkNw)
      requires blocks[buffer.base..] == b[buffer.base..] && buffer.Written(blocks) == Flat(out, chunkNw)
      modifies buffer, buffer.buf, blocks
      ensures buffer.Valid(blocks) && buffer.base + buffer.off == BOffset(i + 1, chunkNw)
      ensures blocks[buffer.base..] == b[buffer.base..]
      ensures buffer.Written(blocks) == Flat(out, chunkNw) + XorWords(r.data, Combine(r.bits, out, i, chunkNw))
    {
      hide RowBit, Flat, BOffset, MOffset, XorWords, Combine, BwState.Written;
      BOffsetNext(i, chunkNw);
      RawBlock(blocks[..], b, buffer.base, BOffset(i, chunkNw), chunkNw);
      var d := ReadBlock(i);
      DecodeBlock(i, d, buffer, out, r.bits);
      ghost var base, now := buffer.base, blocks[..];
      assert d[..chunkNw] == d[..];
      buffer.BufferedWrite(blocks, d, chunkNw, ErasedData(one));
      RawSuffix(blocks[..], now, b, base, buffer.base);
    }

    /** The outer loop of fuota_unpack with its final flush: decodes every block in place. */
    method DecodeAll(ghost st: Store)
      requires Sizes(matrix[..], blocks[..], chunkCt, chunkNw) && Ok(matrix[..], blocks[..], chunkCt, chunkNw, one)
      requires st == StoreOf(matrix[..], blocks[..], chunkCt, chunkNw, one) && Complete(st)
      requires pageNw > 0 && blocks.Length % pageNw == 0 && matrix as object != blocks
      modifies blocks
      ensures WF(st, chunkCt, chunkNw)
      ensures blocks[..BOffset(chunkCt, chunkNw)] == Flat(Unpack(st, chunkCt, chunkCt, chunkNw), chunkNw)
    {
      hide Ok, StoreOf, RowOf, RowBit, Flat, Unpack, BOffset, MOffset, XorWords, Combine, BwState.Written;
      ghost var m, b := matrix[..], blocks[..];
      StoreOfWF(m, b, chunkCt, chunkNw, one);
      UnpackNone(st, chunkCt, chunkNw);
      var buffer := new BwState(pageNw);
      buffer.WrittenNone(blocks);
      var i := 0;
      while i < chunkCt
        invariant 0 <= i <= chunkCt && fresh(buffer) && fresh(buffer.buf)
        invariant buffer.Valid(blocks) && buffer.base + buffer.off == BOffset(i, chunkNw)
        invariant m == matrix[..] && blocks[buffer.base..] == b[buffer.base..]
        invariant buffer.Written(blocks) == Flat(Unpack(st, i, chunkCt, chunkNw), chunkNw)
      {
        UnpackRow(m, b, st, i, chunkCt, chunkNw, one);
        DecodeNext(i, buffer, Unpack(st, i, chunkCt, chunkNw), st[i].value, b);
        i := i + 1;
      }
      buffer.Flush(blocks, ErasedData(one));
    }

    /** fuota_unpack. On a complete session the block area ends up holding, in place, the decoded
        blocks; they are the source whenever the received chunks were generated from one. An
        incomplete session, or one whose unpacking was interrupted, is left alone. */
    method UnpackBlocks() returns (ok: bool)
      requires Valid() && matrix as object != blocks
      modifies this`unpacking, this`done, blocks
      ensures Valid() && ok == old(complete && CheckSession())
      ensures ok ==> done && blocks[..BOffset(chunkCt, chunkNw)] == Flat(Decoded(), chunkNw)
      ensures ok ==> forall src :: Source(src, chunkCt, chunkNw) && AllCarry(received, src, chunkCt, chunkNw) ==>
                       blocks[..BOffset(chunkCt, chunkNw)] == Flat(src, chunkNw)
      ensures !ok || old(done) ==> blocks[..] == old(blocks[..]) && done == old(done) && unpacking == old(unpacking)
    {
      hide Ok, StoreOf, Run, Flat, Unpack, BOffset, MOffset, AllCarry;
      if !CheckSession() || !complete {
        return false;
      }
      if !done {
        unpacking := true;
        DecodeAll(History());
        done := true;
      }
      forall src | Source(src, chunkCt, chunkNw) && AllCarry(received, src, chunkCt, chunkNw) ensures Decoded() == src {
        CompleteUnpacksToSource(received, src, chunkCt, chunkNw);
      }
      return true;
    }

    lemma MatrixBound()
      requires Sizes(matrix[..], blocks[..], chunkCt, chunkNw) && matrix.Length < 0x4000_0000
      ensures 32 * GWords(chunkCt) <= UINT32_MAX
    {
      MOffsetAtLeast(chunkCt);
    }
  }

  method Copied(s: seq<bv32>) returns (d: array<bv32>)
    ensures fresh(d) && d[..] == s
  {
    d := new bv32[|s|](k requires 0 <= k < |s| => s[k]);
  }

  /** m_rmb on packed bits with a clear tail finds the top bit of the vector. */
  lemma TopOfPacked(c: seq<Word>, r: nat, ct: nat)
    requires |c| == GWords(ct) && forall k :: ct <= k < 32 * |c| ==> !BitAt(c, k)
    requires r == UINT32_MAX || r < 32 * |c|
    requires r == UINT32_MAX ==> forall k :: 0 <= k < 32 * |c| ==> !BitAt(c, k)
    requires r != UINT32_MAX ==> BitAt(c, r) && forall k :: r < k < 32 * |c| ==> !BitAt(c, k)
    requires ct <= UINT32_MAX
    ensures TopIndex(BitsOf(c, ct), ct) == if r < ct then r else -1
    ensures r < ct ==> BitsOf(c, ct)[r]
  {
    var bs := BitsOf(c, ct);
    assert forall k :: 0 <= k < ct ==> bs[k] == BitAt(c, k);
    if r < ct {
      assert bs[r];
    }
  }

  lemma StepCases(st: Store, r: Row, ct: nat, nw: nat)
    requires WF(st, ct, nw) && Shape(r, ct, nw)
    ensures var z := Residue(st, r, ct, nw);
            var p := TopIndex(z.bits, ct);
            Step(st, r, ct, nw) == if p >= 0 then st[p := Some(z)] else st
  {
  }

  lemma RunStep(rs: seq<Row>, r: Row, ct: nat, nw: nat)
    requires Rows(rs, ct, nw) && Shape(r, ct, nw)
    ensures Rows(rs + [r], ct, nw) && Run(rs + [r], ct, nw) == Step(Run(rs, ct, nw), r, ct, nw)
  {
    assert (rs + [r])[..|rs|] == rs;
  }

  lemma UnpackNone(st: Store, ct: nat, nw: nat)
    requires WF(st, ct, nw) && Complete(st)
    ensures Flat(Unpack(st, 0, ct, nw), nw) == [] && BOffset(0, nw) == 0
  {
  }

  /** What decoding block i adds to the decoded blocks before it, read off the packed store. */
  lemma UnpackRow(m: seq<Word>, b: seq<bv32>, st: Store, i: nat, ct: nat, nw: nat, one: bool)
    requires Sizes(m, b, ct, nw) && Ok(m, b, ct, nw, one) && i < ct && st == StoreOf(m, b, ct, nw, one)
    requires WF(st, ct, nw) && Complete(st)
    ensures MOffset(i) + NWords(i) <= |m| && BOffset(i, nw) + nw <= |b|
    ensures st[i].value.data == b[BOffset(i, nw)..BOffset(i, nw) + nw]
    ensures forall k :: 0 <= k < i ==> st[i].value.bits[k] == RowBit(m, i, k, one)
    ensures var out := Unpack(st, i, ct, nw);
            Flat(Unpack(st, i + 1, ct, nw), nw)
            == Flat(out, nw) + XorWords(st[i].value.data, Combine(st[i].value.bits, out, i, nw))
  {
    StoredRowIs(m, b, i, ct, nw, one);
    hide RowBit, Ok, StoreOf, RowStored, Unpack, Flat, Combine, XorWords, MOffset, BOffset;
    RowBitsBelow(m, b, i, ct, nw, one);
    UnpackStep(st, i, ct, nw);
  }

  lemma RowBitsBelow(m: seq<Word>, b: seq<bv32>, i: nat, ct: nat, nw: nat, one: bool)
    requires MOffset(i) + NWords(i) <= |m| && BOffset(i, nw) + nw <= |b| && i < ct
    ensures forall k :: 0 <= k < i ==> RowOf(m, b, i, ct, nw, one).bits[k] == RowBit(m, i, k, one)
  {
  }

  lemma UnpackStep(st: Store, i: nat, ct: nat, nw: nat)
    requires WF(st, ct, nw) && Complete(st) && i < ct
    ensures var out := Unpack(st, i, ct, nw);
            Flat(Unpack(st, i + 1, ct, nw), nw)
            == Flat(out, nw) + XorWords(st[i].value.data, Combine(st[i].value.bits, out, i, nw))
  {
    hide XorWords, Combine;
    var out := Unpack(st, i, ct, nw);
    assert Unpack(st, i + 1, ct, nw)[..i] == out;
  }

  lemma RawBlock(now: seq<bv32>, was: seq<bv32>, base: nat, off: nat, nw: nat)
    requires base <= off && off + nw <= |now| == |was| && now[base..] == was[base..]
    ensures now[off..off + nw] == was[off..off + nw]
  {
    SuffixOfSuffix(now, base, off);
    SuffixOfSuffix(was, base, off);
    assert now[off..off + nw] == now[off..][..nw] && was[off..off + nw] == was[off..][..nw];
  }
}
