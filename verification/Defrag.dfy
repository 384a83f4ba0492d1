/** services/fuota/frag.py: the Python decoder session and the chunk generator. */
module Defrag {
  import opened Options
  import opened Gf2
  import opened Decoder
  import opened Fountain
  import opened Words
  import opened Fuota

  // ---------------------------------------------------------------------------------------------
  // The generator

  type Byte = b: seq<bool> | |b| == 8 witness [false, false, false, false, false, false, false, false]

  /** tn_avalanche: the argument is masked to 32 bits first; hash stands for the rest. */
  function Avalanche(hash: nat -> Word, x: nat): Word { hash(x % 0x1_0000_0000) }

  /** struct.pack('<%dI'): four bytes a word, the lowest first. */
  function Pack(ws: seq<Word>): (bytes: seq<Byte>)
    ensures |bytes| == 4 * |ws|
  {
    if ws == [] then []
    else
      var w := ws[|ws| - 1];
      Pack(ws[..|ws| - 1]) + [w[..8], w[8..16], w[16..24], w[24..]]
  }

  /** bitarrayfrombytes: eight bits a byte, the lowest first. */
  function FromBytes(bytes: seq<Byte>): (bits: seq<bool>)
    ensures |bits| == 8 * |bytes|
  {
    if bytes == [] then [] else FromBytes(bytes[..|bytes| - 1]) + bytes[|bytes| - 1]
  }

  /** TrackNetGenerator.generate */
  function Generate(hash: nat -> Word, cct: nat, cid: nat): (bits: seq<bool>)
    ensures |bits| == cct
  {
    var nw := (cct + 31) / 32;
    FromBytes(Pack(seq<Word>(nw, i requires 0 <= i < nw => Avalanche(hash, cid * nw + i))))[..cct]
  }

  /** Bit 32i + k of the words laid end to end is bit k of word i. */
  lemma {:induction false} PackedBit(ws: seq<Word>, i: nat, k: nat)
    requires i < |ws| && k < 32
    ensures FromBytes(Pack(ws))[32 * i + k] == ws[i][k]
    decreases |ws|
  {
    var n := |ws| - 1;
    var w, p := ws[n], Pack(ws[..n]);
    FourBytes(p, w[..8], w[8..16], w[16..24], w[24..]);
    if i < n {
      PackedBit(ws[..n], i, k);
    }
  }

  lemma FourBytes(p: seq<Byte>, a: Byte, b: Byte, c: Byte, d: Byte)
    ensures FromBytes(p + [a, b, c, d]) == FromBytes(p) + (a + b + c + d)
  {
    assert p + [a, b, c, d] == (((p + [a]) + [b]) + [c]) + [d];
    OneByte(p, a);
    OneByte(p + [a], b);
    OneByte((p + [a]) + [b], c);
    OneByte(((p + [a]) + [b]) + [c], d);
  }

  lemma OneByte(p: seq<Byte>, a: Byte)
    ensures FromBytes(p + [a]) == FromBytes(p) + a
  {
    assert (p + [a])[..|p|] == p;
  }

  /** The generator of frag.py and g_checkbits of fuota.c make the same check bits, for every hash, chunk
      count and chunk number. */
  lemma GeneratorsAgree(hash: nat -> Word, cct: nat, cid: nat)
    ensures Generate(hash, cct, cid) == CheckBits(hash, cid, cct)
  {
    hide Pack, FromBytes;
    var nw := (cct + 31) / 32;
    var ws := seq<Word>(nw, i requires 0 <= i < nw => Avalanche(hash, cid * nw + i));
    forall k | 0 <= k < cct ensures Generate(hash, cct, cid)[k] == CheckBits(hash, cid, cct)[k] {
      var i := k / 32;
      assert k == 32 * i + k % 32 && i < nw;
      PackedBit(ws, i, k % 32);
      WrapOnce(cid * nw, i);
    }
  }

  lemma WrapOnce(x: nat, i: nat)
    ensures (x % 0x1_0000_0000 + i) % 0x1_0000_0000 == (x + i) % 0x1_0000_0000
  {
  }

  // ---------------------------------------------------------------------------------------------
  // Carousel and session

  /** FragCarousel.chunk: folds the selected blocks in ascending order. */
  method Chunk(blocks: seq<seq<bv32>>, cb: seq<bool>, ct: nat, nw: nat) returns (chunk: seq<bv32>)
    requires Source(blocks, ct, nw) && |cb| == ct
    ensures chunk == Combine(cb, blocks, ct, nw)
  {
    hide XorWords;
    chunk := ZeroWords(nw);
    var c := 0;
    while c < ct
      invariant 0 <= c <= ct && chunk == Combine(cb, blocks, c, nw)
    {
      if cb[c] {
        chunk := XorWords(chunk, blocks[c]);
      }
      c := c + 1;
    }
  }

  /** FragCarousel.chunk for chunk cid: what fuota_gen_chunk makes of the same blocks. */
  method CarouselChunk(hash: nat -> Word, blocks: seq<seq<bv32>>, cct: nat, nw: nat, cid: nat) returns (chunk: seq<bv32>)
    requires Source(blocks, cct, nw)
    ensures chunk == Combine(CheckBits(hash, cid, cct), blocks, cct, nw)
  {
    GeneratorsAgree(hash, cct, cid);
    chunk := Chunk(blocks, Generate(hash, cct, cid), cct, nw);
  }

  class DefragSession {
    const cct: nat
    const nw: nat
    var rows: array<Option<Row>>
    var dct: nat
    var unp: Option<seq<seq<bv32>>>
    ghost var received: seq<Row>

    /** The session holds what RunPy leaves, until unpacking rewrites the rows of a complete session. */
    ghost predicate Valid()
      reads this, rows
    {
      && rows.Length == cct && Rows(received, cct, nw)
      && dct == Filled(RunPy(received, cct, nw), cct)
      && (unp.None? ==> rows[..] == RunPy(received, cct, nw))
      && (unp.Some? ==> WF(rows[..], cct, nw) && Complete(rows[..]) && Complete(RunPy(received, cct, nw))
                        && unp.value == Unpack(RunPy(received, cct, nw), cct, cct, nw))
    }

    constructor (cct: nat, nw: nat)
      ensures Valid() && this.cct == cct && this.nw == nw && received == [] && unp == None && fresh(rows)
    {
      this.cct, this.nw := cct, nw;
      rows := new Option<Row>[cct](_ => None);
      dct, unp, received := 0, None, [];
      new;
      assert rows[..] == Empty(cct);
      FilledNone(Empty(cct), cct);
    }

    /** DefragSession.process: reports whether the chunk was kept. */
    method Process(r: Row) returns (kept: bool)
      requires Valid() && Shape(r, cct, nw)
      modifies this`dct, this`received, rows
      ensures Valid() && received == old(received) + [r]
      ensures kept <==> !InSpan(r.bits, Vectors(old(received)))
    {
      hide RunPy, Filled, Vectors;
      ghost var st := rows[..];
      RunPyStep(received, r, cct, nw);
      PyStepComplete(st, r, cct, cct, nw);
      PyStepComplete(RunPy(received, cct, nw), r, cct, cct, nw);
      KeptIffOutsideSpan(received, r, cct, nw);
      received := received + [r];
      var bits, c := r, cct;
      while c > 0
        invariant 0 <= c <= cct && Shape(bits, cct, nw)
        invariant rows[..] == st && PyStep(st, bits, c, cct, nw) == PyStep(st, r, cct, cct, nw)
      {
        c := c - 1;
        if bits.bits[c] {
          if rows[c].Some? {
            bits := Xor(bits, rows[c].value);
          } else {
            rows[c] := Some(bits);
            assert rows[..] == st[c := Some(bits)];
            assert rows[..][c].Some? && st[c].None?;
            FilledUpdate(st, c, Some(bits), cct);
            dct := dct + 1;
            return true;
          }
        }
      }
      return false;
    }

    /** DefragSession.unpack; None stands for the RuntimeError of an incomplete session. */
    method UnpackRows() returns (data: Option<seq<seq<bv32>>>)
      requires Valid()
      modifies this`unp, rows
      ensures Valid() && data.Some? == Complete(RunPy(received, cct, nw))
      ensures data.Some? ==> data.value == Unpack(RunPy(received, cct, nw), cct, cct, nw)
      ensures data.Some? ==> Complete(Run(received, cct, nw)) && data.value == Unpack(Run(received, cct, nw), cct, cct, nw)
    {
      hide RunPy, Run, Unpack, Combine, XorWords;
      ghost var st := RunPy(received, cct, nw);
      FilledAll(st, cct);
      DecodersAgree(received, cct, nw);
      if dct != cct {
        return None;
      }
      if unp.None? {
        UnpackZero(st, cct, nw);
        var out := [];
        var c := 0;
        while c < cct
          invariant 0 <= c <= cct && out == Unpack(st, c, cct, nw)
          invariant forall k :: 0 <= k < c ==> rows[k] == Some(Row(Unit(k, cct, nw).bits, out[k]))
          invariant forall k :: c <= k < cct ==> rows[k] == st[k]
        {
          ReduceRow(c, out, st[c].value);
          UnpackNext(st, c, cct, nw);
          out := out + [rows[c].value.data];
          c := c + 1;
        }
        unp := Some(out);
      }
      return unp;
    }

    /** The inner loop of unpack: clears the bits of row c below its top bit. */
    method ReduceRow(c: nat, ghost out: seq<seq<bv32>>, ghost r: Row)
      requires c < cct == rows.Length && rows[c] == Some(r) && Shape(r, cct, nw) && Top(r, c)
      requires |out| == c && forall k :: 0 <= k < c ==> |out[k]| == nw && rows[k] == Some(Row(Unit(k, cct, nw).bits, out[k]))
      modifies rows
      ensures forall k :: 0 <= k < cct && k != c ==> rows[k] == old(rows[k])
      ensures rows[c] == Some(Row(Unit(c, cct, nw).bits, XorWords(r.data, Combine(r.bits, out, c, nw))))
    {
      hide Combine, XorWords;
      var i := 0;
      CombineEmpty(r.bits, out, nw);
      WordsIdentity(r.data, r.data);
      while i < c
        invariant 0 <= i <= c && rows[c].Some? && Shape(rows[c].value, cct, nw)
        invariant forall k :: 0 <= k < cct && k != c ==> rows[k] == old(rows[k])
        invariant forall k :: 0 <= k < cct ==> rows[c].value.bits[k] == (k >= i && r.bits[k])
        invariant rows[c].value.data == XorWords(r.data, Combine(r.bits, out, i, nw))
      {
        CombineNext(r.bits, out, i, nw);
        WordsAssoc(r.data, Combine(r.bits, out, i, nw), out[i]);
        if rows[c].value.bits[i] {
          rows[c] := Some(Xor(rows[c].value, rows[i].value));
        }
        i := i + 1;
      }
      assert rows[c].value.bits == Unit(c, cct, nw).bits;
    }
  }

  /** What a session takes in when chunk cid of the carousel arrives: the check bits are its own. */
  ghost function Delivered(hash: nat -> Word, src: seq<seq<bv32>>, cct: nat, nw: nat, cid: nat): (r: Row)
    requires Source(src, cct, nw)
    ensures Shape(r, cct, nw)
  {
    Row(CheckBits(hash, cid, cct), Combine(Generate(hash, cct, cid), src, cct, nw))
  }

  /** Whatever chunks of a carousel of frag.py arrive, in whatever order: once the session of fuota.c is
      complete it unpacks to the data of the carousel, and so does the one of frag.py. */
  lemma CarouselDecodes(hash: nat -> Word, src: seq<seq<bv32>>, cct: nat, nw: nat, cids: seq<nat>)
    requires Source(src, cct, nw)
    ensures var rs := seq(|cids|, k requires 0 <= k < |cids| => Delivered(hash, src, cct, nw, cids[k]));
            && Rows(rs, cct, nw)
            && (Complete(Run(rs, cct, nw)) ==>
                  && Unpack(Run(rs, cct, nw), cct, cct, nw) == src
                  && Complete(RunPy(rs, cct, nw)) && Unpack(RunPy(rs, cct, nw), cct, cct, nw) == src)
  {
    hide Run, RunPy, Unpack, Combine, CheckBits, Generate;
    var rs := seq(|cids|, k requires 0 <= k < |cids| => Delivered(hash, src, cct, nw, cids[k]));
    forall k | 0 <= k < |rs| ensures Carries(rs[k], src, cct, nw) {
      GeneratorsAgree(hash, cct, cids[k]);
    }
    if Complete(Run(rs, cct, nw)) {
      CompleteUnpacksToSource(rs, src, cct, nw);
      DecodersAgree(rs, cct, nw);
    }
  }

  /** The Python decoder keeps a chunk exactly when its check bits are outside the span. */
  lemma KeptIffOutsideSpan(rs: seq<Row>, r: Row, ct: nat, nw: nat)
    requires Rows(rs, ct, nw) && Shape(r, ct, nw)
    ensures Rows(rs + [r], ct, nw)
    ensures InSpan(r.bits, Vectors(rs)) ==>
              forall i :: 0 <= i < ct ==> RunPy(rs + [r], ct, nw)[i].Some? == RunPy(rs, ct, nw)[i].Some?
    ensures !InSpan(r.bits, Vectors(rs)) ==> RunPy(rs + [r], ct, nw) != RunPy(rs, ct, nw)
  {
    hide Run, RunPy, InSpan, Unpack;
    InnovativeIffOutsideSpan(rs, r, ct, nw);
    DecodersAgree(rs, ct, nw);
    DecodersAgree(rs + [r], ct, nw);
  }

  lemma RunPyStep(rs: seq<Row>, r: Row, ct: nat, nw: nat)
    requires Rows(rs, ct, nw) && Shape(r, ct, nw)
    ensures Rows(rs + [r], ct, nw) && RunPy(rs + [r], ct, nw) == PyStep(RunPy(rs, ct, nw), r, ct, ct, nw)
  {
    assert (rs + [r])[..|rs|] == rs;
  }

  /** A complete store keeps nothing more. */
  lemma {:induction false} PyStepComplete(st: Store, r: Row, n: nat, ct: nat, nw: nat)
    requires WF(st, ct, nw) && Shape(r, ct, nw) && n <= ct
    ensures Complete(st) ==> PyStep(st, r, n, ct, nw) == st
    decreases n
  {
    if n > 0 && Complete(st) {
      PyStepComplete(st, r, n - 1, ct, nw);
      PyStepComplete(st, Xor(r, st[n - 1].value), n - 1, ct, nw);
    }
  }

  lemma CombineNext(v: seq<bool>, src: seq<seq<bv32>>, n: nat, nw: nat)
    requires n < |v| && n < |src| && forall k :: 0 <= k <= n ==> |src[k]| == nw
    ensures Combine(v, src, n + 1, nw)
            == if v[n] then XorWords(Combine(v, src, n, nw), src[n]) else Combine(v, src, n, nw)
  {
  }

  lemma UnpackZero(st: Store, ct: nat, nw: nat)
    requires WF(st, ct, nw) && Complete(st)
    ensures Unpack(st, 0, ct, nw) == []
  {
  }

  lemma UnpackNext(st: Store, i: nat, ct: nat, nw: nat)
    requires WF(st, ct, nw) && Complete(st) && i < ct
    ensures var out, r := Unpack(st, i, ct, nw), st[i].value;
            Unpack(st, i + 1, ct, nw) == out + [XorWords(r.data, Combine(r.bits, out, i, nw))]
  {
  }
}
