/** The flash primitives and word loops that fuota.c is built on. */
module Flash {
  import opened Bits
  import opened Gf2
  import opened Words
  import opened Packed

  /** fuota_flash_write: programs n words, erasing each page first when erase is set and the write
      reaches its start. Words of a page that is not erased must still be in the erased state. */
  method FlashWrite<T>(dst: array<T>, off: nat, src: array<T>, n: nat, erase: bool, pageNw: nat, erased: T)
    requires dst != src && off + n <= dst.Length && n <= src.Length && pageNw > 0
    requires erase ==> off % pageNw == 0 && n <= pageNw && off + pageNw <= dst.Length
    requires !erase ==> AllErased(dst[..], off, n, erased)
    modifies dst
    ensures forall k :: 0 <= k < dst.Length && !(off <= k < off + if erase then pageNw else n) ==> dst[k] == old(dst[k])
    ensures forall k :: 0 <= k < n ==> dst[off + k] == src[k]
    ensures erase && n > 0 ==> forall k :: off + n <= k < off + pageNw ==> dst[k] == erased
  {
    var i := 0;
    while i < n
      invariant 0 <= i <= n
      invariant erase && i > 0 ==> forall k :: off + i <= k < off + pageNw ==> dst[k] == erased
      invariant forall k :: 0 <= k < dst.Length && !(off <= k < off + if erase then pageNw else n) ==> dst[k] == old(dst[k])
      invariant forall k :: 0 <= k < i ==> dst[off + k] == src[k]
    {
      if (off + i) % pageNw == 0 && erase {
        assert i == 0 by { PageOffset(off, i, pageNw); }
        forall k | off + i <= k < off + i + pageNw {
          dst[k] := erased;
        }
      }
      dst[off + i] := src[i];
      i := i + 1;
    }
  }

  lemma PageOffset(off: nat, i: nat, pageNw: nat)
    requires pageNw > 0 && off % pageNw == 0 && i < pageNw
    ensures (off + i) % pageNw == i
  {
    DivUnique(pageNw, off / pageNw, i);
  }

  lemma DivUnique(d: nat, q: nat, r: nat)
    requires r < d
    ensures (d * q + r) / d == q && (d * q + r) % d == r
  {
    var x := d * q + r;
    var q', r' := x / d, x % d;
    assert x == d * q' + r';
    if q' < q {
      MulMono(d, q' + 1, q);
    } else if q' > q {
      MulMono(d, q + 1, q');
    }
  }

  lemma MulMono(d: nat, a: nat, b: nat)
    requires a <= b
    ensures d * a <= d * b
  {
  }

  /** xor_f2r */
  method XorF2R(dest: array<bv32>, src: array<bv32>, off: nat, nwords: nat)
    requires dest != src && nwords == dest.Length && off + nwords <= src.Length
    modifies dest
    ensures dest[..] == XorWords(old(dest[..]), src[off..off + nwords])
  {
    hide Xor32;
    var p := 0;
    while p < nwords
      invariant 0 <= p <= nwords
      invariant forall k :: 0 <= k < p ==> dest[k] == Xor32(old(dest[k]), src[off + k])
      invariant forall k :: p <= k < nwords ==> dest[k] == old(dest[k])
    {
      dest[p] := Xor32(dest[p], src[off + p]);
      p := p + 1;
    }
  }

  /** xor_mf2r */
  method XorMF2R(dest: array<Word>, src: array<Word>, off: nat, nwords: nat, one: bool)
    requires dest != src && nwords <= dest.Length && off + nwords <= src.Length
    modifies dest
    ensures forall k :: 0 <= k < nwords ==> dest[k] == XorWord(old(dest[k]), Plain(one, src[off + k]))
    ensures forall k :: nwords <= k < dest.Length ==> dest[k] == old(dest[k])
  {
    var p := 0;
    while p < nwords
      invariant 0 <= p <= nwords
      invariant forall k :: 0 <= k < p ==> dest[k] == XorWord(old(dest[k]), Plain(one, src[off + k]))
      invariant forall k :: p <= k < dest.Length ==> dest[k] == old(dest[k])
    {
      dest[p] := XorWord(dest[p], Plain(one, src[off + p]));
      p := p + 1;
    }
  }

  /** matrix_write: inverts the row in RAM when erased flash reads as ones, then programs it. */
  method MatrixWrite(dst: array<Word>, off: nat, c: array<Word>, nwords: nat, pageNw: nat, one: bool)
    requires dst != c && off + nwords <= dst.Length && nwords <= c.Length && pageNw > 0
    requires AllErased(dst[..], off, nwords, Erased(one))
    modifies dst, c
    ensures forall k :: 0 <= k < dst.Length && !(off <= k < off + nwords) ==> dst[k] == old(dst[k])
    ensures forall k :: 0 <= k < nwords ==> dst[off + k] == Plain(one, old(c[k]))
  {
    if one {
      var i := 0;
      while i < nwords
        modifies c
        invariant 0 <= i <= nwords
        invariant forall k :: 0 <= k < i ==> c[k] == Not(old(c[k]))
        invariant forall k :: i <= k < nwords ==> c[k] == old(c[k])
      {
        c[i] := Not(c[i]);
        i := i + 1;
      }
    }
    FlashWrite(dst, off, c, nwords, false, pageNw, Erased(one));
  }

  /** The one-page write buffer of fuota_unpack: words below base are in flash, the next off words
      are held back in buf. */
  class BwState {
    var base: nat
    var off: nat
    const buf: array<bv32>

    constructor (pageNw: nat)
      ensures base == 0 && off == 0 && fresh(buf) && buf.Length == pageNw
    {
      base, off := 0, 0;
      buf := new bv32[pageNw];
    }

    ghost predicate Valid(blocks: array<bv32>)
      reads this
    {
      && blocks != buf && buf.Length > 0 && off < buf.Length && base % buf.Length == 0
      && blocks.Length % buf.Length == 0 && base + off <= blocks.Length
    }

    /** Everything written so far, flushed or not. */
    ghost function Written(blocks: array<bv32>): (w: seq<bv32>)
      reads this, blocks, buf
      requires Valid(blocks)
      ensures |w| == base + off
    {
      blocks[..base] + buf[..off]
    }

    lemma WrittenNone(blocks: array<bv32>)
      requires blocks != buf && buf.Length > 0 && base == off == 0 && blocks.Length % buf.Length == 0
      ensures Valid(blocks) && Written(blocks) == []
    {
    }

    /** buffered_write with a source. */
    method BufferedWrite(blocks: array<bv32>, src: array<bv32>, nwords: nat, erased: bv32)
      requires Valid(blocks) && src != blocks && src != buf && nwords <= src.Length
      requires base + off + nwords <= blocks.Length
      modifies this, blocks, buf
      ensures Valid(blocks) && base >= old(base)
      ensures Written(blocks) == old(Written(blocks)) + src[..nwords]
      ensures blocks[base..] == old(blocks[..])[base..]
    {
      hide Written;
      ghost var w0 := Written(blocks);
      var left, p := nwords, 0;
      assert w0 + src[..0] == w0;
      while left > 0
        invariant Valid(blocks) && 0 <= p <= nwords && left == nwords - p
        invariant base + off == old(base + off) + p && base >= old(base)
        invariant Written(blocks) == w0 + src[..p]
        invariant blocks[base..] == old(blocks[..])[base..]
      {
        var n := buf.Length - off;
        if n > left {
          n := left;
        }
        left := left - n;
        assert w0 + src[..p + n] == (w0 + src[..p]) + src[p..p + n];
        Advance(blocks, src, p, n, erased, old(blocks[..]));
        p := p + n;
      }
    }

    /** Buffers n more words, which at most fill the page, and flushes a full page. */
    method Advance(blocks: array<bv32>, src: array<bv32>, p: nat, n: nat, erased: bv32, ghost was: seq<bv32>)
      requires Valid(blocks) && src != blocks && src != buf && p + n <= src.Length
      requires off + n <= buf.Length && base + off + n <= blocks.Length
      requires |was| == blocks.Length && blocks[base..] == was[base..]
      modifies this, blocks, buf
      ensures Valid(blocks) && base >= old(base)
      ensures Written(blocks) == old(Written(blocks)) + src[p..p + n]
      ensures blocks[base..] == was[base..]
    {
      ghost var w, now, base0 := Written(blocks), blocks[..], base;
      Fill(src, p, n);
      assert blocks[..base] + buf[..off] == w + src[p..p + n];
      if off == buf.Length {
        PageRoom(base, off, buf.Length, blocks.Length);
        FlushPage(blocks, erased);
        RawSuffix(blocks[..], now, was, base0, base);
      }
    }

    /** Copies n words of src, from p on, into the buffer. */
    method Fill(src: array<bv32>, p: nat, n: nat)
      requires src != buf && off + n <= buf.Length && p + n <= src.Length
      modifies this`off, buf
      ensures off == old(off) + n
      ensures buf[..off] == old(buf[..off]) + src[p..p + n]
    {
      var k := 0;
      while k < n
        invariant 0 <= k <= n && off == old(off) + k
        invariant buf[..off] == old(buf[..off]) + src[p..p + k]
      {
        buf[off] := src[p + k];
        off, k := off + 1, k + 1;
      }
    }

    /** buffered_write without a source: flushes a partly filled buffer. */
    method Flush(blocks: array<bv32>, erased: bv32)
      requires Valid(blocks)
      modifies blocks
      ensures blocks[..base + off] == old(Written(blocks))
    {
      if off > 0 {
        PageRoom(base, off, buf.Length, blocks.Length);
        FlashWrite(blocks, base, buf, off, true, buf.Length, erased);
      }
    }

    /** Writes the full buffer to its page and moves on to the next page. */
    method FlushPage(blocks: array<bv32>, erased: bv32)
      requires blocks != buf && off == buf.Length > 0 && base % buf.Length == 0
      requires blocks.Length % buf.Length == 0 && base + off <= blocks.Length
      modifies this, blocks
      ensures Valid(blocks) && base == old(base + off) && off == 0
      ensures Written(blocks) == old(blocks[..base] + buf[..off])
      ensures blocks[base..] == old(blocks[..])[base..]
    {
      FlashWrite(blocks, base, buf, buf.Length, true, buf.Length, erased);
      NextPage(base, buf.Length);
      base, off := base + buf.Length, 0;
    }
  }

  lemma RawSuffix(next: seq<bv32>, now: seq<bv32>, was: seq<bv32>, base: nat, base': nat)
    requires base <= base' <= |next| == |now| == |was|
    requires next[base'..] == now[base'..] && now[base..] == was[base..]
    ensures next[base'..] == was[base'..]
  {
    SuffixOfSuffix(now, base, base');
    SuffixOfSuffix(was, base, base');
  }

  lemma SuffixOfSuffix(s: seq<bv32>, base: nat, off: nat)
    requires base <= off <= |s|
    ensures s[base..][off - base..] == s[off..]
  {
  }

  /** A page-aligned position with room for one more word has room for a whole page. */
  lemma PageRoom(base: nat, off: nat, page: nat, length: nat)
    requires page > 0 && base % page == 0 && length % page == 0 && off > 0 && base + off <= length
    ensures base + page <= length
  {
    var q, r := base / page, length / page;
    assert base == page * q && length == page * r;
    assert r <= q ==> page * r <= page * q;
    assert r > q ==> page * (q + 1) <= page * r;
  }

  lemma NextPage(base: nat, page: nat)
    requires page > 0 && base % page == 0
    ensures (base + page) % page == 0
  {
    var q := base / page;
    assert base + page == page * (q + 1);
    DivUnique(page, q + 1, 0);
  }

  /** xor_bf2r with a buffer: a word at or above base is taken from the buffer, at its offset within
      the page, a word below base from flash. */
  method XorBF2R(dest: array<bv32>, blocks: array<bv32>, off: nat, nwords: nat, state: BwState)
    requires state.Valid(blocks) && dest != blocks && dest != state.buf
    requires nwords == dest.Length && off + nwords <= state.base + state.off
    modifies dest
    ensures dest[..] == XorWords(old(dest[..]), state.Written(blocks)[off..off + nwords])
  {
    ghost var w := state.Written(blocks);
    hide Xor32;
    var p := 0;
    while p < nwords
      invariant 0 <= p <= nwords
      invariant forall k :: 0 <= k < p ==> dest[k] == Xor32(old(dest[k]), w[off + k])
      invariant forall k :: p <= k < nwords ==> dest[k] == old(dest[k])
      invariant w == state.Written(blocks)
    {
      if off + p >= state.base {
        PageOffset(state.base, off + p - state.base, state.buf.Length);
        dest[p] := Xor32(dest[p], state.buf[(off + p) % state.buf.Length]);
      } else {
        dest[p] := Xor32(dest[p], blocks[off + p]);
      }
      p := p + 1;
    }
  }
}
