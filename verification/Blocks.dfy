/** The 32-byte blocks of picofs.c, the chains they form, and what mounting makes of a medium. */
module Blocks {
  import opened Options

  newtype byte = b: int | 0 <= b < 256

  /** A 32-bit word as stored, lowest byte first. */
  type Quad = w: seq<byte> | |w| == 4 witness [0, 0, 0, 0]

  const ONES: Quad := [255, 255, 255, 255]
  const MB_MAGIC: Quad := [0x80, 0x70, 0x83, 0xfe]

  /** Number of blocks, and the checksum that pfs_crc32 folds over 31-byte payloads. */
  datatype Env = Env(n: nat, init: Quad, step: (Quad, seq<byte>) -> Quad)

  type Block = seq<byte>
  type Media = seq<Block>

  ghost predicate WFMedia(e: Env, m: Media) {
    && 1 <= e.n < 253 && |m| == e.n
    && forall i :: 0 <= i < |m| ==> |m[i]| == 32
  }

  // The two views of a block.

  function Payload(b: Block): (r: seq<byte>) requires |b| == 32 ensures |r| == 31 { b[..31] }

  function Next(b: Block): (r: nat) requires |b| == 32 ensures r < 256 { b[31] as nat }

  predicate IsMeta(b: Block) requires |b| == 32 { b[28..32] == MB_MAGIC }

  function Ufid(b: Block): seq<byte> requires |b| == 32 { b[..12] }

  function Crc(b: Block, j: nat): seq<byte> requires |b| == 32 && j < 2 { b[12 + 4 * j..16 + 4 * j] }

  function Ptr(b: Block, j: nat): seq<byte> requires |b| == 32 && j < 2 { b[20 + 4 * j..24 + 4 * j] }

  function Blk0(b: Block, j: nat): (r: nat) requires |b| == 32 && j < 2 ensures r < 256 { b[20 + 4 * j] as nat }

  function Pad(b: Block, j: nat): (r: nat) requires |b| == 32 && j < 2 ensures r < 256 { b[21 + 4 * j] as nat }

  function WithWord(b: Block, off: nat, w: Quad): (r: Block)
    requires |b| == 32 && off + 4 <= 32
    ensures |r| == 32
  {
    b[..off] + w + b[off + 4..]
  }

  /** A block with the metablock magic ends in byte 254; a block with any other link is no metablock. */
  lemma MetaEndsIn254(b: Block)
    requires |b| == 32
    ensures IsMeta(b) ==> Next(b) == 254
    ensures Next(b) != 254 ==> !IsMeta(b)
  {
    assert b[28..32][3] == b[31];
  }

  lemma SliceKept(b: Block, off: nat, w: Quad, lo: nat, hi: nat)
    requires |b| == 32 && off + 4 <= 32 && lo <= hi <= 32 && (hi <= off || lo >= off + 4)
    ensures WithWord(b, off, w)[lo..hi] == b[lo..hi]
    ensures forall k :: lo <= k < hi ==> WithWord(b, off, w)[k] == b[k]
  {
  }

  lemma SliceNew(b: Block, off: nat, w: Quad)
    requires |b| == 32 && off + 4 <= 32
    ensures WithWord(b, off, w)[off..off + 4] == w
    ensures WithWord(b, off, w)[off] == w[0] && WithWord(b, off, w)[off + 1] == w[1]
    ensures b[off..off + 4] == w ==> WithWord(b, off, w) == b
  {
    assert b == b[..off] + b[off..off + 4] + b[off + 4..];
  }

  /** Overwriting pointer j changes that pointer only. */
  lemma PtrWritten(b: Block, j: nat, w: Quad)
    requires |b| == 32 && j < 2
    ensures var r := WithWord(b, 20 + 4 * j, w);
            && Ptr(r, j) == w && Blk0(r, j) == w[0] as nat && Pad(r, j) == w[1] as nat
            && Ptr(r, 1 - j) == Ptr(b, 1 - j) && Crc(r, 0) == Crc(b, 0) && Crc(r, 1) == Crc(b, 1)
            && Ufid(r) == Ufid(b) && IsMeta(r) == IsMeta(b) && Next(r) == Next(b)
            && Blk0(r, 1 - j) == Blk0(b, 1 - j) && Pad(r, 1 - j) == Pad(b, 1 - j)
            && (Ptr(b, j) == w ==> r == b)
  {
    hide WithWord;
    var off := 20 + 4 * j;
    SliceNew(b, off, w);
    SliceKept(b, off, w, 0, 12);
    SliceKept(b, off, w, 12, 16);
    SliceKept(b, off, w, 16, 20);
    SliceKept(b, off, w, 24 - 4 * j, 28 - 4 * j);
    SliceKept(b, off, w, 28, 32);
  }

  /** Clearing pointer j leaves the rest of a block alone. */
  lemma PtrCleared(b: Block, j: nat)
    requires |b| == 32 && j < 2
    ensures var r := WithWord(b, 20 + 4 * j, ONES);
            && Ptr(r, j) == ONES && Ptr(r, 1 - j) == Ptr(b, 1 - j) && Crc(r, 0) == Crc(b, 0) && Crc(r, 1) == Crc(b, 1)
            && Ufid(r) == Ufid(b) && IsMeta(r) == IsMeta(b) && Next(r) == Next(b)
            && Blk0(r, 1 - j) == Blk0(b, 1 - j) && Pad(r, 1 - j) == Pad(b, 1 - j)
            && (Ptr(b, j) == ONES ==> r == b)
  {
    hide WithWord;
    PtrWritten(b, j, ONES);
  }

  /** Overwriting checksum j changes that checksum only. */
  lemma CrcWritten(b: Block, j: nat, q: Quad)
    requires |b| == 32 && j < 2
    ensures var r := WithWord(b, 12 + 4 * j, q);
            && Crc(r, j) == q && Crc(r, 1 - j) == Crc(b, 1 - j) && Ptr(r, 0) == Ptr(b, 0) && Ptr(r, 1) == Ptr(b, 1)
            && Ufid(r) == Ufid(b) && IsMeta(r) == IsMeta(b)
            && Blk0(r, 0) == Blk0(b, 0) && Pad(r, 0) == Pad(b, 0) && Blk0(r, 1) == Blk0(b, 1) && Pad(r, 1) == Pad(b, 1)
  {
    hide WithWord;
    var off := 12 + 4 * j;
    SliceNew(b, off, q);
    SliceKept(b, off, q, 0, 12);
    SliceKept(b, off, q, 16 - 4 * j, 20 - 4 * j);
    SliceKept(b, off, q, 20, 24);
    SliceKept(b, off, q, 24, 28);
    SliceKept(b, off, q, 28, 32);
  }

  lemma EmptyPtr(b: Block, j: nat)
    requires |b| == 32 && j < 2 && Ptr(b, j) == ONES
    ensures Blk0(b, j) == 255
  {
    assert b[20 + 4 * j..24 + 4 * j][0] == b[20 + 4 * j];
  }

  // ---------------------------------------------------------------------------------------------
  // Chains

  function Range(n: nat): (r: set<nat>)
    ensures forall x: nat :: x in r <==> x < n
  {
    if n == 0 then {} else Range(n - 1) + {n - 1}
  }

  function Elements(c: seq<nat>): (r: set<nat>)
    ensures forall x :: x in r <==> x in c
  {
    if c == [] then {} else {c[0]} + Elements(c[1..])
  }

  /** c is a complete chain: in range, without repetition, linked in order and ended by 255. */
  ghost predicate Linked(e: Env, m: Media, c: seq<nat>)
    requires WFMedia(e, m)
  {
    && c != [] && c[0] < e.n && c[0] !in c[1..]
    && if |c| == 1 then Next(m[c[0]]) == 255 else Next(m[c[0]]) == c[1] && Linked(e, m, c[1..])
  }

  /** walk with cb_validate: the chain from start, unless it leaves the medium or meets avoid or itself. */
  ghost function Chain(e: Env, m: Media, start: nat, avoid: set<nat>): (r: Option<seq<nat>>)
    requires WFMedia(e, m)
    decreases Range(e.n) - avoid
  {
    if start >= e.n || start in avoid then None
    else if Next(m[start]) == 255 then Some([start])
    else
      assert start in Range(e.n) - avoid;
      match Chain(e, m, Next(m[start]), avoid + {start})
      case None => None
      case Some(c) => Some([start] + c)
  }

  ghost predicate InRange(e: Env, c: seq<nat>) { forall k :: 0 <= k < |c| ==> c[k] < e.n }

  ghost function CrcOf(e: Env, m: Media, c: seq<nat>): Quad
    requires WFMedia(e, m) && InRange(e, c)
  {
    if c == [] then e.init else e.step(CrcOf(e, m, c[..|c| - 1]), Payload(m[c[|c| - 1]]))
  }

  /** The walk finds exactly the complete chains that keep clear of avoid. */
  lemma {:induction false} ChainFinds(e: Env, m: Media, c: seq<nat>, avoid: set<nat>)
    requires WFMedia(e, m) && Linked(e, m, c) && Elements(c) !! avoid
    ensures Chain(e, m, c[0], avoid) == Some(c)
    decreases |c|
  {
    assert c == [c[0]] + c[1..];
    if |c| > 1 {
      ChainFinds(e, m, c[1..], avoid + {c[0]});
    } else {
      assert c == [c[0]];
    }
  }

  lemma {:induction false} ChainSound(e: Env, m: Media, start: nat, avoid: set<nat>)
    requires WFMedia(e, m) && Chain(e, m, start, avoid).Some?
    ensures var c := Chain(e, m, start, avoid).value;
            Linked(e, m, c) && c[0] == start && Elements(c) !! avoid
    decreases Range(e.n) - avoid
  {
    if Next(m[start]) != 255 {
      assert start in Range(e.n) - avoid;
      ChainSound(e, m, Next(m[start]), avoid + {start});
      var t := Chain(e, m, Next(m[start]), avoid + {start}).value;
      assert ([start] + t)[1..] == t;
    }
  }

  lemma ChainNone(e: Env, m: Media, start: nat, avoid: set<nat>)
    requires WFMedia(e, m) && start >= e.n
    ensures Chain(e, m, start, avoid) == None
  {
  }

  /** A complete chain has blocks in range and no metablock among them. */
  lemma {:induction false} LinkedBlocks(e: Env, m: Media, c: seq<nat>)
    requires WFMedia(e, m) && Linked(e, m, c)
    ensures InRange(e, c) && forall x :: x in c ==> !IsMeta(m[x])
    decreases |c|
  {
    if IsMeta(m[c[0]]) {
      MetaEndsIn254(m[c[0]]);
    }
    if |c| > 1 {
      LinkedBlocks(e, m, c[1..]);
    }
    assert forall x :: x in c ==> x == c[0] || x in c[1..];
    assert forall k :: 0 <= k < |c| ==> c[k] == if k == 0 then c[0] else c[1..][k - 1];
  }

  /** Chains depend on the blocks they visit and on nothing else. */
  lemma {:induction false} LinkedSame(e: Env, m: Media, m': Media, c: seq<nat>)
    requires WFMedia(e, m) && WFMedia(e, m') && Linked(e, m, c) && forall x :: x in c && x < e.n ==> m'[x] == m[x]
    ensures Linked(e, m', c)
    decreases |c|
  {
    if |c| > 1 {
      LinkedSame(e, m, m', c[1..]);
    }
  }

  lemma {:induction false} CrcSame(e: Env, m: Media, m': Media, c: seq<nat>)
    requires WFMedia(e, m) && WFMedia(e, m') && InRange(e, c)
    requires forall x :: x in c ==> m'[x] == m[x]
    ensures CrcOf(e, m', c) == CrcOf(e, m, c)
    decreases |c|
  {
    if c != [] {
      CrcSame(e, m, m', c[..|c| - 1]);
    }
  }
}
