/** services/eefs/picofs.c: the running file system. */
module Picofs {
  import opened Options
  import opened Words
  import opened Bitmap
  import opened Blocks
  import opened Mount
  import opened Directory
  import opened Commit
  import opened Space

  /** A medium without metablocks, as delivered, is an empty file system. */
  lemma BlankRecovers(e: Env, m: Media)
    requires WFMedia(e, m) && forall i :: 0 <= i < e.n ==> !IsMeta(m[i])
    ensures RecoversTo(e, m, map[])
  {
    hide RecoversTo, IsMeta;
    assert Clean(e, m, map[]);
    assert Coherent(e, m, map[]);
    assert DirOf(e, m, map[]) == map[];
    CoherentRecovers(e, m, map[]);
  }

  /** Chains followed link by link: a suffix of a complete chain. */
  lemma LinkedFromIndex(e: Env, m: Media, c: seq<nat>)
    requires WFMedia(e, m) && c != [] && InRange(e, c)
    requires forall k, l :: 0 <= k < l < |c| ==> c[k] != c[l]
    requires forall k :: 0 <= k < |c| - 1 ==> Next(m[c[k]]) == c[k + 1]
    requires Next(m[c[|c| - 1]]) == 255
    ensures Linked(e, m, c)
    decreases |c|
  {
    if |c| > 1 {
      var t := c[1..];
      assert forall k :: 0 <= k < |t| ==> t[k] == c[k + 1];
      LinkedFromIndex(e, m, t);
    }
  }

  class Pfs {
    const e: Env
    const bb: array<Block>
    var next: nat
    var alloc: seq<Word>
    ghost var layout: Layout
    ghost var log: seq<Media>   // the medium after each write

    ghost predicate Valid()
      reads this, bb
    {
      WFMedia(e, bb[..]) && |alloc| == 8 && next < e.n && Rep(e, bb[..], layout, View(alloc))
    }

    /** The medium was formatted once: no stale metablock can come back to life. */
    ghost predicate Formatted()
      reads this, bb
    {
      Valid() && Coherent(e, bb[..], layout)
    }

    ghost function Files(): Dir
      reads this, bb
      requires Formatted()
    {
      DirOf(e, bb[..], layout)
    }

    /** pfs_write_block with a whole block. */
    method WriteBlock(i: nat, b: Block)
      requires i < bb.Length
      modifies bb, this`log
      ensures bb[..] == old(bb[..])[i := b] && log == old(log) + [bb[..]]
    {
      bb[i] := b;
      log := log + [bb[..]];
    }

    /** pfs_write_word: one word of block i. */
    method WriteWord(i: nat, off: nat, w: Quad)
      requires i < bb.Length && |bb[i]| == 32 && off + 4 <= 32
      modifies bb, this`log
      ensures bb[..] == old(bb[..])[i := WithWord(old(bb[i]), off, w)] && log == old(log) + [bb[..]]
    {
      WriteBlock(i, WithWord(bb[i], off, w));
    }

    /** pfs_init on any medium. It writes too: whichever of its writes is the last before a power failure,
        the next mount finds the same. */
    constructor (e: Env, bb: array<Block>, rnd: nat)
      requires WFMedia(e, bb[..]) && rnd < e.n
      modifies bb
      ensures this.e == e && this.bb == bb && next == rnd
      ensures Valid() && MountOf(e, old(bb[..])) == Mounted(bb[..], View(alloc), layout)
      ensures forall d :: RecoversTo(e, old(bb[..]), d) ==> Formatted() && Files() == d
      ensures forall t :: 0 <= t < |log| ==> WFMedia(e, log[t]) && MountOf(e, log[t]) == MountOf(e, old(bb[..]))
      ensures forall d, t :: RecoversTo(e, old(bb[..]), d) && 0 <= t < |log| ==> RecoversTo(e, log[t], d)
      ensures if log == [] then bb[..] == old(bb[..]) else log[|log| - 1] == bb[..]
    {
      hide Rep, Scan, ScanBlock, Select, View, Ptr, WithWord, MountOf, Coherent, DirOf;
      this.e, this.bb, next, alloc := e, bb, rnd, Bitmap.Clear();
      layout, log := map[], [];
      new;
      ghost var m := bb[..];
      ClearView();
      ScanStart(e, m);
      var i := 0;
      while i < e.n
        invariant 0 <= i <= e.n && WFMedia(e, bb[..]) && |alloc| == 8 && next == rnd
        invariant Scan(e, m, i) == Mounted(bb[..], View(alloc), layout)
        invariant forall t :: 0 <= t < |log| ==> WFMedia(e, log[t]) && MountOf(e, log[t]) == MountOf(e, m)
        invariant if log == [] then bb[..] == m else log[|log| - 1] == bb[..]
      {
        ScanNext(e, m, i);
        MountBlock(i);
        MountResumes(e, m, i + 1);
        i := i + 1;
      }
      MountEstablishesRep(e, m);
      MountIsScan(e, m);
    }

    /** One round of the loop of pfs_init. */
    method MountBlock(i: nat)
      requires WFMedia(e, bb[..]) && |alloc| == 8 && i < e.n
      modifies bb, this`alloc, this`layout, this`log
      ensures WFMedia(e, bb[..]) && |alloc| == 8
      ensures Mounted(bb[..], View(alloc), layout)
           == old(ScanBlock(e, Mounted(bb[..], View(alloc), layout), i))
      ensures if log == old(log) then bb[..] == old(bb[..]) else log == old(log) + [bb[..]]
    {
      hide View, ValidChain, Ptr, WithWord, IsAlloc, Alloc, Crc, Blk0, IsMeta;
      ghost var s := Mounted(bb[..], View(alloc), layout);
      InView(alloc, i);
      if !IsAlloc(alloc, i) && IsMeta(bb[i]) {
        var j := 0;
        while j < 2
          invariant 0 <= j <= 2 && WFMedia(e, bb[..]) && |alloc| == 8
          invariant s == Mounted(bb[..], View(alloc), layout) && log == old(log)
          invariant forall l :: 0 <= l < j ==> ValidChain(e, s.m, Blk0(s.m[i], l), Crc(s.m[i], l), s.alloc).None?
          decreases 2 - j
        {
          var ok, c := VChain(Blk0(bb[i], j), Crc(bb[i], j));
          if ok {
            UpdateViews(alloc, i);
            alloc := Alloc(alloc, i);
            PtrCleared(bb[i], 1 - j);
            if Ptr(bb[i], 1 - j) != ONES {
              WriteWord(i, 20 + 4 * (1 - j), ONES);
            }
            layout := layout[i := Sel(j, c)];
            return;
          }
          j := j + 1;
        }
      }
    }

    /** v_chain: walks and checks the chain from start, and allocates it if it is sound. */
    method VChain(start: nat, crc: seq<byte>) returns (ok: bool, ghost c: seq<nat>)
      requires WFMedia(e, bb[..]) && |alloc| == 8 && start < 256
      modifies this`alloc
      ensures |alloc| == 8
      ensures var r := ValidChain(e, bb[..], start, crc, old(View(alloc)));
              ok == r.Some? && (ok ==> c == r.value && View(alloc) == old(View(alloc)) + Elements(c))
      ensures !ok ==> alloc == old(alloc)
    {
      hide View, Linked, IsAlloc, Alloc, Next, CrcOf, Chain, Payload, Prepend, Elements;
      ghost var m, avoid := bb[..], View(alloc);
      var a, q := alloc, e.init;
      var n: nat := start;
      c := [];
      CrcNone(e, m);
      PrependNone(Chain(e, m, n, avoid));
      while true
        invariant |a| == 8 && InRange(e, c) && q == CrcOf(e, m, c) && n < 256 && alloc == old(alloc)
        invariant View(a) == avoid + Elements(c)
        invariant Chain(e, m, start, avoid) == Prepend(c, Chain(e, m, n, View(a)))
        decreases Range(e.n) - View(a)
      {
        InView(a, n);
        ChainStep(e, m, n, View(a));
        if n >= e.n || IsAlloc(a, n) {
          PrependFails(c);
          return false, c;
        }
        UpdateViews(a, n);
        ElementsAdd(c, n);
        CrcAdd(e, m, c, n);
        PrependAdd(c, n, Chain(e, m, Next(m[n]), View(a) + {n}));
        assert n in Range(e.n) - View(a);
        a := Alloc(a, n);
        q := e.step(q, Payload(bb[n]));
        c := c + [n];
        n := Next(bb[n]);
        if n == 255 {
          if crc == q {
            alloc := a;
            return true, c;
          }
          return false, c;
        }
      }
    }

    /** block_alloc: next fit, starting after next and never reaching next itself when there are
        several blocks. */
    method BlockAlloc(a: seq<Word>) returns (r: int, a': seq<Word>)
      requires |a| == 8 && next < e.n < 253
      modifies this`next
      ensures |a'| == 8 && next < e.n
      ensures r >= 0 ==> r < e.n && r !in View(a) && View(a') == View(a) + {r} && next == r
      ensures r >= 0 ==> forall x: nat :: x < e.n && Between(old(next), x, r) ==> x in View(a)
      ensures r < 0 ==> r == -1 && a' == a && next == old(next) && forall x: nat :: x < e.n && x != next ==> x in View(a)
      ensures r >= 0 <==> Room(e.n, View(a), old(next), 1)
    {
      hide View, IsAlloc, Alloc, Room;
      a' := a;
      var i := next + 1;
      while i != next
        invariant 0 <= i <= e.n && next == old(next) && (i == e.n ==> next == e.n - 1)
        invariant i > next ==> forall x: nat :: next < x < i ==> x in View(a)
        invariant i <= next ==> forall x: nat :: x < e.n && (x < i || x > next) ==> x in View(a)
        invariant e.n == 1 && i == 0 ==> 0 in View(a)
        decreases if i > next then e.n - i + next + 1 else next - i
      {
        if i >= e.n {
          i := 0;
        }
        InView(a, i);
        if !IsAlloc(a, i) {
          UpdateViews(a, i);
          RoomFound(e.n, View(a), next, i);
          a' := Alloc(a, i);
          next := i;
          return i, a';
        }
        i := if i >= e.n - 1 then 0 else i + 1;
      }
      RoomNone(e.n, View(a), next);
      return -1, a';
    }

    /** chain_clear: frees the blocks of chain c, which starts at start. */
    method ChainClear(a: seq<Word>, start: nat, ghost c: seq<nat>) returns (a': seq<Word>)
      requires WFMedia(e, bb[..]) && |a| == 8 && Linked(e, bb[..], c) && c[0] == start
      ensures |a'| == 8 && View(a') == View(a) - Elements(c)
    {
      hide View, Dealloc, Next, Elements;
      a' := a;
      var n := start;
      ghost var k := 0;
      ElementsNone();
      while true
        invariant 0 <= k < |c| && |a'| == 8 && n == c[k] && Linked(e, bb[..], c[k..])
        invariant View(a') == View(a) - Elements(c[..k])
        decreases |c| - k
      {
        UpdateViews(a', n);
        ElementsAdd(c[..k], n);
        assert c[..k + 1] == c[..k] + [n] && c[k..][1..] == c[k + 1..];
        a' := Dealloc(a', n);
        n := Next(bb[n]);
        if n == 255 {
          NextEnds(e, bb[..], c[k..]);
          assert c[..k + 1] == c;
          return;
        }
        NextEnds(e, bb[..], c[k..]);
        k := k + 1;
      }
    }

    /** pfs_find: the first live metablock with this ufid, or -1. */
    method Find(ufid: seq<byte>) returns (fh: int)
      requires Valid()
      ensures fh >= 0 ==> fh in layout && fh < e.n && Ufid(bb[fh]) == ufid
      ensures fh >= 0 ==> forall k :: k in layout && k < fh ==> Ufid(bb[k]) != ufid
      ensures fh < 0 ==> fh == -1 && forall k :: k in layout ==> k < e.n && Ufid(bb[k]) != ufid
    {
      hide View, IsAlloc, LiveOk, FileOk, Disjoint, Ufid;
      RepFilesOk(e, bb[..], layout, View(alloc));
      var i := 0;
      while i < 253
        invariant 0 <= i <= 253
        invariant forall k :: k in layout && k < i ==> Ufid(bb[k]) != ufid
      {
        InView(alloc, i);
        LiveMeta(e, bb[..], layout, View(alloc), i);
        if IsAlloc(alloc, i) && IsMeta(bb[i]) && Ufid(bb[i]) == ufid {
          return i;
        }
        i := i + 1;
      }
      return -1;
    }

    /** meta_create: writes a metablock with both pointers empty. */
    method MetaCreate(a: seq<Word>, ufid: seq<byte>) returns (fh: int, a': seq<Word>)
      requires WFMedia(e, bb[..]) && |a| == 8 && next < e.n && |ufid| == 12
      modifies bb, this`log, this`next
      ensures |a'| == 8 && next < e.n && FreeWritten(e, old(bb[..]), bb[..], View(a))
      ensures fh < 0 ==> fh == -1 && a' == a && bb[..] == old(bb[..]) && log == old(log)
      ensures fh >= 0 ==> fh < e.n && fh !in View(a) && View(a') == View(a) + {fh} && log == old(log) + [bb[..]]
      ensures fh >= 0 ==> IsMeta(bb[fh]) && Ufid(bb[fh]) == ufid && Ptr(bb[fh], 0) == Ptr(bb[fh], 1) == ONES
      ensures (fh >= 0 <==> Room(e.n, View(a), old(next), 1)) && (fh >= 0 ==> next == fh)
    {
      hide View, Room;
      fh, a' := BlockAlloc(a);
      if fh >= 0 {
        var zero: Quad := [0, 0, 0, 0];
        var b := ufid + zero + zero + ONES + ONES + MB_MAGIC;
        assert Ufid(b) == ufid && Ptr(b, 0) == ONES && Ptr(b, 1) == ONES && IsMeta(b);
        WriteBlock(fh, b);
      }
    }

    /** meta_update: writes checksum and pointer into the empty slot j, then empties the other pointer. */
    method MetaUpdate(a: seq<Word>, fh: nat, w: Quad, q: Quad, ghost c: seq<nat>) returns (a': seq<Word>, ghost j: Slot)
      requires WFMedia(e, bb[..]) && |a| == 8 && fh < e.n && IsMeta(bb[fh]) && w != ONES
      requires Ptr(bb[fh], 0) == ONES || Ptr(bb[fh], 1) == ONES
      requires Ptr(bb[fh], 0) != ONES ==> Linked(e, bb[..], c) && Blk0(bb[fh], 0) == c[0]
      requires Ptr(bb[fh], 1) != ONES ==> Linked(e, bb[..], c) && Blk0(bb[fh], 1) == c[0]
      modifies bb, this`log
      ensures |a'| == 8 && WFMedia(e, old(bb[..])) && j == if old(Ptr(bb[fh], 0)) != ONES then 1 else 0
      ensures bb[..] == Done(e, old(bb[..]), fh, j, q, w)
      ensures var live := old(Ptr(bb[fh], 1 - j)) != ONES;
              && View(a') == (if live then View(a) - Elements(c) else View(a))
              && var m1 := CrcSet(e, old(bb[..]), fh, j, q);
                 var m2 := PtrSet(e, m1, fh, j, w);
                 log == old(log) + [m1, m2] + (if live then [bb[..]] else [])
    {
      hide View, Ptr, WithWord, Linked, Crc, Blk0, Elements, IsMeta, Ufid, Pad;
      ghost var m := bb[..];
      j := if Ptr(bb[fh], 0) != ONES then 1 else 0;
      var jj := if Ptr(bb[fh], 0) != ONES then 1 else 0;
      StepsChangeSlot(e, m, fh, j, q, w);
      a' := a;
      WriteWord(fh, 12 + 4 * jj, q);
      WriteWord(fh, 20 + 4 * jj, w);
      ghost var m2 := bb[..];
      assert m2 == PtrSet(e, CrcSet(e, m, fh, j, q), fh, j, w);
      PtrCleared(m2[fh], 1 - j);
      if Ptr(bb[fh], 1 - jj) != ONES {
        ChainAvoidsMeta(e, m, c, fh);
        LinkedSame(e, m, m2, c);
        a' := ChainClear(a, Blk0(bb[fh], 1 - jj), c);
        WriteWord(fh, 20 + 4 * (1 - jj), ONES);
      }
      assert bb[..] == Cleared(e, m2, fh, 1 - j);
    }

    /** Writes one block of a chain. */
    method WriteLink(i: nat, payload: seq<byte>, link: int,
                     ghost m0: Media, ghost busy: set<nat>, ghost data: seq<byte>, ghost c: seq<nat>, ghost q: Quad)
      requires c != [] && Part(e, bb[..], busy, data, c, q) && i == c[|c| - 1] && FreeWritten(e, m0, bb[..], busy)
      requires |payload| == 31 && 0 <= link < 256 && link != 254
      modifies bb, this`log
      ensures bb[..] == old(bb[..])[i := payload + [link as byte]] && log == old(log) + [bb[..]]
      ensures FreeWritten(e, m0, bb[..], busy)
    {
      hide FreeWritten, StaleOk, IsMeta, CrcOf, Bytes, Next, Payload;
      ghost var m := bb[..];
      BlockParts(payload, link);
      WriteBlock(i, payload + [link as byte]);
      FreeWrittenStep(e, m0, m, i, payload + [link as byte], busy);
    }

    /** Writes a full block of a chain and links it to block link, which was free. */
    method WriteNext(i: nat, payload: seq<byte>, link: nat,
                     ghost m0: Media, ghost busy: set<nat>, ghost data: seq<byte>, ghost c: seq<nat>, ghost q: Quad)
      requires c != [] && Part(e, bb[..], busy, data, c, q) && i == c[|c| - 1] && FreeWritten(e, m0, bb[..], busy)
      requires 31 * |c| <= |data| && payload == BlockOf(data, 31 * (|c| - 1))
      requires link < e.n < 253 && link !in busy + Elements(c)
      modifies bb, this`log
      ensures log == old(log) + [bb[..]] && FreeWritten(e, m0, bb[..], busy)
      ensures Part(e, bb[..], busy, data, c + [link], e.step(q, payload))
    {
      hide FreeWritten, Elements, Part;
      ghost var m := bb[..];
      assert payload == data[31 * (|c| - 1)..31 * |c|];
      WriteLink(i, payload, link, m0, busy, data, c, q);
      PartStep(e, m, busy, busy + Elements(c), data, c, q, payload, link);
    }

    /** Writes the last block of a chain, padded with zeros. */
    method WriteLast(i: nat, payload: seq<byte>, pad: nat,
                     ghost m0: Media, ghost busy: set<nat>, ghost data: seq<byte>, ghost c: seq<nat>, ghost q: Quad)
      requires c != [] && Part(e, bb[..], busy, data, c, q) && i == c[|c| - 1] && FreeWritten(e, m0, bb[..], busy)
      requires pad < 31 && |data| == 31 * |c| - pad && payload == BlockOf(data, 31 * (|c| - 1))
      modifies bb, this`log
      ensures log == old(log) + [bb[..]] && FreeWritten(e, m0, bb[..], busy)
      ensures Stored(e, bb[..], busy, data, c, pad, e.step(q, payload))
    {
      hide FreeWritten, Part, Stored;
      ghost var m := bb[..];
      WriteLink(i, payload, 255, m0, busy, data, c, q);
      PartDone(e, m, busy, data, c, q, payload, pad);
    }

    /** One round of the loop of chain_write: allocates the next block unless this one is the last, and
        writes this one. */
    method WriteBlockOf(i: nat, p: nat, data: seq<byte>, a: seq<Word>, crc: Quad,
                        ghost m0: Media, ghost n0: nat, ghost busy: set<nat>, ghost c: seq<nat>, ghost next0: nat)
      returns (link: int, pad: nat, crc': Quad, a': seq<Word>)
      requires |a| == 8 && next == i && Writing(e, m0, bb[..], log, n0, busy, View(a), data, c, crc)
      requires c != [] && i == c[|c| - 1] && i < e.n && p == 31 * (|c| - 1) < |data| && Room(e.n, busy, next0, 1)
      modifies bb, this`log, this`next
      ensures |a'| == 8 && old(log) <= log && FreeWritten(e, m0, bb[..], busy) && ImagesFree(e, m0, log, n0, busy) && next < e.n
      ensures link == -1 || link == 255 || link == next
      ensures RoundDone(e, m0, bb[..], log, n0, busy, View(a'), data, c, link, pad, crc', next0)
    {
      hide View, FreeWritten, ImagesFree, Elements, Part, Stored, Room, LinkCount, BlockOf;
      var n := if |data| - p < 31 then |data| - p else 31;
      var payload := BlockOf(data, p);
      link, pad, crc', a' := 255, 0, e.step(crc, payload), a;
      LinkCountIs(|data|, |c| - 1);
      PartParts(e, bb[..], busy, data, c, crc);
      if p + n < |data| {
        link, a' := BlockAlloc(a);
        if link < 0 {
          LinkCountIs(|data|, |c|);
          RoomUsedUp(e.n, busy, c, next0, LinkCount(|data|));
          return;
        }
      }
      ImagesAdd(e, m0, log, n0, busy);
      if link == 255 {
        pad := 31 - n;
        StoredRoom(e, bb[..], busy, data, c, crc, next0);
        WriteLast(i, payload, pad, m0, busy, data, c, crc);
        return;
      }
      WriteNext(i, payload, link, m0, busy, data, c, crc);
      ElementsAdd(c, link);
    }

    /** chain_write for at least one byte: stores data on free blocks, the last one padded with zeros. It
        succeeds exactly if there is room. On failure some free blocks may have been overwritten. */
    method ChainWrite(a: seq<Word>, data: seq<byte>)
      returns (first: int, pad: nat, crc: Quad, a': seq<Word>, ghost c: seq<nat>)
      requires WFMedia(e, bb[..]) && |a| == 8 && next < e.n && data != []
      modifies bb, this`log, this`next
      ensures |a'| == 8 && next < e.n && FreeWritten(e, old(bb[..]), bb[..], View(a))
      ensures old(log) <= log && ImagesFree(e, old(bb[..]), log, |old(log)|, View(a))
      ensures first < 0 ==> first == -1
      ensures first >= 0 ==> Stored(e, bb[..], View(a), data, c, pad, crc) && first == c[0] && View(a') == View(a) + Elements(c)
      ensures first >= 0 <==> Room(e.n, View(a), old(next), LinkCount(|data|))
    {
      hide View, FreeWritten, ImagesFree, Elements, Writing, Part, Stored, Room, LinkCount;
      LinkCountIs(|data|, 0);
      RoomFirst(e.n, View(a), next, LinkCount(|data|));
      ghost var m0, n0, next0 := bb[..], |log|, next;
      FreeWrittenRefl(e, m0, View(a));
      ImagesNone(e, m0, log, View(a));
      pad, crc, c := 0, e.init, [];
      first, a' := BlockAlloc(a);
      if first < 0 {
        return;
      }
      var i, p := first, 0;
      c := [first];
      WritingFirst(e, m0, log, View(a), View(a'), data, first);
      while true
        invariant c != [] && first == c[0] && i == c[|c| - 1] && p == 31 * (|c| - 1) < |data|
        invariant |a'| == 8 && next == i < e.n && old(log) <= log
        invariant Writing(e, m0, bb[..], log, n0, View(a), View(a'), data, c, crc)
        decreases |data| - p
      {
        var link;
        link, pad, crc, a' := WriteBlockOf(i, p, data, a', crc, m0, n0, View(a), c, next0);
        if link < 0 {
          return -1, pad, crc, a', c;
        }
        if link == 255 {
          return;
        }
        i, p, c := link, p + 31, c + [link];
      }
    }

    /** meta_update as pfs_save uses it: makes the stored chain c the content of metablock fh. */
    method Publish(a: seq<Word>, fh: nat, c0: nat, pad: nat, q: Quad, ghost c: seq<nat>, ghost data: seq<byte>)
      requires Valid() && |a| == 8 && fh < e.n && IsMeta(bb[fh]) && pad < 31 && c0 < e.n
      requires Stored(e, bb[..], View(alloc) + {fh}, data, c, pad, q) && c0 == c[0]
      requires View(a) == View(alloc) + {fh} + Elements(c)
      requires fh in layout || (fh !in View(alloc) && Ptr(bb[fh], 0) == ONES && Ptr(bb[fh], 1) == ONES)
      modifies bb, this`alloc, this`layout, this`log
      ensures Valid() && old(log) <= log
      ensures fh in layout && layout == old(layout)[fh := layout[fh]] && layout[fh].chain == c
      ensures Ufid(bb[fh]) == old(Ufid(bb[fh])) && FileLen(bb[..], fh, layout[fh]) == |data|
      ensures forall x :: 0 <= x < e.n && x != fh ==> bb[x] == old(bb[x])
      ensures Bytes(e, bb[..], c)[..|data|] == data
      ensures old(Sole(e, bb[..], layout, fh)) ==>
                Saved(e, old(bb[..]), old(layout), bb[..], layout, old(Ufid(bb[fh])), data, log[|old(log)|..])
    {
      hide Rep, View, Elements, Linked, CrcOf, Bytes, WithWord, Used, Coherent, MountOf, DirOf, FileOk, Ptr, Crc, Ufid, IsMeta, Saved, Sole, Stored, FileLen, Ready;
      ghost var m, L, al := bb[..], layout, View(alloc);
      var w: Quad := [c0 as byte, pad as byte, 0, 0];
      ReadyFromStored(e, m, L, al, fh, data, c, pad, q, w);
      ghost var oldc := if fh in L then L[fh].chain else [];
      ghost var j := if Ptr(m[fh], 0) != ONES then 1 else 0;
      var a', jj := MetaUpdate(a, fh, w, q, oldc);
      alloc := a';
      layout := layout[fh := Sel(j, c)];
      assert View(a') == al + {fh} + Elements(c) - (if fh in L then Elements(oldc) else {});
      PublishRep(e, m, L, al, fh, j, c, q, w, data, pad);
      if Sole(e, m, L, fh) {
        PublishSaved(e, m, L, al, fh, j, c, q, w, data, pad, log[|old(log)|..]);
      }
    }

    /** pfs_read_fh: copies the start of a file into the caller's buffer; the length, or -1. */
    method ReadFh(fh: nat, data: array<byte>) returns (r: int)
      requires Valid() && fh < 256 && data as object != bb as object
      modifies data
      ensures fh !in layout ==> r == -1 && data[..] == old(data[..])
      ensures fh in layout ==>
                && fh < e.n && FileOk(e, bb[..], fh, layout[fh])
                && r == FileLen(bb[..], fh, layout[fh])
                && data[..] == Overlay(Bytes(e, bb[..], layout[fh].chain), old(data[..]))
    {
      hide View, IsAlloc, Rep, Linked, Elements, Bytes, CrcOf, Ptr, Blk0, FileOk, IsMeta, Payload, Next, Overlay, Pad;
      InView(alloc, fh);
      LiveMeta(e, bb[..], layout, View(alloc), fh);
      if !IsAlloc(alloc, fh) || !IsMeta(bb[fh]) {
        return -1;
      }
      ghost var m, d0, c := bb[..], data[..], layout[fh].chain;
      LiveFile(e, m, layout, View(alloc), fh);
      var j := if Ptr(bb[fh], 0) == ONES then 1 else 0;
      var n := Blk0(bb[fh], j);
      var ptr, sact := 0, 0;
      ghost var k := 0;
      OverlayNone(d0);
      BytesNone(e, m);
      while true
        invariant 0 <= k < |c| && n == c[k] && Linked(e, m, c[k..]) && InRange(e, c) && m == bb[..]
        invariant sact == 31 * k && ptr == (if sact < data.Length then sact else data.Length)
        invariant data[..] == Overlay(Bytes(e, m, c[..k]), d0)
        decreases |c| - k
      {
        ghost var b := Bytes(e, m, c[..k]);
        ghost var d := data[..];
        var sz := if data.Length - ptr < 31 then data.Length - ptr else 31;
        CopyBlock(data, ptr, Payload(bb[n])[..sz]);
        OverlayAdd(b, Payload(m[n]), d0);
        ChainAt(e, m, c, k);
        ptr, sact := ptr + sz, sact + 31;
        n := Next(bb[n]);
        if n == 255 {
          return sact - Pad(bb[fh], j);
        }
        k := k + 1;
      }
    }

    /** pfs_read: reads the file with this ufid. */
    method Read(ufid: seq<byte>, data: array<byte>) returns (r: int)
      requires Valid() && data as object != bb as object
      modifies data
      ensures Formatted() ==> (ufid in Files() <==> r >= 0)
      ensures Formatted() && ufid !in Files() ==> r == -1 && data[..] == old(data[..])
      ensures Formatted() && ufid in Files() ==>
                && r == |Files()[ufid]|
                && forall k :: 0 <= k < data.Length && k < r ==> data[k] == Files()[ufid][k]
    {
      hide View, Rep, Coherent, DirOf, Bytes, FileOk, Overlay, FileLen, Pad, Ufid;
      var fh := Find(ufid);
      if fh < 0 {
        if Formatted() {
          NotInDir(e, bb[..], layout, ufid);
        }
        return fh;
      }
      r := ReadFh(fh, data);
      if Formatted() {
        FoundInDir(e, bb[..], layout, fh);
        OverlayIs(Bytes(e, bb[..], layout[fh].chain), old(data[..]));
      }
    }

    /** chain_cmp: zero exactly if the file holds data. */
    method ChainCmp(fh: nat, data: seq<byte>) returns (d: int)
      requires Valid() && fh in layout && fh < e.n
      ensures FileOk(e, bb[..], fh, layout[fh])
      ensures d == 0 <==> FileLen(bb[..], fh, layout[fh]) == |data| && data <= Bytes(e, bb[..], layout[fh].chain)
    {
      hide View, Rep, Linked, Bytes, CrcOf, Ptr, Blk0, FileOk, IsMeta, Payload, Next, Pad, MemCmp;
      ghost var m, c := bb[..], layout[fh].chain;
      LiveFile(e, m, layout, View(alloc), fh);
      var j := if Ptr(bb[fh], 0) == ONES then 1 else 0;
      var n := Blk0(bb[fh], j);
      var ptr, sact := 0, 0;
      ghost var k := 0;
      BytesNone(e, m);
      while true
        invariant 0 <= k < |c| && n == c[k] && Linked(e, m, c[k..]) && InRange(e, c)
        invariant sact == 31 * k && ptr == (if sact < |data| then sact else |data|)
        invariant data[..ptr] == Bytes(e, m, c[..k])[..ptr]
        decreases |c| - k
      {
        var sz := if |data| - ptr < 31 then |data| - ptr else 31;
        d := MemCmp(data[ptr..ptr + sz], Payload(bb[n])[..sz]);
        MemCmpZero(data[ptr..ptr + sz], Payload(bb[n])[..sz]);
        ChainAt(e, m, c, k);
        ComparePart(data, Bytes(e, m, c[..k]), Payload(m[n]), ptr, sz);
        if d != 0 {
          BytesPrefix(e, m, c, k + 1);
          return;
        }
        ptr, sact := ptr + sz, sact + 31;
        n := Next(bb[n]);
        if n == 255 {
          return sact - Pad(bb[fh], j) - |data|;
        }
        k := k + 1;
      }
    }

    /** The second half of pfs_save: writes the data to free blocks and publishes it. */
    method Store(a: seq<Word>, fh: nat, data: seq<byte>) returns (r: int)
      requires Valid() && |a| == 8 && fh < e.n && IsMeta(bb[fh]) && data != [] && View(a) == View(alloc) + {fh}
      requires fh in layout || (fh !in View(alloc) && Ptr(bb[fh], 0) == ONES && Ptr(bb[fh], 1) == ONES)
      modifies bb, this`alloc, this`layout, this`log, this`next
      ensures Valid() && old(log) <= log && (r == -1 || r == fh)
      ensures r >= 0 <==> Room(e.n, old(View(alloc)) + {fh}, old(next), LinkCount(|data|))
      ensures forall x :: 0 <= x < e.n && x in old(View(alloc)) && x != fh ==> bb[x] == old(bb[x])
      ensures r < 0 ==> layout == old(layout) && alloc == old(alloc) && bb[fh] == old(bb[fh])
      ensures r >= 0 ==> layout.Keys == old(layout).Keys + {fh} && layout == old(layout)[fh := layout[fh]]
      ensures r >= 0 ==> Holds(e, bb[..], layout, fh, old(Ufid(bb[fh])), data)
      ensures old(Sole(e, bb[..], layout, fh)) ==>
                if r < 0 then Untouched(e, old(bb[..]), bb[..], layout, log[|old(log)|..])
                else Saved(e, old(bb[..]), old(layout), bb[..], layout, old(Ufid(bb[fh])), data, log[|old(log)|..])
    {
      hide Rep, View, Elements, Linked, CrcOf, Bytes, Used, Coherent, MountOf, DirOf, FileOk, Ptr, Ufid, IsMeta,
           Saved, Untouched, Sole, Stored, Pad, FreeWritten, Holds, Room;
      ghost var m, L, al := bb[..], layout, View(alloc);
      var first, pad, crc, a', c := ChainWrite(a, data);
      ghost var m', l' := bb[..], log;
      ghost var xs := l'[|old(log)|..];
      assert forall t :: 0 <= t < |xs| ==> FreeWritten(e, m, xs[t], al + {fh});
      FreeWrittenRep(e, m, m', L, al, fh);
      if Sole(e, m, L, fh) {
        WrittenUntouched(e, m, m', L, al, fh, xs);
      }
      if first < 0 {
        return -1;
      }
      StoredParts(e, m', al + {fh}, data, c, pad, crc);
      Publish(a', fh, first, pad, crc, c, data);
      LiveFile(e, bb[..], layout, View(alloc), fh);
      PublishedHolds(e, bb[..], layout, View(alloc), fh, m[fh], data);
      if Sole(e, m, L, fh) {
        LogSplit(old(log), l', log);
        UntouchedThenSaved(e, m, L, m', bb[..], layout, Ufid(m[fh]), data, xs, log[|l'|..]);
      }
      return fh;
    }

    /** The second half of pfs_save, for the metablock fh: m is the medium before the call, on which xs are
        the writes so far. */
    method SaveChain(a: seq<Word>, fh: nat, ufid: seq<byte>, data: seq<byte>, ghost m: Media, ghost xs: seq<Media>) returns (r: int)
      requires Valid() && |a| == 8 && fh < e.n && IsMeta(bb[fh]) && data != [] && View(a) == View(alloc) + {fh} && Ufid(bb[fh]) == ufid
      requires fh in layout || (fh !in View(alloc) && Ptr(bb[fh], 0) == ONES && Ptr(bb[fh], 1) == ONES)
      requires WFMedia(e, m) && Rep(e, m, layout, View(alloc)) && FreeWritten(e, m, bb[..], View(alloc))
      requires fh in layout || forall k :: k in layout ==> k < e.n && Ufid(m[k]) != ufid
      requires xs == [] || xs == [bb[..]]
      modifies bb, this`alloc, this`layout, this`log, this`next
      ensures Valid() && old(log) <= log && (r == -1 || r == fh)
      ensures forall x :: 0 <= x < e.n && x in old(View(alloc)) && x != fh ==> bb[x] == old(bb[x])
      ensures r < 0 ==> layout == old(layout) && alloc == old(alloc) && bb[fh] == old(bb[fh])
      ensures r >= 0 ==> layout.Keys == old(layout).Keys + {fh} && layout == old(layout)[fh := layout[fh]]
      ensures r >= 0 ==> Holds(e, bb[..], layout, fh, ufid, data)
      ensures r >= 0 <==> Room(e.n, old(View(alloc)) + {fh}, old(next), LinkCount(|data|))
      ensures Coherent(e, m, old(layout)) ==>
                SaveOutcome(e, m, old(layout), bb[..], layout, r >= 0, ufid, data, xs + log[|old(log)|..])
    {
      hide Rep, View, Elements, Bytes, Used, Coherent, MountOf, DirOf, FileOk, Ptr, Ufid, IsMeta, Sole, FileLen,
           FreeWritten, Holds, RecoversTo, Room, LinkCount, Untouched, Saved;
      ghost var m', L, al := bb[..], layout, View(alloc);
      if Coherent(e, m, L) {
        BeforeStore(e, m, m', L, al, fh, ufid, xs);
      }
      r := Store(a, fh, data);
      if Coherent(e, m, L) {
        AfterStore(e, m, m', L, bb[..], layout, r, ufid, data, xs, log[|old(log)|..]);
      }
    }

    /** The first half of pfs_save: finds the metablock or creates it; held tells whether the file has this
        content already. */
    method Prepare(ufid: seq<byte>, data: seq<byte>) returns (fh: int, a: seq<Word>, held: bool)
      requires Valid() && |ufid| == 12 && data != []
      modifies bb, this`log, this`next
      ensures Valid() && |a| == 8 && fh < e.n
      ensures log == old(log) || (fh >= 0 && log == old(log) + [bb[..]])
      ensures fh < 0 || held ==> bb[..] == old(bb[..]) && log == old(log)
      ensures Prepared(e, old(bb[..]), bb[..], layout, View(alloc), View(a), old(next), next, fh, held, ufid, data)
    {
      hide Rep, View, Elements, Bytes, Used, Coherent, DirOf, FileOk, Ptr, Ufid, IsMeta, FileLen, FreeWritten, Holds, Room, LinkCount, Held, Fits;
      ghost var m, L, al := bb[..], layout, View(alloc);
      a, held := alloc, false;
      FreeWrittenRefl(e, m, al);
      LinkCountIs(|data|, 0);
      fh := Find(ufid);
      if Coherent(e, m, L) {
        HeldIff(e, m, L, ufid, data);
      }
      if fh >= 0 {
        var d := ChainCmp(fh, data);
        held := d == 0;
        FoundHeld(e, m, L, al, next, fh, ufid, data);
        LiveMeta(e, m, L, al, fh);
        assert al + {fh} == al;
        if held {
          NoChange(e, m, L, al, fh, data);
        }
      } else {
        NotHeld(e, m, L, al, next, ufid, data);
        RoomFirst(e.n, al, next, LinkCount(|data|) + 1);
        fh, a := MetaCreate(a, ufid);
        if fh >= 0 {
          RoomAfter(e.n, al, old(next), fh, LinkCount(|data|));
          LiveMeta(e, m, L, al, fh);
          FreeWrittenKeeps(e, m, bb[..], L, al);
        }
      }
    }

    /** pfs_save of at least one byte. */
    method Save(ufid: seq<byte>, data: seq<byte>) returns (fh: int)
      requires Valid() && |ufid| == 12 && data != []
      modifies bb, this`alloc, this`layout, this`log, this`next
      ensures Valid() && old(log) <= log && fh < e.n
      ensures forall x :: 0 <= x < e.n && x in old(View(alloc)) && x != fh ==> bb[x] == old(bb[x])
      ensures fh < 0 ==> fh == -1 && layout == old(layout) && alloc == old(alloc)
      ensures fh >= 0 ==> layout.Keys == old(layout).Keys + {fh} && layout == old(layout)[fh := layout[fh]]
      ensures fh >= 0 ==> Holds(e, bb[..], layout, fh, ufid, data)
      ensures old(Formatted()) ==>
                && Formatted()
                && Files() == (if fh < 0 then old(Files()) else old(Files())[ufid := data])
                && forall t :: |old(log)| <= t < |log| ==>
                     RecoversTo(e, log[t], old(Files())) || RecoversTo(e, log[t], Files())
      ensures old(Formatted() && ufid in Files() && Files()[ufid] == data) ==> fh >= 0 && bb[..] == old(bb[..]) && log == old(log)
      ensures fh >= 0 <==> old(Held(e, bb[..], layout, ufid, data)) || old(Fits(e, bb[..], layout, View(alloc), next, ufid, |data|))
    {
      hide Rep, View, Elements, Coherent, DirOf, FreeWritten, RecoversTo, Room, Held, Fits, Holds, Ufid, Ptr, IsMeta, LinkCount;
      ghost var m, L, al := bb[..], layout, View(alloc);
      var a, held;
      fh, a, held := Prepare(ufid, data);
      ghost var was := log;
      if fh < 0 || held {
        return;
      }
      FreeWrittenKeeps(e, m, bb[..], L, al);
      var r := SaveChain(a, fh, ufid, data, m, log[|old(log)|..]);
      SliceSplit(was, log, |old(log)|);
      return r;
    }

    /** pfs_rm_fh: one write takes the file away. */
    method RmFh(fh: nat)
      requires Valid() && fh < 256
      modifies bb, this`alloc, this`layout, this`log
      ensures Valid() && layout == map k | k in old(layout) && k != fh :: old(layout)[k]
      ensures fh !in old(layout) ==> bb[..] == old(bb[..]) && alloc == old(alloc) && log == old(log)
      ensures fh in old(layout) ==> log == old(log) + [bb[..]] && fh < e.n
      ensures forall x :: 0 <= x < e.n && x != fh ==> bb[x] == old(bb[x])
      ensures old(Formatted()) ==>
                && Formatted()
                && Files() == old(Files()) - (if fh in old(layout) then {old(Ufid(bb[fh]))} else {})
                && RecoversTo(e, bb[..], Files())
    {
      hide View, Rep, IsAlloc, Linked, Elements, CrcOf, Ptr, Blk0, FileOk, Dealloc, Coherent, DirOf, RecoversTo, WithWord, Ufid, IsMeta, Used;
      ghost var m, L, al := bb[..], layout, View(alloc);
      InView(alloc, fh);
      LiveMeta(e, m, L, al, fh);
      if IsAlloc(alloc, fh) && IsMeta(bb[fh]) {
        LiveFile(e, m, L, al, fh);
        ghost var c := L[fh].chain;
        var j := if Ptr(bb[fh], 0) == ONES then 1 else 0;
        var zero: Quad := [0, 0, 0, 0];
        WriteWord(fh, 28, zero);
        ghost var m' := bb[..];
        MagicErased(m[fh]);
        PtrKept(m[fh], j);
        ChainAvoidsMeta(e, m, c, fh);
        LinkedSame(e, m, m', c);
        alloc := ChainClear(alloc, Blk0(bb[fh], j), c);
        UpdateViews(alloc, fh);
        alloc := Dealloc(alloc, fh);
        layout := map k | k in layout && k != fh :: layout[k];
        RemovedRep(e, m, m', L, al, fh);
        if Coherent(e, m, L) {
          RemovedDir(e, m, m', L, fh);
          CoherentRecovers(e, m', layout);
        }
      } else {
        assert layout == map k | k in layout && k != fh :: layout[k];
        if Coherent(e, m, L) {
          CoherentRecovers(e, m, L);
        }
      }
    }

    /** Mounting again finds exactly the running state. */
    lemma Remount()
      requires Formatted()
      ensures MountOf(e, bb[..]) == Mounted(bb[..], View(alloc), layout)
    {
      hide Rep, View, MountOf;
      RemountIsIdentity(e, bb[..], layout, View(alloc));
    }
  }

  /** File f of L has this ufid and holds exactly data. */
  ghost predicate Holds(e: Env, m: Media, L: Layout, f: nat, u: seq<byte>, data: seq<byte>) {
    && WFMedia(e, m) && f in L && FileOk(e, m, f, L[f]) && Ufid(m[f]) == u
    && FileLen(m, f, L[f]) == |data| && data <= Bytes(e, m, L[f].chain)
  }

  /** A live metablock has this ufid. */
  ghost predicate Known(m: Media, L: Layout, u: seq<byte>) {
    exists k :: k in L && k < |m| && |m[k]| == 32 && Ufid(m[k]) == u
  }

  /** The first file with this ufid holds exactly data. */
  ghost predicate Held(e: Env, m: Media, L: Layout, u: seq<byte>, data: seq<byte>) {
    exists k: nat :: Holds(e, m, L, k, u, data) && forall l :: l in L && l < k ==> Ufid(m[l]) != u
  }

  /** There is room for a chain of sz bytes and, for a new file, its metablock; the old chain still counts
      as taken. */
  ghost predicate Fits(e: Env, m: Media, L: Layout, al: set<nat>, next: nat, u: seq<byte>, sz: nat) {
    Room(e.n, al, next, LinkCount(sz) + if Known(m, L, u) then 0 else 1)
  }

  lemma FoundHeld(e: Env, m: Media, L: Layout, al: set<nat>, next: nat, f: nat, u: seq<byte>, data: seq<byte>)
    requires WFMedia(e, m) && f in L && f < e.n && FileOk(e, m, f, L[f]) && Ufid(m[f]) == u
    requires forall l :: l in L && l < f ==> l < e.n && Ufid(m[l]) != u
    ensures InRange(e, L[f].chain)
    ensures Held(e, m, L, u, data) <==> FileLen(m, f, L[f]) == |data| && data <= Bytes(e, m, L[f].chain)
    ensures Fits(e, m, L, al, next, u, |data|) <==> Room(e.n, al, next, LinkCount(|data|))
  {
    hide FileOk, Bytes, Ufid, FileLen, Room;
    LinkedFile(e, m, f, L[f]);
    assert Holds(e, m, L, f, u, data) <==> FileLen(m, f, L[f]) == |data| && data <= Bytes(e, m, L[f].chain);
  }

  lemma NotHeld(e: Env, m: Media, L: Layout, al: set<nat>, next: nat, u: seq<byte>, data: seq<byte>)
    requires WFMedia(e, m) && forall l :: l in L ==> l < e.n && Ufid(m[l]) != u
    ensures !Held(e, m, L, u, data)
    ensures Fits(e, m, L, al, next, u, |data|) <==> Room(e.n, al, next, LinkCount(|data|) + 1)
  {
    hide FileOk, Bytes, Ufid, FileLen, Room;
  }

  /** What the first half of a save leaves. */
  ghost predicate Prepared(e: Env, m: Media, m': Media, L: Layout, al: set<nat>, used: set<nat>, next0: nat, next: nat,
                           fh: int, held: bool, u: seq<byte>, data: seq<byte>) {
    && WFMedia(e, m) && WFMedia(e, m') && Rep(e, m, L, al) && FreeWritten(e, m, m', al)
    && (held <==> Held(e, m, L, u, data))
    && (held ==> fh >= 0 && fh in L && Holds(e, m, L, fh, u, data) && (Coherent(e, m, L) ==> DirOf(e, m, L) == DirOf(e, m, L)[u := data]))
    && (Coherent(e, m, L) && u in DirOf(e, m, L) && DirOf(e, m, L)[u] == data ==> held)
    && (fh < 0 ==> fh == -1 && !Fits(e, m, L, al, next0, u, |data|))
    && (fh >= 0 && !held ==>
          && fh < e.n && IsMeta(m'[fh]) && used == al + {fh} && Ufid(m'[fh]) == u
          && (fh in L || (fh !in al && Ptr(m'[fh], 0) == ONES && Ptr(m'[fh], 1) == ONES))
          && (fh in L || forall k :: k in L ==> k < e.n && Ufid(m[k]) != u)
          && (Fits(e, m, L, al, next0, u, |data|) <==> Room(e.n, al + {fh}, next, LinkCount(|data|))))
  }

  /** On a formatted medium, in terms of the directory. */
  lemma HeldIff(e: Env, m: Media, L: Layout, u: seq<byte>, data: seq<byte>)
    requires WFMedia(e, m) && Coherent(e, m, L)
    ensures Known(m, L, u) <==> u in DirOf(e, m, L)
    ensures Held(e, m, L, u, data) <==> u in DirOf(e, m, L) && DirOf(e, m, L)[u] == data
  {
    hide Coherent, DirOf, Bytes, Ufid, FileOk, FileLen;
    CoherentUnique(e, m, L);
    if k :| k in L && k < |m| && |m[k]| == 32 && Ufid(m[k]) == u {
      FoundInDir(e, m, L, k);
      assert Held(e, m, L, u, data) <==> Holds(e, m, L, k, u, data);
    } else {
      NotInDir(e, m, L, u);
    }
  }

  lemma StoredParts(e: Env, m: Media, busy: set<nat>, data: seq<byte>, c: seq<nat>, pad: nat, q: Quad)
    requires Stored(e, m, busy, data, c, pad, q)
    ensures c != [] && c[0] < e.n && pad < 31
  {
  }

  /** After writes to blocks that are free, other than f, the state is as before. */
  lemma FreeWrittenRep(e: Env, m: Media, m': Media, L: Layout, al: set<nat>, f: nat)
    requires FreeWritten(e, m, m', al + {f}) && Rep(e, m, L, al) && f < e.n
    ensures FreeWritten(e, m, m', al) && WFMedia(e, m') && Rep(e, m', L, al)
    ensures m'[f] == m[f] && forall x :: 0 <= x < e.n && x in al ==> m'[x] == m[x]
  {
    hide Rep, StaleOk;
    FreeWrittenLess(e, m, m', al, f);
    FreeWrittenKeeps(e, m, m', L, al);
  }

  lemma FreeWrittenKeeps(e: Env, m: Media, m': Media, L: Layout, al: set<nat>)
    requires FreeWritten(e, m, m', al) && Rep(e, m, L, al)
    ensures WFMedia(e, m') && Rep(e, m', L, al) && forall x :: 0 <= x < e.n && x in al ==> m'[x] == m[x]
  {
    hide Rep, Used, StaleOk;
    assert al == Used(L) by { RepUsed(e, m, L, al); }
    FreeWrittenFiles(e, m, m', L, al);
  }

  lemma RepUsed(e: Env, m: Media, L: Layout, al: set<nat>)
    requires WFMedia(e, m) && Rep(e, m, L, al)
    ensures al == Used(L)
  {
    hide LiveOk, Disjoint, Used;
  }

  lemma FreeWrittenLess(e: Env, m: Media, m': Media, al: set<nat>, f: nat)
    requires FreeWritten(e, m, m', al + {f})
    ensures FreeWritten(e, m, m', al)
  {
    hide StaleOk;
  }

  lemma WrittenUntouched(e: Env, m: Media, m': Media, L: Layout, al: set<nat>, f: nat, images: seq<Media>)
    requires WFMedia(e, m) && Rep(e, m, L, al) && Sole(e, m, L, f)
    requires FreeWritten(e, m, m', al + {f}) && forall t :: 0 <= t < |images| ==> FreeWritten(e, m, images[t], al + {f})
    ensures Untouched(e, m, m', L, images) && Sole(e, m', L, f)
  {
    hide Coherent, Rep, FreeWritten, DirOf, RecoversTo, Ufid;
    forall t | 0 <= t < |images| ensures FreeWritten(e, m, images[t], al) {
      FreeWrittenLess(e, m, images[t], al, f);
    }
    FreeWrittenRep(e, m, m', L, al, f);
    FreeWrittenUntouched(e, m, m', L, al, images);
    RepUsed(e, m, L, al);
    forall k | k in L && k != f ensures k < e.n && Ufid(m'[k]) != Ufid(m'[f]) {
      assert InUse(L, k);
    }
  }

  lemma PublishedHolds(e: Env, m: Media, L: Layout, al: set<nat>, f: nat, was: Block, data: seq<byte>)
    requires WFMedia(e, m) && Rep(e, m, L, al) && f in L && f < e.n && |was| == 32 && Ufid(m[f]) == Ufid(was)
    requires FileLen(m, f, L[f]) == |data| && InRange(e, L[f].chain) && |data| <= 31 * |L[f].chain|
    requires Bytes(e, m, L[f].chain)[..|data|] == data
    ensures Holds(e, m, L, f, Ufid(was), data)
  {
    hide Rep, FileOk, Bytes, Ufid;
    LiveFile(e, m, L, al, f);
  }

  /** A file that already holds the data need not be written. */
  lemma NoChange(e: Env, m: Media, L: Layout, al: set<nat>, f: nat, data: seq<byte>)
    requires WFMedia(e, m) && Rep(e, m, L, al) && f in L && f < e.n && FileOk(e, m, f, L[f])
    requires FileLen(m, f, L[f]) == |data| && InRange(e, L[f].chain) && data <= Bytes(e, m, L[f].chain)
    ensures Holds(e, m, L, f, Ufid(m[f]), data)
    ensures Coherent(e, m, L) ==> DirOf(e, m, L) == DirOf(e, m, L)[Ufid(m[f]) := data]
  {
    hide Rep, FileOk, Bytes, Ufid, DirOf, Coherent;
    if Coherent(e, m, L) {
      FoundInDir(e, m, L, f);
      assert DirOf(e, m, L)[Ufid(m[f])] == data;
      assert DirOf(e, m, L) == DirOf(e, m, L)[Ufid(m[f]) := data];
    }
  }

  /** Creating the metablock, if there was none for this ufid, changes no file. */
  lemma BeforeStore(e: Env, m: Media, m': Media, L: Layout, al: set<nat>, f: nat, u: seq<byte>, images: seq<Media>)
    requires WFMedia(e, m) && Rep(e, m, L, al) && Coherent(e, m, L) && f < e.n
    requires FreeWritten(e, m, m', al) && WFMedia(e, m') && Ufid(m'[f]) == u
    requires f in L || forall k :: k in L ==> k < e.n && Ufid(m[k]) != u
    requires images == [] || images == [m']
    ensures Untouched(e, m, m', L, images) && Sole(e, m', L, f)
  {
    hide Coherent, Rep, FreeWritten, DirOf, RecoversTo, Ufid;
    FreeWrittenUntouched(e, m, m', L, al, images);
    RepUsed(e, m, L, al);
    RepFilesOk(e, m, L, al);
    forall k | k in L && k != f ensures k < e.n && Ufid(m'[k]) != Ufid(m'[f]) {
      FreeWrittenAt(e, m, m', L, al, k);
      if f in L {
        FreeWrittenAt(e, m, m', L, al, f);
        assert Unique(e, m, L) by { CoherentUnique(e, m, L); }
      }
    }
  }

  lemma FreeWrittenAt(e: Env, m: Media, m': Media, L: Layout, al: set<nat>, k: nat)
    requires FreeWritten(e, m, m', al) && al == Used(L) && k in L && FilesOk(e, m, L)
    ensures k < e.n && m'[k] == m[k]
  {
    hide StaleOk, FileOk;
    assert InUse(L, k) && FileOk(e, m, k, L[k]);
  }

  lemma CoherentUnique(e: Env, m: Media, L: Layout)
    requires WFMedia(e, m) && Coherent(e, m, L)
    ensures FilesOk(e, m, L) && Unique(e, m, L)
  {
  }

  /** The files are as before, or as before but for the one saved; each image holds one or the other. */
  ghost predicate SaveOutcome(e: Env, m: Media, L: Layout, m': Media, L': Layout, ok: bool, u: seq<byte>, data: seq<byte>, images: seq<Media>) {
    && WFMedia(e, m) && WFMedia(e, m') && Coherent(e, m, L) && Coherent(e, m', L')
    && DirOf(e, m', L') == (if ok then DirOf(e, m, L)[u := data] else DirOf(e, m, L))
    && forall t :: 0 <= t < |images| ==> RecoversTo(e, images[t], DirOf(e, m, L)) || RecoversTo(e, images[t], DirOf(e, m', L'))
  }

  lemma AfterStore(e: Env, m: Media, m': Media, L: Layout, m'': Media, L'': Layout, r: int, u: seq<byte>, data: seq<byte>,
                   xs: seq<Media>, ys: seq<Media>)
    requires Untouched(e, m, m', L, xs)
    requires if r < 0 then Untouched(e, m', m'', L'', ys) && L'' == L else Saved(e, m', L, m'', L'', u, data, ys)
    ensures SaveOutcome(e, m, L, m'', L'', r >= 0, u, data, xs + ys)
  {
    hide Coherent, DirOf, RecoversTo;
  }

  // ---------------------------------------------------------------------------------------------
  // Removal

  lemma MagicErased(b: Block)
    requires |b| == 32
    ensures var r := WithWord(b, 28, [0, 0, 0, 0]); !IsMeta(r)
  {
    SliceNew(b, 28, [0, 0, 0, 0]);
    assert MB_MAGIC[3] == 0xfe;
  }

  lemma PtrKept(b: Block, j: nat)
    requires |b| == 32 && j < 2
    ensures Blk0(WithWord(b, 28, [0, 0, 0, 0]), j) == Blk0(b, j)
  {
  }

  ghost function Without(L: Layout, f: nat): Layout {
    map k | k in L && k != f :: L[k]
  }

  lemma RemovedRep(e: Env, m: Media, m': Media, L: Layout, al: set<nat>, f: nat)
    requires WFMedia(e, m) && WFMedia(e, m') && Rep(e, m, L, al) && f in L && f < e.n && !IsMeta(m'[f])
    requires forall x :: 0 <= x < e.n && x != f ==> m'[x] == m[x]
    ensures Rep(e, m', Without(L, f), al - Elements(L[f].chain) - {f})
  {
    hide Linked, CrcOf, FileOk, IsMeta, Elements, InUse, Disjoint, Ptr;
    RepFilesOk(e, m, L, al);
    RepUsed(e, m, L, al);
    LiveFile(e, m, L, al, f);
    FileOkMeta(e, m, f, L[f]);
    UsedWithout(e, m, L, f);
    DisjointWithout(L, f);
    forall k | k in L && k != f ensures LiveOk(e, m', k, L[k]) {
      assert LiveOk(e, m, k, L[k]);
      OtherFiles(e, m, m', L, f, k);
    }
  }

  lemma DisjointWithout(L: Layout, f: nat)
    requires Disjoint(L)
    ensures Disjoint(Without(L, f))
  {
  }

  lemma UsedWithout(e: Env, m: Media, L: Layout, f: nat)
    requires WFMedia(e, m) && FilesOk(e, m, L) && Disjoint(L) && f in L
    ensures Used(Without(L, f)) == Used(L) - Elements(L[f].chain) - {f}
  {
    hide FileOk, IsMeta, Elements;
    ChainsApart(e, m, L);
    forall x ensures InUse(Without(L, f), x) <==> InUse(L, x) && x !in L[f].chain && x != f {
      if InUse(L, x) && x !in L {
        var k :| k in L && x in L[k].chain;
        assert k != f ==> k in Without(L, f) && x in Without(L, f)[k].chain;
      }
    }
  }

  lemma RemovedCoherent(e: Env, m: Media, m': Media, L: Layout, f: nat)
    requires WFMedia(e, m) && WFMedia(e, m') && Coherent(e, m, L) && f in L && f < e.n && !IsMeta(m'[f])
    requires forall x :: 0 <= x < e.n && x != f ==> m'[x] == m[x]
    ensures Coherent(e, m', Without(L, f))
    ensures forall k :: k in L && k != f ==> k < e.n && m'[k] == m[k] && FileOk(e, m, k, L[k]) && SameFile(e, m, m', k, L[k])
  {
    hide Linked, CrcOf, FileOk, IsMeta, SameFile, Pad, Ufid, Ptr, Disjoint;
    var L' := Without(L, f);
    assert FileOk(e, m, f, L[f]);
    FileOkMeta(e, m, f, L[f]);
    DisjointWithout(L, f);
    forall k | k in L'
      ensures k < e.n && m'[k] == m[k] && FileOk(e, m, k, L[k]) && SameFile(e, m, m', k, L[k]) && FileOk(e, m', k, L'[k])
    {
      OtherFiles(e, m, m', L, f, k);
    }
    assert FilesOk(e, m', L');
  }

  /** Erasing the magic removes exactly that file. */
  lemma RemovedDir(e: Env, m: Media, m': Media, L: Layout, f: nat)
    requires WFMedia(e, m) && WFMedia(e, m') && Coherent(e, m, L) && f in L && f < e.n && !IsMeta(m'[f])
    requires forall x :: 0 <= x < e.n && x != f ==> m'[x] == m[x]
    ensures var L' := Without(L, f); Coherent(e, m', L') && DirOf(e, m', L') == DirOf(e, m, L) - {Ufid(m[f])}
  {
    hide FileOk, Coherent, Content, Ufid, Pad, SameFile, DirOf, IsMeta;
    var L' := Without(L, f);
    RemovedCoherent(e, m, m', L, f);
    var d, d' := DirOf(e, m, L), DirOf(e, m', L');
    CoherentUnique(e, m, L);
    DirHas(e, m, L, f);
    forall u | u in d' ensures u in d && u != Ufid(m[f]) && d'[u] == d[u] {
      var k := DirFrom(e, m', L', u);
      DirHas(e, m', L', k);
      DirHas(e, m, L, k);
      SameFileContent(e, m, m', k, L[k]);
      UniqueAt(e, m, L, k, f);
    }
    forall u | u in d && u != Ufid(m[f]) ensures u in d' {
      var k := DirFrom(e, m, L, u);
      DirHas(e, m', L', k);
    }
  }

  lemma UniqueAt(e: Env, m: Media, L: Layout, k: nat, l: nat)
    requires WFMedia(e, m) && Coherent(e, m, L) && k in L && l in L && k != l
    ensures k < e.n && l < e.n && Ufid(m[k]) != Ufid(m[l])
  {
    hide Linked, CrcOf, Ufid, Clean, Disjoint;
    CoherentUnique(e, m, L);
    assert FileOk(e, m, k, L[k]) && FileOk(e, m, l, L[l]);
  }

  lemma NotInDir(e: Env, m: Media, L: Layout, u: seq<byte>)
    requires WFMedia(e, m) && Coherent(e, m, L) && forall k :: k in L ==> k < e.n && Ufid(m[k]) != u
    ensures u !in DirOf(e, m, L)
  {
    hide FileOk, Content, Ufid;
  }

  /** The writes since l0 are those up to l1 and those after. */
  lemma LogSplit(l0: seq<Media>, l1: seq<Media>, l2: seq<Media>)
    requires l0 <= l1 <= l2
    ensures l2[|l0|..] == l1[|l0|..] + l2[|l1|..]
  {
  }

  /** One block of a walk along chain c. */
  lemma ChainAt(e: Env, m: Media, c: seq<nat>, k: nat)
    requires WFMedia(e, m) && k < |c| && InRange(e, c) && Linked(e, m, c[k..])
    ensures c[k] < e.n && Bytes(e, m, c[..k + 1]) == Bytes(e, m, c[..k]) + Payload(m[c[k]])
    ensures Next(m[c[k]]) == 255 <==> k + 1 == |c|
    ensures if k + 1 < |c| then Next(m[c[k]]) == c[k + 1] && Linked(e, m, c[k + 1..]) else c[..k + 1] == c
  {
    hide Linked, Bytes, Next, Payload;
    BytesAdd(e, m, c[..k], c[k]);
    assert c[..k + 1] == c[..k] + [c[k]] && c[k..][1..] == c[k + 1..];
    NextEnds(e, m, c[k..]);
  }

  /** Whether a file holds data already shows in its length and bytes. */
  lemma SameContent(e: Env, m: Media, L: Layout, k: int, u: seq<byte>, data: seq<byte>)
    requires WFMedia(e, m) && Coherent(e, m, L)
    requires if k >= 0 then k in L && k < e.n && Ufid(m[k]) == u else forall l :: l in L ==> l < e.n && Ufid(m[l]) != u
    ensures k >= 0 ==> FileOk(e, m, k, L[k]) && InRange(e, L[k].chain)
    ensures u in DirOf(e, m, L) && DirOf(e, m, L)[u] == data ==>
              k >= 0 && FileLen(m, k, L[k]) == |data| && data <= Bytes(e, m, L[k].chain)
  {
    hide FileOk, Coherent, DirOf, Bytes, Ufid;
    if k >= 0 {
      FoundInDir(e, m, L, k);
    } else {
      NotInDir(e, m, L, u);
    }
  }

  lemma FoundInDir(e: Env, m: Media, L: Layout, k: nat)
    requires WFMedia(e, m) && Coherent(e, m, L) && k in L
    ensures k < e.n && FileOk(e, m, k, L[k]) && InRange(e, L[k].chain)
    ensures Ufid(m[k]) in DirOf(e, m, L) && 0 <= FileLen(m, k, L[k]) <= |Bytes(e, m, L[k].chain)|
    ensures DirOf(e, m, L)[Ufid(m[k])] == Bytes(e, m, L[k].chain)[..FileLen(m, k, L[k])]
  {
    hide FileOk, Coherent, DirOf, Bytes, Ufid;
    DirHas(e, m, L, k);
    LinkedFile(e, m, k, L[k]);
  }

  lemma LinkedFile(e: Env, m: Media, k: nat, sel: Sel)
    requires WFMedia(e, m) && FileOk(e, m, k, sel)
    ensures sel.chain != [] && InRange(e, sel.chain)
  {
  }

  /** The first bytes of dst replaced by those of src, as far as both reach. */
  function Overlay(src: seq<byte>, dst: seq<byte>): seq<byte> {
    if |src| <= |dst| then src + dst[|src|..] else src[..|dst|]
  }

  lemma OverlayNone(d: seq<byte>)
    ensures Overlay([], d) == d
  {
  }

  lemma OverlayAdd(b: seq<byte>, p: seq<byte>, d: seq<byte>)
    ensures var at := if |b| < |d| then |b| else |d|;
            var sz := if |d| - at < |p| then |d| - at else |p|;
            |Overlay(b, d)| == |d| && Overlay(b + p, d) == Overlay(b, d)[..at] + p[..sz] + Overlay(b, d)[at + sz..]
  {
  }

  lemma OverlayIs(b: seq<byte>, d: seq<byte>)
    ensures |Overlay(b, d)| == |d| && forall k :: 0 <= k < |d| && k < |b| ==> Overlay(b, d)[k] == b[k]
  {
  }

  /** memcpy to position at. */
  method CopyBlock(data: array<byte>, at: nat, p: seq<byte>)
    requires at + |p| <= data.Length
    modifies data
    ensures data[..] == old(data[..])[..at] + p + old(data[..])[at + |p|..]
  {
    forall t | 0 <= t < |p| {
      data[at + t] := p[t];
    }
  }

  /** memcmp: the difference at the first position where a and b differ. */
  function MemCmp(a: seq<byte>, b: seq<byte>): int
    requires |a| == |b|
  {
    if a == [] then 0 else if a[0] != b[0] then a[0] as int - b[0] as int else MemCmp(a[1..], b[1..])
  }

  lemma {:induction false} MemCmpZero(a: seq<byte>, b: seq<byte>)
    requires |a| == |b|
    ensures MemCmp(a, b) == 0 <==> a == b
    decreases |a|
  {
    if a != [] {
      MemCmpZero(a[1..], b[1..]);
      assert a == [a[0]] + a[1..] && b == [b[0]] + b[1..];
    }
  }

  lemma ComparePart(data: seq<byte>, b: seq<byte>, p: seq<byte>, ptr: nat, sz: nat)
    requires ptr <= |b| && ptr + sz <= |data| && |p| >= sz && (ptr == |b| || sz == 0) && data[..ptr] == b[..ptr]
    ensures data[ptr..ptr + sz] == p[..sz] <==> data[..ptr + sz] == (b + p)[..ptr + sz]
  {
    assert (b + p)[..ptr + sz] == b[..ptr] + p[..sz];
    assert data[..ptr + sz] == data[..ptr] + data[ptr..ptr + sz];
  }

  lemma BytesNone(e: Env, m: Media)
    requires WFMedia(e, m)
    ensures Bytes(e, m, []) == []
  {
  }

  lemma BytesAdd(e: Env, m: Media, c: seq<nat>, n: nat)
    requires WFMedia(e, m) && InRange(e, c) && n < e.n
    ensures InRange(e, c + [n]) && Bytes(e, m, c + [n]) == Bytes(e, m, c) + Payload(m[n])
  {
    assert (c + [n])[..|c|] == c;
  }

  lemma {:induction false} BytesPrefix(e: Env, m: Media, c: seq<nat>, k: nat)
    requires WFMedia(e, m) && InRange(e, c) && k <= |c|
    ensures Bytes(e, m, c[..k]) <= Bytes(e, m, c)
    decreases |c|
  {
    if k < |c| {
      BytesPrefix(e, m, c[..|c| - 1], k);
      assert c[..|c| - 1][..k] == c[..k];
    } else {
      assert c[..k] == c;
    }
  }

  /** The live pointer of a mounted file and its chain. */
  lemma LiveFile(e: Env, m: Media, L: Layout, al: set<nat>, f: nat)
    requires WFMedia(e, m) && Rep(e, m, L, al) && f in L
    ensures f < e.n && FileOk(e, m, f, L[f]) && Linked(e, m, L[f].chain) && InRange(e, L[f].chain) && L[f].chain != []
    ensures L[f].slot == (if Ptr(m[f], 0) == ONES then 1 else 0) && Blk0(m[f], L[f].slot) == L[f].chain[0]
  {
    hide CrcOf, Linked, Ptr, Blk0, IsMeta, Disjoint;
    assert LiveOk(e, m, f, L[f]);
    LiveSlot(e, m, f, L[f]);
    LinkedNonempty(e, m, L[f].chain);
  }

  lemma LinkedNonempty(e: Env, m: Media, c: seq<nat>)
    requires WFMedia(e, m) && Linked(e, m, c)
    ensures c != []
  {
  }

  /** Slot j that meta_update picks is the empty one, and the stored chain is ready for it. */
  lemma ReadyFromStored(e: Env, m: Media, L: Layout, al: set<nat>, f: nat, data: seq<byte>, c: seq<nat>, pad: nat, q: Quad, w: Quad)
    requires WFMedia(e, m) && Rep(e, m, L, al) && f < e.n && IsMeta(m[f])
    requires Stored(e, m, al + {f}, data, c, pad, q) && w[0] as nat == c[0]
    requires f in L || (f !in al && Ptr(m[f], 0) == ONES && Ptr(m[f], 1) == ONES)
    ensures var j: Slot := if Ptr(m[f], 0) != ONES then 1 else 0;
            && Ready(e, m, L, al, f, j, c, q, w)
            && Ptr(m[f], j) == ONES && (Ptr(m[f], 1 - j) != ONES <==> f in L)
            && (f in L ==> FileOk(e, m, f, L[f]) && L[f].slot == 1 - j && Linked(e, m, L[f].chain)
                           && Blk0(m[f], 1 - j) == L[f].chain[0])
  {
    hide CrcOf, Bytes, Linked, Ptr, Blk0, Crc, IsMeta, Disjoint;
    if f in L {
      assert LiveOk(e, m, f, L[f]);
      LiveSlot(e, m, f, L[f]);
    }
    assert forall x :: x in c ==> x !in al + {f} && !InUse(L, x);
  }

  /** The state meta_update leaves, for any mounted medium. */
  lemma PublishRep(e: Env, m: Media, L: Layout, al: set<nat>, f: nat, j: Slot, c: seq<nat>, q: Quad, w: Quad, data: seq<byte>, pad: nat)
    requires WFMedia(e, m) && Ready(e, m, L, al, f, j, c, q, w) && w[1] as nat == pad
    requires Stored(e, m, al + {f}, data, c, pad, q)
    ensures var m' := Done(e, m, f, j, q, w); var L' := L[f := Sel(j, c)];
            && Rep(e, m', L', al + {f} + Elements(c) - (if f in L then Elements(L[f].chain) else {}))
            && FileLen(m', f, L'[f]) == |data| && Bytes(e, m', c)[..|data|] == data && Ufid(m'[f]) == Ufid(m[f])
            && forall x :: 0 <= x < e.n && x != f ==> m'[x] == m[x]
  {
    hide Linked, CrcOf, WithWord, FileOk, Disjoint, Bytes, Elements, IsMeta, Ptr, InUse;
    DoneRep(e, m, L, al, f, j, c, q, w);
    RepFilesOk(e, m, L, al);
    UsedSwap(e, m, L, f, Sel(j, c));
    StepsChangeSlot(e, m, f, j, q, w);
    NewFileOk(e, m, Done(e, m, f, j, q, w), L, al, f, j, c, q, w);
  }

  /** Whatever prefix of the writes of meta_update reaches the medium, mounting finds the old or the new directory. */
  lemma PublishRecovers(e: Env, m: Media, L: Layout, al: set<nat>, f: nat, j: Slot, c: seq<nat>, q: Quad, w: Quad, data: seq<byte>, pad: nat)
    requires WFMedia(e, m) && Ready(e, m, L, al, f, j, c, q, w) && w[1] as nat == pad && Coherent(e, m, L)
    requires Stored(e, m, al + {f}, data, c, pad, q)
    requires forall k :: k in L && k != f ==> k < e.n && Ufid(m[k]) != Ufid(m[f])
    ensures var d := DirOf(e, m, L); var d' := d[Ufid(m[f]) := data];
            var m1 := CrcSet(e, m, f, j, q); var m2 := PtrSet(e, m1, f, j, w); var m3 := Done(e, m, f, j, q, w);
            && RecoversTo(e, m1, d) && (RecoversTo(e, m2, d) || RecoversTo(e, m2, d')) && RecoversTo(e, m3, d')
            && (f !in L ==> m3 == m2)
            && Coherent(e, m3, L[f := Sel(j, c)]) && DirOf(e, m3, L[f := Sel(j, c)]) == d'
  {
    hide Linked, CrcOf, WithWord, FileOk, Bytes, Elements, Rep, Coherent, DirOf, MountOf, RecoversTo, InUse, Used, Ufid, IsMeta, Crc, Blk0, Pad;
    var m1 := CrcSet(e, m, f, j, q);
    var m2 := PtrSet(e, m1, f, j, w);
    var m3 := Done(e, m, f, j, q, w);
    StepsChangeSlot(e, m, f, j, q, w);
    CrcStep(e, m, L, al, f, j, c, q, w);
    CoherentRecovers(e, m1, L);
    if j == 0 {
      NewStep(e, m, m2, L, al, f, j, c, q, w);
      CoherentRecovers(e, m2, L[f := Sel(j, c)]);
    } else {
      PtrStepOld(e, m, L, al, f, c, q, w);
      CoherentRecovers(e, m2, L);
    }
    NewStep(e, m, m3, L, al, f, j, c, q, w);
    CoherentRecovers(e, m3, L[f := Sel(j, c)]);
    PtrCleared(m2[f], 1 - j);
  }

  lemma PublishSaved(e: Env, m: Media, L: Layout, al: set<nat>, f: nat, j: Slot, c: seq<nat>, q: Quad, w: Quad,
                     data: seq<byte>, pad: nat, images: seq<Media>)
    requires WFMedia(e, m) && Ready(e, m, L, al, f, j, c, q, w) && w[1] as nat == pad && Sole(e, m, L, f)
    requires Stored(e, m, al + {f}, data, c, pad, q)
    requires var m1 := CrcSet(e, m, f, j, q); var m2 := PtrSet(e, m1, f, j, w);
             images == [m1, m2] + (if f in L then [Done(e, m, f, j, q, w)] else [])
    ensures Saved(e, m, L, Done(e, m, f, j, q, w), L[f := Sel(j, c)], Ufid(m[f]), data, images)
  {
    hide Coherent, DirOf, RecoversTo, Ready, Stored, CrcSet, PtrSet, Done, Ufid;
    PublishRecovers(e, m, L, al, f, j, c, q, w, data, pad);
  }

  /** A live pointer is not the empty one. */
  lemma LiveSlot(e: Env, m: Media, k: nat, sel: Sel)
    requires WFMedia(e, m) && LiveOk(e, m, k, sel)
    ensures k < e.n && Ptr(m[k], sel.slot) != ONES && Ptr(m[k], 1 - sel.slot) == ONES
  {
    if Ptr(m[k], sel.slot) == ONES {
      EmptyPtr(m[k], sel.slot);
    }
  }

  /** Chain c holds exactly data, on blocks outside busy. */
  ghost predicate Stored(e: Env, m: Media, busy: set<nat>, data: seq<byte>, c: seq<nat>, pad: nat, crc: Quad) {
    && WFMedia(e, m) && c != [] && Linked(e, m, c) && InRange(e, c) && (forall x :: x in c ==> x !in busy)
    && CrcOf(e, m, c) == crc && pad < 31 && 31 * |c| - pad == |data| && Bytes(e, m, c)[..|data|] == data
  }

  /** Each block of c but the last is linked to the next. */
  ghost predicate Links(m: Media, c: seq<nat>)
    requires forall k :: 0 <= k < |c| ==> c[k] < |m| && |m[c[k]]| == 32
  {
    forall k :: 0 <= k < |c| - 1 ==> Next(m[c[k]]) == c[k + 1]
  }

  /** All of chain c but its last block is written and linked, and holds the start of data. */
  ghost predicate Part(e: Env, m: Media, busy: set<nat>, data: seq<byte>, c: seq<nat>, crc: Quad) {
    && WFMedia(e, m) && c != [] && InRange(e, c) && (forall x :: x in c ==> x !in busy)
    && Distinct(c) && Links(m, c) && InRange(e, c[..|c| - 1]) && CrcOf(e, m, c[..|c| - 1]) == crc
    && 31 * (|c| - 1) <= |data| && Bytes(e, m, c[..|c| - 1]) == data[..31 * (|c| - 1)]
  }

  /** All images from position n on differ from m only in blocks that are not busy. */
  ghost predicate ImagesFree(e: Env, m: Media, log: seq<Media>, n: nat, busy: set<nat>) {
    n <= |log| && forall t :: n <= t < |log| ==> FreeWritten(e, m, log[t], busy)
  }

  lemma SliceSplit(log: seq<Media>, log': seq<Media>, n: nat)
    requires n <= |log| && log <= log'
    ensures log'[n..] == log[n..] + log'[|log|..]
  {
  }

  lemma ImagesNone(e: Env, m: Media, log: seq<Media>, busy: set<nat>)
    ensures ImagesFree(e, m, log, |log|, busy)
  {
  }

  lemma ImagesAdd(e: Env, m: Media, log: seq<Media>, n: nat, busy: set<nat>)
    requires ImagesFree(e, m, log, n, busy)
    ensures forall m': Media :: FreeWritten(e, m, m', busy) ==> ImagesFree(e, m, log + [m'], n, busy)
  {
    hide FreeWritten;
  }

  /** Chain c, found free, holds the start of data except for its last block, and is all that was written. */
  ghost predicate Writing(e: Env, m0: Media, m: Media, log: seq<Media>, n0: nat, busy: set<nat>, used: set<nat>,
                          data: seq<byte>, c: seq<nat>, crc: Quad) {
    used == busy + Elements(c) && Part(e, m, busy, data, c, crc) && FreeWritten(e, m0, m, busy) && ImagesFree(e, m0, log, n0, busy)
  }

  /** After a round of chain_write: there was no room, or the chain is complete, or goes on in block link. */
  ghost predicate RoundDone(e: Env, m0: Media, m: Media, log: seq<Media>, n0: nat, busy: set<nat>, used: set<nat>,
                            data: seq<byte>, c: seq<nat>, link: int, pad: nat, crc: Quad, next0: nat) {
    if link < 0 then !Room(e.n, busy, next0, LinkCount(|data|))
    else if link == 255 then
      Stored(e, m, busy, data, c, pad, crc) && used == busy + Elements(c) && Room(e.n, busy, next0, LinkCount(|data|))
    else
      31 * |c| < |data| && Writing(e, m0, m, log, n0, busy, used, data, c + [link], crc)
  }

  lemma WritingFirst(e: Env, m: Media, log: seq<Media>, busy: set<nat>, used: set<nat>, data: seq<byte>, first: nat)
    requires WFMedia(e, m) && first < e.n && first !in busy && used == busy + {first}
    requires FreeWritten(e, m, m, busy) && ImagesFree(e, m, log, |log|, busy)
    ensures Writing(e, m, m, log, |log|, busy, used, data, [first], e.init)
  {
    hide FreeWritten, ImagesFree, Elements, Part;
    ElementsNone();
    ElementsAdd([], first);
    PartNone(e, m, data, first);
    assert [] + [first] == [first];
  }

  lemma FreeWrittenRefl(e: Env, m: Media, busy: set<nat>)
    requires WFMedia(e, m)
    ensures FreeWritten(e, m, m, busy)
  {
  }

  lemma FreeWrittenStep(e: Env, m0: Media, m: Media, i: nat, b: Block, busy: set<nat>)
    requires FreeWritten(e, m0, m, busy) && i < e.n && i !in busy && |b| == 32 && StaleOk(b)
    ensures FreeWritten(e, m0, m[i := b], busy)
  {
    hide StaleOk;
  }

  /** A data block as chain_write makes it; it is never taken for a metablock. */
  lemma BlockParts(payload: seq<byte>, link: int)
    requires |payload| == 31 && 0 <= link < 256 && link != 254
    ensures var b := payload + [link as byte]; |b| == 32 && Payload(b) == payload && Next(b) == link && !IsMeta(b) && StaleOk(b)
  {
    var b := payload + [link as byte];
    assert b[..31] == payload;
    MetaEndsIn254(b);
  }

  lemma PartNone(e: Env, m: Media, data: seq<byte>, first: nat)
    requires WFMedia(e, m) && first < e.n
    ensures forall busy: set<nat> :: first !in busy ==> Part(e, m, busy, data, [first], e.init)
  {
    assert [first][..0] == [];
  }

  /** Writing the last block of a partly written chain. */
  lemma LastWritten(e: Env, m: Media, busy: set<nat>, data: seq<byte>, c: seq<nat>, crc: Quad, payload: seq<byte>, link: int)
    requires c != [] && Part(e, m, busy, data, c, crc) && |payload| == 31 && 0 <= link < 256
    ensures var m' := m[c[|c| - 1] := payload + [link as byte]];
            && WFMedia(e, m') && Next(m'[c[|c| - 1]]) == link
            && Links(m', c) && CrcOf(e, m', c) == e.step(crc, payload)
            && Bytes(e, m', c) == data[..31 * (|c| - 1)] + payload
  {
    hide StaleOk;
    var n := |c| - 1;
    var m', t := m[c[n] := payload + [link as byte]], c[..n];
    assert Payload(m'[c[n]]) == payload;
    forall x | x in t ensures m'[x] == m[x] {
      var k :| 0 <= k < n && t[k] == x;
      assert c[k] == x && c[k] != c[n];
    }
    CrcSame(e, m, m', t);
    BytesSame(e, m, m', t);
  }

  /** Writing the last block with the final link completes the chain. */
  lemma PartDone(e: Env, m: Media, busy: set<nat>, data: seq<byte>, c: seq<nat>, crc: Quad, payload: seq<byte>, pad: nat)
    requires |payload| == 31 && pad < 31 && 31 * |c| - pad == |data|
    requires c != [] && Part(e, m, busy, data, c, crc) && payload[..31 - pad] == data[31 * (|c| - 1)..]
    ensures Stored(e, m[c[|c| - 1] := payload + [255]], busy, data, c, pad, e.step(crc, payload))
  {
    hide Linked, CrcOf, Bytes, Next;
    LastWritten(e, m, busy, data, c, crc, payload, 255);
    var m' := m[c[|c| - 1] := payload + [255]];
    LinkedFromIndex(e, m', c);
    var p := 31 * (|c| - 1);
    assert (data[..p] + payload)[..|data|] == data[..p] + payload[..31 - pad] == data;
  }

  /** Writing the last block with a link to a further free block extends the written part. */
  lemma PartStep(e: Env, m: Media, busy: set<nat>, used: set<nat>, data: seq<byte>, c: seq<nat>, crc: Quad, payload: seq<byte>, link: nat)
    requires |payload| == 31 && link < e.n && link !in used && used == busy + Elements(c)
    requires c != [] && Part(e, m, busy, data, c, crc)
    requires 31 * |c| <= |data| && payload == data[31 * (|c| - 1)..31 * |c|]
    ensures link < 256 && Part(e, m[c[|c| - 1] := payload + [link as byte]], busy, data, c + [link], e.step(crc, payload))
  {
    hide Linked, CrcOf, Bytes, Next, Distinct, Links, Elements, InRange, WFMedia, Part;
    PartParts(e, m, busy, data, c, crc);
    LastWritten(e, m, busy, data, c, crc, payload, link);
    NewLink(busy, c, link);
    SliceExtended(data, 31 * (|c| - 1), payload);
    PartFrom(e, m[c[|c| - 1] := payload + [link as byte]], busy, data, c, e.step(crc, payload), link);
  }

  /** All of chain c is written, and linked to a further block. */
  lemma PartFrom(e: Env, m: Media, busy: set<nat>, data: seq<byte>, c: seq<nat>, crc: Quad, link: nat)
    requires WFMedia(e, m) && c != [] && InRange(e, c) && (forall x :: x in c ==> x !in busy) && link < e.n && link !in busy
    requires Distinct(c) && link !in c && Links(m, c) && Next(m[c[|c| - 1]]) == link
    requires CrcOf(e, m, c) == crc && 31 * |c| <= |data| && Bytes(e, m, c) == data[..31 * |c|]
    ensures Part(e, m, busy, data, c + [link], crc)
  {
    hide Linked, CrcOf, Bytes, Next, Distinct, Links;
    var c' := c + [link];
    assert c'[..|c'| - 1] == c && |c'| - 1 == |c|;
    DistinctAdd(c, link);
    LinksAdd(m, c, link);
  }

  lemma SliceExtended(data: seq<byte>, n: nat, payload: seq<byte>)
    requires n + 31 <= |data| && payload == data[n..n + 31]
    ensures data[..n] + payload == data[..n + 31]
  {
  }

  /** The 31 bytes of data from p on, padded with zeros. */
  function BlockOf(data: seq<byte>, p: nat): (b: seq<byte>)
    requires p < |data|
    ensures |b| == 31
  {
    if |data| - p < 31 then data[p..] + seq<byte>(31 - (|data| - p), _ => 0) else data[p..p + 31]
  }

  /** There was room for a chain all of whose blocks were found free. */
  lemma StoredRoom(e: Env, m: Media, busy: set<nat>, data: seq<byte>, c: seq<nat>, crc: Quad, next: nat)
    requires Part(e, m, busy, data, c, crc) && Room(e.n, busy, next, 1)
    ensures Room(e.n, busy, next, |c|)
  {
    hide CrcOf, Bytes, Links, Room;
    PartParts(e, m, busy, data, c, crc);
    RoomTaken(e.n, busy, next, c);
  }

  lemma PartParts(e: Env, m: Media, busy: set<nat>, data: seq<byte>, c: seq<nat>, crc: Quad)
    requires Part(e, m, busy, data, c, crc)
    ensures e.n < 253 && c != [] && InRange(e, c) && Distinct(c) && (forall x :: x in c ==> x !in busy) && c[|c| - 1] < |m| == e.n
  {
    hide CrcOf, Bytes, Links;
  }

  lemma NewLink(busy: set<nat>, c: seq<nat>, link: nat)
    requires link !in busy + Elements(c)
    ensures link !in busy && link !in c
  {
  }

  lemma DistinctAdd(c: seq<nat>, x: nat)
    requires Distinct(c) && x !in c
    ensures Distinct(c + [x])
  {
  }

  lemma LinksAdd(m: Media, c: seq<nat>, link: nat)
    requires c != [] && (forall k :: 0 <= k < |c| ==> c[k] < |m| && |m[c[k]]| == 32) && link < |m| && |m[link]| == 32
    requires Links(m, c) && Next(m[c[|c| - 1]]) == link
    ensures Links(m, c + [link])
  {
    hide Next;
  }

  lemma ChainAvoidsMeta(e: Env, m: Media, c: seq<nat>, f: nat)
    requires WFMedia(e, m) && Linked(e, m, c) && f < e.n && IsMeta(m[f])
    ensures f !in c
  {
    LinkedBlocks(e, m, c);
  }

  /** The allocated metablocks are exactly the live ones. */
  lemma LiveMeta(e: Env, m: Media, L: Layout, alloc: set<nat>, i: nat)
    requires WFMedia(e, m) && Rep(e, m, L, alloc)
    ensures i in alloc ==> i < e.n
    ensures i in L <==> i in alloc && i < e.n && IsMeta(m[i])
  {
    hide FileOk, Disjoint;
    RepFilesOk(e, m, L, alloc);
    ChainsApart(e, m, L);
  }

  /** x comes strictly after a and before b, going round. */
  predicate Between(a: nat, x: nat, b: int) {
    if a < b then a < x < b else a < x || x < b
  }

  lemma ElementsNone()
    ensures Elements([]) == {}
  {
  }

  /** The link of the first block of a chain is 255 exactly when the chain ends there. */
  lemma NextEnds(e: Env, m: Media, c: seq<nat>)
    requires WFMedia(e, m) && Linked(e, m, c)
    ensures c[0] < e.n && (Next(m[c[0]]) == 255 <==> |c| == 1)
    ensures |c| > 1 ==> Next(m[c[0]]) == c[1] && Linked(e, m, c[1..])
  {
  }

  lemma ScanStart(e: Env, m: Media)
    requires WFMedia(e, m)
    ensures Scan(e, m, 0) == Mounted(m, {}, map[])
  {
  }

  lemma ScanNext(e: Env, m: Media, i: nat)
    requires WFMedia(e, m) && i < e.n
    ensures Scan(e, m, i + 1) == ScanBlock(e, Scan(e, m, i), i)
  {
  }

  lemma MountIsScan(e: Env, m: Media)
    requires WFMedia(e, m)
    ensures MountOf(e, m) == Scan(e, m, e.n)
  {
  }

  lemma PrependNone(r: Option<seq<nat>>)
    ensures Prepend([], r) == r
  {
    assert r.Some? ==> [] + r.value == r.value;
  }

  lemma PrependFails(c: seq<nat>)
    ensures Prepend(c, None) == None
  {
  }

  lemma PrependAdd(c: seq<nat>, n: nat, r: Option<seq<nat>>)
    ensures Prepend(c, Prepend([n], r)) == Prepend(c + [n], r) && Prepend(c, Some([n])) == Some(c + [n])
  {
    assert r.Some? ==> c + ([n] + r.value) == c + [n] + r.value;
  }

  lemma CrcNone(e: Env, m: Media)
    requires WFMedia(e, m)
    ensures CrcOf(e, m, []) == e.init
  {
  }

  lemma CrcAdd(e: Env, m: Media, c: seq<nat>, n: nat)
    requires WFMedia(e, m) && InRange(e, c) && n < e.n
    ensures InRange(e, c + [n]) && CrcOf(e, m, c + [n]) == e.step(CrcOf(e, m, c), Payload(m[n]))
  {
    assert (c + [n])[..|c|] == c;
  }

  lemma {:induction false} ElementsAdd(c: seq<nat>, n: nat)
    ensures Elements(c + [n]) == Elements(c) + {n}
  {
  }

  lemma InView(a: seq<Word>, n: nat)
    requires |a| == 8 && n < 256
    ensures n in View(a) <==> IsAlloc(a, n)
  {
  }

  /** One step of the walk. */
  lemma ChainStep(e: Env, m: Media, n: nat, avoid: set<nat>)
    requires WFMedia(e, m)
    ensures n >= e.n || n in avoid ==> Chain(e, m, n, avoid) == None
    ensures n < e.n && n !in avoid && Next(m[n]) == 255 ==> Chain(e, m, n, avoid) == Some([n])
    ensures n < e.n && n !in avoid && Next(m[n]) != 255 ==>
              Chain(e, m, n, avoid) == Prepend([n], Chain(e, m, Next(m[n]), avoid + {n}))
  {
  }

  ghost function Prepend(c: seq<nat>, r: Option<seq<nat>>): Option<seq<nat>> {
    if r.None? then None else Some(c + r.value)
  }
}
