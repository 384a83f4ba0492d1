/** What the media writes of pfs_save do, one by one, to the file system a medium stands for. */
module Commit {
  import opened Blocks
  import opened Mount
  import opened Directory

  /** m' differs from m in blocks outside busy only, and never by a metablock with a live pointer. */
  ghost predicate FreeWritten(e: Env, m: Media, m': Media, busy: set<nat>) {
    && WFMedia(e, m) && WFMedia(e, m')
    && forall x :: 0 <= x < e.n ==> m'[x] == m[x] || (x !in busy && StaleOk(m'[x]))
  }

  /** Writes to free blocks change no file. */
  lemma FreeWrittenFiles(e: Env, m: Media, m': Media, L: Layout, alloc: set<nat>)
    requires FreeWritten(e, m, m', Used(L)) && Rep(e, m, L, alloc)
    ensures Rep(e, m', L, alloc) && SameFiles(e, m, m', L)
    ensures Clean(e, m, L) ==> Clean(e, m', L)
    ensures Coherent(e, m, L) ==> Coherent(e, m', L) && DirOf(e, m', L) == DirOf(e, m, L)
  {
    hide Linked, CrcOf, StaleOk, DirOf, Coherent;
    forall k | k in L
      ensures LiveOk(e, m, k, L[k]) && SameFile(e, m, m', k, L[k]) && LiveOk(e, m', k, L[k]) && m'[k] == m[k]
    {
      assert LiveOk(e, m, k, L[k]) && InUse(L, k);
      assert forall x :: x in L[k].chain ==> m'[x] == m[x] by {
        forall x | x in L[k].chain ensures m'[x] == m[x] {
          assert InUse(L, x);
        }
      }
      SameFileContent(e, m, m', k, L[k]);
    }
    if Coherent(e, m, L) {
      SameFilesCoherentLive(e, m, m', L, alloc);
    }
  }

  lemma SameFilesCoherentLive(e: Env, m: Media, m': Media, L: Layout, alloc: set<nat>)
    requires WFMedia(e, m) && WFMedia(e, m') && Coherent(e, m, L) && SameFiles(e, m, m', L)
    requires FreeWritten(e, m, m', Used(L)) && Rep(e, m', L, alloc)
    ensures Coherent(e, m', L) && DirOf(e, m', L) == DirOf(e, m, L)
  {
    hide FileOk, StaleOk, SameFiles, DirOf;
    assert forall k :: k in L ==> LiveOk(e, m', k, L[k]);
    SameFilesCoherent(e, m, m', L);
  }

  // ---------------------------------------------------------------------------------------------
  // meta_update: checksum, pointer, and emptying the other pointer

  ghost function CrcSet(e: Env, m: Media, f: nat, j: Slot, q: Quad): (m': Media)
    requires WFMedia(e, m) && f < e.n
    ensures WFMedia(e, m')
  {
    m[f := WithWord(m[f], 12 + 4 * j, q)]
  }

  ghost function PtrSet(e: Env, m: Media, f: nat, j: Slot, w: Quad): (m': Media)
    requires WFMedia(e, m) && f < e.n
    ensures WFMedia(e, m')
  {
    m[f := WithWord(m[f], 20 + 4 * j, w)]
  }

  /** Metablock f has empty slot j, and c is a new complete chain on free blocks, so that meta_update
      may make c the content of f. */
  ghost predicate Ready(e: Env, m: Media, L: Layout, alloc: set<nat>, f: nat, j: Slot, c: seq<nat>, q: Quad, w: Quad)
    requires WFMedia(e, m)
  {
    && Rep(e, m, L, alloc) && f < e.n && IsMeta(m[f]) && Ptr(m[f], j) == ONES
    && (if f in L then j == 1 - L[f].slot else !InUse(L, f) && j == 0 && Ptr(m[f], 1) == ONES)
    && Linked(e, m, c) && InRange(e, c) && CrcOf(e, m, c) == q && w[0] as nat == c[0]
    && f !in c && forall x :: x in c ==> !InUse(L, x)
  }

  /** m' agrees with m outside metablock f, where at most slot j has changed. */
  ghost predicate SlotChanged(e: Env, m: Media, m': Media, f: nat, j: Slot) {
    && WFMedia(e, m) && WFMedia(e, m') && f < e.n
    && (forall x :: 0 <= x < e.n && x != f ==> m'[x] == m[x])
    && IsMeta(m[f]) && IsMeta(m'[f]) && Ufid(m'[f]) == Ufid(m[f]) && Ptr(m'[f], 1 - j) == Ptr(m[f], 1 - j)
    && Crc(m'[f], 1 - j) == Crc(m[f], 1 - j)
    && Blk0(m'[f], 1 - j) == Blk0(m[f], 1 - j) && Pad(m'[f], 1 - j) == Pad(m[f], 1 - j)
  }

  lemma StepsChangeSlot(e: Env, m: Media, f: nat, j: Slot, q: Quad, w: Quad)
    requires WFMedia(e, m) && f < e.n && IsMeta(m[f])
    ensures var m1 := CrcSet(e, m, f, j, q); var m2 := PtrSet(e, m1, f, j, w);
            && SlotChanged(e, m, m1, f, j) && Ptr(m1[f], j) == Ptr(m[f], j)
            && SlotChanged(e, m, m2, f, j) && Ptr(m2[f], j) == w && Crc(m2[f], j) == q
            && Blk0(m2[f], j) == w[0] as nat && Pad(m2[f], j) == w[1] as nat
            && var m3 := Cleared(e, m2, f, 1 - j);
               SlotChanged(e, m2, m3, f, 1 - j) && Ptr(m3[f], 1 - j) == ONES
  {
    hide WithWord;
    var m1 := CrcSet(e, m, f, j, q);
    var m2 := PtrSet(e, m1, f, j, w);
    CrcWritten(m[f], j, q);
    PtrWritten(m1[f], j, w);
    PtrCleared(m2[f], 1 - j);
  }

  /** While slot j of f is not the live one, changing it changes no file. */
  lemma SlotChangedFiles(e: Env, m: Media, m': Media, L: Layout, f: nat, j: Slot)
    requires WFMedia(e, m) && WFMedia(e, m') && FilesOk(e, m, L) && SlotChanged(e, m, m', f, j) && (f in L ==> j == 1 - L[f].slot)
    ensures SameFiles(e, m, m', L)
  {
    hide Linked, CrcOf, Ufid, Blk0, Crc, Pad, Ptr;
    ChainsApart(e, m, L);
    forall k | k in L ensures SameFile(e, m, m', k, L[k]) {
      assert FileOk(e, m, k, L[k]);
      assert k != f ==> m'[k] == m[k];
    }
  }

  /** The new chain is a sound file of f once the checksum and the pointer are written. */
  lemma NewFileOk(e: Env, m: Media, m': Media, L: Layout, alloc: set<nat>, f: nat, j: Slot, c: seq<nat>, q: Quad, w: Quad)
    requires WFMedia(e, m) && Ready(e, m, L, alloc, f, j, c, q, w)
    requires WFMedia(e, m') && (forall x :: 0 <= x < e.n && x != f ==> m'[x] == m[x])
    requires IsMeta(m'[f]) && Crc(m'[f], j) == q && Blk0(m'[f], j) == w[0] as nat
    ensures FileOk(e, m', f, Sel(j, c)) && Bytes(e, m', c) == Bytes(e, m, c)
  {
    LinkedSame(e, m, m', c);
    CrcSame(e, m, m', c);
    BytesSame(e, m, m', c);
  }

  lemma DirHas(e: Env, m: Media, L: Layout, k: nat)
    requires WFMedia(e, m) && Coherent(e, m, L) && k in L
    ensures k < e.n && FileOk(e, m, k, L[k]) && Pad(m[k], L[k].slot) < 31
    ensures Ufid(m[k]) in DirOf(e, m, L) && DirOf(e, m, L)[Ufid(m[k])] == Content(e, m, k, L[k])
  {
  }

  lemma DirFrom(e: Env, m: Media, L: Layout, u: seq<byte>) returns (k: nat)
    requires WFMedia(e, m) && Coherent(e, m, L) && u in DirOf(e, m, L)
    ensures k in L && k < e.n && Ufid(m[k]) == u
  {
    k :| k in L && Ufid(m[k]) == u;
  }

  /** Giving f the chain c replaces or adds exactly that file. */
  lemma NewLayout(e: Env, m: Media, m': Media, L: Layout, f: nat, sel: Sel)
    requires WFMedia(e, m) && WFMedia(e, m') && Coherent(e, m, L) && FilesOk(e, m, L) && f < e.n
    requires forall k :: k in L && k != f ==> m'[k] == m[k] && SameFile(e, m, m', k, L[k])
    requires FileOk(e, m', f, sel) && Pad(m'[f], sel.slot) < 31 && Ufid(m'[f]) == Ufid(m[f])
    requires forall k :: k in L && k != f ==> Ufid(m[k]) != Ufid(m[f])
    requires Coherent(e, m', L[f := sel])
    ensures DirOf(e, m', L[f := sel]) == DirOf(e, m, L)[Ufid(m[f]) := Content(e, m', f, sel)]
  {
    hide FileOk, Coherent, Content, Ufid, Pad, SameFile, DirOf;
    var L' := L[f := sel];
    var d, d', uf := DirOf(e, m, L), DirOf(e, m', L'), Ufid(m[f]);
    DirHas(e, m', L', f);
    forall u | u in d' ensures u in d[uf := Content(e, m', f, sel)] && d'[u] == d[uf := Content(e, m', f, sel)][u] {
      var k := DirFrom(e, m', L', u);
      DirHas(e, m', L', k);
      if k != f {
        DirHas(e, m, L, k);
        SameFileContent(e, m, m', k, L[k]);
      }
    }
    forall u | u in d && u != uf ensures u in d' {
      var k := DirFrom(e, m, L, u);
      DirHas(e, m', L', k);
    }
  }

  /** The medium after the three writes of meta_update. */
  ghost function Done(e: Env, m: Media, f: nat, j: Slot, q: Quad, w: Quad): (m': Media)
    requires WFMedia(e, m) && f < e.n
    ensures WFMedia(e, m')
  {
    Cleared(e, PtrSet(e, CrcSet(e, m, f, j, q), f, j, w), f, 1 - j)
  }

  lemma DisjointSwap(L: Layout, f: nat, sel: Sel)
    requires Disjoint(L) && forall x :: x in sel.chain ==> !InUse(L, x)
    ensures Disjoint(L[f := sel])
  {
  }

  lemma OtherFiles(e: Env, m: Media, m': Media, L: Layout, f: nat, k: nat)
    requires WFMedia(e, m) && WFMedia(e, m') && FilesOk(e, m, L) && k in L && k != f && f < e.n && IsMeta(m[f])
    requires forall x :: 0 <= x < e.n && x != f ==> m'[x] == m[x]
    ensures k < e.n && m'[k] == m[k] && FileOk(e, m, k, L[k]) && SameFile(e, m, m', k, L[k]) && FileOk(e, m', k, L[k])
  {
    hide Linked, CrcOf, Ufid, Blk0, Crc, Pad, IsMeta;
    ChainsApart(e, m, L);
    assert FileOk(e, m, k, L[k]);
    SameFileContent(e, m, m', k, L[k]);
  }

  /** After the three writes of meta_update the representation invariant holds for the new layout. */
  lemma DoneRep(e: Env, m: Media, L: Layout, alloc: set<nat>, f: nat, j: Slot, c: seq<nat>, q: Quad, w: Quad)
    requires WFMedia(e, m) && Ready(e, m, L, alloc, f, j, c, q, w)
    ensures var m' := Done(e, m, f, j, q, w); var L' := L[f := Sel(j, c)];
            Rep(e, m', L', Used(L')) && forall x :: 0 <= x < e.n && x != f ==> m'[x] == m[x]
  {
    hide Linked, CrcOf, FileOk, WithWord, Used, InUse, Disjoint;
    var m', L' := Done(e, m, f, j, q, w), L[f := Sel(j, c)];
    StepsChangeSlot(e, m, f, j, q, w);
    NewFileOk(e, m, m', L, alloc, f, j, c, q, w);
    DisjointSwap(L, f, Sel(j, c));
    forall k | k in L' ensures LiveOk(e, m', k, L'[k]) {
      if k != f {
        assert LiveOk(e, m, k, L[k]);
        FileOkMeta(e, m, k, L[k]);
        assert FilesOk(e, m, L) by { RepFilesOk(e, m, L, alloc); }
        OtherFiles(e, m, m', L, f, k);
      }
    }
  }

  lemma RepFilesOk(e: Env, m: Media, L: Layout, alloc: set<nat>)
    requires WFMedia(e, m) && Rep(e, m, L, alloc)
    ensures FilesOk(e, m, L)
  {
    hide Linked, CrcOf;
    forall k | k in L ensures k < e.n && FileOk(e, m, k, L[k]) {
      assert LiveOk(e, m, k, L[k]);
    }
  }

  /** Writing the checksum of the empty slot changes no file. */
  lemma CrcStep(e: Env, m: Media, L: Layout, alloc: set<nat>, f: nat, j: Slot, c: seq<nat>, q: Quad, w: Quad)
    requires WFMedia(e, m) && Ready(e, m, L, alloc, f, j, c, q, w) && Coherent(e, m, L)
    ensures var m1 := CrcSet(e, m, f, j, q); Coherent(e, m1, L) && DirOf(e, m1, L) == DirOf(e, m, L)
  {
    hide Linked, CrcOf, FileOk, WithWord, Used, InUse, Disjoint, SameFile, DirOf, Unique, PadsOk;
    var m1 := CrcSet(e, m, f, j, q);
    StepsChangeSlot(e, m, f, j, q, w);
    SlotChangedFiles(e, m, m1, L, f, j);
    SameFilesCoherent(e, m, m1, L);
  }

  /** While slot 0 still holds the old chain, a pointer written to slot 1 changes no file. */
  lemma PtrStepOld(e: Env, m: Media, L: Layout, alloc: set<nat>, f: nat, c: seq<nat>, q: Quad, w: Quad)
    requires WFMedia(e, m) && Ready(e, m, L, alloc, f, 1, c, q, w) && Coherent(e, m, L)
    ensures var m2 := PtrSet(e, CrcSet(e, m, f, 1, q), f, 1, w); Coherent(e, m2, L) && DirOf(e, m2, L) == DirOf(e, m, L)
  {
    hide Linked, CrcOf, FileOk, WithWord, Used, InUse, Disjoint, SameFile, DirOf, Unique, PadsOk;
    var m2 := PtrSet(e, CrcSet(e, m, f, 1, q), f, 1, w);
    StepsChangeSlot(e, m, f, 1, q, w);
    SlotChangedFiles(e, m, m2, L, f, 1);
    SameFilesCoherent(e, m, m2, L);
  }

  /** Once slot 0 holds the new chain, or the other pointer is empty, the new chain is a file like any other. */
  lemma NewCoherent(e: Env, m: Media, m': Media, L: Layout, alloc: set<nat>, f: nat, j: Slot, c: seq<nat>, q: Quad, w: Quad)
    requires WFMedia(e, m) && Ready(e, m, L, alloc, f, j, c, q, w) && Coherent(e, m, L) && WFMedia(e, m')
    requires forall k :: k in L && k != f ==> Ufid(m[k]) != Ufid(m[f])
    requires forall x :: 0 <= x < e.n && x != f ==> m'[x] == m[x]
    requires IsMeta(m'[f]) && Ufid(m'[f]) == Ufid(m[f]) && Crc(m'[f], j) == q
    requires Blk0(m'[f], j) == w[0] as nat && Pad(m'[f], j) == w[1] as nat < 31
    requires j == 1 ==> Ptr(m'[f], 0) == ONES
    ensures f < e.n && FilesOk(e, m, L) && FileOk(e, m', f, Sel(j, c)) && Bytes(e, m', c) == Bytes(e, m, c)
    ensures forall k :: k in L && k != f ==> m'[k] == m[k] && SameFile(e, m, m', k, L[k])
    ensures Coherent(e, m', L[f := Sel(j, c)])
  {
    hide Linked, CrcOf, FileOk, WithWord, Used, InUse, Disjoint, SameFile, StaleOk, Bytes, Ready, Rep;
    var L' := L[f := Sel(j, c)];
    assert Rep(e, m, L, alloc) && IsMeta(m[f]) by { ReadyParts(e, m, L, alloc, f, j, c, q, w); }
    RepFilesOk(e, m, L, alloc);
    NewFileOk(e, m, m', L, alloc, f, j, c, q, w);
    FileOkMeta(e, m', f, Sel(j, c));
    forall k | k in L' && k != f ensures m'[k] == m[k] && FileOk(e, m', k, L'[k]) && SameFile(e, m, m', k, L[k]) {
      OtherFiles(e, m, m', L, f, k);
    }
    assert FilesOk(e, m', L');
    ReadyDisjoint(e, m, L, alloc, f, j, c, q, w);
    assert Unique(e, m', L');
  }

  /** Then the medium stands for the new directory. */
  lemma NewStep(e: Env, m: Media, m': Media, L: Layout, alloc: set<nat>, f: nat, j: Slot, c: seq<nat>, q: Quad, w: Quad)
    requires WFMedia(e, m) && Ready(e, m, L, alloc, f, j, c, q, w) && Coherent(e, m, L) && WFMedia(e, m')
    requires forall k :: k in L && k != f ==> Ufid(m[k]) != Ufid(m[f])
    requires forall x :: 0 <= x < e.n && x != f ==> m'[x] == m[x]
    requires IsMeta(m'[f]) && Ufid(m'[f]) == Ufid(m[f]) && Crc(m'[f], j) == q
    requires Blk0(m'[f], j) == w[0] as nat && Pad(m'[f], j) == w[1] as nat < 31
    requires j == 1 ==> Ptr(m'[f], 0) == ONES
    ensures var L' := L[f := Sel(j, c)];
            && Coherent(e, m', L')
            && DirOf(e, m', L') == DirOf(e, m, L)[Ufid(m[f]) := Bytes(e, m, c)[..31 * |c| - w[1] as nat]]
  {
    hide Linked, CrcOf, FileOk, WithWord, Coherent, SameFile, DirOf, Bytes, Ready, Ufid, Crc, Blk0, Pad, Ptr, IsMeta;
    NewCoherent(e, m, m', L, alloc, f, j, c, q, w);
    NewLayout(e, m, m', L, f, Sel(j, c));
  }

  lemma ReadyParts(e: Env, m: Media, L: Layout, alloc: set<nat>, f: nat, j: Slot, c: seq<nat>, q: Quad, w: Quad)
    requires WFMedia(e, m) && Ready(e, m, L, alloc, f, j, c, q, w)
    ensures Rep(e, m, L, alloc) && f < e.n && IsMeta(m[f])
  {
  }

  lemma ReadyDisjoint(e: Env, m: Media, L: Layout, alloc: set<nat>, f: nat, j: Slot, c: seq<nat>, q: Quad, w: Quad)
    requires WFMedia(e, m) && Ready(e, m, L, alloc, f, j, c, q, w)
    ensures Disjoint(L[f := Sel(j, c)])
  {
    DisjointSwap(L, f, Sel(j, c));
  }

  /** The blocks in use once f has the new chain: its old chain, if any, is free again. */
  lemma UsedSwap(e: Env, m: Media, L: Layout, f: nat, sel: Sel)
    requires WFMedia(e, m) && FilesOk(e, m, L) && Disjoint(L) && f < e.n && IsMeta(m[f])
    requires f !in sel.chain && (forall x :: x in sel.chain ==> !InUse(L, x)) && (f !in L ==> !InUse(L, f))
    ensures Used(L[f := sel])
         == Used(L) + {f} + Elements(sel.chain) - (if f in L then Elements(L[f].chain) else {})
  {
    hide FileOk, IsMeta, Elements, InUse;
    ChainsApart(e, m, L);
    var L' := L[f := sel];
    var gone := if f in L then Elements(L[f].chain) else {};
    forall x ensures InUse(L', x) <==> x in Used(L) + {f} + Elements(sel.chain) - gone {
      InUseSwap(L, f, sel, x);
    }
  }

  lemma InUseSwap(L: Layout, f: nat, sel: Sel, x: nat)
    requires Disjoint(L) && f !in sel.chain && (forall x :: x in sel.chain ==> !InUse(L, x)) && (f !in L ==> !InUse(L, f))
    requires forall k, y :: k in L && y in L[k].chain ==> y !in L
    ensures InUse(L[f := sel], x)
            <==> ((InUse(L, x) || x == f || x in sel.chain) && !(f in L && x in L[f].chain))
  {
    var L' := L[f := sel];
    assert f in L' && L'[f] == sel && forall k :: k in L' && k != f ==> k in L && L'[k] == L[k];
    if InUse(L, x) && !(f in L && x in L[f].chain) && x !in L {
      var k :| k in L && x in L[k].chain;
      assert k in L' && x in L'[k].chain;
    }
    if x in sel.chain {
      assert f in L && x in L[f].chain ==> InUse(L, x);
    }
  }

  // ---------------------------------------------------------------------------------------------
  // Outcomes of a save

  /** No mounted file but f has the ufid of metablock f. */
  ghost predicate Sole(e: Env, m: Media, L: Layout, f: nat) {
    && WFMedia(e, m) && Coherent(e, m, L) && f < e.n
    && forall k :: k in L && k != f ==> k < e.n && Ufid(m[k]) != Ufid(m[f])
  }

  /** From m to m' file u got the content data and no other file changed, and every medium image in
      between recovers to the directory before or to the one after. */
  ghost predicate Saved(e: Env, m: Media, L: Layout, m': Media, L': Layout, u: seq<byte>, data: seq<byte>, images: seq<Media>) {
    && WFMedia(e, m) && WFMedia(e, m') && Coherent(e, m, L) && Coherent(e, m', L')
    && DirOf(e, m', L') == DirOf(e, m, L)[u := data]
    && forall t :: 0 <= t < |images| ==> RecoversTo(e, images[t], DirOf(e, m, L)) || RecoversTo(e, images[t], DirOf(e, m', L'))
  }

  /** From m to m' nothing readable changed, and every medium image in between recovers to that directory. */
  ghost predicate Untouched(e: Env, m: Media, m': Media, L: Layout, images: seq<Media>) {
    && WFMedia(e, m) && WFMedia(e, m') && Coherent(e, m, L) && Coherent(e, m', L)
    && DirOf(e, m', L) == DirOf(e, m, L)
    && forall t :: 0 <= t < |images| ==> RecoversTo(e, images[t], DirOf(e, m, L))
  }

  lemma UntouchedThenSaved(e: Env, m: Media, L: Layout, m': Media, m'': Media, L'': Layout, u: seq<byte>, data: seq<byte>,
                           xs: seq<Media>, ys: seq<Media>)
    requires Untouched(e, m, m', L, xs) && Saved(e, m', L, m'', L'', u, data, ys)
    ensures Saved(e, m, L, m'', L'', u, data, xs + ys)
  {
    hide Coherent, DirOf, RecoversTo;
  }

  /** Writes to free blocks leave everything untouched. */
  lemma FreeWrittenUntouched(e: Env, m: Media, m': Media, L: Layout, alloc: set<nat>, images: seq<Media>)
    requires WFMedia(e, m) && Rep(e, m, L, alloc) && Coherent(e, m, L)
    requires FreeWritten(e, m, m', alloc) && forall t :: 0 <= t < |images| ==> FreeWritten(e, m, images[t], alloc)
    ensures Untouched(e, m, m', L, images)
  {
    hide Coherent, DirOf, RecoversTo, FreeWritten, SameFiles, FilesOk, LiveOk, Disjoint, Used;
    FreeWrittenFiles(e, m, m', L, alloc);
    FreeWrittenMedia(e, m, m', alloc);
    forall t | 0 <= t < |images| ensures RecoversTo(e, images[t], DirOf(e, m, L)) {
      FreeWrittenMedia(e, m, images[t], alloc);
      FreeWrittenFiles(e, m, images[t], L, alloc);
      CoherentRecovers(e, images[t], L);
    }
  }

  lemma FreeWrittenMedia(e: Env, m: Media, m': Media, busy: set<nat>)
    requires FreeWritten(e, m, m', busy)
    ensures WFMedia(e, m) && WFMedia(e, m')
  {
  }
}
