/** The directory a mounted file system represents, and what single media writes do to it. */
module Directory {
  import opened Blocks
  import opened Mount

  type Dir = map<seq<byte>, seq<byte>>

  /** The payloads of a chain, padding included. */
  ghost function Bytes(e: Env, m: Media, c: seq<nat>): (r: seq<byte>)
    requires WFMedia(e, m) && InRange(e, c)
    ensures |r| == 31 * |c|
  {
    if c == [] then [] else Bytes(e, m, c[..|c| - 1]) + Payload(m[c[|c| - 1]])
  }

  ghost function FileLen(m: Media, k: nat, sel: Sel): int
    requires k < |m| && |m[k]| == 32
  {
    31 * |sel.chain| - Pad(m[k], sel.slot)
  }

  ghost function Content(e: Env, m: Media, k: nat, sel: Sel): seq<byte>
    requires WFMedia(e, m) && FileOk(e, m, k, sel) && Pad(m[k], sel.slot) < 31
  {
    Bytes(e, m, sel.chain)[..FileLen(m, k, sel)]
  }

  ghost predicate PadsOk(e: Env, m: Media, L: Layout)
    requires WFMedia(e, m) && FilesOk(e, m, L)
  {
    forall k :: k in L ==> Pad(m[k], L[k].slot) < 31
  }

  ghost predicate Unique(e: Env, m: Media, L: Layout)
    requires WFMedia(e, m) && FilesOk(e, m, L)
  {
    forall k, l :: k in L && l in L && Ufid(m[k]) == Ufid(m[l]) ==> k == l
  }

  /** What a recoverable medium stands for: one file for each ufid. */
  ghost predicate Coherent(e: Env, m: Media, L: Layout)
    requires WFMedia(e, m)
  {
    Recoverable(e, m, L) && PadsOk(e, m, L) && Unique(e, m, L)
  }

  ghost function DirOf(e: Env, m: Media, L: Layout): Dir
    requires WFMedia(e, m) && Coherent(e, m, L)
  {
    map k | k in L :: Ufid(m[k]) := Content(e, m, k, L[k])
  }

  /** A running file system on a medium that once was formatted. */
  ghost predicate Sound(e: Env, m: Media, L: Layout, alloc: set<nat>)
    requires WFMedia(e, m)
  {
    Rep(e, m, L, alloc) && Coherent(e, m, L)
  }

  lemma {:induction false} BytesSame(e: Env, m: Media, m': Media, c: seq<nat>)
    requires WFMedia(e, m) && WFMedia(e, m') && InRange(e, c) && forall x :: x in c ==> m'[x] == m[x]
    ensures Bytes(e, m', c) == Bytes(e, m, c)
    decreases |c|
  {
    if c != [] {
      BytesSame(e, m, m', c[..|c| - 1]);
    }
  }

  /** m' holds file k of m unchanged. */
  ghost predicate SameFile(e: Env, m: Media, m': Media, k: nat, sel: Sel)
    requires WFMedia(e, m) && WFMedia(e, m') && FileOk(e, m, k, sel)
  {
    && (forall x :: x in sel.chain ==> m'[x] == m[x])
    && IsMeta(m'[k]) && Ufid(m'[k]) == Ufid(m[k])
    && Blk0(m'[k], sel.slot) == Blk0(m[k], sel.slot) && Pad(m'[k], sel.slot) == Pad(m[k], sel.slot)
    && Crc(m'[k], sel.slot) == Crc(m[k], sel.slot)
  }

  lemma SameFileContent(e: Env, m: Media, m': Media, k: nat, sel: Sel)
    requires WFMedia(e, m) && WFMedia(e, m') && FileOk(e, m, k, sel) && SameFile(e, m, m', k, sel)
    ensures FileOk(e, m', k, sel)
    ensures Pad(m[k], sel.slot) < 31 ==> Content(e, m', k, sel) == Content(e, m, k, sel)
  {
    hide Linked, CrcOf, Payload;
    FileOkSame(e, m, m', k, sel);
    BytesSame(e, m, m', sel.chain);
  }

  ghost predicate SameFiles(e: Env, m: Media, m': Media, L: Layout)
    requires WFMedia(e, m) && WFMedia(e, m') && FilesOk(e, m, L)
  {
    forall k :: k in L ==> SameFile(e, m, m', k, L[k])
  }

  /** A medium with the same files, on which stale metablocks are still empty, stands for the same directory. */
  lemma SameFilesCoherent(e: Env, m: Media, m': Media, L: Layout)
    requires WFMedia(e, m) && WFMedia(e, m') && Coherent(e, m, L) && SameFiles(e, m, m', L) && Clean(e, m', L)
    requires forall k :: k in L && L[k].slot == 1 ==> Ptr(m'[k], 0) == ONES
    ensures Coherent(e, m', L) && DirOf(e, m', L) == DirOf(e, m, L)
  {
    hide FileOk, Content, Clean, Ptr, Disjoint;
    forall k | k in L
      ensures FileOk(e, m', k, L[k]) && Ufid(m'[k]) == Ufid(m[k]) && Pad(m'[k], L[k].slot) == Pad(m[k], L[k].slot)
      ensures Content(e, m', k, L[k]) == Content(e, m, k, L[k])
    {
      assert FileOk(e, m, k, L[k]) && SameFile(e, m, m', k, L[k]);
      SameFileContent(e, m, m', k, L[k]);
    }
    assert FilesOk(e, m', L);
  }

  // ---------------------------------------------------------------------------------------------
  // Recovery

  /** Mounting img yields a sound file system with directory d. */
  ghost predicate RecoversTo(e: Env, img: Media, d: Dir) {
    WFMedia(e, img) &&
    var s := MountOf(e, img);
    Sound(e, s.m, s.layout, s.alloc) && DirOf(e, s.m, s.layout) == d
  }

  lemma CoherentRecovers(e: Env, m: Media, L: Layout)
    requires WFMedia(e, m) && Coherent(e, m, L)
    ensures RecoversTo(e, m, DirOf(e, m, L))
  {
    hide FileOk, SameFile, Clean, Ptr, WithWord, MountOf, Disjoint, Rep, DirOf;
    MountRecovers(e, m, L);
    MountEstablishesRep(e, m);
    var m' := Repaired(e, m, L, e.n);
    forall k | k in L ensures SameFile(e, m, m', k, L[k]) && (L[k].slot == 1 ==> Ptr(m'[k], 0) == ONES) {
      assert FileOk(e, m, k, L[k]);
      RepairedSame(e, m, L, k);
    }
    RepairedClean(e, m, L);
    SameFilesCoherent(e, m, m', L);
  }

  /** So does every medium that a mount of it leaves behind when it is cut off. */
  lemma RepairedRecovers(e: Env, m: Media, L: Layout, i: nat)
    requires WFMedia(e, m) && Coherent(e, m, L) && i <= e.n
    ensures RecoversTo(e, Repaired(e, m, L, i), DirOf(e, m, L))
  {
    hide Clean, Disjoint, Rep, DirOf, MountOf, FilesOk, Repaired;
    ScanRecovers(e, m, L, i);
    MountResumes(e, m, i);
    CoherentRecovers(e, m, L);
  }

  lemma RepairedSame(e: Env, m: Media, L: Layout, k: nat)
    requires WFMedia(e, m) && FilesOk(e, m, L) && k in L
    ensures var m' := Repaired(e, m, L, e.n); FileOk(e, m, k, L[k]) && SameFile(e, m, m', k, L[k])
    ensures L[k].slot == 1 ==> Ptr(Repaired(e, m, L, e.n)[k], 0) == ONES
  {
    hide Linked, CrcOf, WithWord, IsMeta, Ptr, Crc, Blk0, Pad, Ufid, InRange;
    ChainsApart(e, m, L);
    assert FileOk(e, m, k, L[k]);
    PtrCleared(m[k], 1 - L[k].slot);
  }

  lemma RepairedClean(e: Env, m: Media, L: Layout)
    requires WFMedia(e, m) && Clean(e, m, L)
    ensures Clean(e, Repaired(e, m, L, e.n), L)
  {
    hide WithWord;
    assert forall i :: 0 <= i < e.n && i !in L ==> Repaired(e, m, L, e.n)[i] == m[i];
  }
}
