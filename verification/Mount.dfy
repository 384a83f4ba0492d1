/** Mounting: what pfs_init selects, allocates and repairs on any medium. */
module Mount {
  import opened Options
  import opened Blocks

  /** A mounted file: which of its metablock's two pointers is live, and the chain it points to. */
  type Slot = s: nat | s < 2

  datatype Sel = Sel(slot: Slot, chain: seq<nat>)

  /** The mounted files, by the block number of their metablock. */
  type Layout = map<nat, Sel>

  datatype Mounted = Mounted(m: Media, alloc: set<nat>, layout: Layout)

  /** v_chain: the chain from start if the walk completes and its checksum is crc. */
  ghost function ValidChain(e: Env, m: Media, start: nat, crc: seq<byte>, avoid: set<nat>): (r: Option<seq<nat>>)
    requires WFMedia(e, m)
  {
    var r := Chain(e, m, start, avoid);
    if r.None? then None
    else
      ChainSound(e, m, start, avoid);
      LinkedBlocks(e, m, r.value);
      if CrcOf(e, m, r.value) == crc then r else None
  }

  /** The pointer slot of metablock i that mounting selects, slot 0 before slot 1. */
  ghost function Select(e: Env, m: Media, i: nat, avoid: set<nat>): Option<Sel>
    requires WFMedia(e, m) && i < e.n
  {
    var c := ValidChain(e, m, Blk0(m[i], 0), Crc(m[i], 0), avoid);
    if c.Some? then Some(Sel(0, c.value))
    else
      var d := ValidChain(e, m, Blk0(m[i], 1), Crc(m[i], 1), avoid);
      if d.Some? then Some(Sel(1, d.value)) else None
  }

  /** Medium m with pointer j of block i empty. */
  ghost function Cleared(e: Env, m: Media, i: nat, j: nat): (m': Media)
    requires WFMedia(e, m) && i < e.n && j < 2
    ensures WFMedia(e, m')
  {
    m[i := WithWord(m[i], 20 + 4 * j, ONES)]
  }

  /** pfs_init after scanning the blocks below i. */
  ghost function Scan(e: Env, m: Media, i: nat): (s: Mounted)
    requires WFMedia(e, m) && i <= e.n
    ensures WFMedia(e, s.m)
  {
    if i == 0 then Mounted(m, {}, map[])
    else ScanBlock(e, Scan(e, m, i - 1), i - 1)
  }

  ghost function ScanBlock(e: Env, s: Mounted, i: nat): (s': Mounted)
    requires WFMedia(e, s.m) && i < e.n
    ensures WFMedia(e, s'.m)
  {
    if i in s.alloc || !IsMeta(s.m[i]) then s
    else
      match Select(e, s.m, i, s.alloc)
      case None => s
      case Some(sel) =>
        Mounted(Cleared(e, s.m, i, 1 - sel.slot), s.alloc + Elements(sel.chain) + {i}, s.layout[i := sel])
  }

  ghost function MountOf(e: Env, m: Media): (s: Mounted)
    requires WFMedia(e, m)
    ensures WFMedia(e, s.m)
  {
    Scan(e, m, e.n)
  }

  // ---------------------------------------------------------------------------------------------
  // Invariants of a mounted file system

  ghost predicate InUse(L: Layout, x: nat) {
    x in L || exists k :: k in L && x in L[k].chain
  }

  /** The live metablocks plus their chains. */
  ghost function Used(L: Layout): (r: set<nat>)
    ensures forall x :: x in r <==> InUse(L, x)
  {
    L.Keys + set k, x | k in L && x in L[k].chain :: x
  }

  ghost predicate FileOk(e: Env, m: Media, k: nat, sel: Sel)
    requires WFMedia(e, m)
  {
    && k < e.n && IsMeta(m[k])
    && Linked(e, m, sel.chain) && sel.chain[0] == Blk0(m[k], sel.slot)
    && InRange(e, sel.chain)
    && CrcOf(e, m, sel.chain) == Crc(m[k], sel.slot)
  }

  ghost predicate FilesOk(e: Env, m: Media, L: Layout)
    requires WFMedia(e, m)
  {
    forall k :: k in L ==> k < e.n && FileOk(e, m, k, L[k])
  }

  ghost predicate Disjoint(L: Layout) {
    forall k, l, x :: k in L && l in L && x in L[k].chain && x in L[l].chain ==> k == l
  }

  /** A sound file whose other pointer is empty. */
  ghost predicate LiveOk(e: Env, m: Media, k: nat, sel: Sel)
    requires WFMedia(e, m)
  {
    FileOk(e, m, k, sel) && Ptr(m[k], 1 - sel.slot) == ONES
  }

  /** Every mounted file has one live pointer, to a complete chain of its own with the right
      checksum; the allocated blocks are exactly the metablocks and their chains. */
  ghost predicate Rep(e: Env, m: Media, L: Layout, alloc: set<nat>)
    requires WFMedia(e, m)
  {
    && (forall k :: k in L ==> LiveOk(e, m, k, L[k]))
    && Disjoint(L) && alloc == Used(L)
  }

  /** Not a metablock, or one with both pointers empty. */
  predicate StaleOk(b: Block)
    requires |b| == 32
  {
    IsMeta(b) ==> Ptr(b, 0) == ONES && Ptr(b, 1) == ONES
  }

  /** Metablocks that belong to no mounted file have both pointers empty. */
  ghost predicate Clean(e: Env, m: Media, L: Layout)
    requires WFMedia(e, m)
  {
    forall i :: 0 <= i < e.n && i !in L ==> StaleOk(m[i])
  }

  /** What a power failure may leave behind: like Rep and Clean, but a file selected by slot 0 may
      still have its other pointer set. */
  ghost predicate Recoverable(e: Env, m: Media, L: Layout)
    requires WFMedia(e, m)
  {
    && FilesOk(e, m, L) && (forall k :: k in L && L[k].slot == 1 ==> Ptr(m[k], 0) == ONES)
    && Disjoint(L) && Clean(e, m, L)
  }

  lemma FileOkMeta(e: Env, m: Media, k: nat, sel: Sel)
    requires WFMedia(e, m) && FileOk(e, m, k, sel)
    ensures k < e.n && IsMeta(m[k]) && InRange(e, sel.chain)
  {
  }

  /** Chains hold no metablock, in particular none of the mounted ones. */
  lemma ChainsApart(e: Env, m: Media, L: Layout)
    requires WFMedia(e, m) && FilesOk(e, m, L)
    ensures forall k :: k in L ==> k < e.n && IsMeta(m[k])
    ensures forall k, x :: k in L && x in L[k].chain ==> x !in L && x < e.n && !IsMeta(m[x])
  {
    hide Linked, IsMeta, CrcOf, Crc, Blk0;
    forall k, x | k in L && x in L[k].chain ensures x !in L && x < e.n && !IsMeta(m[x]) {
      LinkedBlocks(e, m, L[k].chain);
      assert x in L ==> FileOk(e, m, x, L[x]);
    }
  }

  // ---------------------------------------------------------------------------------------------
  // Mounting a recoverable medium finds exactly its layout

  ghost function Below(L: Layout, i: nat): Layout {
    map k | k in L && k < i :: L[k]
  }

  /** m with the pointers that mounting leaves unselected emptied, for metablocks below i. */
  ghost function Repaired(e: Env, m: Media, L: Layout, i: nat): (m': Media)
    requires WFMedia(e, m) && i <= e.n
    ensures WFMedia(e, m')
  {
    seq(e.n, k requires 0 <= k < e.n => if k in L && k < i then OtherEmptied(m[k], L[k].slot) else m[k])
  }

  /** Metablock b with the pointer other than that of this slot emptied. */
  function OtherEmptied(b: Block, slot: Slot): (r: Block)
    requires |b| == 32
    ensures |r| == 32
  {
    WithWord(b, 20 + 4 * (1 - slot), ONES)
  }

  lemma SelectFinds(e: Env, m: Media, L: Layout, i: nat, m': Media, avoid: set<nat>)
    requires WFMedia(e, m) && WFMedia(e, m') && i in L && FileOk(e, m, i, L[i])
    requires L[i].slot == 1 ==> Ptr(m[i], 0) == ONES
    requires m'[i] == m[i] && forall x :: x in L[i].chain ==> m'[x] == m[x]
    requires Elements(L[i].chain) !! avoid
    ensures Select(e, m', i, avoid) == Some(L[i])
  {
    hide Linked, Chain, CrcOf, Crc, Blk0, IsMeta;
    var c := L[i].chain;
    LinkedSame(e, m, m', c);
    CrcSame(e, m, m', c);
    ChainFinds(e, m', c, avoid);
    if L[i].slot == 1 {
      EmptyPtr(m[i], 0);
      ChainNone(e, m', Blk0(m[i], 0), avoid);
    }
  }

  lemma SelectNone(e: Env, m: Media, i: nat, avoid: set<nat>)
    requires WFMedia(e, m) && i < e.n && Ptr(m[i], 0) == ONES && Ptr(m[i], 1) == ONES
    ensures Select(e, m, i, avoid) == None
  {
    EmptyPtr(m[i], 0);
    EmptyPtr(m[i], 1);
  }

  lemma {:induction false} ScanRecovers(e: Env, m: Media, L: Layout, i: nat)
    requires WFMedia(e, m) && Recoverable(e, m, L) && i <= e.n
    ensures Scan(e, m, i) == Mounted(Repaired(e, m, L, i), Used(Below(L, i)), Below(L, i))
    decreases i
  {
    hide FileOk, Disjoint, Used, Select, WithWord, ScanBlock, Clean;
    if i == 0 {
      assert Repaired(e, m, L, 0) == m;
      assert Below(L, 0) == map[];
      assert Used(map[]) == {} by { UsedNone(); }
    } else {
      ScanRecovers(e, m, L, i - 1);
      if i - 1 in L {
        RecoverStep(e, m, L, i - 1);
      } else {
        SkipStep(e, m, L, i - 1);
      }
    }
  }

  lemma UsedNone()
    ensures Used(map[]) == {}
  {
  }

  lemma SkipStep(e: Env, m: Media, L: Layout, k: nat)
    requires WFMedia(e, m) && Recoverable(e, m, L) && k !in L && k < e.n
    ensures ScanBlock(e, Mounted(Repaired(e, m, L, k), Used(Below(L, k)), Below(L, k)), k)
         == Mounted(Repaired(e, m, L, k + 1), Used(Below(L, k + 1)), Below(L, k + 1))
  {
    hide FileOk, Disjoint, Used, Select, WithWord, Ptr, IsMeta, Below, Repaired, ScanBlock, Cleared;
    SkippedSame(e, m, L, k);
    if IsMeta(m[k]) {
      SelectNone(e, Repaired(e, m, L, k), k, Used(Below(L, k)));
    }
    ScanSkips(e, Mounted(Repaired(e, m, L, k), Used(Below(L, k)), Below(L, k)), k);
  }

  lemma SkippedSame(e: Env, m: Media, L: Layout, k: nat)
    requires WFMedia(e, m) && k !in L && k < e.n
    ensures Below(L, k + 1) == Below(L, k) && Repaired(e, m, L, k + 1) == Repaired(e, m, L, k) && Repaired(e, m, L, k)[k] == m[k]
  {
    hide WithWord;
  }

  lemma ScanSkips(e: Env, s: Mounted, i: nat)
    requires WFMedia(e, s.m) && i < e.n && (IsMeta(s.m[i]) ==> Select(e, s.m, i, s.alloc) == None)
    ensures ScanBlock(e, s, i) == s
  {
  }

  lemma RecoverStep(e: Env, m: Media, L: Layout, k: nat)
    requires WFMedia(e, m) && Recoverable(e, m, L) && k in L && k < e.n
    ensures ScanBlock(e, Mounted(Repaired(e, m, L, k), Used(Below(L, k)), Below(L, k)), k)
         == Mounted(Repaired(e, m, L, k + 1), Used(Below(L, k + 1)), Below(L, k + 1))
  {
    hide FileOk, Linked, Select, WithWord, Elements, IsMeta, Ptr, Used, ScanBlock, Cleared, Below, Repaired, InUse, Clean, Disjoint;
    var B := Below(L, k);
    var m' := Repaired(e, m, L, k);
    assert FileOk(e, m, k, L[k]) && FilesOk(e, m, L);
    ChainsApart(e, m, L);
    BelowFree(e, m, L, k);
    SelectFinds(e, m, L, k, m', Used(B));
    ScanTakes(e, Mounted(m', Used(B), B), k, L[k]);
    BelowStep(L, k);
    UsedAdd(B, k, L[k]);
    RepairedStep(e, m, L, k);
  }

  lemma BelowStep(L: Layout, k: nat)
    requires k in L
    ensures Below(L, k + 1) == Below(L, k)[k := L[k]] && k !in Below(L, k)
  {
  }

  /** Neither metablock k nor its chain is in use by the files found before it, nor changed by their repair. */
  lemma BelowFree(e: Env, m: Media, L: Layout, k: nat)
    requires WFMedia(e, m) && FilesOk(e, m, L) && Disjoint(L) && k in L && k < e.n
    ensures !InUse(Below(L, k), k) && Repaired(e, m, L, k)[k] == m[k]
    ensures forall x :: x in L[k].chain ==> x < e.n && Repaired(e, m, L, k)[x] == m[x] && !InUse(Below(L, k), x)
  {
    hide FileOk, WithWord;
    ChainsApart(e, m, L);
    forall x | x in L[k].chain ensures x < e.n && Repaired(e, m, L, k)[x] == m[x] && !InUse(Below(L, k), x) {
      assert x !in L;
    }
  }

  lemma ScanTakes(e: Env, s: Mounted, i: nat, sel: Sel)
    requires WFMedia(e, s.m) && i < e.n && i !in s.alloc && IsMeta(s.m[i]) && Select(e, s.m, i, s.alloc) == Some(sel)
    ensures ScanBlock(e, s, i)
         == Mounted(Cleared(e, s.m, i, 1 - sel.slot), s.alloc + Elements(sel.chain) + {i}, s.layout[i := sel])
  {
  }

  lemma RepairedStep(e: Env, m: Media, L: Layout, k: nat)
    requires WFMedia(e, m) && k in L && k < e.n
    ensures Repaired(e, m, L, k + 1) == Cleared(e, Repaired(e, m, L, k), k, 1 - L[k].slot)
  {
    assert Repaired(e, m, L, k)[k] == m[k];
  }

  lemma UsedAdd(L: Layout, k: nat, sel: Sel)
    requires k !in L
    ensures Used(L[k := sel]) == Used(L) + Elements(sel.chain) + {k}
  {
    var L' := L[k := sel];
    forall x | x in Used(L) + Elements(sel.chain) + {k} ensures InUse(L', x) {
      if x in Used(L) && x !in L {
        var l :| l in L && x in L[l].chain;
        assert l in L' && x in L'[l].chain;
      } else if x in Elements(sel.chain) {
        assert k in L' && x in L'[k].chain;
      }
    }
  }

  /** Mounting a recoverable medium selects its layout, allocates exactly the blocks in use, and
      only empties the pointers left unselected. */
  lemma MountRecovers(e: Env, m: Media, L: Layout)
    requires WFMedia(e, m) && Recoverable(e, m, L)
    ensures MountOf(e, m) == Mounted(Repaired(e, m, L, e.n), Used(L), L)
  {
    ScanRecovers(e, m, L, e.n);
    assert Below(L, e.n) == L;
  }

  lemma RepRecoverable(e: Env, m: Media, L: Layout, alloc: set<nat>)
    requires WFMedia(e, m) && Rep(e, m, L, alloc) && Clean(e, m, L)
    ensures Recoverable(e, m, L)
  {
  }

  /** Mounting a medium that is already consistent rebuilds exactly its state and writes nothing. */
  lemma RemountIsIdentity(e: Env, m: Media, L: Layout, alloc: set<nat>)
    requires WFMedia(e, m) && Rep(e, m, L, alloc) && Clean(e, m, L)
    ensures MountOf(e, m) == Mounted(m, alloc, L)
  {
    hide FileOk, Disjoint, WithWord, MountOf, Clean;
    assert Recoverable(e, m, L) by { RepRecoverable(e, m, L, alloc); }
    MountRecovers(e, m, L);
    forall k | 0 <= k < e.n ensures Repaired(e, m, L, e.n)[k] == m[k] {
      if k in L {
        PtrCleared(m[k], 1 - L[k].slot);
      }
    }
    assert Repaired(e, m, L, e.n) == m;
  }

  // ---------------------------------------------------------------------------------------------
  // Mounting an arbitrary medium

  /** Whether k holds a sound file depends on its metablock and its chain only. */
  lemma FileOkSame(e: Env, m: Media, m': Media, k: nat, sel: Sel)
    requires WFMedia(e, m) && WFMedia(e, m') && FileOk(e, m, k, sel)
    requires forall x :: x in sel.chain && x < e.n ==> m'[x] == m[x]
    requires IsMeta(m'[k]) && Blk0(m'[k], sel.slot) == Blk0(m[k], sel.slot) && Crc(m'[k], sel.slot) == Crc(m[k], sel.slot)
    ensures FileOk(e, m', k, sel)
  {
    LinkedSame(e, m, m', sel.chain);
    CrcSame(e, m, m', sel.chain);
  }

  lemma SelectSound(e: Env, m: Media, i: nat, avoid: set<nat>)
    requires WFMedia(e, m) && i < e.n && IsMeta(m[i]) && Select(e, m, i, avoid).Some?
    ensures var sel := Select(e, m, i, avoid).value; FileOk(e, m, i, sel) && Elements(sel.chain) !! avoid
  {
    var c := Chain(e, m, Blk0(m[i], 0), avoid);
    var d := Chain(e, m, Blk0(m[i], 1), avoid);
    if c.Some? {
      ChainSound(e, m, Blk0(m[i], 0), avoid);
      LinkedBlocks(e, m, c.value);
    }
    if d.Some? {
      ChainSound(e, m, Blk0(m[i], 1), avoid);
      LinkedBlocks(e, m, d.value);
    }
  }

  /** Clearing the unselected pointer of block k keeps every sound file whose chain avoids k sound. */
  lemma ClearedFileOk(e: Env, m: Media, l: nat, sel: Sel, k: nat, j: Slot)
    requires WFMedia(e, m) && FileOk(e, m, l, sel) && k < e.n && IsMeta(m[k]) && (l == k ==> j != sel.slot)
    ensures FileOk(e, Cleared(e, m, k, j), l, sel)
  {
    hide Linked, CrcOf, FileOk, WithWord;
    FileOkMeta(e, m, l, sel);
    assert FilesOk(e, m, map[l := sel]);
    ChainsApart(e, m, map[l := sel]);
    assert (map[l := sel])[l] == sel;
    PtrCleared(m[k], j);
    assert m[l] == Cleared(e, m, k, j)[l] || l == k;
    FileOkSame(e, m, Cleared(e, m, k, j), l, sel);
  }

  lemma {:induction false} ScanRep(e: Env, m: Media, i: nat)
    requires WFMedia(e, m) && i <= e.n
    ensures var s := Scan(e, m, i); Rep(e, s.m, s.layout, s.alloc)
    decreases i
  {
    hide FileOk, Select, Used, ScanBlock, Rep;
    if i == 0 {
      UsedNone();
      RepNone(e, m);
    } else {
      ScanRep(e, m, i - 1);
      ScanBlockRep(e, Scan(e, m, i - 1), i - 1);
    }
  }

  lemma RepNone(e: Env, m: Media)
    requires WFMedia(e, m)
    ensures Rep(e, m, map[], {})
  {
  }

  lemma ScanBlockRep(e: Env, s: Mounted, k: nat)
    requires WFMedia(e, s.m) && k < e.n && Rep(e, s.m, s.layout, s.alloc)
    ensures var s' := ScanBlock(e, s, k); Rep(e, s'.m, s'.layout, s'.alloc)
  {
    hide FileOk, Select, Used, Cleared, Elements, InUse;
    if k in s.alloc || !IsMeta(s.m[k]) || Select(e, s.m, k, s.alloc).None? {
    } else {
      var sel := Select(e, s.m, k, s.alloc).value;
      SelectSound(e, s.m, k, s.alloc);
      AddFile(e, s.m, s.layout, s.alloc, k, sel);
    }
  }

  lemma AddFile(e: Env, m: Media, L: Layout, alloc: set<nat>, k: nat, sel: Sel)
    requires WFMedia(e, m) && Rep(e, m, L, alloc) && k < e.n && IsMeta(m[k]) && k !in alloc
    requires FileOk(e, m, k, sel) && Elements(sel.chain) !! alloc
    ensures Rep(e, Cleared(e, m, k, 1 - sel.slot), L[k := sel], alloc + Elements(sel.chain) + {k})
  {
    hide FileOk, LiveOk, Elements, Used, InUse, Cleared, Disjoint;
    assert !InUse(L, k) && forall x :: x in sel.chain ==> !InUse(L, x) by {
      assert forall x :: x in sel.chain ==> x in Elements(sel.chain);
    }
    NotKey(L, k);
    UsedAdd(L, k, sel);
    DisjointAdd(L, k, sel);
    var m', L' := Cleared(e, m, k, 1 - sel.slot), L[k := sel];
    forall l | l in L' ensures LiveOk(e, m', l, L'[l]) {
      if l == k {
        ClearedSelf(e, m, k, sel);
      } else {
        assert LiveOk(e, m, l, L[l]);
        ClearedLiveOk(e, m, l, L[l], k, 1 - sel.slot);
      }
    }
  }

  lemma NotKey(L: Layout, k: nat)
    requires !InUse(L, k)
    ensures k !in L
  {
  }

  lemma ClearedSelf(e: Env, m: Media, k: nat, sel: Sel)
    requires WFMedia(e, m) && FileOk(e, m, k, sel)
    ensures k < e.n && LiveOk(e, Cleared(e, m, k, 1 - sel.slot), k, sel)
  {
    hide FileOk, WithWord;
    FileOkMeta(e, m, k, sel);
    ClearedFileOk(e, m, k, sel, k, 1 - sel.slot);
    PtrCleared(m[k], 1 - sel.slot);
  }

  lemma ClearedLiveOk(e: Env, m: Media, l: nat, sel: Sel, k: nat, j: Slot)
    requires WFMedia(e, m) && LiveOk(e, m, l, sel) && k < e.n && IsMeta(m[k]) && l != k
    ensures LiveOk(e, Cleared(e, m, k, j), l, sel)
  {
    hide FileOk, WithWord;
    FileOkMeta(e, m, l, sel);
    ClearedFileOk(e, m, l, sel, k, j);
  }

  lemma DisjointAdd(L: Layout, k: nat, sel: Sel)
    requires Disjoint(L) && k !in L && forall x :: x in sel.chain ==> !InUse(L, x)
    ensures Disjoint(L[k := sel])
  {
  }

  /** On any medium whatever, mounting establishes the representation invariant. */
  lemma MountEstablishesRep(e: Env, m: Media)
    requires WFMedia(e, m)
    ensures Rep(e, MountOf(e, m).m, MountOf(e, m).layout, MountOf(e, m).alloc)
  {
    ScanRep(e, m, e.n);
  }

  // ---------------------------------------------------------------------------------------------
  // Mounting is idempotent on any medium

  /** The media differ in metablocks only. */
  ghost predicate SameButMetas(e: Env, m: Media, m': Media)
    requires WFMedia(e, m) && WFMedia(e, m')
  {
    forall x :: 0 <= x < e.n ==> m'[x] == m[x] || (IsMeta(m[x]) && IsMeta(m'[x]))
  }

  lemma {:induction false} ChainSameButMetas(e: Env, m: Media, m': Media, start: nat, avoid: set<nat>)
    requires WFMedia(e, m) && WFMedia(e, m') && SameButMetas(e, m, m')
    ensures Chain(e, m, start, avoid) == Chain(e, m', start, avoid)
    decreases Range(e.n) - avoid
  {
    if start < e.n && start !in avoid {
      assert start in Range(e.n) - avoid;
      if IsMeta(m[start]) {
        MetaEndsIn254(m[start]);
        ChainNone(e, m, 254, avoid + {start});
        if IsMeta(m'[start]) {
          MetaEndsIn254(m'[start]);
          ChainNone(e, m', 254, avoid + {start});
        }
      } else {
        ChainSameButMetas(e, m, m', Next(m[start]), avoid + {start});
      }
    }
  }

  lemma ValidChainSame(e: Env, m: Media, m': Media, start: nat, crc: seq<byte>, avoid: set<nat>)
    requires WFMedia(e, m) && WFMedia(e, m') && SameButMetas(e, m, m')
    ensures ValidChain(e, m, start, crc, avoid) == ValidChain(e, m', start, crc, avoid)
  {
    hide Chain, IsMeta, CrcOf, Linked;
    ChainSameButMetas(e, m, m', start, avoid);
    var r := Chain(e, m, start, avoid);
    if r.Some? {
      ChainSound(e, m, start, avoid);
      LinkedBlocks(e, m, r.value);
      CrcSame(e, m, m', r.value);
    }
  }

  lemma SameButMetasRefl(e: Env, m: Media)
    requires WFMedia(e, m)
    ensures SameButMetas(e, m, m)
  {
  }

  lemma SameButMetasTrans(e: Env, m: Media, m': Media, m'': Media)
    requires WFMedia(e, m) && WFMedia(e, m') && WFMedia(e, m'')
    requires SameButMetas(e, m, m') && SameButMetas(e, m', m'')
    ensures SameButMetas(e, m, m'')
  {
  }

  /** Scanning changes metablocks only, each at most when it is reached. */
  lemma {:induction false} ScanStable(e: Env, m: Media, i: nat, j: nat)
    requires WFMedia(e, m) && i <= j <= e.n
    ensures SameButMetas(e, Scan(e, m, i).m, Scan(e, m, j).m)
    ensures forall k :: 0 <= k < e.n && (k < i || k >= j) ==> Scan(e, m, j).m[k] == Scan(e, m, i).m[k]
    decreases j
  {
    hide ScanBlock, SameButMetas, IsMeta;
    if i == j {
      SameButMetasRefl(e, Scan(e, m, i).m);
    } else {
      ScanStable(e, m, i, j - 1);
      ScanBlockStable(e, Scan(e, m, j - 1), j - 1);
      SameButMetasTrans(e, Scan(e, m, i).m, Scan(e, m, j - 1).m, Scan(e, m, j).m);
    }
  }

  lemma ScanBlockStable(e: Env, s: Mounted, k: nat)
    requires WFMedia(e, s.m) && k < e.n
    ensures SameButMetas(e, s.m, ScanBlock(e, s, k).m)
    ensures forall l :: 0 <= l < e.n && l != k ==> ScanBlock(e, s, k).m[l] == s.m[l]
  {
    hide Select, WithWord;
    PtrCleared(s.m[k], 0);
    PtrCleared(s.m[k], 1);
  }

  lemma {:induction false} ScanGrows(e: Env, m: Media, i: nat, j: nat)
    requires WFMedia(e, m) && i <= j <= e.n
    ensures Scan(e, m, i).alloc <= Scan(e, m, j).alloc
    decreases j
  {
    hide Select, Cleared, IsMeta;
    if i < j {
      ScanGrows(e, m, i, j - 1);
    }
  }

  lemma ScanLeaves(e: Env, s: Mounted, i: nat)
    requires WFMedia(e, s.m) && i < e.n && i !in ScanBlock(e, s, i).alloc
    ensures ScanBlock(e, s, i) == s && (IsMeta(s.m[i]) ==> Select(e, s.m, i, s.alloc).None?)
  {
    hide Select, Cleared, IsMeta;
  }

  /** Mounting any medium leaves no metablock behind of which one of the two pointers, whichever, leads to
      a complete chain of blocks not in use with the right checksum. */
  lemma MountMissesNone(e: Env, m: Media, i: nat, sel: Sel)
    requires WFMedia(e, m) && i < e.n && i !in MountOf(e, m).alloc
    ensures !(FileOk(e, MountOf(e, m).m, i, sel) && Elements(sel.chain) !! MountOf(e, m).alloc)
  {
    hide FileOk, SameButMetas, ScanBlock, Chain, Linked, CrcOf, Elements, IsMeta;
    var s, S := Scan(e, m, i), MountOf(e, m);
    if FileOk(e, S.m, i, sel) && Elements(sel.chain) !! S.alloc {
      ScanStable(e, m, i, e.n);
      ScanStable(e, m, i + 1, e.n);
      ScanGrows(e, m, i, e.n);
      ScanGrows(e, m, i + 1, e.n);
      ScanLeaves(e, s, i);
      FileOkMeta(e, S.m, i, sel);
      SelectMisses(e, s.m, i, S.m, sel, s.alloc);
      assert false;
    }
  }

  lemma SelectMisses(e: Env, m: Media, i: nat, m': Media, sel: Sel, avoid: set<nat>)
    requires WFMedia(e, m) && WFMedia(e, m') && SameButMetas(e, m, m') && i < e.n && m'[i] == m[i]
    requires FileOk(e, m', i, sel) && Elements(sel.chain) !! avoid
    ensures Select(e, m, i, avoid).Some?
  {
    hide SameButMetas, Chain, Elements;
    ChainFinds(e, m', sel.chain, avoid);
    ValidChainSame(e, m, m', Blk0(m[i], sel.slot), Crc(m[i], sel.slot), avoid);
  }

  /** Rescanning block k of the mounted medium S repeats what the first scan did there. */
  lemma RescanBlock(e: Env, s: Mounted, S: Media, k: nat)
    requires WFMedia(e, s.m) && WFMedia(e, S) && k < e.n && SameButMetas(e, s.m, S)
    requires S[k] == ScanBlock(e, s, k).m[k]
    ensures var s' := ScanBlock(e, s, k);
            ScanBlock(e, Mounted(S, s.alloc, s.layout), k) == Mounted(S, s'.alloc, s'.layout)
  {
    hide ValidChain, WithWord, IsMeta, Ptr, Blk0, Crc;
    if k in s.alloc || !IsMeta(s.m[k]) {
    } else {
      ValidChainSame(e, s.m, S, Blk0(s.m[k], 0), Crc(s.m[k], 0), s.alloc);
      ValidChainSame(e, s.m, S, Blk0(s.m[k], 1), Crc(s.m[k], 1), s.alloc);
      var sel := Select(e, s.m, k, s.alloc);
      if sel.Some? {
        var j := 1 - sel.value.slot;
        PtrCleared(s.m[k], j);
        PtrCleared(S[k], j);
        if j == 0 {
          EmptyPtr(S[k], 0);
          ValidChainNone(e, S, Blk0(S[k], 0), Crc(S[k], 0), s.alloc);
        }
        assert Cleared(e, S, k, j) == S;
      }
    }
  }

  lemma ValidChainNone(e: Env, m: Media, start: nat, crc: seq<byte>, avoid: set<nat>)
    requires WFMedia(e, m) && start >= e.n
    ensures ValidChain(e, m, start, crc, avoid) == None
  {
  }

  /** Rescanning the first k blocks of what a scan of the first i left repeats what that scan did. */
  lemma {:induction false} Rescan(e: Env, m: Media, i: nat, k: nat)
    requires WFMedia(e, m) && k <= i <= e.n
    ensures Scan(e, Scan(e, m, i).m, k) == Mounted(Scan(e, m, i).m, Scan(e, m, k).alloc, Scan(e, m, k).layout)
    decreases k
  {
    hide ScanBlock, SameButMetas;
    if k > 0 {
      Rescan(e, m, i, k - 1);
      ScanStable(e, m, k - 1, i);
      ScanStable(e, m, k, i);
      RescanBlock(e, Scan(e, m, k - 1), Scan(e, m, i).m, k - 1);
    }
  }

  lemma {:induction false} ScanResumes(e: Env, m: Media, i: nat, j: nat)
    requires WFMedia(e, m) && i <= j <= e.n
    ensures Scan(e, Scan(e, m, i).m, j) == Scan(e, m, j)
    decreases j
  {
    hide ScanBlock;
    if j == i {
      Rescan(e, m, i, i);
    } else {
      ScanResumes(e, m, i, j - 1);
    }
  }

  /** A mount that is cut off after any number of blocks has changed nothing for the next mount. */
  lemma MountResumes(e: Env, m: Media, i: nat)
    requires WFMedia(e, m) && i <= e.n
    ensures MountOf(e, Scan(e, m, i).m) == MountOf(e, m)
  {
    ScanResumes(e, m, i, e.n);
  }

  /** Mounting again changes nothing, whatever the medium was before the first mount. */
  lemma MountIdempotent(e: Env, m: Media)
    requires WFMedia(e, m)
    ensures MountOf(e, MountOf(e, m).m) == MountOf(e, m)
  {
    MountResumes(e, m, e.n);
  }
}
