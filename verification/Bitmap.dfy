/** pfs_alloc: the block allocation map, eight words of 32 bits. */
module Bitmap {
  import opened Words
  import opened Blocks

  function Or(a: Word, b: Word): Word { seq(32, k requires 0 <= k < 32 => a[k] || b[k]) }

  predicate IsAlloc(a: seq<Word>, blk: nat)
    requires |a| == 8 && blk < 256
  {
    And(a[blk / 32], Mask(blk % 32)) != ZeroWord()
  }

  function Alloc(a: seq<Word>, blk: nat): (r: seq<Word>)
    requires |a| == 8 && blk < 256
    ensures |r| == 8
  {
    a[blk / 32 := Or(a[blk / 32], Mask(blk % 32))]
  }

  function Dealloc(a: seq<Word>, blk: nat): (r: seq<Word>)
    requires |a| == 8 && blk < 256
    ensures |r| == 8
  {
    a[blk / 32 := And(a[blk / 32], Not(Mask(blk % 32)))]
  }

  function Clear(): (r: seq<Word>)
    ensures |r| == 8
  {
    seq<Word>(8, _ => ZeroWord())
  }

  /** The set of allocated blocks. */
  ghost function View(a: seq<Word>): (r: set<nat>)
    requires |a| == 8
    ensures forall x :: x in r <==> x < 256 && IsAlloc(a, x)
  {
    set x | x in Range(256) && IsAlloc(a, x)
  }

  lemma IsAllocBit(a: seq<Word>, blk: nat)
    requires |a| == 8 && blk < 256
    ensures IsAlloc(a, blk) <==> BitAt(a, blk)
  {
    TestBit(a[blk / 32], blk % 32);
  }

  /** Setting and clearing a bit of the map adds and removes exactly that block. */
  lemma UpdateViews(a: seq<Word>, blk: nat)
    requires |a| == 8 && blk < 256
    ensures View(Alloc(a, blk)) == View(a) + {blk}
    ensures View(Dealloc(a, blk)) == View(a) - {blk}
  {
    forall x: nat | x < 256
      ensures IsAlloc(Alloc(a, blk), x) == (IsAlloc(a, x) || x == blk)
      ensures IsAlloc(Dealloc(a, blk), x) == (IsAlloc(a, x) && x != blk)
    {
      IsAllocBit(a, x);
      IsAllocBit(Alloc(a, blk), x);
      IsAllocBit(Dealloc(a, blk), x);
      assert x / 32 == blk / 32 && x % 32 == blk % 32 <==> x == blk;
    }
  }

  lemma ClearView()
    ensures View(Clear()) == {}
  {
    forall x: nat | x < 256 ensures !IsAlloc(Clear(), x) {
      IsAllocBit(Clear(), x);
    }
  }
}
