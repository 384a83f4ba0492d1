/** How much room services/eefs/picofs.c has: the free blocks, and what block_alloc finds of them. */
module Space {
  import opened Blocks

  ghost function Free(n: nat, al: set<nat>): set<nat> { Range(n) - al }

  /** There are need free blocks, and one that the next search gets to: it does not look at the block
      where it starts, unless that is the only one. */
  ghost predicate Room(n: nat, al: set<nat>, next: nat, need: nat) {
    |Free(n, al)| >= need && exists x: nat :: x in Free(n, al) && (n == 1 || x != next)
  }

  /** The number of blocks for a chain of sz bytes. */
  function LinkCount(sz: nat): nat { (sz + 30) / 31 }

  lemma LinkCountIs(sz: nat, k: nat)
    requires 31 * k < sz
    ensures LinkCount(sz) > k && (sz <= 31 * (k + 1) ==> LinkCount(sz) == k + 1)
  {
  }

  lemma RoomFirst(n: nat, al: set<nat>, next: nat, need: nat)
    requires need >= 1
    ensures Room(n, al, next, need) ==> Room(n, al, next, 1)
    ensures Room(n, al, next, 1) <==> exists x: nat :: x in Free(n, al) && (n == 1 || x != next)
  {
    if Free(n, al) == {} {
    } else {
      SubsetSize({}, Free(n, al));
    }
  }

  lemma RoomFound(n: nat, al: set<nat>, next: nat, x: nat)
    requires x < n && x !in al && (n == 1 || x != next)
    ensures Room(n, al, next, 1)
  {
    assert x in Free(n, al);
    SubsetSize({x}, Free(n, al));
  }

  lemma RoomNone(n: nat, al: set<nat>, next: nat)
    requires (forall x: nat :: x < n && x != next ==> x in al) && (n == 1 ==> 0 in al)
    ensures !Room(n, al, next, 1)
  {
  }

  lemma SubsetSize(a: set<nat>, b: set<nat>)
    requires a <= b
    ensures |a| <= |b| && (|a| == |b| ==> a == b)
  {
    assert b == a + (b - a);
    assert |b| == |a| + |b - a|;
  }

  ghost predicate Distinct(c: seq<nat>) { forall k, l :: 0 <= k < l < |c| ==> c[k] != c[l] }

  lemma {:induction false} ElementsSize(c: seq<nat>)
    ensures |Elements(c)| <= |c|
    decreases |c|
  {
    if c != [] {
      ElementsSize(c[1..]);
    }
  }

  lemma {:induction false} DistinctSize(c: seq<nat>)
    requires Distinct(c)
    ensures |Elements(c)| == |c|
    decreases |c|
  {
    if c != [] {
      var t := c[1..];
      assert Distinct(t) && c[0] !in t by {
        assert forall k :: 0 <= k < |t| ==> t[k] == c[k + 1];
      }
      DistinctSize(t);
    }
  }

  /** As many different free blocks as c has. */
  lemma RoomTaken(n: nat, al: set<nat>, next: nat, c: seq<nat>)
    requires Room(n, al, next, 1) && forall x :: x in c ==> x < n && x !in al
    requires Distinct(c)
    ensures Room(n, al, next, |c|)
  {
    DistinctSize(c);
    SubsetSize(Elements(c), Free(n, al));
  }

  /** When nothing is left after c, there was no room for more than c. */
  lemma RoomUsedUp(n: nat, al: set<nat>, c: seq<nat>, next: nat, need: nat)
    requires c != [] && !Room(n, al + Elements(c), c[|c| - 1], 1) && need > |c|
    ensures !Room(n, al, next, need)
  {
    RoomFirst(n, al + Elements(c), c[|c| - 1], 1);
    ElementsSize(c);
    assert Free(n, al + Elements(c)) == {};
    SubsetSize(Free(n, al), Elements(c));
  }

  /** A block that is found free counts as one of those needed. */
  lemma RoomAfter(n: nat, al: set<nat>, next: nat, f: nat, need: nat)
    requires Room(n, al, next, 1) && f in Free(n, al) && need >= 1
    ensures Room(n, al + {f}, f, need) <==> Room(n, al, next, need + 1)
  {
    hide Range;
    var all, r := Free(n, al), Free(n, al + {f});
    assert r == all - {f} && |r| == |all| - 1;
    if |r| >= 1 {
      var x :| x in r;
      assert x in Free(n, al + {f}) && x != f;
    }
  }
}
