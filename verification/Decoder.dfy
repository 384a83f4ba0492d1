/**
 The incremental Gaussian elimination shared by the C decoder (fuota.c) and the Python
 decoder (frag.py), on abstract rows. A store holds at most one row for each pivot.
*/
module Decoder {
  import opened Options
  import opened Gf2

  type Store = seq<Option<Row>>

  /** The highest bit set in r is bit i. */
  ghost predicate Top(r: Row, i: nat) {
    i < |r.bits| && r.bits[i] && forall k :: i < k < |r.bits| ==> !r.bits[k]
  }

  /** The index of the highest bit set below n, or -1. */
  function TopIndex(bits: seq<bool>, n: nat): (p: int)
    requires n <= |bits|
    ensures -1 <= p < n && (p >= 0 ==> bits[p]) && forall k :: p < k < n ==> !bits[k]
  {
    if n == 0 then -1 else if bits[n - 1] then n - 1 else TopIndex(bits, n - 1)
  }

  ghost predicate WF(st: Store, ct: nat, nw: nat) {
    && |st| == ct
    && forall i :: 0 <= i < ct && st[i].Some? ==> Shape(st[i].value, ct, nw) && Top(st[i].value, i)
  }

  function Empty(ct: nat): (st: Store)
    ensures |st| == ct
  {
    seq(ct, _ => None)
  }

  /** Eliminates the stored pivots below n from r, highest first. */
  ghost function Reduce(st: Store, r: Row, n: nat, ct: nat, nw: nat): (z: Row)
    requires WF(st, ct, nw) && Shape(r, ct, nw) && n <= ct
    ensures Shape(z, ct, nw)
    decreases n
  {
    if n == 0 then r
    else if r.bits[n - 1] && st[n - 1].Some? then Reduce(st, Xor(r, st[n - 1].value), n - 1, ct, nw)
    else Reduce(st, r, n - 1, ct, nw)
  }

  /** fuota_process: reduce by every stored pivot, then store at the top bit of what is left. */
  ghost function Step(st: Store, r: Row, ct: nat, nw: nat): (st': Store)
    requires WF(st, ct, nw) && Shape(r, ct, nw)
    ensures |st'| == ct
  {
    var z := Reduce(st, r, ct, ct, nw);
    var p := TopIndex(z.bits, ct);
    if p >= 0 then st[p := Some(z)] else st
  }

  /** DefragSession.process: stop at the first empty pivot whose bit is set. */
  ghost function PyStep(st: Store, r: Row, n: nat, ct: nat, nw: nat): (st': Store)
    requires WF(st, ct, nw) && Shape(r, ct, nw) && n <= ct
    ensures |st'| == ct
    decreases n
  {
    if n == 0 then st
    else if !r.bits[n - 1] then PyStep(st, r, n - 1, ct, nw)
    else if st[n - 1].Some? then PyStep(st, Xor(r, st[n - 1].value), n - 1, ct, nw)
    else st[n - 1 := Some(r)]
  }

  ghost predicate Complete(st: Store) {
    forall i :: 0 <= i < |st| ==> st[i].Some?
  }

  // ---------------------------------------------------------------------------------------------
  // Reduction is a linear map

  lemma {:induction false} ReduceLinear(st: Store, a: Row, b: Row, n: nat, ct: nat, nw: nat)
    requires WF(st, ct, nw) && Shape(a, ct, nw) && Shape(b, ct, nw) && n <= ct
    ensures Reduce(st, Xor(a, b), n, ct, nw) == Xor(Reduce(st, a, n, ct, nw), Reduce(st, b, n, ct, nw))
    decreases n
  {
    if n == 0 {
    } else if st[n - 1].None? {
      ReduceLinear(st, a, b, n - 1, ct, nw);
    } else {
      var s := st[n - 1].value;
      if a.bits[n - 1] && b.bits[n - 1] {
        Cancel(a, b, s);
        ReduceLinear(st, Xor(a, s), Xor(b, s), n - 1, ct, nw);
      } else if a.bits[n - 1] {
        Assoc(a, b, s);
        ReduceLinear(st, Xor(a, s), b, n - 1, ct, nw);
      } else if b.bits[n - 1] {
        Assoc(a, b, s);
        ReduceLinear(st, a, Xor(b, s), n - 1, ct, nw);
      } else {
        ReduceLinear(st, a, b, n - 1, ct, nw);
      }
    }
  }

  /** Bits at or above n, and bits of empty pivots when nothing is set above, are left alone;
      stored pivots below n are cleared. */
  lemma {:induction false} ReduceBits(st: Store, r: Row, n: nat, ct: nat, nw: nat)
    requires WF(st, ct, nw) && Shape(r, ct, nw) && n <= ct
    ensures forall k :: n <= k < ct ==> Reduce(st, r, n, ct, nw).bits[k] == r.bits[k]
    ensures forall k :: 0 <= k < n && st[k].Some? ==> !Reduce(st, r, n, ct, nw).bits[k]
    decreases n
  {
    if n == 0 {
    } else if r.bits[n - 1] && st[n - 1].Some? {
      ReduceBits(st, Xor(r, st[n - 1].value), n - 1, ct, nw);
    } else {
      ReduceBits(st, r, n - 1, ct, nw);
    }
  }

  /** A row without a stored pivot below n is already reduced. */
  lemma {:induction false} ReduceFixed(st: Store, r: Row, n: nat, ct: nat, nw: nat)
    requires WF(st, ct, nw) && Shape(r, ct, nw) && n <= ct
    requires forall k :: 0 <= k < n && st[k].Some? ==> !r.bits[k]
    ensures Reduce(st, r, n, ct, nw) == r
    decreases n
  {
    if n > 0 {
      ReduceFixed(st, r, n - 1, ct, nw);
    }
  }

  /** Stopping the reduction early and finishing it later makes no difference. */
  lemma {:induction false} ReduceAgain(st: Store, r: Row, n: nat, ct: nat, nw: nat)
    requires WF(st, ct, nw) && Shape(r, ct, nw) && n <= ct
    requires forall k :: n <= k < ct && st[k].Some? ==> !r.bits[k]
    ensures Reduce(st, r, ct, ct, nw) == Reduce(st, r, n, ct, nw)
    decreases ct - n
  {
    if n < ct {
      ReduceAgain(st, r, n + 1, ct, nw);
    }
  }

  /** Every stored row reduces to zero. */
  lemma {:induction false} ReduceStored(st: Store, i: nat, n: nat, ct: nat, nw: nat)
    requires WF(st, ct, nw) && i < n <= ct && st[i].Some?
    ensures Reduce(st, st[i].value, n, ct, nw) == Zero(ct, nw)
    decreases n
  {
    var s := st[i].value;
    if n == i + 1 {
      Identity(s, s);
      ReduceFixed(st, Zero(ct, nw), i, ct, nw);
    } else {
      ReduceStored(st, i, n - 1, ct, nw);
    }
  }

  /** Filling an empty pivot changes the reduction map by one rank-one update. */
  lemma {:induction false} ReduceInsert(st: Store, p: nat, w: Row, x: Row, n: nat, ct: nat, nw: nat)
    requires WF(st, ct, nw) && Shape(w, ct, nw) && Shape(x, ct, nw)
    requires p < n <= ct && st[p].None? && Top(w, p)
    ensures WF(st[p := Some(w)], ct, nw)
    ensures var y := Reduce(st, x, n, ct, nw);
            Reduce(st[p := Some(w)], x, n, ct, nw)
            == if y.bits[p] then Xor(y, Reduce(st, w, n, ct, nw)) else y
    decreases n
  {
    var st' := st[p := Some(w)];
    assert WF(st', ct, nw);
    if n == p + 1 {
      ReduceBits(st, x, p, ct, nw);
      ReduceBelow(st, st', x, p, ct, nw);
      if x.bits[p] {
        ReduceBelow(st, st', Xor(x, w), p, ct, nw);
        ReduceLinear(st, x, w, p, ct, nw);
      }
    } else {
      ReduceInsert(st, p, w, if x.bits[n - 1] && st[n - 1].Some? then Xor(x, st[n - 1].value) else x, n - 1, ct, nw);
    }
  }

  lemma {:induction false} ReduceBelow(st: Store, st': Store, x: Row, n: nat, ct: nat, nw: nat)
    requires WF(st, ct, nw) && WF(st', ct, nw) && Shape(x, ct, nw) && n <= ct
    requires forall k :: 0 <= k < n ==> st[k] == st'[k]
    ensures Reduce(st, x, n, ct, nw) == Reduce(st', x, n, ct, nw)
    decreases n
  {
    if n == 0 {
    } else if x.bits[n - 1] && st[n - 1].Some? {
      ReduceBelow(st, st', Xor(x, st[n - 1].value), n - 1, ct, nw);
    } else {
      ReduceBelow(st, st', x, n - 1, ct, nw);
    }
  }

  // ---------------------------------------------------------------------------------------------
  // One chunk

  /** What is left of x once every stored pivot has been eliminated. */
  ghost function Residue(st: Store, x: Row, ct: nat, nw: nat): (z: Row)
    requires WF(st, ct, nw) && Shape(x, ct, nw)
    ensures Shape(z, ct, nw)
  {
    Reduce(st, x, ct, ct, nw)
  }

  ghost predicate AddsAt(st: Store, st': Store, z: Row, p: nat, x: Row, ct: nat, nw: nat)
    requires WF(st, ct, nw) && WF(st', ct, nw) && Shape(z, ct, nw) && Shape(x, ct, nw) && p < ct
  {
    var y := Residue(st, x, ct, nw);
    Residue(st', x, ct, nw) == if y.bits[p] then Xor(y, z) else y
  }

  /** The residue map of st' is that of st, plus z wherever bit p is left. */
  ghost predicate AddsResidue(st: Store, st': Store, z: Row, p: nat, ct: nat, nw: nat)
    requires WF(st, ct, nw) && WF(st', ct, nw) && Shape(z, ct, nw) && p < ct
  {
    forall x {:trigger AddsAt(st, st', z, p, x, ct, nw)} | Shape(x, ct, nw) :: AddsAt(st, st', z, p, x, ct, nw)
  }

  /** What a step does: nothing when chunk r leaves no bits, else it fills the top pivot p of the
      residue of r and adds that residue to the residue map. */
  ghost predicate Updated(st: Store, st': Store, r: Row, ct: nat, nw: nat)
    requires WF(st, ct, nw) && WF(st', ct, nw) && Shape(r, ct, nw)
  {
    var z := Residue(st, r, ct, nw);
    var p := TopIndex(z.bits, ct);
    if p < 0 then st' == st
    else st[p].None? && st'[p].Some? && st' == st[p := st'[p]] && AddsResidue(st, st', z, p, ct, nw)
  }

  lemma InsertAddsResidue(st: Store, p: nat, w: Row, st': Store, ct: nat, nw: nat)
    requires WF(st, ct, nw) && Shape(w, ct, nw) && p < ct && st[p].None? && Top(w, p) && st' == st[p := Some(w)]
    ensures WF(st', ct, nw) && AddsResidue(st, st', Residue(st, w, ct, nw), p, ct, nw)
  {
    assert WF(st', ct, nw);
    var z := Residue(st, w, ct, nw);
    forall x | Shape(x, ct, nw) ensures AddsAt(st, st', z, p, x, ct, nw) {
      ReduceInsert(st, p, w, x, ct, ct, nw);
    }
  }

  lemma StepUpdates(st: Store, r: Row, ct: nat, nw: nat)
    requires WF(st, ct, nw) && Shape(r, ct, nw)
    ensures WF(Step(st, r, ct, nw), ct, nw) && Updated(st, Step(st, r, ct, nw), r, ct, nw)
  {
    var z := Residue(st, r, ct, nw);
    var p := TopIndex(z.bits, ct);
    if p >= 0 {
      ReduceBits(st, r, ct, ct, nw);
      ReduceFixed(st, z, ct, ct, nw);
      InsertAddsResidue(st, p, z, st[p := Some(z)], ct, nw);
    }
  }

  lemma {:induction false} PyStepUpdates(st: Store, r: Row, n: nat, ct: nat, nw: nat)
    requires WF(st, ct, nw) && Shape(r, ct, nw) && n <= ct && forall k :: n <= k < ct ==> !r.bits[k]
    ensures WF(PyStep(st, r, n, ct, nw), ct, nw) && Updated(st, PyStep(st, r, n, ct, nw), r, ct, nw)
    decreases n
  {
    ReduceAgain(st, r, n, ct, nw);
    if n == 0 {
    } else if !r.bits[n - 1] {
      PyStepUpdates(st, r, n - 1, ct, nw);
    } else if st[n - 1].Some? {
      var r' := Xor(r, st[n - 1].value);
      ReduceAgain(st, r', n - 1, ct, nw);
      PyStepUpdates(st, r', n - 1, ct, nw);
    } else {
      ReduceAgain(st, r, n - 1, ct, nw);
      ReduceBits(st, r, n - 1, ct, nw);
      assert TopIndex(Residue(st, r, ct, nw).bits, ct) == n - 1;
      InsertAddsResidue(st, n - 1, r, st[n - 1 := Some(r)], ct, nw);
    }
  }
}
