/**
 What a whole decoding session achieves: which chunks it keeps, when it completes, what it unpacks
 to, and that the C and the Python decoder cannot be told apart.
*/
module Fountain {
  import opened Options
  import opened Bits
  import opened Gf2
  import opened Decoder

  ghost predicate Rows(rs: seq<Row>, ct: nat, nw: nat) {
    forall k :: 0 <= k < |rs| ==> Shape(rs[k], ct, nw)
  }

  /** The store of the C decoder after processing rs in order. */
  ghost function Run(rs: seq<Row>, ct: nat, nw: nat): (st: Store)
    requires Rows(rs, ct, nw)
    ensures WF(st, ct, nw)
  {
    if rs == [] then Empty(ct)
    else
      var st := Run(rs[..|rs| - 1], ct, nw);
      StepUpdates(st, rs[|rs| - 1], ct, nw);
      Step(st, rs[|rs| - 1], ct, nw)
  }

  /** The store of the Python decoder after processing rs in order. */
  ghost function RunPy(rs: seq<Row>, ct: nat, nw: nat): (st: Store)
    requires Rows(rs, ct, nw)
    ensures WF(st, ct, nw)
  {
    if rs == [] then Empty(ct)
    else
      var st := RunPy(rs[..|rs| - 1], ct, nw);
      PyStepUpdates(st, rs[|rs| - 1], ct, ct, nw);
      PyStep(st, rs[|rs| - 1], ct, ct, nw)
  }

  function Vectors(rs: seq<Row>): (vs: seq<seq<bool>>)
    ensures |vs| == |rs| && forall k :: 0 <= k < |rs| ==> vs[k] == rs[k].bits
  {
    seq(|rs|, k requires 0 <= k < |rs| => rs[k].bits)
  }

  // ---------------------------------------------------------------------------------------------
  // No information is lost

  ghost predicate Vanishes(st: Store, x: Row, ct: nat, nw: nat)
    requires WF(st, ct, nw) && Shape(x, ct, nw)
  {
    Residue(st, x, ct, nw).bits == ZeroBits(ct)
  }

  /** A vector is in the span of the processed check bits exactly when the store reduces it to zero. */
  lemma {:induction false} SpanIsKernel(rs: seq<Row>, x: Row, ct: nat, nw: nat)
    requires Rows(rs, ct, nw) && Shape(x, ct, nw)
    ensures InSpan(x.bits, Vectors(rs)) <==> Vanishes(Run(rs, ct, nw), x, ct, nw)
    decreases |rs|
  {
    if rs == [] {
      ReduceFixed(Empty(ct), x, ct, ct, nw);
    } else {
      var rs0, r := rs[..|rs| - 1], rs[|rs| - 1];
      var st := Run(rs0, ct, nw);
      StepUpdates(st, r, ct, nw);
      SpanIsKernel(rs0, x, ct, nw);
      SpanIsKernel(rs0, Xor(x, r), ct, nw);
      assert Vectors(rs)[..|rs| - 1] == Vectors(rs0);
      ReduceLinear(st, x, r, ct, ct, nw);
      KernelStep(st, Step(st, r, ct, nw), r, x, ct, nw);
    }
  }

  lemma KernelStep(st: Store, st': Store, r: Row, x: Row, ct: nat, nw: nat)
    requires WF(st, ct, nw) && WF(st', ct, nw) && Shape(r, ct, nw) && Shape(x, ct, nw) && Updated(st, st', r, ct, nw)
    ensures Vanishes(st', x, ct, nw)
            <==> (Vanishes(st, x, ct, nw)
                  || XorBits(Residue(st, x, ct, nw).bits, Residue(st, r, ct, nw).bits) == ZeroBits(ct))
  {
    var y, z := Residue(st, x, ct, nw), Residue(st, r, ct, nw);
    var p := TopIndex(z.bits, ct);
    if p < 0 {
      assert XorBits(y.bits, z.bits) == y.bits;
    } else {
      assert AddsAt(st, st', z, p, x, ct, nw);
      if XorBits(y.bits, z.bits) == ZeroBits(ct) {
        assert XorBits(y.bits, z.bits)[p] == ZeroBits(ct)[p];
      }
      if Vanishes(st, x, ct, nw) {
        assert !ZeroBits(ct)[p];
      }
    }
  }

  /** The next chunk fills a new row exactly when its check bits are outside the span of those
      already processed, and then exactly one row. */
  lemma InnovativeIffOutsideSpan(rs: seq<Row>, r: Row, ct: nat, nw: nat)
    requires Rows(rs, ct, nw) && Shape(r, ct, nw)
    ensures var st, st' := Run(rs, ct, nw), Run(rs + [r], ct, nw);
            if InSpan(r.bits, Vectors(rs)) then st' == st
            else exists p :: 0 <= p < ct && st[p].None? && st'[p].Some? && st' == st[p := st'[p]]
  {
    var st := Run(rs, ct, nw);
    assert (rs + [r])[..|rs|] == rs;
    SpanIsKernel(rs, r, ct, nw);
    StepUpdates(st, r, ct, nw);
    var z := Residue(st, r, ct, nw);
    var p := TopIndex(z.bits, ct);
    if p < 0 {
      assert z.bits == ZeroBits(ct);
    } else {
      assert z.bits[p] != ZeroBits(ct)[p];
    }
  }

  /** The number of filled rows below n. */
  ghost function Filled(st: Store, n: nat): (c: nat)
    requires n <= |st|
    ensures c <= n
  {
    if n == 0 then 0 else Filled(st, n - 1) + if st[n - 1].Some? then 1 else 0
  }

  /** The rank of vs: how many vectors lie outside the span of those before them. */
  function Rank(vs: seq<seq<bool>>, ct: nat): nat
    requires forall k :: 0 <= k < |vs| ==> |vs[k]| == ct
  {
    if vs == [] then 0
    else
      var n := |vs| - 1;
      Rank(vs[..n], ct) + if InSpan(vs[n], vs[..n]) then 0 else 1
  }

  lemma {:induction false} FilledUpdate(st: Store, p: nat, w: Option<Row>, n: nat)
    requires p < |st| && n <= |st| && st[p].None? && w.Some?
    ensures Filled(st[p := w], n) == Filled(st, n) + if p < n then 1 else 0
    decreases n
  {
    if n > 0 {
      FilledUpdate(st, p, w, n - 1);
    }
  }

  lemma {:induction false} FilledAll(st: Store, n: nat)
    requires n <= |st|
    ensures Filled(st, n) == n <==> forall i :: 0 <= i < n ==> st[i].Some?
    decreases n
  {
    if n > 0 {
      FilledAll(st, n - 1);
    }
  }

  lemma {:induction false} FilledNone(st: Store, n: nat)
    requires n <= |st| && forall i :: 0 <= i < n ==> st[i].None?
    ensures Filled(st, n) == 0
    decreases n
  {
    if n > 0 {
      FilledNone(st, n - 1);
    }
  }

  /** The row count the session reports is the rank of the processed check bits. */
  lemma {:induction false} FilledIsRank(rs: seq<Row>, ct: nat, nw: nat)
    requires Rows(rs, ct, nw)
    ensures Filled(Run(rs, ct, nw), ct) == Rank(Vectors(rs), ct)
    decreases |rs|
  {
    if rs == [] {
      FilledNone(Empty(ct), ct);
    } else {
      var n := |rs| - 1;
      assert rs == rs[..n] + [rs[n]];
      assert Vectors(rs)[..n] == Vectors(rs[..n]);
      FilledIsRank(rs[..n], ct, nw);
      InnovativeIffOutsideSpan(rs[..n], rs[n], ct, nw);
      var st, st' := Run(rs[..n], ct, nw), Run(rs, ct, nw);
      if !InSpan(rs[n].bits, Vectors(rs[..n])) {
        var p :| 0 <= p < ct && st[p].None? && st'[p].Some? && st' == st[p := st'[p]];
        FilledUpdate(st, p, st'[p], ct);
      }
    }
  }

  lemma TopInSpanFills(rs: seq<Row>, v: seq<bool>, i: nat, ct: nat, nw: nat)
    requires Rows(rs, ct, nw) && i < ct && |v| == ct && TopIndex(v, ct) == i && InSpan(v, Vectors(rs))
    ensures Run(rs, ct, nw)[i].Some?
  {
    var st, x := Run(rs, ct, nw), Row(v, ZeroWords(nw));
    SpanIsKernel(rs, x, ct, nw);
    assert !ZeroBits(ct)[i] && v[i];
    if st[i].None? {
      ReduceAgain(st, x, i, ct, nw);
      ReduceBits(st, x, i, ct, nw);
    }
  }

  /** A pivot is filled exactly when the span holds a vector with that top bit. */
  lemma PivotIffTopInSpan(rs: seq<Row>, i: nat, ct: nat, nw: nat)
    requires Rows(rs, ct, nw) && i < ct
    ensures Run(rs, ct, nw)[i].Some?
        <==> exists v: seq<bool> :: |v| == ct && TopIndex(v, ct) == i && InSpan(v, Vectors(rs))
  {
    var st := Run(rs, ct, nw);
    if st[i].Some? {
      var r := st[i].value;
      ReduceStored(st, i, ct, ct, nw);
      SpanIsKernel(rs, r, ct, nw);
      assert |r.bits| == ct && TopIndex(r.bits, ct) == i && InSpan(r.bits, Vectors(rs));
    } else if exists v: seq<bool> :: |v| == ct && TopIndex(v, ct) == i && InSpan(v, Vectors(rs)) {
      var v: seq<bool> :| |v| == ct && TopIndex(v, ct) == i && InSpan(v, Vectors(rs));
      TopInSpanFills(rs, v, i, ct, nw);
    }
  }

  /** The session completes exactly when the processed check bits span the whole space. */
  lemma CompleteIffSpansAll(rs: seq<Row>, ct: nat, nw: nat)
    requires Rows(rs, ct, nw)
    ensures Complete(Run(rs, ct, nw)) <==> Rank(Vectors(rs), ct) == ct
    ensures Complete(Run(rs, ct, nw)) <==> forall v: seq<bool> :: |v| == ct ==> InSpan(v, Vectors(rs))
  {
    var st := Run(rs, ct, nw);
    FilledIsRank(rs, ct, nw);
    FilledAll(st, ct);
    if Complete(st) {
      forall v: seq<bool> | |v| == ct ensures InSpan(v, Vectors(rs)) {
        var x := Row(v, ZeroWords(nw));
        SpanIsKernel(rs, x, ct, nw);
        ReduceBits(st, x, ct, ct, nw);
      }
    }
    if forall v: seq<bool> :: |v| == ct ==> InSpan(v, Vectors(rs)) {
      forall i | 0 <= i < ct ensures st[i].Some? {
        var v := Unit(i, ct, nw).bits;
        assert v[i] && TopIndex(v, ct) == i;
        PivotIffTopInSpan(rs, i, ct, nw);
      }
    }
  }

  // ---------------------------------------------------------------------------------------------
  // Arrival order

  /** The span is closed under XOR. */
  lemma SpanClosed(a: seq<bool>, b: seq<bool>, vs: seq<seq<bool>>)
    requires |a| == |b| && forall k :: 0 <= k < |vs| ==> |vs[k]| == |a|
    requires InSpan(a, vs) && InSpan(b, vs)
    ensures InSpan(XorBits(a, b), vs)
  {
    var ct := |a|;
    var rs := seq(|vs|, k requires 0 <= k < |vs| => Row(vs[k], []));
    assert Vectors(rs) == vs;
    SpanIsKernel(rs, Row(a, []), ct, 0);
    SpanIsKernel(rs, Row(b, []), ct, 0);
    SpanIsKernel(rs, Xor(Row(a, []), Row(b, [])), ct, 0);
    ReduceLinear(Run(rs, ct, 0), Row(a, []), Row(b, []), ct, ct, 0);
  }

  /** Every processed vector is in the span. */
  lemma {:induction false} SpanMember(vs: seq<seq<bool>>, j: nat, ct: nat)
    requires j < |vs| && forall k :: 0 <= k < |vs| ==> |vs[k]| == ct
    ensures InSpan(vs[j], vs)
    decreases |vs|
  {
    var n := |vs| - 1;
    if j < n {
      SpanMember(vs[..n], j, ct);
    } else {
      assert XorBits(vs[n], vs[n]) == ZeroBits(ct);
      SpanZero(vs[..n], ct);
    }
  }

  lemma {:induction false} SpanZero(vs: seq<seq<bool>>, ct: nat)
    requires forall k :: 0 <= k < |vs| ==> |vs[k]| == ct
    ensures InSpan(ZeroBits(ct), vs)
    decreases |vs|
  {
    if vs != [] {
      SpanZero(vs[..|vs| - 1], ct);
    }
  }

  lemma {:induction false} SpanMonotone(v: seq<bool>, us: seq<seq<bool>>, vs: seq<seq<bool>>, ct: nat)
    requires |v| == ct && (forall k :: 0 <= k < |us| ==> |us[k]| == ct) && forall k :: 0 <= k < |vs| ==> |vs[k]| == ct
    requires forall k :: 0 <= k < |us| ==> us[k] in vs
    requires InSpan(v, us)
    ensures InSpan(v, vs)
    decreases |us|
  {
    if us == [] {
      SpanZero(vs, ct);
    } else {
      var n := |us| - 1;
      var u := us[n];
      assert u in vs;
      var j :| 0 <= j < |vs| && vs[j] == u;
      SpanMember(vs, j, ct);
      if InSpan(v, us[..n]) {
        SpanMonotone(v, us[..n], vs, ct);
      } else {
        SpanMonotone(XorBits(v, u), us[..n], vs, ct);
        SpanClosed(XorBits(v, u), u, vs);
        assert XorBits(XorBits(v, u), u) == v;
      }
    }
  }

  /** Sessions that processed the same check-bit vectors, in any order and with any repetition,
      have filled the same pivots. */
  lemma ArrivalOrderIrrelevant(rs: seq<Row>, qs: seq<Row>, ct: nat, nw: nat)
    requires Rows(rs, ct, nw) && Rows(qs, ct, nw)
    requires (forall v :: v in Vectors(rs) <==> v in Vectors(qs))
    ensures forall i :: 0 <= i < ct ==> Run(rs, ct, nw)[i].Some? == Run(qs, ct, nw)[i].Some?
    ensures Complete(Run(rs, ct, nw)) == Complete(Run(qs, ct, nw))
  {
    forall i | 0 <= i < ct ensures Run(rs, ct, nw)[i].Some? == Run(qs, ct, nw)[i].Some? {
      PivotIffTopInSpan(rs, i, ct, nw);
      PivotIffTopInSpan(qs, i, ct, nw);
      forall v: seq<bool> | |v| == ct ensures InSpan(v, Vectors(rs)) == InSpan(v, Vectors(qs)) {
        if InSpan(v, Vectors(rs)) {
          SpanMonotone(v, Vectors(rs), Vectors(qs), ct);
        }
        if InSpan(v, Vectors(qs)) {
          SpanMonotone(v, Vectors(qs), Vectors(rs), ct);
        }
      }
    }
  }

  // ---------------------------------------------------------------------------------------------
  // The C and the Python decoder

  /** Both stores leave the same residue of every row. */
  ghost predicate SameResidues(st: Store, tt: Store, ct: nat, nw: nat)
    requires WF(st, ct, nw) && WF(tt, ct, nw)
  {
    forall x {:trigger Residue(st, x, ct, nw)} | Shape(x, ct, nw) ::
      Residue(st, x, ct, nw) == Residue(tt, x, ct, nw)
  }

  lemma SameResiduesStep(st: Store, st': Store, tt: Store, tt': Store, r: Row, ct: nat, nw: nat)
    requires WF(st, ct, nw) && WF(st', ct, nw) && WF(tt, ct, nw) && WF(tt', ct, nw) && Shape(r, ct, nw)
    requires SameResidues(st, tt, ct, nw) && Updated(st, st', r, ct, nw) && Updated(tt, tt', r, ct, nw)
    ensures SameResidues(st', tt', ct, nw)
  {
    var z := Residue(st, r, ct, nw);
    var p := TopIndex(z.bits, ct);
    assert z == Residue(tt, r, ct, nw);
    if p >= 0 {
      forall x | Shape(x, ct, nw) ensures Residue(st', x, ct, nw) == Residue(tt', x, ct, nw) {
        assert AddsAt(st, st', z, p, x, ct, nw) && AddsAt(tt, tt', z, p, x, ct, nw);
        assert Residue(st, x, ct, nw) == Residue(tt, x, ct, nw);
      }
    }
  }

  lemma PivotIffCleared(st: Store, i: nat, ct: nat, nw: nat)
    requires WF(st, ct, nw) && i < ct
    ensures st[i].Some? <==> !Residue(st, Unit(i, ct, nw), ct, nw).bits[i]
  {
    if st[i].Some? {
      ReduceBits(st, Unit(i, ct, nw), ct, ct, nw);
    } else {
      ReduceFixed(st, Unit(i, ct, nw), ct, ct, nw);
    }
  }

  lemma {:induction false} SameRuns(rs: seq<Row>, ct: nat, nw: nat)
    requires Rows(rs, ct, nw)
    ensures SameResidues(Run(rs, ct, nw), RunPy(rs, ct, nw), ct, nw)
    decreases |rs|
  {
    if rs != [] {
      var n := |rs| - 1;
      var st, tt := Run(rs[..n], ct, nw), RunPy(rs[..n], ct, nw);
      SameRuns(rs[..n], ct, nw);
      StepUpdates(st, rs[n], ct, nw);
      PyStepUpdates(tt, rs[n], ct, ct, nw);
      SameResiduesStep(st, Step(st, rs[n], ct, nw), tt, PyStep(tt, rs[n], ct, ct, nw), rs[n], ct, nw);
    }
  }

  /** On any chunks, consistent or not, both decoders fill the same pivots (so they accept the same
      chunks and complete together), and once complete unpack to the same blocks. */
  lemma DecodersAgree(rs: seq<Row>, ct: nat, nw: nat)
    requires Rows(rs, ct, nw)
    ensures forall i :: 0 <= i < ct ==> Run(rs, ct, nw)[i].Some? == RunPy(rs, ct, nw)[i].Some?
    ensures Complete(Run(rs, ct, nw)) == Complete(RunPy(rs, ct, nw))
    ensures Complete(Run(rs, ct, nw)) ==> Unpack(Run(rs, ct, nw), ct, ct, nw) == Unpack(RunPy(rs, ct, nw), ct, ct, nw)
  {
    var st, tt := Run(rs, ct, nw), RunPy(rs, ct, nw);
    SameRuns(rs, ct, nw);
    forall i | 0 <= i < ct ensures st[i].Some? == tt[i].Some? {
      PivotIffCleared(st, i, ct, nw);
      PivotIffCleared(tt, i, ct, nw);
      assert Residue(st, Unit(i, ct, nw), ct, nw) == Residue(tt, Unit(i, ct, nw), ct, nw);
    }
    if Complete(st) {
      UnpackIsImages(st, ct, ct, nw);
      UnpackIsImages(tt, ct, ct, nw);
      forall i | 0 <= i < ct ensures Images(st, ct, nw)[i] == Images(tt, ct, nw)[i] {
        assert Residue(st, Unit(i, ct, nw), ct, nw) == Residue(tt, Unit(i, ct, nw), ct, nw);
      }
      assert Images(st, ct, nw) == Images(tt, ct, nw);
    }
  }

  // ---------------------------------------------------------------------------------------------
  // Unpacking

  /** The first n decoded blocks: block i is the stored block i XORed with the decoded blocks that
      the row selects below its top bit. */
  ghost function Unpack(st: Store, n: nat, ct: nat, nw: nat): (out: seq<seq<bv32>>)
    requires WF(st, ct, nw) && Complete(st) && n <= ct
    ensures |out| == n && forall k :: 0 <= k < n ==> |out[k]| == nw
  {
    if n == 0 then []
    else
      var out := Unpack(st, n - 1, ct, nw);
      var r := st[n - 1].value;
      out + [XorWords(r.data, Combine(r.bits, out, n - 1, nw))]
  }

  /** The data left when each source block alone is reduced. */
  ghost function Images(st: Store, ct: nat, nw: nat): (out: seq<seq<bv32>>)
    requires WF(st, ct, nw)
    ensures Source(out, ct, nw)
  {
    seq(ct, k requires 0 <= k < ct => Residue(st, Unit(k, ct, nw), ct, nw).data)
  }

  function Prefix(v: seq<bool>, n: nat): (r: seq<bool>)
    requires n <= |v|
    ensures |r| == |v|
  {
    v[..n] + ZeroBits(|v| - n)
  }

  lemma PrefixStep(v: seq<bool>, n: nat, nw: nat)
    requires 0 < n <= |v|
    ensures !v[n - 1] ==> Prefix(v, n) == Prefix(v, n - 1)
    ensures v[n - 1] ==> Row(Prefix(v, n), ZeroWords(nw))
                         == Xor(Row(Prefix(v, n - 1), ZeroWords(nw)), Unit(n - 1, |v|, nw))
  {
  }

  /** The residue of a data-free row, from those of its unit vectors. */
  lemma {:induction false} ResidueOfPrefix(st: Store, v: seq<bool>, n: nat, ct: nat, nw: nat)
    requires WF(st, ct, nw) && |v| == ct && n <= ct
    ensures Residue(st, Row(Prefix(v, n), ZeroWords(nw)), ct, nw).data == Combine(v, Images(st, ct, nw), n, nw)
    decreases n
  {
    if n == 0 {
      ReduceFixed(st, Row(Prefix(v, 0), ZeroWords(nw)), ct, ct, nw);
    } else {
      ResidueOfPrefix(st, v, n - 1, ct, nw);
      PrefixStep(v, n, nw);
      if v[n - 1] {
        ReduceLinear(st, Row(Prefix(v, n - 1), ZeroWords(nw)), Unit(n - 1, ct, nw), ct, ct, nw);
      }
    }
  }

  /** The residue's data is the row's own data plus the images of the blocks it selects. */
  lemma ResidueData(st: Store, r: Row, ct: nat, nw: nat)
    requires WF(st, ct, nw) && Shape(r, ct, nw)
    ensures Residue(st, r, ct, nw).data == XorWords(r.data, Combine(r.bits, Images(st, ct, nw), ct, nw))
  {
    var v, d := Row(r.bits, ZeroWords(nw)), Row(ZeroBits(ct), r.data);
    assert Prefix(r.bits, ct) == r.bits;
    ResidueOfPrefix(st, r.bits, ct, ct, nw);
    assert r == Xor(v, d);
    ReduceLinear(st, v, d, ct, ct, nw);
    ReduceFixed(st, d, ct, ct, nw);
    WordsIdentity(r.data, Combine(r.bits, Images(st, ct, nw), ct, nw));
  }

  lemma {:induction false} CombineBelow(v: seq<bool>, src: seq<seq<bv32>>, i: nat, n: nat, nw: nat)
    requires i <= n <= |v| && n <= |src| && forall k :: 0 <= k < n ==> |src[k]| == nw
    requires forall k :: i <= k < n ==> !v[k]
    ensures Combine(v, src, n, nw) == Combine(v, src, i, nw)
    decreases n
  {
    if i < n {
      CombineBelow(v, src, i, n - 1, nw);
    }
  }

  lemma {:induction false} CombineSame(v: seq<bool>, src: seq<seq<bv32>>, tgt: seq<seq<bv32>>, n: nat, nw: nat)
    requires n <= |v| && n <= |src| && n <= |tgt|
    requires forall k :: 0 <= k < n ==> |src[k]| == nw && src[k] == tgt[k]
    ensures Combine(v, src, n, nw) == Combine(v, tgt, n, nw)
    decreases n
  {
    if n > 0 {
      CombineSame(v, src, tgt, n - 1, nw);
    }
  }

  lemma {:induction false} UnpackIsImages(st: Store, n: nat, ct: nat, nw: nat)
    requires WF(st, ct, nw) && Complete(st) && n <= ct
    ensures Unpack(st, n, ct, nw) == Images(st, ct, nw)[..n]
    decreases n
  {
    if n > 0 {
      var i := n - 1;
      var r, im, out := st[i].value, Images(st, ct, nw), Unpack(st, i, ct, nw);
      UnpackIsImages(st, i, ct, nw);
      ReduceStored(st, i, ct, ct, nw);
      ResidueData(st, r, ct, nw);
      CombineBelow(r.bits, im, n, ct, nw);
      CombineSame(r.bits, out, im, i, nw);
      var c := Combine(r.bits, im, i, nw);
      XorZeroSolve(r.data, c, im[i]);
    }
  }

  lemma XorZeroSolve(d: seq<bv32>, c: seq<bv32>, x: seq<bv32>)
    requires |d| == |c| == |x| && XorWords(d, XorWords(c, x)) == ZeroWords(|d|)
    ensures XorWords(d, c) == x
  {
    forall k | 0 <= k < |d| ensures XorWords(d, c)[k] == x[k] {
      assert XorWords(d, XorWords(c, x))[k] == 0;
      Xor32Assoc(d[k], c[k], x[k]);
      Xor32Identity(Xor32(d[k], c[k]), x[k]);
    }
  }

  // ---------------------------------------------------------------------------------------------
  // Chunks generated from a source

  /** Row r carries exactly the XOR of the source blocks its bits select. */
  ghost predicate Carries(r: Row, src: seq<seq<bv32>>, ct: nat, nw: nat)
    requires Shape(r, ct, nw) && Source(src, ct, nw)
  {
    r.data == Combine(r.bits, src, ct, nw)
  }

  ghost predicate AllCarry(rs: seq<Row>, src: seq<seq<bv32>>, ct: nat, nw: nat)
    requires Rows(rs, ct, nw) && Source(src, ct, nw)
  {
    forall k :: 0 <= k < |rs| ==> Carries(rs[k], src, ct, nw)
  }

  ghost predicate StoreCarries(st: Store, src: seq<seq<bv32>>, ct: nat, nw: nat)
    requires WF(st, ct, nw) && Source(src, ct, nw)
  {
    forall i :: 0 <= i < ct && st[i].Some? ==> Carries(st[i].value, src, ct, nw)
  }

  lemma {:induction false} ReduceCarries(st: Store, r: Row, src: seq<seq<bv32>>, n: nat, ct: nat, nw: nat)
    requires WF(st, ct, nw) && Shape(r, ct, nw) && Source(src, ct, nw) && n <= ct
    requires StoreCarries(st, src, ct, nw) && Carries(r, src, ct, nw)
    ensures Carries(Reduce(st, r, n, ct, nw), src, ct, nw)
    decreases n
  {
    if n == 0 {
    } else if r.bits[n - 1] && st[n - 1].Some? {
      CombineXor(r.bits, st[n - 1].value.bits, src, ct, nw);
      ReduceCarries(st, Xor(r, st[n - 1].value), src, n - 1, ct, nw);
    } else {
      ReduceCarries(st, r, src, n - 1, ct, nw);
    }
  }

  /** Every stored row has top bit i and carries the XOR of the source blocks its bits select. */
  lemma {:induction false} RunCarries(rs: seq<Row>, src: seq<seq<bv32>>, ct: nat, nw: nat)
    requires Rows(rs, ct, nw) && Source(src, ct, nw) && AllCarry(rs, src, ct, nw)
    ensures StoreCarries(Run(rs, ct, nw), src, ct, nw)
    decreases |rs|
  {
    if rs != [] {
      var n := |rs| - 1;
      RunCarries(rs[..n], src, ct, nw);
      ReduceCarries(Run(rs[..n], ct, nw), rs[n], src, ct, ct, nw);
    }
  }

  lemma {:induction false} CombineNone(v: seq<bool>, src: seq<seq<bv32>>, n: nat, nw: nat)
    requires n <= |v| && n <= |src| && forall k :: 0 <= k < n ==> |src[k]| == nw
    requires forall k :: 0 <= k < n ==> !v[k]
    ensures Combine(v, src, n, nw) == ZeroWords(nw)
    decreases n
  {
    if n > 0 {
      CombineNone(v, src, n - 1, nw);
    }
  }

  lemma CombineUnit(i: nat, src: seq<seq<bv32>>, ct: nat, nw: nat)
    requires i < ct && Source(src, ct, nw)
    ensures Combine(Unit(i, ct, nw).bits, src, ct, nw) == src[i]
  {
    var v := Unit(i, ct, nw).bits;
    CombineBelow(v, src, i + 1, ct, nw);
    CombineNone(v, src, i, nw);
    WordsIdentity(src[i], ZeroWords(nw));
  }

  /** A complete session unpacks to exactly the source the chunks were generated from. */
  lemma CompleteUnpacksToSource(rs: seq<Row>, src: seq<seq<bv32>>, ct: nat, nw: nat)
    requires Rows(rs, ct, nw) && Source(src, ct, nw) && AllCarry(rs, src, ct, nw)
    requires Complete(Run(rs, ct, nw))
    ensures Unpack(Run(rs, ct, nw), ct, ct, nw) == src
  {
    var st := Run(rs, ct, nw);
    var im := Images(st, ct, nw);
    RunCarries(rs, src, ct, nw);
    UnpackIsImages(st, ct, ct, nw);
    forall i | 0 <= i < ct ensures im[i] == src[i] {
      var x := Row(Unit(i, ct, nw).bits, src[i]);
      CombineUnit(i, src, ct, nw);
      CombineUnit(i, im, ct, nw);
      ReduceCarries(st, x, src, ct, ct, nw);
      ReduceBits(st, x, ct, ct, nw);
      CombineNone(Residue(st, x, ct, nw).bits, src, ct, nw);
      ResidueData(st, x, ct, nw);
      XorZero(src[i], im[i]);
    }
  }

  lemma XorZero(a: seq<bv32>, b: seq<bv32>)
    requires |a| == |b| && XorWords(a, b) == ZeroWords(|a|)
    ensures a == b
  {
    forall k | 0 <= k < |a| ensures a[k] == b[k] {
      assert XorWords(a, b)[k] == 0;
      Xor32Identity(a[k], b[k]);
    }
  }

  // ---------------------------------------------------------------------------------------------
  // Completion could not come earlier

  /** The functional that reads bit p of the residue; it vanishes on all processed vectors. */
  ghost predicate Reads(st: Store, p: nat, v: seq<bool>, ct: nat, nw: nat)
    requires WF(st, ct, nw) && |v| == ct && p < ct
  {
    Residue(st, Row(v, ZeroWords(nw)), ct, nw).bits[p]
  }

  function Delta(nw: nat): (d: seq<bv32>)
    requires nw > 0
    ensures |d| == nw
  {
    ZeroWords(nw)[0 := 1]
  }

  ghost function Altered(st: Store, p: nat, src: seq<seq<bv32>>, ct: nat, nw: nat): (alt: seq<seq<bv32>>)
    requires WF(st, ct, nw) && Source(src, ct, nw) && p < ct && nw > 0
    ensures Source(alt, ct, nw)
  {
    seq(ct, k requires 0 <= k < ct =>
      if Reads(st, p, Unit(k, ct, nw).bits, ct, nw) then XorWords(src[k], Delta(nw)) else src[k])
  }

  lemma ReadsNone(st: Store, p: nat, v: seq<bool>, ct: nat, nw: nat)
    requires WF(st, ct, nw) && |v| == ct && p < ct
    ensures !Reads(st, p, Prefix(v, 0), ct, nw)
  {
    ReduceFixed(st, Row(Prefix(v, 0), ZeroWords(nw)), ct, ct, nw);
  }

  lemma ReadsStep(st: Store, p: nat, v: seq<bool>, n: nat, ct: nat, nw: nat)
    requires WF(st, ct, nw) && |v| == ct && p < ct && 0 < n <= ct
    ensures Reads(st, p, Prefix(v, n), ct, nw)
         == (Reads(st, p, Prefix(v, n - 1), ct, nw) != (v[n - 1] && Reads(st, p, Unit(n - 1, ct, nw).bits, ct, nw)))
  {
    PrefixStep(v, n, nw);
    if v[n - 1] {
      ReduceLinear(st, Row(Prefix(v, n - 1), ZeroWords(nw)), Unit(n - 1, ct, nw), ct, ct, nw);
    }
  }

  lemma {:induction false} CombineAltered(st: Store, p: nat, v: seq<bool>, src: seq<seq<bv32>>, n: nat, ct: nat, nw: nat)
    requires WF(st, ct, nw) && Source(src, ct, nw) && |v| == ct && p < ct && nw > 0 && n <= ct
    ensures Combine(v, Altered(st, p, src, ct, nw), n, nw)
            == if Reads(st, p, Prefix(v, n), ct, nw) then XorWords(Combine(v, src, n, nw), Delta(nw))
               else Combine(v, src, n, nw)
    decreases n
  {
    hide Reads, XorWords, Delta, Unit, Prefix;
    if n == 0 {
      ReadsNone(st, p, v, ct, nw);
    } else {
      CombineAltered(st, p, v, src, n - 1, ct, nw);
      ReadsStep(st, p, v, n, ct, nw);
      if v[n - 1] {
        var c, s, d := Combine(v, src, n - 1, nw), src[n - 1], Delta(nw);
        WordsAssoc(c, s, d);
        WordsCancel(c, s, d);
      }
    }
  }

  /** Until the session completes, some other source explains every chunk received so far: no
      decoder could have recovered the source from them. */
  lemma IncompleteIsAmbiguous(rs: seq<Row>, src: seq<seq<bv32>>, ct: nat, nw: nat)
    requires Rows(rs, ct, nw) && Source(src, ct, nw) && AllCarry(rs, src, ct, nw)
    requires nw > 0 && !Complete(Run(rs, ct, nw))
    ensures exists alt :: alt != src && Source(alt, ct, nw) && AllCarry(rs, alt, ct, nw)
  {
    var st := Run(rs, ct, nw);
    var p :| 0 <= p < ct && st[p].None?;
    var alt := Altered(st, p, src, ct, nw);
    forall k | 0 <= k < |rs| ensures Carries(rs[k], alt, ct, nw) {
      var v := rs[k].bits;
      SpanMember(Vectors(rs), k, ct);
      SpanIsKernel(rs, Row(v, ZeroWords(nw)), ct, nw);
      assert Prefix(v, ct) == v;
      CombineAltered(st, p, v, src, ct, ct, nw);
      assert Carries(rs[k], src, ct, nw);
    }
    PivotIffCleared(st, p, ct, nw);
    assert alt[p][0] == src[p][0] ^ 1;
    assert alt[p][0] != src[p][0];
  }
}
