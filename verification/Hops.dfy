/** Fixed channel plans in lmic/lmic.c: the pseudo-random hop list and the scan that consumes it. */
module Hops {
  import opened Ints

  /** s lists start, start + 1, ..., start + |s| - 1 in some order, each once. */
  ghost predicate IsPerm(s: seq<nat>, start: nat) {
    && (forall i :: 0 <= i < |s| ==> start <= s[i] < start + |s|) && AllDifferent(s)
    && (forall v :: start <= v < start + |s| ==> v in s)
  }

  ghost predicate AllDifferent(s: seq<nat>) { forall i, j :: 0 <= i < j < |s| ==> s[i] != s[j] }

  // ---------------------------------------------------------------------------------------------
  // Generating the hop list

  type Prng = p: seq<octet> | |p| == 16 && 1 <= p[0] <= 16 witness [1, 0, 0, 0, 0, 0, 0, 0, 0, 0, 0, 0, 0, 0, 0, 0]

  /** The cipher under key 0. */
  ghost predicate Cipher(enc: seq<octet> -> seq<octet>) { forall s :: |enc(s)| == 16 }

  /** The next pseudo-random byte: byte 0 of the buffer is its index, 1 to 16; at 16 the buffer is
      encrypted first. */
  ghost function NextByte(p: Prng, enc: seq<octet> -> seq<octet>): octet
    requires Cipher(enc)
  {
    if p[0] == 16 then enc(p)[0] else p[p[0] as int]
  }

  ghost function NextState(p: Prng, enc: seq<octet> -> seq<octet>): Prng
    requires Cipher(enc)
  {
    if p[0] == 16 then enc(p)[0 := 1] else p[0 := p[0] + 1]
  }

  /** The buffer after n bytes. */
  ghost function After(p: Prng, enc: seq<octet> -> seq<octet>, n: nat): Prng
    requires Cipher(enc)
  {
    if n == 0 then p else NextState(After(p, enc, n - 1), enc)
  }

  /** prng_next */
  method PrngNext(prng: array<octet>, enc: seq<octet> -> seq<octet>) returns (v: octet)
    requires prng.Length == 16 && 1 <= prng[0] <= 16 && Cipher(enc)
    modifies prng
    ensures v == NextByte(old(prng[..]), enc) && prng[..] == NextState(old(prng[..]), enc)
  {
    var i := prng[0] as int;
    if i == 16 {
      var s := enc(prng[..]);
      forall k | 0 <= k < 16 {
        prng[k] := s[k];
      }
      i := 0;
    }
    v := prng[i];
    i := i + 1;
    prng[0] := i as octet;
  }

  /** s with v added: v goes to position j, and what was there to the end. */
  function Insert(s: seq<nat>, j: nat, v: nat): (r: seq<nat>)
    requires j <= |s|
    ensures |r| == |s| + 1
  {
    if j == |s| then s + [v] else s[j := v] + [s[j]]
  }

  lemma InsertPerm(s: seq<nat>, j: nat, start: nat)
    requires IsPerm(s, start) && j <= |s|
    ensures IsPerm(Insert(s, j, start + |s|), start)
  {
    var r := Insert(s, j, start + |s|);
    forall v | start <= v < start + |r| ensures v in r {
      if v == start + |s| {
        assert r[j] == v;
      } else {
        assert v in s;
        var i :| 0 <= i < |s| && s[i] == v;
        assert if i == j then r[|s|] == v else r[i] == v;
      }
    }
  }

  /** Number i of a series of draws takes two bytes, the higher first, modulo i + 1. */
  ghost function DrawAt(p: Prng, enc: seq<octet> -> seq<octet>, i: nat): (j: nat)
    requires Cipher(enc)
    ensures j <= i
  {
    var q := After(p, enc, 2 * i);
    (NextByte(q, enc) as nat * 256 + NextByte(NextState(q, enc), enc) as nat) % (i + 1)
  }

  ghost function Draws(p: Prng, enc: seq<octet> -> seq<octet>, n: nat): (js: seq<nat>)
    requires Cipher(enc)
    ensures |js| == n && InOrder(js)
  {
    seq(n, i requires 0 <= i < n => DrawAt(p, enc, i))
  }

  ghost predicate InOrder(js: seq<nat>) { forall i :: 0 <= i < |js| ==> js[i] <= i }

  /** The order of start, start + 1, ... that these draws make. */
  ghost function Drawn(js: seq<nat>, start: nat): (s: seq<nat>)
    requires InOrder(js)
    ensures |s| == |js|
    decreases |js|
  {
    if js == [] then []
    else var n := |js| - 1; Insert(Drawn(js[..n], start), js[n], start + n)
  }

  lemma {:induction false} OrderPerm(js: seq<nat>, start: nat)
    requires InOrder(js)
    ensures IsPerm(Drawn(js, start), start)
    decreases |js|
  {
    if js != [] {
      var n := |js| - 1;
      OrderPerm(js[..n], start);
      InsertPerm(Drawn(js[..n], start), js[n], start);
    }
  }

  /** Different draws make different orders, so that every order comes from exactly one series of draws. */
  lemma {:induction false} OrderInjective(js: seq<nat>, js': seq<nat>, start: nat)
    requires InOrder(js) && InOrder(js') && |js| == |js'| && Drawn(js, start) == Drawn(js', start)
    ensures js == js'
    decreases |js|
  {
    if js != [] {
      var n := |js| - 1;
      var s, s' := Drawn(js[..n], start), Drawn(js'[..n], start);
      OrderPerm(js[..n], start);
      OrderPerm(js'[..n], start);
      InsertInjective(s, js[n], s', js'[n], start + n);
      OrderInjective(js[..n], js'[..n], start);
      assert js == js[..n] + [js[n]] && js' == js'[..n] + [js'[n]];
    }
  }

  lemma InsertInjective(s: seq<nat>, j: nat, s': seq<nat>, j': nat, v: nat)
    requires |s| == |s'| && j <= |s| && j' <= |s| && v !in s && v !in s' && Insert(s, j, v) == Insert(s', j', v)
    ensures s == s' && j == j'
  {
    var r := Insert(s, j, v);
    assert r[j] == v && r[j'] == v;
    assert forall i :: 0 <= i < |s| ==> s[i] == (if i == j then r[|s|] else r[i]);
    assert forall i :: 0 <= i < |s| ==> s'[i] == (if i == j' then r[|s|] else r[i]);
  }

  /** Two random bytes modulo n. */
  method Draw(prng: array<octet>, enc: seq<octet> -> seq<octet>, n: nat, ghost p: Prng) returns (j: nat)
    requires prng.Length == 16 && Cipher(enc) && n > 0 && prng[..] == After(p, enc, 2 * (n - 1))
    modifies prng
    ensures j == DrawAt(p, enc, n - 1) && prng[..] == After(p, enc, 2 * n)
  {
    var hi := PrngNext(prng, enc);
    var lo := PrngNext(prng, enc);
    j := (hi as nat * 256 + lo as nat) % n;
  }

  /** Puts v into cell j of the i cells from at on, and what was there into the next cell. */
  method PutInto(p: array<nat>, at: nat, i: nat, j: nat, v: nat, ghost end: nat)
    requires at + i < end <= p.Length && j <= i
    modifies p
    ensures p[at..at + i + 1] == Insert(old(p[at..at + i]), j, v)
    ensures p[..at] == old(p[..at]) && p[end..] == old(p[end..])
  {
    p[at + i] := p[at + j];
    p[at + j] := v;
  }

  /** perm: fills the given cells with the order of start..end - 1 that the random bytes draw, which is a
      permutation whatever they are. */
  method Perm(p: array<nat>, at: nat, start: nat, end: nat, prng: array<octet>, enc: seq<octet> -> seq<octet>)
    requires start <= end && at + end - start <= p.Length
    requires prng.Length == 16 && 1 <= prng[0] <= 16 && Cipher(enc) && p as object != prng as object
    modifies p, prng
    ensures var n := end - start;
            && p[at..at + n] == Drawn(Draws(old(prng[..]), enc, n), start) && IsPerm(p[at..at + n], start)
            && prng[..] == After(old(prng[..]), enc, 2 * n)
            && p[..at] == old(p[..at]) && p[at + n..] == old(p[at + n..])
  {
    hide IsPerm, Insert, DrawAt, NextState, NextByte;
    ghost var q: Prng := prng[..];
    var i := 0;
    while i < end - start
      invariant 0 <= i <= end - start && prng[..] == After(q, enc, 2 * i)
      invariant p[at..at + i] == Drawn(Draws(q, enc, i), start)
      invariant p[..at] == old(p[..at]) && p[at + end - start..] == old(p[at + end - start..])
    {
      var j := Draw(prng, enc, i + 1, q);
      OrderNext(q, enc, i, start);
      PutInto(p, at, i, j, i + start, at + end - start);
      i := i + 1;
    }
    OrderPerm(Draws(q, enc, end - start), start);
  }

  lemma OrderNext(p: Prng, enc: seq<octet> -> seq<octet>, i: nat, start: nat)
    requires Cipher(enc)
    ensures Drawn(Draws(p, enc, i + 1), start) == Insert(Drawn(Draws(p, enc, i), start), DrawAt(p, enc, i), start + i)
  {
    hide Insert, DrawAt;
    assert Draws(p, enc, i + 1)[..i] == Draws(p, enc, i);
  }

  /** What generateHopList promises of a list for nb blocks of 8 channels: it lists every channel once,
      each run of nb entries visits the blocks in the same order, every block once, from block 0. */
  ghost predicate GoodHopList(h: seq<nat>, nb: nat) {
    && |h| == 8 * nb && IsPerm(h, 0) && nb > 0 && h[0] / 8 == 0
    && (forall c, b :: 0 <= c < 8 && 0 <= b < nb ==> 0 <= Index(nb, c, b) < |h| && h[Index(nb, c, b)] / 8 == h[b] / 8)
    && IsPerm(seq(nb, b requires 0 <= b < nb => h[b] / 8), 0)
  }

  function Index(nb: nat, c: nat, b: nat): nat { c * nb + b }

  lemma IndexUnique(nb: nat, c: nat, b: nat, c': nat, b': nat)
    requires b < nb && b' < nb && c < 8 && c' < 8
    ensures Index(nb, c, b) < 8 * nb
    ensures Index(nb, c, b) == Index(nb, c', b') <==> c == c' && b == b'
  {
    assert c * nb <= 7 * nb;
    if c < c' {
      assert (c + 1) * nb <= c' * nb;
    } else if c' < c {
      assert (c' + 1) * nb <= c * nb;
    }
  }

  lemma IndexOnto(nb: nat, k: nat) returns (c: nat, b: nat)
    requires nb > 0 && k < 8 * nb
    ensures c < 8 && b < nb && Index(nb, c, b) == k
  {
    c, b := k / nb, k % nb;
    assert (c - 8) * nb < 0;
  }

  /** Column b of the hop list holds the channels of block blk in the order cp. */
  ghost predicate Column(h: seq<nat>, nb: nat, b: nat, blk: nat, cp: seq<nat>)
    requires |h| >= 8 * nb && |cp| == 8
  {
    forall c :: 0 <= c < 8 ==> 0 <= Index(nb, c, b) < 8 * nb && h[Index(nb, c, b)] == blk * 8 + cp[c]
  }

  /** The columns below n hold the blocks bp[0], bp[1], ..., each in some order of its own. */
  ghost predicate Columns(h: seq<nat>, nb: nat, bp: seq<nat>, cps: seq<seq<nat>>) {
    && |h| >= 8 * nb && |cps| <= |bp| == nb
    && forall b :: 0 <= b < |cps| ==> |cps[b]| == 8 && IsPerm(cps[b], 0) && Column(h, nb, b, bp[b], cps[b])
  }

  /** One column of the list. */
  method FillColumn(hoplist: array<nat>, nb: nat, b: nat, blk: nat, cp: array<nat>)
    requires b < nb && 8 * nb <= hoplist.Length && cp.Length == 8 && cp != hoplist
    modifies hoplist
    ensures Column(hoplist[..], nb, b, blk, cp[..])
    ensures forall c, b' :: 0 <= c < 8 && 0 <= b' < nb && b' != b ==>
              0 <= Index(nb, c, b') < 8 * nb && hoplist[Index(nb, c, b')] == old(hoplist[Index(nb, c, b')])
  {
    hide Index;
    forall c, b' | 0 <= c < 8 && 0 <= b' < nb ensures 0 <= Index(nb, c, b') < 8 * nb {
      IndexUnique(nb, c, b', c, b');
    }
    var c := 0;
    while c < 8
      invariant 0 <= c <= 8
      invariant forall c' :: 0 <= c' < c ==> hoplist[Index(nb, c', b)] == blk * 8 + cp[c']
      invariant forall c', b' :: 0 <= c' < 8 && 0 <= b' < nb && b' != b ==>
                  hoplist[Index(nb, c', b')] == old(hoplist[Index(nb, c', b')])
    {
      forall c', b' | 0 <= c' < 8 && 0 <= b' < nb && (c' != c || b' != b) ensures Index(nb, c', b') != Index(nb, c, b) {
        IndexUnique(nb, c', b', c, b);
      }
      hoplist[Index(nb, c, b)] := blk * 8 + cp[c];
      c := c + 1;
    }
  }

  /** One round of the loop of generateHopList. */
  method DrawColumn(hoplist: array<nat>, nb: nat, b: nat, blk: nat, prng: array<octet>, enc: seq<octet> -> seq<octet>)
    returns (ghost cp: seq<nat>)
    requires b < nb && 8 * nb <= hoplist.Length && prng.Length == 16 && 1 <= prng[0] <= 16 && Cipher(enc) && prng as object != hoplist as object
    modifies hoplist, prng
    ensures |cp| == 8 && IsPerm(cp, 0) && cp == Drawn(Draws(old(prng[..]), enc, 8), 0) && prng[..] == After(old(prng[..]), enc, 16)
    ensures Column(hoplist[..], nb, b, blk, cp)
    ensures forall c, b' :: 0 <= c < 8 && 0 <= b' < nb && b' != b ==>
              0 <= Index(nb, c, b') < 8 * nb && hoplist[Index(nb, c, b')] == old(hoplist[Index(nb, c, b')])
  {
    hide Column, IsPerm, Index, Drawn, Draws, After;
    var order := new nat[8];
    Perm(order, 0, 0, 8, prng, enc);
    assert order[0..8] == order[..];
    cp := order[..];
    FillColumn(hoplist, nb, b, blk, order);
  }

  /** The list with the blocks in order bp and the channels of column b in order cps[b]. */
  function ListOf(nb: nat, bp: seq<nat>, cps: seq<seq<nat>>): (h: seq<nat>)
    requires |bp| == |cps| == nb && forall b :: 0 <= b < nb ==> |cps[b]| == 8
  {
    if nb == 0 then [] else seq(8 * nb, k requires 0 <= k < 8 * nb => EntryOf(nb, bp, cps, k))
  }

  function EntryOf(nb: nat, bp: seq<nat>, cps: seq<seq<nat>>, k: nat): nat
    requires |bp| == |cps| == nb && (forall b :: 0 <= b < nb ==> |cps[b]| == 8) && k < 8 * nb
  {
    IndexSplit(nb, k);
    bp[k % nb] * 8 + cps[k % nb][k / nb]
  }

  lemma IndexSplit(nb: nat, k: nat)
    requires nb > 0 && k < 8 * nb
    ensures k / nb < 8 && k % nb < nb && k == Index(nb, k / nb, k % nb)
  {
    var q := k / nb;
    assert (q - 8) * nb < 0;
  }

  /** The buffer when column b is drawn. */
  ghost function ColumnState(p: Prng, enc: seq<octet> -> seq<octet>, nb: nat, b: nat): Prng
    requires Cipher(enc) && nb > 0
  {
    After(p, enc, 2 * (nb - 1) + 16 * b)
  }

  /** The order of the blocks, which begins with block 0. */
  ghost function Blocks(p: Prng, enc: seq<octet> -> seq<octet>, nb: nat): (bp: seq<nat>)
    requires Cipher(enc) && nb > 0
    ensures |bp| == nb
  {
    [0] + Drawn(Draws(p, enc, nb - 1), 1)
  }

  /** The orders of the channels in the first n columns. */
  ghost function ColumnOrders(p: Prng, enc: seq<octet> -> seq<octet>, nb: nat, n: nat): (cps: seq<seq<nat>>)
    requires Cipher(enc) && nb > 0
    ensures |cps| == n && forall b :: 0 <= b < n ==> |cps[b]| == 8
  {
    seq(n, b requires 0 <= b < n => Drawn(Draws(ColumnState(p, enc, nb, b), enc, 8), 0))
  }

  function Seeded(seed: seq<octet>): Prng
    requires |seed| == 15
  {
    [16] + seed
  }

  /** generateHopList: the list that the random bytes draw, and a good one whatever they are, so for any
      device. Its entries are bytes, hence at most 256 channels. */
  method GenerateHopList(hoplist: array<nat>, nch: nat, seed: seq<octet>, enc: seq<octet> -> seq<octet>)
    requires nch % 8 == 0 && 0 < nch <= hoplist.Length && nch <= 256 && |seed| == 15 && Cipher(enc)
    modifies hoplist
    ensures GoodHopList(hoplist[..nch], nch / 8)
    ensures var p, nb := Seeded(seed), nch / 8; hoplist[..nch] == ListOf(nb, Blocks(p, enc, nb), ColumnOrders(p, enc, nb, nb))
  {
    hide Column, Columns, GoodHopList, IsPerm, Index, Drawn, Draws, After, ListOf;
    var nb := nch / 8;
    ghost var p := Seeded(seed);
    var prng := new octet[16](k requires 0 <= k < 16 => if k == 0 then 16 else seed[k - 1]);
    assert prng[..] == p == After(p, enc, 0) by { AfterNone(p, enc); }
    var bp := new nat[nb];
    bp[0] := 0;
    Perm(bp, 1, 1, nb, prng, enc);
    assert bp[1..1 + nb - 1] == bp[1..];
    BlockOrder(bp[..]);
    assert bp[..] == [0] + bp[1..] == Blocks(p, enc, nb);
    ColumnsNone(hoplist[..], nb, bp[..]);
    var b := 0;
    while b < nb
      invariant 0 <= b <= nb && prng[..] == ColumnState(p, enc, nb, b) && bp[..] == Blocks(p, enc, nb)
      invariant Columns(hoplist[..], nb, bp[..], ColumnOrders(p, enc, nb, b))
    {
      ghost var h := hoplist[..];
      ghost var cp := DrawColumn(hoplist, nb, b, bp[b], prng, enc);
      ColumnsAdd(h, hoplist[..], nb, bp[..], ColumnOrders(p, enc, nb, b), cp);
      AfterAdd(p, enc, 2 * (nb - 1) + 16 * b, 16);
      assert ColumnOrders(p, enc, nb, b + 1) == ColumnOrders(p, enc, nb, b) + [cp];
      b := b + 1;
    }
    ColumnsGood(hoplist[..], nb, bp[..], ColumnOrders(p, enc, nb, nb));
    ColumnsList(hoplist[..], nb, bp[..], ColumnOrders(p, enc, nb, nb));
    assert hoplist[..nch] == hoplist[..][..8 * nb];
  }

  lemma AfterNone(p: Prng, enc: seq<octet> -> seq<octet>)
    requires Cipher(enc)
    ensures After(p, enc, 0) == p
  {
  }

  lemma {:induction false} AfterAdd(p: Prng, enc: seq<octet> -> seq<octet>, k: nat, n: nat)
    requires Cipher(enc)
    ensures After(After(p, enc, k), enc, n) == After(p, enc, k + n)
    decreases n
  {
    if n > 0 {
      AfterAdd(p, enc, k, n - 1);
    }
  }

  lemma ColumnsNone(h: seq<nat>, nb: nat, bp: seq<nat>)
    requires |h| >= 8 * nb && |bp| == nb
    ensures Columns(h, nb, bp, [])
  {
  }

  lemma ColumnLengths(h: seq<nat>, nb: nat, bp: seq<nat>, cps: seq<seq<nat>>)
    requires Columns(h, nb, bp, cps)
    ensures forall b :: 0 <= b < |cps| ==> |cps[b]| == 8
  {
    hide IsPerm, Column;
  }

  lemma ColumnsList(h: seq<nat>, nb: nat, bp: seq<nat>, cps: seq<seq<nat>>)
    requires Columns(h, nb, bp, cps) && |cps| == nb > 0
    ensures (forall b :: 0 <= b < nb ==> |cps[b]| == 8) && |h| >= 8 * nb && h[..8 * nb] == ListOf(nb, bp, cps)
  {
    hide Index, Columns, IsPerm;
    ColumnsSize(h, nb, bp, cps);
    ColumnLengths(h, nb, bp, cps);
    forall k | 0 <= k < 8 * nb ensures h[k] == EntryOf(nb, bp, cps, k) {
      IndexSplit(nb, k);
      Entry(h, nb, bp, cps, k / nb, k % nb);
    }
  }

  /** Different draws, whether of the blocks or of a column, make different hop lists. */
  lemma HopListInjective(p: Prng, p': Prng, enc: seq<octet> -> seq<octet>, enc': seq<octet> -> seq<octet>, nb: nat)
    requires Cipher(enc) && Cipher(enc') && nb > 0
    requires ListOf(nb, Blocks(p, enc, nb), ColumnOrders(p, enc, nb, nb)) == ListOf(nb, Blocks(p', enc', nb), ColumnOrders(p', enc', nb, nb))
    ensures Draws(p, enc, nb - 1) == Draws(p', enc', nb - 1)
    ensures forall b :: 0 <= b < nb ==> Draws(ColumnState(p, enc, nb, b), enc, 8) == Draws(ColumnState(p', enc', nb, b), enc', 8)
  {
    hide ListOf, Drawn, Draws, After, IsPerm;
    var bp, cps := Blocks(p, enc, nb), ColumnOrders(p, enc, nb, nb);
    var bp', cps' := Blocks(p', enc', nb), ColumnOrders(p', enc', nb, nb);
    forall b | 0 <= b < nb ensures IsPerm(cps[b], 0) && IsPerm(cps'[b], 0) {
      OrderPerm(Draws(ColumnState(p, enc, nb, b), enc, 8), 0);
      OrderPerm(Draws(ColumnState(p', enc', nb, b), enc', 8), 0);
    }
    ListInjective(nb, bp, cps, bp', cps');
    assert bp[1..] == Drawn(Draws(p, enc, nb - 1), 1) && bp'[1..] == Drawn(Draws(p', enc', nb - 1), 1);
    OrderInjective(Draws(p, enc, nb - 1), Draws(p', enc', nb - 1), 1);
    forall b | 0 <= b < nb ensures Draws(ColumnState(p, enc, nb, b), enc, 8) == Draws(ColumnState(p', enc', nb, b), enc', 8) {
      assert cps[b] == Drawn(Draws(ColumnState(p, enc, nb, b), enc, 8), 0) && cps'[b] == Drawn(Draws(ColumnState(p', enc', nb, b), enc', 8), 0);
      OrderInjective(Draws(ColumnState(p, enc, nb, b), enc, 8), Draws(ColumnState(p', enc', nb, b), enc', 8), 0);
    }
  }

  lemma ListInjective(nb: nat, bp: seq<nat>, cps: seq<seq<nat>>, bp': seq<nat>, cps': seq<seq<nat>>)
    requires nb > 0 && |bp| == |cps| == |bp'| == |cps'| == nb && (forall b :: 0 <= b < nb ==> |cps[b]| == |cps'[b]| == 8)
    requires forall b :: 0 <= b < nb ==> IsPerm(cps[b], 0) && IsPerm(cps'[b], 0)
    requires ListOf(nb, bp, cps) == ListOf(nb, bp', cps')
    ensures bp == bp' && cps == cps'
  {
    hide IsPerm, ListOf;
    forall b | 0 <= b < nb ensures bp[b] == bp'[b] && cps[b] == cps'[b] {
      SameEntry(nb, bp, cps, bp', cps', b, 0);
      forall c | 0 <= c < 8 ensures cps[b][c] == cps'[b][c] {
        SameEntry(nb, bp, cps, bp', cps', b, c);
      }
    }
  }

  lemma SameEntry(nb: nat, bp: seq<nat>, cps: seq<seq<nat>>, bp': seq<nat>, cps': seq<seq<nat>>, b: nat, c: nat)
    requires nb > 0 && |bp| == |cps| == |bp'| == |cps'| == nb && (forall b :: 0 <= b < nb ==> |cps[b]| == |cps'[b]| == 8)
    requires b < nb && c < 8 && IsPerm(cps[b], 0) && IsPerm(cps'[b], 0) && ListOf(nb, bp, cps) == ListOf(nb, bp', cps')
    ensures bp[b] == bp'[b] && cps[b][c] == cps'[b][c]
  {
    hide Index;
    var k := Index(nb, c, b);
    IndexUnique(nb, c, b, c, b);
    IndexSplit(nb, k);
    IndexUnique(nb, c, b, k / nb, k % nb);
    assert ListOf(nb, bp, cps)[k] == EntryOf(nb, bp, cps, k) && ListOf(nb, bp', cps')[k] == EntryOf(nb, bp', cps', k);
  }

  lemma BlockOrder(bp: seq<nat>)
    requires |bp| > 0 && bp[0] == 0 && IsPerm(bp[1..], 1)
    ensures IsPerm(bp, 0)
  {
    forall v | 0 <= v < |bp| ensures v in bp {
      assert v > 0 ==> v in bp[1..];
    }
    assert forall i :: 0 < i < |bp| ==> bp[i] == bp[1..][i - 1];
  }

  lemma ColumnsAdd(h: seq<nat>, h': seq<nat>, nb: nat, bp: seq<nat>, cps: seq<seq<nat>>, cp: seq<nat>)
    requires Columns(h, nb, bp, cps) && |h'| == |h| && |cps| < nb && |cp| == 8 && IsPerm(cp, 0)
    requires Column(h', nb, |cps|, bp[|cps|], cp)
    requires forall c, b :: 0 <= c < 8 && 0 <= b < nb && b != |cps| ==>
               0 <= Index(nb, c, b) < 8 * nb && h'[Index(nb, c, b)] == h[Index(nb, c, b)]
    ensures Columns(h', nb, bp, cps + [cp])
  {
    hide Index, IsPerm;
  }

  /** The entry for channel c of the order in column b. */
  lemma Entry(h: seq<nat>, nb: nat, bp: seq<nat>, cps: seq<seq<nat>>, c: nat, b: nat)
    requires Columns(h, nb, bp, cps) && |cps| == nb && c < 8 && b < nb
    ensures Index(nb, c, b) < 8 * nb && |cps[b]| == 8 && h[Index(nb, c, b)] == bp[b] * 8 + cps[b][c]
    ensures 0 <= cps[b][c] < 8 && h[Index(nb, c, b)] / 8 == bp[b] && h[Index(nb, c, b)] % 8 == cps[b][c]
  {
    hide Index;
    assert Column(h, nb, b, bp[b], cps[b]);
  }

  lemma ColumnsGood(h: seq<nat>, nb: nat, bp: seq<nat>, cps: seq<seq<nat>>)
    requires Columns(h, nb, bp, cps) && |cps| == nb > 0 && IsPerm(bp, 0) && bp[0] == 0
    ensures GoodHopList(h[..8 * nb], nb)
  {
    hide Index, Columns, IsPerm;
    ColumnsSize(h, nb, bp, cps);
    var s := h[..8 * nb];
    ColumnsPerm(h, nb, bp, cps);
    forall b | 0 <= b < nb ensures h[b] / 8 == bp[b] {
      Entry(h, nb, bp, cps, 0, b);
      IndexRow0(nb, b);
    }
    forall c, b | 0 <= c < 8 && 0 <= b < nb ensures Index(nb, c, b) < 8 * nb && h[Index(nb, c, b)] / 8 == h[b] / 8 {
      Entry(h, nb, bp, cps, c, b);
    }
    assert seq(nb, b requires 0 <= b < nb => s[b] / 8) == bp;
  }

  lemma IndexRow0(nb: nat, b: nat)
    ensures Index(nb, 0, b) == b
  {
  }

  lemma ColumnsPerm(h: seq<nat>, nb: nat, bp: seq<nat>, cps: seq<seq<nat>>)
    requires Columns(h, nb, bp, cps) && |cps| == nb > 0 && IsPerm(bp, 0)
    ensures IsPerm(h[..8 * nb], 0)
  {
    hide Index, Columns;
    ColumnsSize(h, nb, bp, cps);
    var s := h[..8 * nb];
    forall i | 0 <= i < 8 * nb ensures 0 <= s[i] < 8 * nb {
      var c, b := IndexOnto(nb, i);
      Entry(h, nb, bp, cps, c, b);
    }
    forall i, j | 0 <= i < j < 8 * nb ensures s[i] != s[j] {
      var c, b := IndexOnto(nb, i);
      var c', b' := IndexOnto(nb, j);
      Entry(h, nb, bp, cps, c, b);
      Entry(h, nb, bp, cps, c', b');
      OrderOf(h, nb, bp, cps, b);
    }
    forall v | 0 <= v < 8 * nb ensures v in s {
      var b := PositionOf(bp, 0, v / 8);
      OrderOf(h, nb, bp, cps, b);
      var c := PositionOf(cps[b], 0, v % 8);
      Entry(h, nb, bp, cps, c, b);
      assert s[Index(nb, c, b)] == v;
    }
  }

  lemma ColumnsSize(h: seq<nat>, nb: nat, bp: seq<nat>, cps: seq<seq<nat>>)
    requires Columns(h, nb, bp, cps)
    ensures |h| >= 8 * nb && |cps| <= |bp| == nb
  {
  }

  lemma OrderOf(h: seq<nat>, nb: nat, bp: seq<nat>, cps: seq<seq<nat>>, b: nat)
    requires Columns(h, nb, bp, cps) && b < |cps|
    ensures |cps[b]| == 8 && IsPerm(cps[b], 0)
  {
  }

  lemma PositionOf(s: seq<nat>, start: nat, v: nat) returns (i: nat)
    requires IsPerm(s, start) && start <= v < start + |s|
    ensures i < |s| && s[i] == v
  {
    assert v in s;
    i :| 0 <= i < |s| && s[i] == v;
  }

  // ---------------------------------------------------------------------------------------------
  // Consuming the hop list

  function Mod(x: nat, e: nat): (r: nat)
    requires e > 0
    ensures r < e
  {
    x % e
  }

  /** The 8-bit reference. */
  function Wrap8(x: nat): (r: nat)
    ensures r < 256
  {
    x % 256
  }

  lemma Wrap8Step(r: nat, i: nat)
    ensures Wrap8(r + 0) == r % 256 && Wrap8(Wrap8(r + i) + 1) == Wrap8(r + (i + 1))
  {
  }

  ghost predicate Divides256(e: nat) { e > 0 && 256 % e == 0 }

  /** The enabled-channel words, 16 channels each, as one bit per channel. */
  type ChannelMap = seq<bool>

  ghost predicate Usable(list: seq<nat>, map16: ChannelMap) {
    0 < |list| < 256 && forall c :: c in list ==> c < |map16|
  }

  /** The entry that the 8-bit reference reaches after k steps from r. */
  function EntryAt(list: seq<nat>, r: nat, k: nat): (c: nat)
    requires |list| > 0
    ensures c in list
  {
    list[Mod(Wrap8(r + k), |list|)]
  }

  /** The first step from k on that reaches an enabled channel, or |list| + 1. */
  ghost function NextHop(list: seq<nat>, map16: ChannelMap, r: nat, k: nat): (j: nat)
    requires Usable(list, map16) && 1 <= k <= |list| + 1
    ensures k <= j <= |list| + 1 && (j <= |list| ==> map16[EntryAt(list, r, j)])
    ensures forall i :: k <= i < j ==> !map16[EntryAt(list, r, i)]
    decreases |list| + 1 - k
  {
    if k == |list| + 1 || map16[EntryAt(list, r, k)] then k else NextHop(list, map16, r, k + 1)
  }

  /** The numbers from start on. */
  function From(start: nat, n: nat): (r: seq<nat>)
    ensures |r| == n && (forall i :: 0 <= i < n ==> r[i] == start + i) && forall c :: c in r <==> start <= c < start + n
  {
    if n == 0 then [] else From(start, n - 1) + [start + n - 1]
  }

  class FixedPlan {
    const nb: nat                  // number of 8-channel blocks
    const hoplist: array<nat>
    var channelMap: ChannelMap
    var refChnl: nat               // 8 bits wide
    var txChnl: nat
    var nextChnl: bool             // OP_NEXTCHNL
    var fixDr: bool                // the data rate is the one of the 500 kHz channels

    constructor (nb: nat, hoplist: array<nat>, channelMap: ChannelMap)
      requires 0 < nb <= 12 && hoplist.Length == 8 * nb && |channelMap| >= 9 * nb && GoodHopList(hoplist[..], nb)
      ensures Valid() && this.nb == nb && this.hoplist == hoplist && this.channelMap == channelMap && refChnl == 0
    {
      this.nb, this.hoplist, this.channelMap := nb, hoplist, channelMap;
      refChnl, txChnl, nextChnl, fixDr := 0, 0, true, false;
      new;
      GoodIsPerm(hoplist[..], nb);
    }

    ghost predicate Valid()
      reads this, hoplist
    {
      0 < nb <= 12 && hoplist.Length == 8 * nb && |channelMap| >= 9 * nb && IsPerm(hoplist[..], 0) && refChnl < 256
    }

    /** The channels scanned at the current data rate. */
    ghost function List(): (r: seq<nat>)
      requires Valid()
      reads this, hoplist
      ensures Usable(r, channelMap) && AllDifferent(r) && |r| == (if fixDr then nb else 8 * nb)
      ensures forall c: nat :: c in r <==> (if fixDr then 8 * nb <= c < 9 * nb else c < 8 * nb)
    {
      if fixDr then From(8 * nb, nb) else hoplist[..]
    }

    /** The scan of the 500 kHz channels in nextTx_fix. */
    method ScanWide()
      requires Valid() && fixDr
      modifies this`refChnl, this`txChnl
      ensures Valid() && List() == old(List())
      ensures Selected(List(), channelMap, old(refChnl), old(txChnl), refChnl, txChnl)
    {
      hide IsPerm, EntryAt, NextHop, Mod, Selected, Usable, Wrap8;
      ghost var L, r, tx := List(), refChnl, txChnl;
      Wrap8Step(r, 0);
      WrapFits(r);
      var off, e, i := nb * 8, nb, 0;
      while i < e
        invariant 0 <= i <= e && refChnl == Wrap8(r + i) && txChnl == tx && List() == L
        invariant NextHop(L, channelMap, r, 1) == NextHop(L, channelMap, r, i + 1)
      {
        Wrap8Step(r, i);
        refChnl := Wrap8(refChnl + 1);
        var chnl := Mod(refChnl, e) + off;
        ScanStep(L, channelMap, r, i + 1);
        if channelMap[chnl] {
          txChnl := chnl;
          SelectedAt(L, channelMap, r, tx, i + 1);
          return;
        }
        i := i + 1;
      }
      SelectedNone(L, channelMap, r, tx);
    }

    /** The scan of the hop list in nextTx_fix. */
    method ScanHops()
      requires Valid() && !fixDr
      modifies this`refChnl, this`txChnl
      ensures Valid() && List() == old(List())
      ensures Selected(List(), channelMap, old(refChnl), old(txChnl), refChnl, txChnl)
    {
      hide IsPerm, EntryAt, NextHop, Mod, Selected, Usable, Wrap8;
      ghost var L, r, tx := List(), refChnl, txChnl;
      Wrap8Step(r, 0);
      WrapFits(r);
      var e, i := nb * 8, 0;
      while i < e
        invariant 0 <= i <= e && refChnl == Wrap8(r + i) && txChnl == tx && List() == L
        invariant NextHop(L, channelMap, r, 1) == NextHop(L, channelMap, r, i + 1)
      {
        Wrap8Step(r, i);
        refChnl := Wrap8(refChnl + 1);
        var chnl := hoplist[Mod(refChnl, e)];
        ScanStep(L, channelMap, r, i + 1);
        if channelMap[chnl] {
          txChnl := chnl;
          SelectedAt(L, channelMap, r, tx, i + 1);
          return;
        }
        i := i + 1;
      }
      SelectedNone(L, channelMap, r, tx);
    }

    /** The channel selection of nextTx_fix. */
    method NextChannel()
      requires Valid()
      modifies this`refChnl, this`txChnl, this`nextChnl
      ensures Valid() && !nextChnl
      ensures !old(nextChnl) ==> txChnl == old(txChnl) && refChnl == old(refChnl)
      ensures List() == old(List())
      ensures old(nextChnl) ==> Selected(List(), channelMap, old(refChnl), old(txChnl), refChnl, txChnl)
      ensures old(nextChnl) && Divides256(|List()|) && (exists c :: 0 <= c < 9 * nb && (fixDr <==> c >= 8 * nb) && channelMap[c]) ==>
                txChnl < 9 * nb && (fixDr <==> txChnl >= 8 * nb) && channelMap[txChnl]
      ensures old(nextChnl) && (forall c :: 0 <= c < 9 * nb && (fixDr <==> c >= 8 * nb) ==> !channelMap[c]) ==> txChnl == old(txChnl)
    {
      hide IsPerm, Selected, Usable, Divides256;
      if nextChnl {
        nextChnl := false;
        ghost var r, tx := refChnl, txChnl;
        if fixDr {
          ScanWide();
        } else {
          ScanHops();
        }
        SelectedEnabled(List(), channelMap, r, tx, refChnl, txChnl);
      }
    }
  }

  lemma WrapFits(r: nat)
    requires r < 256
    ensures Wrap8(r + 0) == r
  {
  }

  lemma ScanStep(list: seq<nat>, map16: ChannelMap, r: nat, k: nat)
    requires Usable(list, map16) && 1 <= k <= |list|
    ensures EntryAt(list, r, k) == list[Mod(Wrap8(r + k), |list|)] && 0 <= EntryAt(list, r, k) < |map16|
    ensures NextHop(list, map16, r, k) == if map16[EntryAt(list, r, k)] then k else NextHop(list, map16, r, k + 1)
  {
  }

  lemma GoodIsPerm(h: seq<nat>, nb: nat)
    requires GoodHopList(h, nb)
    ensures IsPerm(h, 0)
  {
  }

  /** The scan moves to the next enabled channel, or goes once round if there is none. */
  ghost predicate Selected(list: seq<nat>, map16: ChannelMap, r: nat, tx: nat, r': nat, tx': nat)
    requires Usable(list, map16)
  {
    var j := NextHop(list, map16, r, 1);
    if j <= |list| then tx' == EntryAt(list, r, j) && r' == Wrap8(r + j)
    else tx' == tx && r' == Wrap8(r + |list|)
  }

  lemma SelectedAt(list: seq<nat>, map16: ChannelMap, r: nat, tx: nat, k: nat)
    requires Usable(list, map16) && 1 <= k <= |list| && NextHop(list, map16, r, 1) == k
    ensures Selected(list, map16, r, tx, Wrap8(r + k), EntryAt(list, r, k))
  {
  }

  /** The scan selects an enabled channel of the list or keeps the one it had; it finds one if there is one
      and the length of the list divides 256. */
  lemma SelectedEnabled(list: seq<nat>, map16: ChannelMap, r: nat, tx: nat, r': nat, tx': nat)
    requires Usable(list, map16) && Selected(list, map16, r, tx, r', tx')
    ensures tx' == tx || (tx' in list && map16[tx'])
    ensures (forall c :: c in list ==> !map16[c]) ==> tx' == tx
    ensures Divides256(|list|) && (exists c :: c in list && map16[c]) ==> tx' in list && map16[tx']
  {
    hide EntryAt, Divides256;
    if Divides256(|list|) && exists c :: c in list && map16[c] {
      var c :| c in list && map16[c];
      var k := RoundReaches(list, r, c);
    }
  }

  /** For other lengths the scan can miss the only enabled channel: it comes to the same places twice. */
  lemma ScanMisses(list: seq<nat>) returns (map16: ChannelMap, r: nat)
    requires 0 < |list| < 256 && AllDifferent(list) && !Divides256(|list|)
    ensures r < 256 && Usable(list, map16) && (exists c :: c in list && map16[c]) && NextHop(list, map16, r, 1) == |list| + 1
  {
    var e, s := |list|, 256 % |list|;
    var last := list[e - 1];
    map16 := seq(Above(list), c => c == last);
    r := 255 - s;
    assert last in list && map16[last];
    forall k | 1 <= k <= e ensures !map16[EntryAt(list, r, k)] {
      MissesLast(e, r, k);
    }
  }

  lemma MissesLast(e: nat, r: nat, k: nat)
    requires 0 < e < 256 && 256 % e != 0 && r == 255 - 256 % e && 1 <= k <= e
    ensures Mod(Wrap8(r + k), e) != e - 1
  {
    var q, s := 256 / e, 256 % e;
    assert 256 == q * e + s;
    if k <= s {
      ModIs(r + k, q, e, k - 1);
    } else {
      ModIs(r + k - 256, 0, e, k - 1 - s);
    }
  }

  /** From every start the scan finds an enabled channel, if there is one, exactly if the length of the
      list divides 256. */
  lemma ScanFindsIff(list: seq<nat>)
    requires 0 < |list| < 256 && AllDifferent(list)
    ensures (forall map16: ChannelMap, r: nat :: Usable(list, map16) && (exists c :: c in list && map16[c]) ==>
              NextHop(list, map16, r, 1) <= |list|) <==> Divides256(|list|)
  {
    hide EntryAt, Divides256;
    if Divides256(|list|) {
      forall map16: ChannelMap, r: nat | Usable(list, map16) && exists c :: c in list && map16[c]
        ensures NextHop(list, map16, r, 1) <= |list|
      {
        var c :| c in list && map16[c];
        var k := RoundReaches(list, r, c);
      }
    } else {
      var map16, r := ScanMisses(list);
    }
  }

  lemma SelectedNone(list: seq<nat>, map16: ChannelMap, r: nat, tx: nat)
    requires Usable(list, map16) && NextHop(list, map16, r, 1) == NextHop(list, map16, r, |list| + 1)
    ensures Selected(list, map16, r, tx, Wrap8(r + |list|), tx)
  {
  }

  // ---------------------------------------------------------------------------------------------
  // Fairness

  ghost function Enabled(list: seq<nat>, map16: ChannelMap): set<nat>
    requires Usable(list, map16)
  {
    set c | c in list && map16[c]
  }

  /** Total steps of the reference after n hops. */
  ghost function Steps(list: seq<nat>, map16: ChannelMap, r: nat, n: nat): nat
    requires Usable(list, map16)
  {
    if n == 0 then 0
    else var k := Steps(list, map16, r, n - 1); k + NextHop(list, map16, Wrap8(r + k), 1)
  }

  /** The channel of the n-th hop, counted from 1. */
  ghost function HopChannel(list: seq<nat>, map16: ChannelMap, r: nat, n: nat): nat
    requires Usable(list, map16)
  {
    EntryAt(list, r, Steps(list, map16, r, n))
  }

  /** The scan after n hops from reference r makes hop n + 1. */
  lemma SelectedIsHop(list: seq<nat>, map16: ChannelMap, r: nat, n: nat, tx: nat, r': nat, tx': nat)
    requires Usable(list, map16) && AllDifferent(list) && Divides256(|list|) && n < |Enabled(list, map16)|
    requires Selected(list, map16, Wrap8(r + Steps(list, map16, r, n)), tx, r', tx')
    ensures tx' == HopChannel(list, map16, r, n + 1) && r' == Wrap8(r + Steps(list, map16, r, n + 1))
  {
    hide EntryAt, AllDifferent, Divides256, Covered, Enabled, Used, Mod, Wrap8, NextHop;
    HopsDistinct(list, map16, r, n);
    HopStep(list, map16, r, n);
    var K := Steps(list, map16, r, n);
    var j := NextHop(list, map16, Wrap8(r + K), 1);
    StepsNext(list, map16, r, n);
    EntryShift(list, r, K, j);
    Wrap8Add(r + K, j);
  }

  lemma Wrap8Add(x: nat, j: nat)
    ensures Wrap8(Wrap8(x) + j) == Wrap8(x + j)
  {
  }

  lemma StepsNext(list: seq<nat>, map16: ChannelMap, r: nat, n: nat)
    requires Usable(list, map16)
    ensures var K := Steps(list, map16, r, n);
            Steps(list, map16, r, n + 1) == K + NextHop(list, map16, Wrap8(r + K), 1)
  {
  }

  lemma EntryShift(list: seq<nat>, r: nat, k: nat, j: nat)
    requires |list| > 0
    ensures EntryAt(list, Wrap8(r + k), j) == EntryAt(list, r, k + j)
  {
    Wrap8Add(r + k, j);
  }

  /** When the list length divides 256, the wrap of the reference does not disturb the order. */
  lemma NoWrap(list: seq<nat>, x: nat)
    requires Divides256(|list|)
    ensures Mod(x % 256, |list|) == Mod(x, |list|)
  {
    var e, q := |list|, x / 256;
    var d := 256 / e;
    var y := x % 256;
    assert 256 == d * e + 256 % e;
    assert x == y + (q * d) * e by {
      assert q * 256 == q * (d * e) == (q * d) * e;
    }
    ModIs(x, q * d + y / e, e, y % e);
  }

  /** Within one round, different steps reach different channels, and every channel is reached. */
  lemma RoundDistinct(list: seq<nat>, r: nat, i: nat, j: nat)
    requires AllDifferent(list) && Divides256(|list|) && i < j < i + |list|
    ensures EntryAt(list, r, i) != EntryAt(list, r, j)
  {
    NoWrap(list, r + i);
    NoWrap(list, r + j);
    var e := |list|;
    DistinctRemainders(r + i, r + j, e);
  }

  lemma RoundReaches(list: seq<nat>, r: nat, c: nat) returns (k: nat)
    requires Divides256(|list|) && c in list
    ensures 1 <= k <= |list| && EntryAt(list, r, k) == c
  {
    var e := |list|;
    var i :| 0 <= i < e && list[i] == c;
    var q, s := r / e, r % e;
    assert r == q * e + s;
    if i > s {
      k := i - s;
      ModIs(r + k, q, e, i);
    } else {
      k := i - s + e;
      assert r + k == (q + 1) * e + i;
      ModIs(r + k, q + 1, e, i);
    }
    NoWrap(list, r + k);
  }

  /** After n <= m hops, m the number of enabled channels, n different enabled channels have been used,
      the ones the first steps reach. */
  lemma {:induction false} HopsDistinct(list: seq<nat>, map16: ChannelMap, r: nat, n: nat)
    requires Usable(list, map16) && AllDifferent(list) && Divides256(|list|) && n <= |Enabled(list, map16)|
    ensures Steps(list, map16, r, n) <= |list|
    ensures Used(list, map16, r, n) <= Enabled(list, map16) && |Used(list, map16, r, n)| == n
    ensures Covered(list, map16, r, Steps(list, map16, r, n), Used(list, map16, r, n))
    decreases n
  {
    hide EntryAt, AllDifferent, Divides256, Mod, Covered, Enabled;
    if n == 0 {
      CoveredNone(list, map16, r);
    } else {
      HopsDistinct(list, map16, r, n - 1);
      HopStep(list, map16, r, n - 1);
      CoveredAdd(list, map16, r, Steps(list, map16, r, n - 1), Used(list, map16, r, n - 1), Steps(list, map16, r, n));
    }
  }

  /** U is what the first K steps reach of the enabled channels. */
  ghost predicate Covered(list: seq<nat>, map16: ChannelMap, r: nat, K: nat, U: set<nat>)
    requires Usable(list, map16)
  {
    && (forall k :: 1 <= k <= K && map16[EntryAt(list, r, k)] ==> EntryAt(list, r, k) in U)
    && (forall c :: c in U ==> exists k :: 1 <= k <= K && EntryAt(list, r, k) == c)
  }

  lemma CoveredNone(list: seq<nat>, map16: ChannelMap, r: nat)
    requires Usable(list, map16)
    ensures Covered(list, map16, r, 0, {})
  {
  }

  lemma CoveredAdd(list: seq<nat>, map16: ChannelMap, r: nat, K: nat, U: set<nat>, K': nat)
    requires Usable(list, map16) && Covered(list, map16, r, K, U) && K < K'
    requires forall k :: K < k < K' ==> !map16[EntryAt(list, r, k)]
    ensures Covered(list, map16, r, K', U + {EntryAt(list, r, K')})
  {
    hide EntryAt;
    forall c | c in U + {EntryAt(list, r, K')} ensures exists k :: 1 <= k <= K' && EntryAt(list, r, k) == c {
      if c in U {
        var k :| 1 <= k <= K && EntryAt(list, r, k) == c;
      }
    }
  }

  ghost function Used(list: seq<nat>, map16: ChannelMap, r: nat, n: nat): set<nat>
    requires Usable(list, map16)
  {
    if n == 0 then {} else Used(list, map16, r, n - 1) + {HopChannel(list, map16, r, n)}
  }

  lemma HopStep(list: seq<nat>, map16: ChannelMap, r: nat, n: nat)
    requires Usable(list, map16) && AllDifferent(list) && Divides256(|list|) && n < |Enabled(list, map16)|
    requires var U := Used(list, map16, r, n); var K := Steps(list, map16, r, n);
             K <= |list| && U <= Enabled(list, map16) && |U| == n && Covered(list, map16, r, K, U)
    ensures var U := Used(list, map16, r, n); var K := Steps(list, map16, r, n); var K' := Steps(list, map16, r, n + 1);
            && K < K' <= |list| && HopChannel(list, map16, r, n + 1) in Enabled(list, map16) - U
            && (forall k :: K < k < K' ==> !map16[EntryAt(list, r, k)])
  {
    hide EntryAt, AllDifferent, Divides256, Mod, Wrap8, Steps;
    StepsNext(list, map16, r, n);
    var U, K := Used(list, map16, r, n), Steps(list, map16, r, n);
    var E := Enabled(list, map16);
    var c := Missing(E, U);
    var kc := RoundReaches(list, r, c);
    assert kc > K;
    var j := NextHop(list, map16, Wrap8(r + K), 1);
    EntryShift(list, r, K, kc - K);
    assert j <= kc - K;
    EntryShift(list, r, K, j);
    forall k | K < k < K + j ensures !map16[EntryAt(list, r, k)] {
      EntryShift(list, r, K, k - K);
    }
    NotCovered(list, map16, r, K, U, K + j);
  }

  lemma NotCovered(list: seq<nat>, map16: ChannelMap, r: nat, K: nat, U: set<nat>, k': nat)
    requires Usable(list, map16) && AllDifferent(list) && Divides256(|list|) && Covered(list, map16, r, K, U) && K < k' <= |list|
    ensures EntryAt(list, r, k') !in U
  {
    hide EntryAt, AllDifferent, Divides256;
    if EntryAt(list, r, k') in U {
      var k :| 1 <= k <= K && EntryAt(list, r, k) == EntryAt(list, r, k');
      RoundDistinct(list, r, k, k');
    }
  }

  lemma Missing(E: set<nat>, U: set<nat>) returns (c: nat)
    requires U <= E && |U| < |E|
    ensures c in E && c !in U
  {
    assert !(E <= U) by { SubsetSize(E, U); }
    c :| c in E && c !in U;
  }

  /** If the number of channels divides 256, then with m channels enabled any m successive hops use
      each of them exactly once. */
  lemma Fair(list: seq<nat>, map16: ChannelMap, r: nat)
    requires Usable(list, map16) && AllDifferent(list) && Divides256(|list|)
    ensures var m := |Enabled(list, map16)|;
            && Used(list, map16, r, m) == Enabled(list, map16)
            && forall i, j :: 1 <= i < j <= m ==> HopChannel(list, map16, r, i) != HopChannel(list, map16, r, j)
  {
    hide EntryAt, AllDifferent, Divides256, Mod, Covered, Steps, Enabled;
    var m := |Enabled(list, map16)|;
    HopsDistinct(list, map16, r, m);
    SameSize(Used(list, map16, r, m), Enabled(list, map16));
    forall i, j | 1 <= i < j <= m ensures HopChannel(list, map16, r, i) != HopChannel(list, map16, r, j) {
      HopsDistinct(list, map16, r, j - 1);
      HopStep(list, map16, r, j - 1);
      UsedHas(list, map16, r, i, j - 1);
    }
  }

  lemma {:induction false} UsedHas(list: seq<nat>, map16: ChannelMap, r: nat, i: nat, n: nat)
    requires Usable(list, map16) && 1 <= i <= n
    ensures HopChannel(list, map16, r, i) in Used(list, map16, r, n)
    decreases n
  {
    if i < n {
      UsedHas(list, map16, r, i, n - 1);
    }
  }

  lemma SameSize(U: set<nat>, E: set<nat>)
    requires U <= E && |U| == |E|
    ensures U == E
  {
    SubsetSize(E, U);
    assert |E| == |U| + |E - U|;
    assert E == U + (E - U);
  }

  /** And only then: when it does not divide 256, as with the 96 channels of CN470, and all channels
      are enabled, there is a start from which a channel comes twice within one round. */
  lemma UnfairUnlessDividing(list: seq<nat>, map16: ChannelMap)
    requires Usable(list, map16) && AllDifferent(list) && !Divides256(|list|) && forall c :: c in list ==> map16[c]
    ensures var n := 2 + Mod(255, |list|);
            n <= |list| && HopChannel(list, map16, 254, n) == HopChannel(list, map16, 254, 1)
  {
    hide Steps, EntryAt, AllDifferent;
    var e, s := |list|, Mod(255, |list|);
    AllOn(list, map16, 254, 1);
    AllOn(list, map16, 254, 2 + s);
    var q := 255 / e;
    assert 255 == q * e + s;
    if s == e - 1 {
      assert 256 == (q + 1) * e;
      ModIs(256, q + 1, e, 0);
    }
    assert s < 256 && Mod(s, e) == s by { ModIs(s, 0, e, s); }
    EntryIs(list, 254, 1, s);
    EntryIs(list, 254, 2 + s, s);
  }

  lemma EntryIs(list: seq<nat>, r: nat, k: nat, s: nat)
    requires |list| > 0 && Mod(Wrap8(r + k), |list|) == s
    ensures EntryAt(list, r, k) == list[s]
  {
  }

  lemma {:induction false} AllOn(list: seq<nat>, map16: ChannelMap, r: nat, n: nat)
    requires Usable(list, map16) && forall c :: c in list ==> map16[c]
    ensures Steps(list, map16, r, n) == n
    decreases n
  {
    if n > 0 {
      AllOn(list, map16, r, n - 1);
      var c := EntryAt(list, Wrap8(r + n - 1), 1);
    }
  }

  /** The first m hops from r, m the number of enabled channels, are all different. */
  ghost predicate FairFrom(list: seq<nat>, map16: ChannelMap, r: nat)
    requires Usable(list, map16)
  {
    forall i, j :: 1 <= i < j <= |Enabled(list, map16)| ==> HopChannel(list, map16, r, i) != HopChannel(list, map16, r, j)
  }

  /** A number above all entries. */
  function Above(list: seq<nat>): (n: nat)
    ensures forall c :: c in list ==> c < n
  {
    if list == [] then 0
    else
      var n, c := Above(list[1..]), list[0];
      assert forall k :: k in list ==> k == c || k in list[1..];
      if c < n then n else c + 1
  }

  /** Hops are fair for every channel map and every start exactly if the list length divides 256. */
  lemma FairIff(list: seq<nat>)
    requires 0 < |list| < 256 && AllDifferent(list)
    ensures (forall map16: ChannelMap, r: nat :: Usable(list, map16) ==> FairFrom(list, map16, r)) <==> Divides256(|list|)
  {
    hide HopChannel, Divides256, Enabled, Mod;
    if Divides256(|list|) {
      forall map16: ChannelMap, r: nat | Usable(list, map16) ensures FairFrom(list, map16, r) {
        Fair(list, map16, r);
      }
    } else {
      var all: ChannelMap := seq(Above(list), _ => true);
      assert Usable(list, all);
      UnfairUnlessDividing(list, all);
      AllEnabled(list, all);
      assert !FairFrom(list, all, 254);
    }
  }

  lemma AllEnabled(list: seq<nat>, map16: ChannelMap)
    requires Usable(list, map16) && AllDifferent(list) && forall c :: c in list ==> map16[c]
    ensures |Enabled(list, map16)| == |list|
  {
    assert Enabled(list, map16) == Members(list);
    DistinctSize(list);
  }

  function Members(s: seq<nat>): set<nat> { set c | c in s }

  lemma {:induction false} DistinctSize(s: seq<nat>)
    requires AllDifferent(s)
    ensures |Members(s)| == |s|
    decreases |s|
  {
    if s == [] {
      assert Members(s) == {};
    } else {
      var n := |s| - 1;
      DistinctSize(s[..n]);
      assert Members(s) == Members(s[..n]) + {s[n]};
    }
  }

  lemma SubsetSize(E: set<nat>, U: set<nat>)
    requires U <= E
    ensures E <= U <==> |E| <= |U|
  {
    assert E == U + (E - U) && |E| == |U| + |E - U|;
    assert E - U == {} <==> E <= U;
  }
}
