/**
 Duty-cycle bookkeeping of regions with dynamic channels, lmic/lmic.c: availabilities in 16-bit
 seconds relative to a movable base.
*/
module Duty {
  import opened Ints

  const OSTICKS_PER_SEC := 32768

  /** sec2osticks, with its conversion to 32 bits. */
  function SecToTicks(tps: nat, s: nat): int { S4(s * tps) }

  /** The conversion loses nothing on 16-bit seconds exactly up to 32768 ticks per second, although
      oslmic.h admits up to 64516. */
  lemma SecToTicksExact(tps: nat)
    ensures (forall s :: 0 <= s <= 0xffff ==> SecToTicks(tps, s) == s * tps) <==> tps <= 32768
  {
    if tps <= 32768 {
      forall s: nat | s <= 0xffff ensures SecToTicks(tps, s) == s * tps {
        assert 0 <= s * tps <= 0xffff * tps;
        S4Fits(s * tps);
      }
    } else {
      S4Fits(0xffff * tps);
      assert SecToTicks(tps, 0xffff) != 0xffff * tps;
    }
  }

  /** osticks2secCeil */
  function TicksToSecCeil(x: int): int { S4(CDiv(x + (OSTICKS_PER_SEC - 1), OSTICKS_PER_SEC)) }

  lemma CeilBounds(x: int)
    requires -OSTICKS_PER_SEC <= x < 0x4000_0000 * OSTICKS_PER_SEC
    ensures 0 <= TicksToSecCeil(x) < 0x4000_0001
    ensures x <= TicksToSecCeil(x) * OSTICKS_PER_SEC
    ensures x > 0 ==> TicksToSecCeil(x) * OSTICKS_PER_SEC < x + OSTICKS_PER_SEC
    ensures x <= 0 ==> TicksToSecCeil(x) == 0
    ensures TicksToSecCeil(x) <= 0xffff <==> x <= 0xffff * OSTICKS_PER_SEC
  {
    S4Fits(CDiv(x + (OSTICKS_PER_SEC - 1), OSTICKS_PER_SEC));
  }

  /** os_time2XTime */
  function Time2XTime(t: int, context: int): int { context + S4(t - S4(context)) }

  /** Times within 2^31 ticks of the context survive the way through 32 bits. */
  lemma Time2XTimeExact(x: int, context: int)
    requires -0x8000_0000 <= x - context < 0x8000_0000
    ensures Time2XTime(S4(x), context) == x
  {
    S4Minus(x, context);
    S4Fits(x - context);
  }

  /** A frequency band: its limits and the share of time 1/cap it may be used. */
  datatype Band = Band(lo: nat, hi: nat, cap: nat)

  /** drs125 are the data rates that use 125 kHz, which all125up finds. */
  datatype Region = Region(bands: seq<Band>, chTxCap: nat, drs125: seq<bool>)

  /** The band contains the frequency, whose lowest bits do not count. */
  predicate InBand(b: Band, freq: nat) { b.lo <= freq - freq % 8 <= b.hi }

  ghost predicate WFRegion(r: Region) {
    |r.bands| == 8 && |r.drs125| == 16 && r.chTxCap <= 1000 && forall b :: 0 <= b < 8 ==> r.bands[b].cap <= 1000
  }

  /** A transmission: start, duration, band, channel, how often the channel had been set up before,
      and whether the availability of its channel had been established. */
  datatype Tx = Tx(beg: int, airtime: nat, band: nat, chnl: nat, gen: nat, checked: bool)

  function BandEnd(r: Region, t: Tx): int
    requires |r.bands| == 8 && t.band < 8
  {
    t.beg + t.airtime * r.bands[t.band].cap
  }

  function ChEnd(r: Region, t: Tx): int { t.beg + t.airtime * r.chTxCap }

  ghost predicate WFSent(sent: seq<Tx>) { forall i :: 0 <= i < |sent| ==> sent[i].band < 8 && sent[i].chnl < 16 }

  ghost predicate GensOk(sent: seq<Tx>, gens: seq<nat>)
    requires |gens| == 16 && WFSent(sent)
  {
    forall i :: 0 <= i < |sent| ==> sent[i].gen <= gens[sent[i].chnl]
  }

  ghost predicate AllChecked(sent: seq<Tx>) { forall i :: 0 <= i < |sent| ==> sent[i].checked }

  /** Transmissions keep clear of all earlier ones in their band, and of those on their channel since
      it was set up. */
  ghost predicate Spaced(r: Region, sent: seq<Tx>)
    requires |r.bands| == 8 && WFSent(sent)
  {
    && (forall i, j :: 0 <= i < j < |sent| && sent[i].band == sent[j].band ==> BandEnd(r, sent[i]) <= sent[j].beg)
    && (forall i, j :: 0 <= i < j < |sent| && sent[i].chnl == sent[j].chnl && sent[i].gen == sent[j].gen ==>
          ChEnd(r, sent[i]) <= sent[j].beg)
  }

  /** The claims of t end soon enough after base for 16 bits. */
  ghost predicate WithinBase(r: Region, t: Tx, base: int)
    requires |r.bands| == 8 && t.band < 8
  {
    BandEnd(r, t) - base <= 0xffff * OSTICKS_PER_SEC && ChEnd(r, t) - base <= 0xffff * OSTICKS_PER_SEC
  }

  /** getAvail, for the availability v relative to base. */
  function AvailAt(base: int, v: nat): (r: int)
    ensures v <= 0xffff ==> r == base + v * OSTICKS_PER_SEC
  {
    SecToTicksExact(OSTICKS_PER_SEC);
    base + SecToTicks(OSTICKS_PER_SEC, v)
  }

  /** 16-bit values. */
  ghost predicate Small(vs: seq<nat>) { forall i :: 0 <= i < |vs| ==> vs[i] <= 0xffff }

  /** Every past transmission is accounted for in the availability of its band and of its channel. */
  ghost predicate Booked(r: Region, sent: seq<Tx>, gens: seq<nat>, base: int, bands: seq<nat>, chs: seq<nat>)
    requires |r.bands| == |bands| == 8 && |gens| == |chs| == 16 && WFSent(sent)
  {
    && (forall i :: 0 <= i < |sent| ==> BandEnd(r, sent[i]) <= AvailAt(base, bands[sent[i].band]))
    && (forall i :: 0 <= i < |sent| && sent[i].gen == gens[sent[i].chnl] ==> ChEnd(r, sent[i]) <= AvailAt(base, chs[sent[i].chnl]))
  }

  /** As long as every transmission was checked, all keep their distance and are accounted for. */
  ghost predicate Ledger(r: Region, sent: seq<Tx>, gens: seq<nat>, base: int, bands: seq<nat>, chs: seq<nat>)
    requires |r.bands| == |bands| == 8 && |gens| == |chs| == 16
  {
    WFSent(sent) && GensOk(sent, gens) && (AllChecked(sent) ==> Spaced(r, sent) && Booked(r, sent, gens, base, bands, chs))
  }

  /** No availability but that of i is earlier under the second base than it was under the first. */
  ghost predicate LaterBut(base: int, vs: seq<nat>, base': int, vs': seq<nat>, i: nat) {
    |vs'| == |vs| && forall k :: 0 <= k < |vs| && k != i ==> AvailAt(base, vs[k]) <= AvailAt(base', vs'[k])
  }

  /** The availability is kept to within a second, or lies at the new base if it had passed. */
  ghost predicate Prompt(base: int, v: nat, base': int, v': nat) {
    var t := AvailAt(base, v);
    AvailAt(base', v') < (if t < base' then base' else t) + OSTICKS_PER_SEC
  }

  ghost predicate PromptBut(base: int, vs: seq<nat>, base': int, vs': seq<nat>, i: nat) {
    |vs'| == |vs| && forall k :: 0 <= k < |vs| && k != i ==> Prompt(base, vs[k], base', vs'[k])
  }

  /** Band b is adjusted when the base moves: it and all bands before it have limits. */
  ghost predicate Adjusted(r: Region, b: nat)
    requires b < |r.bands|
  {
    forall l :: 0 <= l <= b ==> r.bands[l].lo != 0
  }

  ghost predicate AdjustedBut(r: Region, base: int, vs: seq<nat>, base': int, vs': seq<nat>, i: nat) {
    && |vs'| == |vs| == |r.bands|
    && forall k :: 0 <= k < |vs| && k != i ==> if Adjusted(r, k) then Prompt(base, vs[k], base', vs'[k]) else vs'[k] == vs[k]
  }

  /** Cell i of the bands or cell j of the channels, the other being none, is set for time t: less than a
      second late. The base moves to the present exactly if the time is too far ahead for 16 bits, and then
      all other cells are adjusted that ever are; otherwise they stay. */
  ghost predicate AvailSet(r: Region, now: int, t: int, base: int, bs: seq<nat>, cs: seq<nat>, base': int, bs': seq<nat>, cs': seq<nat>, i: nat, j: nat) {
    && |bs| == |bs'| == 8 && |cs| == |cs'| == 16
    && (i < 8 ==> t <= AvailAt(base', bs'[i]) < Later(base', t) + OSTICKS_PER_SEC)
    && (j < 16 ==> t <= AvailAt(base', cs'[j]) < Later(base', t) + OSTICKS_PER_SEC)
    && if t - base <= 0xffff * OSTICKS_PER_SEC then
         && base' == base
         && bs' == (if i < 8 then bs[i := bs'[i]] else bs) && cs' == (if j < 16 then cs[j := cs'[j]] else cs)
       else
         base' == now && AdjustedBut(r, base, bs, now, bs', i) && PromptBut(base, cs, now, cs', j)
  }

  function Later(a: int, b: int): int { if a < b then b else a }

  lemma LaterTrans(base: int, vs: seq<nat>, base': int, vs': seq<nat>, base'': int, vs'': seq<nat>, i: nat, j: nat)
    requires LaterBut(base, vs, base', vs', i) && LaterBut(base', vs', base'', vs'', j)
    requires i >= |vs| || j >= |vs|
    ensures LaterBut(base, vs, base'', vs'', if i >= |vs| then j else i)
    ensures j >= |vs| > i ==> AvailAt(base', vs'[i]) <= AvailAt(base'', vs''[i])
  {
    hide AvailAt;
  }

  /** The same value relative to a base that is later by shift. */
  function Rebased(v: nat, shift: nat): (r: nat)
    requires v <= 0xffff
    ensures r <= v
    ensures v * OSTICKS_PER_SEC <= shift + r * OSTICKS_PER_SEC
    ensures r > 0 ==> shift + r * OSTICKS_PER_SEC < v * OSTICKS_PER_SEC + OSTICKS_PER_SEC
    ensures v * OSTICKS_PER_SEC <= shift ==> r == 0
  {
    if v * OSTICKS_PER_SEC > shift then
      CeilBounds(v * OSTICKS_PER_SEC - shift);
      TicksToSecCeil(v * OSTICKS_PER_SEC - shift)
    else 0
  }

  lemma RebasedAvail(base: int, v: nat, base': int)
    requires base <= base' && v <= 0xffff
    ensures AvailAt(base, v) <= AvailAt(base', Rebased(v, base' - base)) && AvailAt(base, v) <= AvailAt(base', v)
    ensures Prompt(base, v, base', Rebased(v, base' - base))
  {
    hide Rebased, SecToTicks;
  }

  /** A move of the base keeps an availability that is still to come exactly if it is by whole seconds;
      otherwise it rounds up once more, so that a claim may come to block for more than a second too long. */
  lemma RebasedExact(base: int, v: nat, base': int)
    requires base <= base' < AvailAt(base, v) && v <= 0xffff
    ensures AvailAt(base', Rebased(v, base' - base)) == AvailAt(base, v) <==> (base' - base) % OSTICKS_PER_SEC == 0
    ensures base == 0 && v == 60001 && base' == 50000 * OSTICKS_PER_SEC + 2 ==>
              AvailAt(base', Rebased(v, base' - base)) == 60001 * OSTICKS_PER_SEC + 2
  {
    hide SecToTicks, Rebased;
    var k, r := (base' - base) / OSTICKS_PER_SEC, (base' - base) % OSTICKS_PER_SEC;
    assert base' - base == k * OSTICKS_PER_SEC + r;
    var q := Rebased(v, base' - base);
    RebasedAvail(base, v, base');
    assert AvailAt(base', q) - AvailAt(base, v) == r + (q + k - v) * OSTICKS_PER_SEC;
  }

  /** Less than the 100 ms that a busy device waits. */
  const RAMPUP_MAX := 3275

  /** 17 years of uptime. */
  const LIFETIME := 0x2000_0000 * OSTICKS_PER_SEC

  /** The frequency's low bits hold its band. */
  function BandOf(freq: nat): (b: nat)
    ensures b < 8
  {
    freq % 8
  }

  /** The channel map after channel c was disabled; the safety net keeps it from becoming empty. */
  function WithoutChannel(map16: seq<bool>, c: nat): (r: seq<bool>)
    requires |map16| == 16 && c < 16
    ensures |r| == 16 && true in r
  {
    if true in map16[c := false] then map16[c := false]
    else
      var r := seq(16, k => k < 3);
      assert r[0];
      r
  }

  /** Whether setupChannel_dyn succeeds: without a frequency, without bands or in one of the bands. */
  ghost predicate Takes(r: Region, chidx: nat, freq: nat)
    requires |r.bands| == 8
  {
    chidx < 16 && (freq == 0 || r.bands[0].lo == 0 || exists i :: 0 <= i < 8 && InBand(r.bands[i], freq))
  }

  /** f is the frequency with the number of a band that contains it, or of band 0 if the region has no limits. */
  ghost predicate Placed(r: Region, freq: nat, f: nat)
    requires |r.bands| == 8
  {
    f - f % 8 == freq - freq % 8 && if r.bands[0].lo != 0 then InBand(r.bands[BandOf(f)], freq) else BandOf(f) == 0
  }

  /** The band of every channel. */
  function BandsOf(freqs: seq<nat>): (r: seq<nat>)
    ensures |r| == |freqs| && forall c :: 0 <= c < |r| ==> r[c] == BandOf(freqs[c])
  {
    seq(|freqs|, c requires 0 <= c < |freqs| => BandOf(freqs[c]))
  }

  /** What of the state decides what the next event does. */
  datatype State = State(served: seq<bool>, ready: seq<int>, map16: seq<bool>, bands: seq<nat>, rated: bool,
                         nextChnl: bool, txChnl: nat, txend: int, base: int, gens: seq<nat>, sent: seq<Tx>)

  ghost predicate WFState(s: State) {
    |s.served| == |s.ready| == |s.map16| == |s.bands| == |s.gens| == 16 && forall c :: 0 <= c < 16 ==> s.bands[c] < 8
  }

  function Distance(a: nat, b: nat): nat { if a < b then b - a else a - b }

  /** The second loop of syncDatarate_dyn. */
  method Closest(endrs: seq<bool>, dr0: nat) returns (dr: nat)
    requires |endrs| == 16 && true in endrs && dr0 < 16 && !endrs[dr0]
    ensures dr < 16 && endrs[dr]
    ensures forall d :: 0 <= d < 16 && endrs[d] ==> Distance(dr, dr0) <= Distance(d, dr0) && (Distance(d, dr0) == Distance(dr, dr0) ==> dr <= d)
  {
    var n := 1;
    ghost var some :| 0 <= some < 16 && endrs[some];
    while true
      invariant 1 <= n <= 16 && n <= Distance(some, dr0)
      invariant forall d :: 0 <= d < 16 && endrs[d] ==> Distance(d, dr0) >= n
      decreases 16 - n
    {
      if dr0 >= n && endrs[dr0 - n] {
        return dr0 - n;
      }
      if dr0 + n < 16 && endrs[dr0 + n] {
        return dr0 + n;
      }
      n := n + 1;
    }
  }

  // ---------------------------------------------------------------------------------------------
  // Nothing is blocked without a claim

  /** By how many seconds at most the account of a claim from beg on is late: one for rounding up when it
      was made, and one for each time the base has moved since. It moves at most twice until the claim
      has passed. */
  function Slack(base: int, beg: int): nat {
    if base + RAMPUP_MAX < beg then 1 else if base < beg + 32766 * OSTICKS_PER_SEC then 2 else 3
  }

  /** Availability avail, relative to base, is up to a claim that lasts from beg to end. */
  predicate UpTo(base: int, avail: int, beg: int, end: int) { avail < end + Slack(base, beg) * OSTICKS_PER_SEC }

  ghost predicate BandHonest(r: Region, sent: seq<Tx>, base: int, v: nat, b: nat)
    requires |r.bands| == 8 && WFSent(sent) && b < 8
  {
    AvailAt(base, v) <= base || exists i :: 0 <= i < |sent| && sent[i].band == b && UpTo(base, AvailAt(base, v), sent[i].beg, BandEnd(r, sent[i]))
  }

  ghost predicate ChHonest(r: Region, sent: seq<Tx>, gen: nat, base: int, v: nat, c: nat) {
    || AvailAt(base, v) <= base
    || exists i :: 0 <= i < |sent| && sent[i].chnl == c && sent[i].gen == gen && UpTo(base, AvailAt(base, v), sent[i].beg, ChEnd(r, sent[i]))
  }

  /** No channel is blocked for longer than a claim on it since it was set up, and no band for longer than
      a claim on it, if it is adjusted when the base moves or the base has not moved. */
  ghost predicate Honest(r: Region, sent: seq<Tx>, gens: seq<nat>, base: int, bands: seq<nat>, chs: seq<nat>)
    requires |r.bands| == |bands| == 8 && |gens| == |chs| == 16
  {
    && WFSent(sent)
    && (forall b :: 0 <= b < 8 && (Adjusted(r, b) || base == 0) ==> BandHonest(r, sent, base, bands[b], b))
    && (forall c :: 0 <= c < 16 ==> ChHonest(r, sent, gens[c], base, chs[c], c))
  }

  /** The transmissions have started, or do within the ramp-up, and do not claim more than 2^30 ticks. */
  ghost predicate Begun(r: Region, sent: seq<Tx>, clock: int)
    requires |r.bands| == 8
  {
    && WFSent(sent)
    && forall i :: 0 <= i < |sent| ==>
         && sent[i].beg <= clock + RAMPUP_MAX
         && BandEnd(r, sent[i]) <= sent[i].beg + 0x4000_0000 && ChEnd(r, sent[i]) <= sent[i].beg + 0x4000_0000
  }

  /** Moving the base makes the account later by less than a second, and frees what has passed. */
  lemma UpToMoved(base: int, v: nat, base': int, v': nat, beg: int, end: int)
    requires Prompt(base, v, base', v') && base' > base + 32767 * OSTICKS_PER_SEC - RAMPUP_MAX && v <= 0xffff && v' <= 0xffff
    requires beg <= base' + RAMPUP_MAX && end <= beg + 0x4000_0000 && UpTo(base, AvailAt(base, v), beg, end)
    ensures AvailAt(base', v') <= base' || UpTo(base', AvailAt(base', v'), beg, end)
  {
    hide SecToTicks;
  }

  lemma Freed(base: int, v: nat, base': int, v': nat)
    requires Prompt(base, v, base', v') && AvailAt(base, v) <= base' && v' <= 0xffff
    ensures AvailAt(base', v') <= base'
  {
    hide SecToTicks;
  }

  /** One availability is set and the base stays or moves; cell i of the bands and cell j of the channels,
      of which one is none, is accounted for. */
  lemma HonestStep(r: Region, sent: seq<Tx>, gens: seq<nat>, base: int, bs: seq<nat>, cs: seq<nat>, base': int, bs': seq<nat>, cs': seq<nat>, i: nat, j: nat)
    requires |r.bands| == |bs| == |bs'| == 8 && |gens| == |cs| == |cs'| == 16 && 0 <= base && Small(bs) && Small(cs) && Small(bs') && Small(cs')
    requires Honest(r, sent, gens, base, bs, cs)
    requires if base' == base then
               (forall k :: 0 <= k < 8 && k != i ==> bs'[k] == bs[k]) && (forall k :: 0 <= k < 16 && k != j ==> cs'[k] == cs[k])
             else
               && base' > base + 32767 * OSTICKS_PER_SEC - RAMPUP_MAX && Begun(r, sent, base')
               && AdjustedBut(r, base, bs, base', bs', i) && PromptBut(base, cs, base', cs', j)
    requires (i < 8 ==> BandHonest(r, sent, base', bs'[i], i)) && (j < 16 ==> ChHonest(r, sent, gens[j], base', cs'[j], j))
    ensures Honest(r, sent, gens, base', bs', cs')
  {
    hide AvailAt, UpTo, BandEnd, ChEnd, Prompt, Adjusted;
    if base' != base {
      forall b | 0 <= b < 8 && b != i && Adjusted(r, b) ensures BandHonest(r, sent, base', bs'[b], b) {
        BandMoved(r, sent, base, bs[b], base', bs'[b], b);
      }
      forall c | 0 <= c < 16 && c != j ensures ChHonest(r, sent, gens[c], base', cs'[c], c) {
        ChMoved(r, sent, gens[c], base, cs[c], base', cs'[c], c);
      }
    }
  }

  lemma BandMoved(r: Region, sent: seq<Tx>, base: int, v: nat, base': int, v': nat, b: nat)
    requires |r.bands| == 8 && Begun(r, sent, base') && b < 8 && BandHonest(r, sent, base, v, b) && v <= 0xffff && v' <= 0xffff
    requires Prompt(base, v, base', v') && base' > base + 32767 * OSTICKS_PER_SEC - RAMPUP_MAX
    ensures BandHonest(r, sent, base', v', b)
  {
    hide AvailAt, UpTo, BandEnd, ChEnd, Prompt;
    if AvailAt(base, v) <= base' {
      Freed(base, v, base', v');
    } else {
      var i :| 0 <= i < |sent| && sent[i].band == b && UpTo(base, AvailAt(base, v), sent[i].beg, BandEnd(r, sent[i]));
      UpToMoved(base, v, base', v', sent[i].beg, BandEnd(r, sent[i]));
    }
  }

  lemma ChMoved(r: Region, sent: seq<Tx>, gen: nat, base: int, v: nat, base': int, v': nat, c: nat)
    requires |r.bands| == 8 && Begun(r, sent, base') && ChHonest(r, sent, gen, base, v, c) && v <= 0xffff && v' <= 0xffff
    requires Prompt(base, v, base', v') && base' > base + 32767 * OSTICKS_PER_SEC - RAMPUP_MAX
    ensures ChHonest(r, sent, gen, base', v', c)
  {
    hide AvailAt, UpTo, BandEnd, ChEnd, Prompt;
    if AvailAt(base, v) <= base' {
      Freed(base, v, base', v');
    } else {
      var i :| 0 <= i < |sent| && sent[i].chnl == c && sent[i].gen == gen && UpTo(base, AvailAt(base, v), sent[i].beg, ChEnd(r, sent[i]));
      UpToMoved(base, v, base', v', sent[i].beg, ChEnd(r, sent[i]));
    }
  }

  /** One more transmission only adds claims. */
  lemma HonestMore(r: Region, sent: seq<Tx>, gens: seq<nat>, base: int, bs: seq<nat>, cs: seq<nat>, t: Tx)
    requires |r.bands| == |bs| == 8 && |gens| == |cs| == 16 && Honest(r, sent, gens, base, bs, cs) && t.band < 8 && t.chnl < 16
    ensures Honest(r, sent + [t], gens, base, bs, cs)
  {
    hide AvailAt, UpTo, BandEnd, ChEnd, Adjusted;
    var s := sent + [t];
    assert forall i :: 0 <= i < |sent| ==> s[i] == sent[i];
    forall b | 0 <= b < 8 && (Adjusted(r, b) || base == 0) ensures BandHonest(r, s, base, bs[b], b) {
      assert BandHonest(r, sent, base, bs[b], b);
    }
    forall c | 0 <= c < 16 ensures ChHonest(r, s, gens[c], base, cs[c], c) {
      assert ChHonest(r, sent, gens[c], base, cs[c], c);
    }
  }

  /** A transmission accounts for what is booked for it. */
  lemma HonestNew(r: Region, sent: seq<Tx>, t: Tx, base: int, v: nat)
    requires |r.bands| == 8 && WFSent(sent) && t.band < 8 && t.chnl < 16 && v <= 0xffff
    ensures AvailAt(base, v) < (if BandEnd(r, t) < base then base else BandEnd(r, t)) + OSTICKS_PER_SEC ==>
              BandHonest(r, sent + [t], base, v, t.band)
    ensures AvailAt(base, v) < (if ChEnd(r, t) < base then base else ChEnd(r, t)) + OSTICKS_PER_SEC ==>
              ChHonest(r, sent + [t], t.gen, base, v, t.chnl)
  {
    hide BandEnd, ChEnd, SecToTicks;
    assert (sent + [t])[|sent|] == t;
  }

  lemma BegunMore(r: Region, sent: seq<Tx>, clock: int, t: Tx)
    requires |r.bands| == 8 && Begun(r, sent, clock) && t.band < 8 && t.chnl < 16 && t.beg <= clock + RAMPUP_MAX
    requires BandEnd(r, t) <= t.beg + 0x4000_0000 && ChEnd(r, t) <= t.beg + 0x4000_0000
    ensures WFSent(sent) && Begun(r, sent + [t], clock)
  {
    hide BandEnd, ChEnd;
  }

  /** The availabilities of the band and the channel are set one after the other. */
  lemma HonestSend(r: Region, sent: seq<Tx>, gens: seq<nat>, now: int, base: int, bs: seq<nat>, cs: seq<nat>,
                   base1: int, bs1: seq<nat>, cs1: seq<nat>, base2: int, bs2: seq<nat>, cs2: seq<nat>, t: Tx)
    requires |r.bands| == |bs| == 8 && |gens| == |cs| == 16 && 0 <= base <= base1 <= now && t.band < 8 && t.chnl < 16 && t.gen == gens[t.chnl]
    requires Small(bs) && Small(cs) && Small(bs1) && Small(cs1) && Small(bs2) && Small(cs2)
    requires Honest(r, sent, gens, base, bs, cs) && Begun(r, sent, now) && t.beg <= now + RAMPUP_MAX
    requires BandEnd(r, t) <= t.beg + 0x4000_0000 && ChEnd(r, t) <= t.beg + 0x4000_0000
    requires AvailSet(r, now, BandEnd(r, t), base, bs, cs, base1, bs1, cs1, t.band, 16)
    requires AvailSet(r, now, ChEnd(r, t), base1, bs1, cs1, base2, bs2, cs2, 8, t.chnl)
    ensures Honest(r, sent + [t], gens, base2, bs2, cs2) && Begun(r, sent + [t], now)
  {
    hide Honest, AvailAt, BandEnd, ChEnd, BandHonest, ChHonest, Begun, AdjustedBut, PromptBut;
    HonestMore(r, sent, gens, base, bs, cs, t);
    BegunMore(r, sent, now, t);
    HonestNew(r, sent, t, base1, bs1[t.band]);
    HonestStep(r, sent + [t], gens, base, bs, cs, base1, bs1, cs1, t.band, 16);
    HonestNew(r, sent, t, base2, cs2[t.chnl]);
    HonestStep(r, sent + [t], gens, base1, bs1, cs1, base2, bs2, cs2, 8, t.chnl);
  }

  lemma WithinStays(r: Region, now: int, base: int, bs: seq<nat>, cs: seq<nat>,
                    base1: int, bs1: seq<nat>, cs1: seq<nat>, base2: int, bs2: seq<nat>, cs2: seq<nat>, t: Tx)
    requires |r.bands| == 8 && t.band < 8 && t.chnl < 16
    requires AvailSet(r, now, BandEnd(r, t), base, bs, cs, base1, bs1, cs1, t.band, 16)
    requires AvailSet(r, now, ChEnd(r, t), base1, bs1, cs1, base2, bs2, cs2, 8, t.chnl)
    ensures |bs| == |bs2| == 8 && |cs| == |cs2| == 16
    ensures WithinBase(r, t, base) ==> base2 == base && bs2 == bs[t.band := bs2[t.band]] && cs2 == cs[t.chnl := cs2[t.chnl]]
  {
    hide AvailAt, BandEnd, ChEnd, AdjustedBut, PromptBut;
  }

  /** The base moves for the claim on the channel, though it did not for the claim on the band. */
  ghost predicate MovesLate(r: Region, t: Tx, base: int)
    requires |r.bands| == 8 && t.band < 8
  {
    BandEnd(r, t) - base <= 0xffff * OSTICKS_PER_SEC < ChEnd(r, t) - base
  }

  /** How late a transmission leaves its band and its channel: each less than a second after the claim,
      except for the band if the base moves after it was set. Then it is less than two seconds if the band
      is adjusted, and more than nine hours if it is not. */
  ghost predicate Punctual(r: Region, t: Tx, base: int, base': int, bs: seq<nat>, cs: seq<nat>) {
    && |r.bands| == |bs| == 8 && |cs| == 16 && t.band < 8 && t.chnl < 16
    && AvailAt(base', cs[t.chnl]) < Later(base', ChEnd(r, t)) + OSTICKS_PER_SEC
    && (!MovesLate(r, t, base) ==> AvailAt(base', bs[t.band]) < Later(base', BandEnd(r, t)) + OSTICKS_PER_SEC)
    && (MovesLate(r, t, base) && Adjusted(r, t.band) ==> AvailAt(base', bs[t.band]) < Later(base', BandEnd(r, t)) + 2 * OSTICKS_PER_SEC)
    && (MovesLate(r, t, base) && !Adjusted(r, t.band) ==> AvailAt(base', bs[t.band]) > BandEnd(r, t) + 9 * 3600 * OSTICKS_PER_SEC)
  }

  lemma PunctualSend(r: Region, now: int, base: int, bs: seq<nat>, cs: seq<nat>,
                     base1: int, bs1: seq<nat>, cs1: seq<nat>, base2: int, bs2: seq<nat>, cs2: seq<nat>, t: Tx)
    requires |r.bands| == |bs| == 8 && |cs| == 16 && 0 <= base <= base1 <= now && t.band < 8 && t.chnl < 16 && t.beg <= now + RAMPUP_MAX
    requires Small(bs1) && Small(bs2) && BandEnd(r, t) <= t.beg + 0x4000_0000 && ChEnd(r, t) <= t.beg + 0x4000_0000
    requires AvailSet(r, now, BandEnd(r, t), base, bs, cs, base1, bs1, cs1, t.band, 16)
    requires AvailSet(r, now, ChEnd(r, t), base1, bs1, cs1, base2, bs2, cs2, 8, t.chnl)
    ensures Punctual(r, t, base, base2, bs2, cs2)
  {
    hide SecToTicks, BandEnd, ChEnd, Adjusted;
  }

  lemma HonestSetup(r: Region, sent: seq<Tx>, gens: seq<nat>, base: int, bands: seq<nat>, chs: seq<nat>, c: nat)
    requires |r.bands| == |bands| == 8 && |gens| == |chs| == 16 && c < 16 && Honest(r, sent, gens, base, bands, chs)
    ensures Honest(r, sent, gens[c := gens[c] + 1], base, bands, chs[c := 0])
  {
    hide BandHonest, Adjusted;
    AvailZero(base);
  }

  class DutyCycle {
    const region: Region
    const rampup: nat           // TX_RAMPUP
    var baseAvail: int
    var globalAvail: nat
    const bandAvail: array<nat>
    const chAvail: array<nat>
    const chUpFreq: array<nat>
    const chDrMap: array<seq<bool>>
    var channelMap: seq<bool>
    var datarate: nat
    var refChnl: nat
    var txChnl: nat
    var txend: int
    var nextChnl: bool          // OP_NEXTCHNL
    var noDC: bool
    ghost var clock: int        // no reading of the clock so far was later
    ghost var sent: seq<Tx>
    ghost var gens: seq<nat>    // how often each channel has been set up
    ghost var picked: bool      // the current channel was found available, at pickTime
    ghost var pickTime: int

    /** The state after a reset, before the default channels are set up. */
    constructor (region: Region, rampup: nat, datarate: nat)
      requires WFRegion(region) && rampup <= RAMPUP_MAX && datarate < 16
      ensures Valid() && this.region == region && this.rampup == rampup && this.datarate == datarate
      ensures baseAvail == globalAvail == 0 && (forall b :: 0 <= b < 8 ==> bandAvail[b] == 0)
      ensures forall c :: 0 <= c < 16 ==> chAvail[c] == chUpFreq[c] == 0 && chDrMap[c] == seq(16, _ => false)
      ensures clock == 0 && sent == [] && !picked && !noDC && !nextChnl && channelMap == seq(16, _ => false)
      ensures fresh(bandAvail) && fresh(chAvail) && fresh(chUpFreq) && fresh(chDrMap)
    {
      hide Spaced, Booked, Ledger, Honest;
      this.region, this.rampup, this.datarate := region, rampup, datarate;
      baseAvail, globalAvail, noDC, nextChnl := 0, 0, false, false;
      bandAvail, chAvail, chUpFreq := new nat[8](_ => 0), new nat[16](_ => 0), new nat[16](_ => 0);
      chDrMap := new seq<bool>[16](_ => seq(16, _ => false));
      channelMap, refChnl, txChnl, txend := seq(16, _ => false), 0, 0, 0;
      clock, sent, gens, picked, pickTime := 0, [], seq(16, _ => 0), false, 0;
      new;
      NothingSent(region, gens, baseAvail, bandAvail[..], chAvail[..]);
      AvailZero(0);
    }

    ghost predicate Shape()
      reads this, bandAvail, chAvail, chUpFreq, chDrMap
    {
      && WFRegion(region) && rampup <= RAMPUP_MAX && bandAvail.Length == 8 && chAvail.Length == 16 && chUpFreq.Length == 16 && chDrMap.Length == 16
      && bandAvail != chAvail && bandAvail != chUpFreq && chAvail != chUpFreq
      && bandAvail as object != chDrMap as object && chAvail as object != chDrMap as object && chUpFreq as object != chDrMap as object
      && (forall c :: 0 <= c < 16 ==> |chDrMap[c]| == 16) && |channelMap| == 16 && datarate < 16 && txChnl < 16 && |gens| == 16
      && Small(bandAvail[..]) && Small(chAvail[..]) && globalAvail <= 0xffff
      && 0 <= baseAvail <= clock < LIFETIME
    }

    ghost predicate Valid()
      reads this, bandAvail, chAvail, chUpFreq, chDrMap
    {
      && Shape() && Ledger(region, sent, gens, baseAvail, bandAvail[..], chAvail[..])
      && Begun(region, sent, clock) && Honest(region, sent, gens, baseAvail, bandAvail[..], chAvail[..])
      && (picked ==> Available(txChnl, pickTime) && pickTime <= clock + rampup)
    }

    /** Duty cycles are on and have been observed so far, and the next transmission either is preceded by
        a check or is on a channel that was checked when it was picked. */
    ghost predicate Guarded()
      reads this, bandAvail, chAvail, chUpFreq, chDrMap
    {
      Valid() && !noDC && AllChecked(sent) && (nextChnl || picked)
    }

    /** Channel c and its band are both available at time t. */
    ghost predicate Available(c: nat, t: int)
      requires Shape() && c < 16
      reads this, bandAvail, chAvail, chUpFreq, chDrMap
    {
      AvailAt(baseAvail, bandAvail[BandOf(chUpFreq[c])]) <= t && AvailAt(baseAvail, chAvail[c]) <= t
    }

    /** adjAvail, for one cell of an array. */
    method AdjAvail(a: array<nat>, i: nat, base: int)
      requires i < a.Length && a[i] <= 0xffff && base >= baseAvail
      modifies a
      ensures a[..] == old(a[..])[i := Rebased(old(a[i]), base - baseAvail)]
    {
      var t := AvailAt(baseAvail, a[i]);
      a[i] := if t > base then TicksToSecCeil(t - base) else 0;
    }

    /** The channels in the re-basing loops of setAvail. */
    method RebaseChannels(base: int)
      requires Shape() && baseAvail <= base
      modifies chAvail
      ensures forall k :: 0 <= k < 16 ==> chAvail[k] == Rebased(old(chAvail[k]), base - baseAvail)
    {
      hide Rebased, WFRegion;
      ghost var cs := chAvail[..];
      var c := 0;
      while c < 16
        invariant 0 <= c <= 16 && chAvail[c..] == cs[c..]
        invariant forall k :: 0 <= k < c ==> chAvail[k] == Rebased(cs[k], base - baseAvail)
      {
        AdjAvail(chAvail, c, base);
        c := c + 1;
      }
    }

    /** The bands in the re-basing loops of setAvail, up to the first without limits. */
    method RebaseBands(base: int) returns (b: nat)
      requires Shape() && baseAvail <= base
      modifies bandAvail
      ensures b <= 8 && (forall k :: 0 <= k < b ==> region.bands[k].lo != 0) && (b < 8 ==> region.bands[b].lo == 0)
      ensures forall k :: 0 <= k < 8 ==> bandAvail[k] == if k < b then Rebased(old(bandAvail[k]), base - baseAvail) else old(bandAvail[k])
    {
      hide Rebased;
      ghost var bs := bandAvail[..];
      b := 0;
      while b < 8 && region.bands[b].lo != 0
        invariant 0 <= b <= 8 && bandAvail[b..] == bs[b..]
        invariant forall k :: 0 <= k < b ==> bandAvail[k] == Rebased(bs[k], base - baseAvail) && region.bands[k].lo != 0
      {
        AdjAvail(bandAvail, b, base);
        b := b + 1;
      }
      assert forall k :: b <= k < 8 ==> bandAvail[k] == bandAvail[b..][k - b] == bs[b..][k - b] == bs[k];
    }

    /** The re-basing loops of setAvail: every availability is expressed relative to the new base, except
        those of bands from the first without limits on. */
    method Rebase(base: int)
      requires Shape() && baseAvail <= base == clock
      modifies bandAvail, chAvail, this`baseAvail, this`globalAvail
      ensures Shape() && baseAvail == base
      ensures LaterBut(old(baseAvail), old(bandAvail[..]), baseAvail, bandAvail[..], 8)
      ensures LaterBut(old(baseAvail), old(chAvail[..]), baseAvail, chAvail[..], 16)
      ensures AvailAt(old(baseAvail), old(globalAvail)) <= AvailAt(baseAvail, globalAvail)
      ensures PromptBut(old(baseAvail), old(chAvail[..]), baseAvail, chAvail[..], 16)
      ensures AdjustedBut(region, old(baseAvail), old(bandAvail[..]), baseAvail, bandAvail[..], 8)
    {
      hide Rebased, AvailAt, Prompt;
      ghost var old0, bs, cs := baseAvail, bandAvail[..], chAvail[..];
      RebasedAvail(old0, globalAvail, base);
      globalAvail := Rebased(globalAvail, base - baseAvail);
      RebaseChannels(base);
      var b := RebaseBands(base);
      baseAvail := base;
      forall k | 0 <= k < 16 ensures AvailAt(old0, cs[k]) <= AvailAt(base, chAvail[k]) && Prompt(old0, cs[k], base, chAvail[k]) {
        RebasedAvail(old0, cs[k], base);
      }
      assert forall k :: 0 <= k < 8 ==> (Adjusted(region, k) <==> k < b);
      forall k | 0 <= k < 8 ensures AvailAt(old0, bs[k]) <= AvailAt(base, bandAvail[k]) && (k < b ==> Prompt(old0, bs[k], base, bandAvail[k])) {
        RebasedAvail(old0, bs[k], base);
      }
    }

    /** setAvail for band or channel availability i in a: not before t and less than a second late; no
        other availability gets earlier, even if the base moves. now is what os_getXTime reads. */
    method SetAvail(a: array<nat>, i: nat, t: int, now: int)
      requires Shape() && a in {bandAvail, chAvail} && i < a.Length && now == clock
      requires t - now <= 0xffff * OSTICKS_PER_SEC && (t >= now - OSTICKS_PER_SEC || t <= baseAvail)
      modifies bandAvail, chAvail, this`baseAvail, this`globalAvail
      ensures Shape() && old(baseAvail) <= baseAvail && (baseAvail == old(baseAvail) || baseAvail == now)
      ensures t <= AvailAt(baseAvail, a[i]) < (if t < baseAvail then baseAvail else t) + OSTICKS_PER_SEC
      ensures LaterBut(old(baseAvail), old(bandAvail[..]), baseAvail, bandAvail[..], if a == bandAvail then i else 8)
      ensures LaterBut(old(baseAvail), old(chAvail[..]), baseAvail, chAvail[..], if a == chAvail then i else 16)
      ensures t <= old(baseAvail) ==> a[i] == 0
      ensures t - old(baseAvail) <= 0xffff * OSTICKS_PER_SEC ==> globalAvail == old(globalAvail)
      ensures AvailSet(region, now, t, old(baseAvail), old(bandAvail[..]), old(chAvail[..]), baseAvail, bandAvail[..], chAvail[..],
                       if a == bandAvail then i else 8, if a == chAvail then i else 16)
    {
      hide TicksToSecCeil, AvailAt, Rebased, Prompt, Adjusted;
      var base, t' := baseAvail, t;
      if base > t' {
        t' := base;
      }
      CeilBounds(t' - base);
      var v := TicksToSecCeil(t' - base);
      if v > 0xffff {
        base := now;
        CeilBounds(t' - base);
        v := TicksToSecCeil(t' - base);
        assert v <= 0xffff;
        Rebase(base);
      }
      a[i] := v;
    }

    /** disableChannel_dyn */
    method DisableChannel(chidx: nat)
      requires Valid() && chidx < 16
      modifies this`channelMap, this`picked, chUpFreq, chDrMap
      ensures Valid() && chUpFreq[chidx] == 0 && true !in chDrMap[chidx]
      ensures channelMap == WithoutChannel(old(channelMap), chidx)
      ensures forall c :: 0 <= c < 16 && c != chidx ==> chUpFreq[c] == old(chUpFreq[c]) && chDrMap[c] == old(chDrMap[c])
      ensures chidx != txChnl ==> picked == old(picked)
      ensures chidx == txChnl ==> (picked <==> old(picked) && AvailAt(baseAvail, bandAvail[BandOf(0)]) <= pickTime)
    {
      hide Ledger, Honest, Begun, AvailAt, BandOf, Small, WFRegion;
      chUpFreq[chidx] := 0;
      chDrMap[chidx] := seq(16, _ => false);
      channelMap := channelMap[chidx := false];
      if true !in channelMap {
        channelMap := seq(16, c => c < 3);
      }
      picked := picked && Available(txChnl, pickTime);
    }

    /** setupChannel_dyn; without data rates of its own the channel gets all that use 125 kHz. */
    method SetupChannel(chidx: nat, freq: nat, drmap: seq<bool>, now: int) returns (ok: bool)
      requires Valid() && |drmap| == 16 && clock <= now < LIFETIME
      modifies this`clock, this`channelMap, this`baseAvail, this`globalAvail, this`gens, this`picked, bandAvail, chAvail, chUpFreq, chDrMap
      ensures Valid() && clock == now && baseAvail == old(baseAvail) && globalAvail == old(globalAvail) && bandAvail[..] == old(bandAvail[..])
      ensures ok <==> Takes(region, chidx, freq)
      ensures ok && freq != 0 ==> chAvail[..] == old(chAvail[..])[chidx := 0] && channelMap == old(channelMap)[chidx := true]
      ensures !ok || freq == 0 ==> chAvail[..] == old(chAvail[..])
      ensures ok && freq == 0 ==> chUpFreq[chidx] == 0 && true !in chDrMap[chidx] && channelMap == WithoutChannel(old(channelMap), chidx)
      ensures !ok ==> channelMap == old(channelMap)
      ensures gens == if ok && freq != 0 then old(gens)[chidx := old(gens)[chidx] + 1] else old(gens)
      ensures ok && freq != 0 ==>
                chDrMap[chidx] == (if true in drmap then drmap else region.drs125) && Placed(region, freq, chUpFreq[chidx])
      ensures forall c :: 0 <= c < 16 && (c != chidx || !ok) ==> chUpFreq[c] == old(chUpFreq[c]) && chDrMap[c] == old(chDrMap[c])
      ensures chidx != txChnl || !ok ==> picked == old(picked)
      ensures ok && freq != 0 && chidx == txChnl ==>
                (picked <==> old(picked) && AvailAt(baseAvail, bandAvail[BandOf(chUpFreq[chidx])]) <= pickTime && baseAvail <= pickTime)
      ensures ok && freq == 0 && chidx == txChnl ==> (picked <==> old(picked) && AvailAt(baseAvail, bandAvail[BandOf(0)]) <= pickTime)
    {
      hide Ledger, Honest, AvailAt, Small;
      clock := now;
      if chidx >= 16 {
        return false;
      }
      if freq == 0 {
        DisableChannel(chidx);
        return true;
      }
      var f := freq - freq % 8;
      if region.bands[0].lo != 0 {
        var i := 0;
        while i < 8 && !InBand(region.bands[i], freq)
          invariant 0 <= i <= 8 && forall k :: 0 <= k < i ==> !InBand(region.bands[k], freq)
        {
          i := i + 1;
        }
        if i == 8 {
          return false;
        }
        f := f + i;
      }
      Enable(chidx, f, if true in drmap then drmap else region.drs125, now);
      return true;
    }

    /** The last part of setupChannel_dyn: the channel is enabled, and available at once. */
    method Enable(chidx: nat, freq: nat, drmap: seq<bool>, now: int)
      requires Valid() && |drmap| == 16 && chidx < 16 && now == clock
      modifies this`channelMap, this`baseAvail, this`globalAvail, this`gens, this`picked, bandAvail, chAvail, chUpFreq, chDrMap
      ensures Valid() && baseAvail == old(baseAvail) && globalAvail == old(globalAvail) && bandAvail[..] == old(bandAvail[..])
      ensures chAvail[..] == old(chAvail[..])[chidx := 0] && channelMap == old(channelMap)[chidx := true]
      ensures gens == old(gens)[chidx := old(gens)[chidx] + 1]
      ensures chUpFreq[..] == old(chUpFreq[..])[chidx := freq] && chDrMap[..] == old(chDrMap[..])[chidx := drmap]
      ensures chidx != txChnl ==> picked == old(picked)
      ensures chidx == txChnl ==>
                (picked <==> old(picked) && AvailAt(baseAvail, bandAvail[BandOf(freq)]) <= pickTime && baseAvail <= pickTime)
    {
      hide Ledger, Honest, Begun, AvailAt, Small, LaterBut, AdjustedBut, PromptBut;
      ghost var bs, cs := bandAvail[..], chAvail[..];
      SetAvail(chAvail, chidx, 0, now);
      assert Ledger(region, sent, gens[chidx := gens[chidx] + 1], baseAvail, bs, chAvail[..]) by {
        LedgerSetup(region, sent, gens, baseAvail, bs, cs, chidx);
      }
      HonestSetup(region, sent, gens, baseAvail, bs, cs, chidx);
      AvailZero(baseAvail);
      gens := gens[chidx := gens[chidx] + 1];
      chUpFreq[chidx] := freq;
      chDrMap[chidx] := drmap;
      channelMap := channelMap[chidx := true];
      assert bandAvail[..] == bs && chAvail[..] == cs[chidx := 0];
      picked := picked && Available(txChnl, pickTime);
    }

    /** updateTx_dyn: txbeg is the low 32 bits of the start, beg; now is what os_getXTime reads. */
    method UpdateTx(txbeg: int, airtime: nat, now: int, ghost beg: int)
      requires Valid() && now == clock && S4(beg) == txbeg && now - OSTICKS_PER_SEC <= beg <= now + RAMPUP_MAX
      requires airtime * 1000 <= 0x4000_0000 && (picked ==> pickTime <= beg)
      modifies this`baseAvail, this`globalAvail, this`sent, this`picked, bandAvail, chAvail
      ensures Valid() && !picked
      ensures sent == old(sent) + [Tx(beg, airtime, BandOf(chUpFreq[txChnl]), txChnl, gens[txChnl], old(picked))]
      ensures BandEnd(region, sent[|sent| - 1]) <= AvailAt(baseAvail, bandAvail[BandOf(chUpFreq[txChnl])])
      ensures ChEnd(region, sent[|sent| - 1]) <= AvailAt(baseAvail, chAvail[txChnl])
      ensures WithinBase(region, sent[|sent| - 1], old(baseAvail)) ==>
                && baseAvail == old(baseAvail)
                && bandAvail[..] == old(bandAvail[..])[BandOf(chUpFreq[txChnl]) := bandAvail[BandOf(chUpFreq[txChnl])]]
                && chAvail[..] == old(chAvail[..])[txChnl := chAvail[txChnl]]
      ensures Punctual(region, sent[|sent| - 1], old(baseAvail), baseAvail, bandAvail[..], chAvail[..])
    {
      hide Ledger, Honest, AvailAt, Small, LaterBut, BandOf, BandEnd, ChEnd, Time2XTime, S4, AvailSet, Punctual, Begun, WithinBase;
      ghost var base, bs, cs := baseAvail, bandAvail[..], chAvail[..];
      var b := BandOf(chUpFreq[txChnl]);
      ghost var tx := Tx(beg, airtime, b, txChnl, gens[txChnl], picked);
      EndTimes(region, tx, now);
      SetAvail(bandAvail, b, Time2XTime(S4(txbeg + airtime * region.bands[b].cap), now), now);
      ghost var base1, bs1, cs1 := baseAvail, bandAvail[..], chAvail[..];
      SetAvail(chAvail, txChnl, Time2XTime(S4(txbeg + airtime * region.chTxCap), now), now);
      LaterTrans(base, bs, base1, bs1, baseAvail, bandAvail[..], b, 8);
      LaterTrans(base, cs, base1, cs1, baseAvail, chAvail[..], 16, txChnl);
      LedgerSend(region, sent, gens, base, bs, cs, baseAvail, bandAvail[..], chAvail[..], tx);
      HonestSend(region, sent, gens, now, base, bs, cs, base1, bs1, cs1, baseAvail, bandAvail[..], chAvail[..], tx);
      WithinStays(region, now, base, bs, cs, base1, bs1, cs1, baseAvail, bandAvail[..], chAvail[..], tx);
      PunctualSend(region, now, base, bs, cs, base1, bs1, cs1, baseAvail, bandAvail[..], chAvail[..], tx);
      sent := sent + [tx];
      picked := false;
    }

    /** selectRandomChnl: map has nbits bits set. Which channel is drawn is up to the random numbers;
        draws of the reference channel are repeated if there is another. */
    method SelectRandomChnl(map16: seq<bool>, nbits: nat) returns (chnl: nat)
      requires |map16| == 16 && nbits == CountSet(map16, 16) > 0
      modifies this`refChnl
      ensures chnl < 16 && map16[chnl] && refChnl == chnl
      ensures nbits > 1 ==> chnl != old(refChnl)
    {
      SomeNth(map16, refChnl);
      var k: nat :| k < nbits && (nbits > 1 ==> !IsNth(map16, k, refChnl));
      chnl := 0;
      while chnl < 16
        invariant 0 <= chnl <= 16 && k < CountSet(map16, 16) - CountSet(map16, chnl) && nbits == CountSet(map16, 16)
        invariant refChnl == old(refChnl) && (nbits > 1 ==> !IsNth(map16, CountSet(map16, chnl) + k, refChnl))
      {
        if map16[chnl] {
          if k == 0 {
            refChnl := chnl;
            return;
          }
          k := k - 1;
        }
        chnl := chnl + 1;
      }
      assert false;
    }

    /** The data rates of the enabled channels. */
    ghost function EnabledDrs(): set<nat>
      requires Shape()
      reads this, bandAvail, chAvail, chUpFreq, chDrMap
    {
      set dr | 0 <= dr < 16 && HasRate(channelMap, chDrMap[..], dr)
    }

    /** The first loop of syncDatarate_dyn. */
    method Rates() returns (endrs: seq<bool>)
      requires Shape()
      ensures |endrs| == 16 && forall d :: 0 <= d < 16 ==> (endrs[d] <==> d in EnabledDrs())
    {
      hide Small, WFRegion, AvailAt;
      endrs := seq(16, _ => false);
      var c := 0;
      while c < 16
        invariant 0 <= c <= 16 && |endrs| == 16
        invariant forall d :: 0 <= d < 16 ==> (endrs[d] <==> exists k :: 0 <= k < c && channelMap[k] && chDrMap[k][d])
      {
        if channelMap[c] {
          var m := chDrMap[c];
          endrs := seq(16, d requires 0 <= d < 16 => endrs[d] || m[d]);
        }
        c := c + 1;
      }
    }

    /** syncDatarate_dyn: the closest data rate of an enabled channel, the slower of two. */
    method SyncDatarate()
      requires Valid() && EnabledDrs() != {}
      modifies this`datarate, this`nextChnl
      ensures Valid() && datarate in EnabledDrs()
      ensures forall d :: d in EnabledDrs() ==> Distance(datarate, old(datarate)) <= Distance(d, old(datarate))
      ensures forall d :: d in EnabledDrs() && Distance(d, old(datarate)) == Distance(datarate, old(datarate)) ==> datarate <= d
      ensures nextChnl == (old(nextChnl) || datarate != old(datarate))
    {
      hide Ledger, Honest, Begun, Small, WFRegion, AvailAt, HasRate;
      var endrs := Rates();
      ghost var some :| some in EnabledDrs();
      assert endrs[some];
      if !endrs[datarate] {
        datarate := Closest(endrs, datarate);
        nextChnl := true;
      }
    }

    /** Channel c is enabled for the current data rate. */
    ghost predicate Serves(c: nat)
      requires Shape() && c < 16
      reads this, bandAvail, chAvail, chUpFreq, chDrMap
    {
      channelMap[c] && chDrMap[c][datarate]
    }

    /** When channel c and, unless duty cycles are off, its band are available. */
    ghost function ReadyAt(c: nat): int
      requires Shape() && c < 16
      reads this, bandAvail, chAvail, chUpFreq, chDrMap
    {
      var b, a := AvailAt(baseAvail, bandAvail[BandOf(chUpFreq[c])]), AvailAt(baseAvail, chAvail[c]);
      if b > a && !noDC then b else a
    }

    /** The data path of engineUpdate, without a duty cycle imposed by the network: x is what the clock
        reads, airtime what the pending frame takes. */
    method Engine(x: int, airtime: nat, cca: bool, clear: seq<bool>, later: int) returns (tx: bool, ghost checked: bool)
      requires Valid() && clock <= x < LIFETIME && airtime * 1000 <= 0x4000_0000
      requires |clear| == 16 && x <= later <= x + 0x1000_0000 && (nextChnl ==> EnabledDrs() != {})
      modifies this`clock, this`refChnl, this`txChnl, this`nextChnl, this`datarate, this`picked, this`pickTime, this`txend
      modifies this`baseAvail, this`globalAvail, this`sent, bandAvail, chAvail
      ensures Valid() && clock == x
      ensures !tx ==> sent == old(sent)
      ensures tx ==> nextChnl && sent == old(sent) + [Tx(x + rampup, airtime, BandOf(chUpFreq[txChnl]), txChnl, gens[txChnl], checked)]
      ensures tx ==> BandEnd(region, sent[|sent| - 1]) <= AvailAt(baseAvail, bandAvail[BandOf(chUpFreq[txChnl])])
      ensures tx && WithinBase(region, sent[|sent| - 1], old(baseAvail)) ==>
                && baseAvail == old(baseAvail)
                && bandAvail[..] == old(bandAvail[..])[BandOf(chUpFreq[txChnl]) := bandAvail[BandOf(chUpFreq[txChnl])]]
      ensures !tx ==> picked == old(picked) && txChnl == old(txChnl) && pickTime == old(pickTime) && nextChnl == old(nextChnl)
      ensures !tx ==> baseAvail == old(baseAvail) && bandAvail[..] == old(bandAvail[..]) && chAvail[..] == old(chAvail[..])
      ensures !tx ==> Ready() == old(Ready())
      ensures old(datarate in EnabledDrs()) || !old(nextChnl) ==> datarate == old(datarate) && Served() == old(Served())
      ensures old(nextChnl) ==> nextChnl && tx == CanSend(Served(), old(Ready()), noDC, x + rampup, cca, clear)
      ensures old(nextChnl) && tx ==>
                && Usable(Served(), old(Ready()), noDC, x + rampup, cca, clear, txChnl)
                && channelMap[txChnl] && txend == S4(x + rampup) && (!noDC ==> checked)
      ensures old(nextChnl) && !tx ==> Again(Served(), Ready(), noDC, x + rampup, clear, later, txend)
      ensures !old(nextChnl) ==> tx == (S4(old(txend) - S4(x + rampup)) <= 0) && txend == old(txend)
      ensures !old(nextChnl) && tx ==> checked == old(picked) && txChnl == old(txChnl)
    {
      hide Ledger, Honest, AvailAt, S4, BandOf, BandEnd, ReadyBy, ServedBy, HasRate, Usable, CanSend, Again, WFRegion, Small, WithinBase;
      clock := x;
      var now := S4(x);
      S4Plus(x, rampup);
      if nextChnl {
        Pick(x, cca, clear, later);
      }
      ghost var sv := Served();
      if S4(txend - S4(now + rampup)) <= 0 {
        checked := Send(x, airtime);
        assert Served() == sv;
        return true, checked;
      }
      return false, false;
    }

    /** The choice of a channel in engineUpdate: the start of the transmission has come exactly if some
        channel may be used. */
    method Pick(x: int, cca: bool, clear: seq<bool>, later: int)
      requires Valid() && clock == x && nextChnl && EnabledDrs() != {} && |clear| == 16 && x <= later <= x + 0x1000_0000
      modifies this`refChnl, this`txChnl, this`nextChnl, this`datarate, this`picked, this`pickTime, this`txend
      ensures Valid() && Ready() == old(Ready())
      ensures old(datarate in EnabledDrs()) ==> datarate == old(datarate) && Served() == old(Served())
      ensures CanSend(Served(), Ready(), noDC, x + rampup, cca, clear) <==> S4(txend - S4(x + rampup)) <= 0
      ensures S4(txend - S4(x + rampup)) <= 0 ==>
                && Usable(Served(), Ready(), noDC, x + rampup, cca, clear, txChnl)
                && channelMap[txChnl] && txend == S4(x + rampup) && (!noDC ==> picked)
      ensures S4(txend - S4(x + rampup)) > 0 ==>
                && picked == old(picked) && txChnl == old(txChnl) && pickTime == old(pickTime) && nextChnl
                && Again(Served(), Ready(), noDC, x + rampup, clear, later, txend)
    {
      hide Ledger, Honest, Begun, AvailAt, S4, Earliest, BandOf, HasRate, Usable, CanSend, Again, WFRegion, Small, ReadyBy, ServedBy;
      S4Plus(x, rampup);
      ghost var sv, rd := Served(), Ready();
      ghost var go;
      txend, go := NextTx(S4(S4(x) + rampup), x, x + rampup, cca, clear, later);
      SameTime(txend);
      assert Ready() == rd && (datarate == old(datarate) ==> Served() == sv);
      if go {
        UsableChecked(txChnl, x + rampup, cca, clear);
      }
    }

    /** The transmission itself: it starts after the ramp-up. */
    method Send(x: int, airtime: nat) returns (ghost checked: bool)
      requires Valid() && clock == x && airtime * 1000 <= 0x4000_0000
      modifies this`nextChnl, this`picked, this`baseAvail, this`globalAvail, this`sent, bandAvail, chAvail
      ensures Valid() && nextChnl && checked == old(picked)
      ensures sent == old(sent) + [Tx(x + rampup, airtime, BandOf(chUpFreq[txChnl]), txChnl, gens[txChnl], checked)]
      ensures BandEnd(region, sent[|sent| - 1]) <= AvailAt(baseAvail, bandAvail[BandOf(chUpFreq[txChnl])])
      ensures WithinBase(region, sent[|sent| - 1], old(baseAvail)) ==>
                && baseAvail == old(baseAvail)
                && bandAvail[..] == old(bandAvail[..])[BandOf(chUpFreq[txChnl]) := bandAvail[BandOf(chUpFreq[txChnl])]]
    {
      hide Ledger, Honest, AvailAt, S4, BandOf, BandEnd, Small, WFRegion, WithinBase;
      S4Plus(x, rampup);
      nextChnl := true;
      checked := picked;
      UpdateTx(S4(S4(x) + rampup), airtime, x, x + rampup);
    }

    lemma UsableChecked(c: nat, t: int, cca: bool, clear: seq<bool>)
      requires Shape() && |clear| == 16 && c < 16 && Usable(Served(), Ready(), noDC, t, cca, clear, c)
      ensures channelMap[c] && (!noDC ==> Available(c, t))
    {
      assert Ready()[c] == ReadyAt(c) && Served()[c] == Serves(c);
    }

    /** The scan of nextTx_dyn, without probing: the channels that may be used at xnow, and the earliest
        time any channel may be, or OSXTIME_MAX. */
    method Candidates(xnow: int) returns (cccnt: nat, ccmap: seq<bool>, txavail: int)
      requires Shape()
      ensures Scanned(16, Served(), Ready(), noDC, xnow, cccnt, ccmap, txavail)
    {
      hide AvailAt, Scanned, BandOf;
      cccnt, ccmap, txavail := 0, seq(16, _ => false), OSXTIME_MAX;
      ghost var sv, rd := Served(), Ready();
      ScannedNone(sv, rd, noDC, xnow);
      var chnl := 0;
      while chnl < 16
        invariant 0 <= chnl <= 16 && Scanned(chnl, sv, rd, noDC, xnow, cccnt, ccmap, txavail)
      {
        ScannedStep(chnl, sv, rd, noDC, xnow, cccnt, ccmap, txavail);
        if channelMap[chnl] && chDrMap[chnl][datarate] {
          var avail := AvailAt(baseAvail, chAvail[chnl]);
          var bavail := AvailAt(baseAvail, bandAvail[BandOf(chUpFreq[chnl])]);
          AvailBounded(baseAvail, chAvail[chnl]);
          AvailBounded(baseAvail, bandAvail[BandOf(chUpFreq[chnl])]);
          if !noDC && bavail > avail {
            avail := bavail;
          }
          assert sv[chnl] && rd[chnl] == avail < OSXTIME_MAX;
          if noDC || avail <= xnow {
            cccnt := cccnt + 1;
            ccmap := ccmap[chnl := true];
          }
          if txavail > avail {
            txavail := avail;
          }
        }
        chnl := chnl + 1;
      }
    }

    /** nextTx_dyn: now is the low 32 bits of at, x and later are what os_getXTime reads, clear[c] is
        whether the probe finds channel c free. It goes ahead exactly if some channel may be used, and
        otherwise returns a later time, the earliest availability unless all usable channels are busy. */
    method NextTx(now: int, x: int, ghost at: int, cca: bool, clear: seq<bool>, later: int) returns (t: int, ghost go: bool)
      requires Valid() && x == clock && S4(at) == now && x <= at <= x + rampup && |clear| == 16
      requires x <= later <= x + 0x1000_0000 && EnabledDrs() != {}
      modifies this`refChnl, this`txChnl, this`nextChnl, this`datarate, this`picked, this`pickTime
      ensures Valid() && datarate in EnabledDrs() && (old(datarate in EnabledDrs()) ==> datarate == old(datarate))
      ensures go <==> CanSend(Served(), Ready(), noDC, at, cca, clear)
      ensures go ==>
                && t == now && Usable(Served(), Ready(), noDC, at, cca, clear, txChnl)
                && pickTime == at && picked == Available(txChnl, at) && (!cca ==> !nextChnl)
      ensures !go ==>
                && S4(t - now) > 0 && txChnl == old(txChnl) && picked == old(picked) && pickTime == old(pickTime)
                && nextChnl == (old(nextChnl) || datarate != old(datarate))
      ensures !go ==> Again(Served(), Ready(), noDC, at, clear, later, t)
    {
      hide Ledger, Honest, Begun, Small, WFRegion, AvailAt, Scanned, S4, BandOf, Usable, Earliest, CanSend, ReadyBy, ServedBy, HasRate, Time2XTime;
      Time2XTimeExact(at, x);
      var xnow := Time2XTime(now, x);
      var cccnt, ccmap, txavail := Search(xnow);
      ghost var sv, rd := Served(), Ready();
      MayUse(sv, rd, noDC, at, cca, clear, ccmap, cccnt, txavail);
      ReadyBounded();
      if cccnt > 0 {
        var ok := Probe(cccnt, ccmap, at, cca, clear);
        assert sv == Served() && rd == Ready();
        if ok {
          return now, true;
        }
        txavail := later + 3276;
      }
      LaterWrapped(txavail, at);
      return S4(txavail), false;
    }

    /** The scan of nextTx_dyn, repeated at another data rate if no channel has the current one. */
    method Search(xnow: int) returns (cccnt: nat, ccmap: seq<bool>, txavail: int)
      requires Valid() && EnabledDrs() != {}
      modifies this`nextChnl, this`datarate
      ensures Valid() && datarate in EnabledDrs() && (old(datarate in EnabledDrs()) ==> datarate == old(datarate))
      ensures nextChnl == (old(nextChnl) || datarate != old(datarate))
      ensures |ccmap| == 16 && cccnt == CountSet(ccmap, 16)
      ensures forall c :: 0 <= c < 16 ==> (ccmap[c] <==> Served()[c] && (noDC || Ready()[c] <= xnow))
      ensures exists c :: 0 <= c < 16 && Earliest(Served(), Ready(), c) && txavail == Ready()[c]
    {
      hide Ledger, Honest, Begun, Small, WFRegion, AvailAt, Scanned, BandOf, Earliest, ReadyBy, ServedBy, HasRate;
      cccnt, ccmap, txavail := Candidates(xnow);
      NoneServed();
      if txavail == OSXTIME_MAX {
        ScannedIs(Served(), Ready(), noDC, xnow, cccnt, ccmap, txavail);
        SyncDatarate();
        assert datarate != old(datarate);
        cccnt, ccmap, txavail := Candidates(xnow);
        NoneServed();
      }
      ScannedIs(Served(), Ready(), noDC, xnow, cccnt, ccmap, txavail);
    }

    /** The second loop of nextTx_dyn: probes usable channels until one is clear. */
    method Probe(cccnt0: nat, ccmap0: seq<bool>, ghost at: int, cca: bool, clear: seq<bool>) returns (ok: bool)
      requires Valid() && |ccmap0| == |clear| == 16 && cccnt0 == CountSet(ccmap0, 16) && at <= clock + rampup
      modifies this`refChnl, this`txChnl, this`nextChnl, this`picked, this`pickTime
      ensures Valid() && (ok <==> exists c :: 0 <= c < 16 && ccmap0[c] && (cca ==> clear[c]))
      ensures ok ==>
                && ccmap0[txChnl] && (cca ==> clear[txChnl]) && pickTime == at && picked == Available(txChnl, at)
                && nextChnl == (cca && old(nextChnl))
      ensures !ok ==> txChnl == old(txChnl) && picked == old(picked) && pickTime == old(pickTime) && nextChnl == old(nextChnl)
    {
      hide Ledger, Honest, Begun, Small, WFRegion, AvailAt, BandOf;
      var cccnt, ccmap := cccnt0, ccmap0;
      while cccnt > 0
        invariant |ccmap| == 16 && cccnt == CountSet(ccmap, 16) && Valid()
        invariant forall c :: 0 <= c < 16 ==> (ccmap[c] ==> ccmap0[c]) && (ccmap0[c] && !ccmap[c] ==> cca && !clear[c])
        invariant txChnl == old(txChnl) && picked == old(picked) && pickTime == old(pickTime) && nextChnl == old(nextChnl)
        decreases cccnt
      {
        var chnl := SelectRandomChnl(ccmap, cccnt);
        if !cca || clear[chnl] {
          if !cca {
            nextChnl := false;
          }
          txChnl := chnl;
          pickTime := at;
          picked := Available(txChnl, at);
          return true;
        }
        CountClear(ccmap, chnl, 16);
        ccmap := ccmap[chnl := false];
        cccnt := cccnt - 1;
      }
      NoneLeft(ccmap, 16);
      return false;
    }

    lemma SomeRate(c: nat)
      requires Shape() && c < 16 && Serves(c)
      ensures datarate in EnabledDrs()
    {
      assert chDrMap[..][c] == chDrMap[c];
    }

    lemma NoneServed()
      requires Shape()
      ensures datarate in EnabledDrs() <==> true in Served()
    {
      if datarate in EnabledDrs() {
        var c :| 0 <= c < 16 && channelMap[c] && chDrMap[..][c][datarate];
        assert Serves(c) && Served()[c];
      }
      if true in Served() {
        var c :| 0 <= c < 16 && Served()[c];
        assert Serves(c) && chDrMap[..][c] == chDrMap[c];
      }
    }

    lemma ReadyBounded()
      requires Shape()
      ensures forall c :: 0 <= c < 16 ==> Ready()[c] < clock + 0x8000_0000
    {
    }

    ghost function Served(): (r: seq<bool>)
      requires Shape()
      reads this, bandAvail, chAvail, chUpFreq, chDrMap
      ensures |r| == 16 && forall c :: 0 <= c < 16 ==> r[c] == Serves(c)
    {
      ServedBy(channelMap, chDrMap[..], datarate)
    }

    ghost function Ready(): (r: seq<int>)
      requires Shape()
      reads this, bandAvail, chAvail, chUpFreq, chDrMap
      ensures |r| == 16 && forall c :: 0 <= c < 16 ==> r[c] == ReadyAt(c)
    {
      ReadyBy(baseAvail, bandAvail[..], chAvail[..], chUpFreq[..], noDC)
    }

    ghost function Now(): (r: State)
      requires Shape()
      reads this, bandAvail, chAvail, chUpFreq, chDrMap
      ensures WFState(r)
    {
      State(Served(), Ready(), channelMap, BandsOf(chUpFreq[..]), datarate in EnabledDrs(), nextChnl, txChnl, txend, baseAvail, gens, sent)
    }
  }

  /** Some enabled channel supports data rate dr. */
  ghost predicate HasRate(map16: seq<bool>, drs: seq<seq<bool>>, dr: nat)
    requires |map16| == |drs| == 16 && dr < 16 && forall c :: 0 <= c < 16 ==> |drs[c]| == 16
  {
    exists c :: 0 <= c < 16 && map16[c] && drs[c][dr]
  }

  ghost function ServedBy(map16: seq<bool>, drs: seq<seq<bool>>, dr: nat): (r: seq<bool>)
    requires |map16| == |drs| == 16 && dr < 16 && forall c :: 0 <= c < 16 ==> |drs[c]| == 16
  {
    seq(16, c requires 0 <= c < 16 => map16[c] && drs[c][dr])
  }

  ghost function ReadyBy(base: int, bands: seq<nat>, chs: seq<nat>, freqs: seq<nat>, noDC: bool): (r: seq<int>)
    requires |bands| == 8 && |chs| == |freqs| == 16
  {
    seq(16, c requires 0 <= c < 16 =>
      var b, a := AvailAt(base, bands[BandOf(freqs[c])]), AvailAt(base, chs[c]);
      if b > a && !noDC then b else a)
  }

  /** After the scan of the first n channels: which may be used at xnow, how many, and the earliest
      time any may be. */
  ghost predicate Scanned(n: nat, sv: seq<bool>, rd: seq<int>, noDC: bool, xnow: int, cccnt: nat, ccmap: seq<bool>, txavail: int) {
    && n <= |sv| == |rd| == |ccmap| == 16 && cccnt == CountSet(ccmap, n)
    && (forall c :: n <= c < 16 ==> !ccmap[c])
    && (forall c :: 0 <= c < n ==> (ccmap[c] <==> sv[c] && (noDC || rd[c] <= xnow)))
    && (forall c :: 0 <= c < n && sv[c] ==> txavail <= rd[c])
    && (txavail == OSXTIME_MAX || exists c :: 0 <= c < n && sv[c] && txavail == rd[c] < OSXTIME_MAX)
    && (txavail == OSXTIME_MAX ==> forall c :: 0 <= c < n ==> !sv[c])
  }

  lemma ScannedIs(sv: seq<bool>, rd: seq<int>, noDC: bool, xnow: int, cccnt: nat, ccmap: seq<bool>, txavail: int)
    requires Scanned(16, sv, rd, noDC, xnow, cccnt, ccmap, txavail)
    ensures |sv| == |rd| == |ccmap| == 16 && cccnt == CountSet(ccmap, 16)
    ensures forall c :: 0 <= c < 16 ==> (ccmap[c] <==> sv[c] && (noDC || rd[c] <= xnow))
    ensures txavail == OSXTIME_MAX <==> true !in sv
    ensures txavail != OSXTIME_MAX ==> exists c :: 0 <= c < 16 && Earliest(sv, rd, c) && txavail == rd[c]
    ensures cccnt == 0 ==> forall c :: 0 <= c < 16 ==> !ccmap[c]
  {
    if cccnt == 0 {
      NoneLeft(ccmap, 16);
    }
  }

  /** No channel is ready earlier than c. */
  ghost predicate Earliest(sv: seq<bool>, rd: seq<int>, c: nat)
    requires |sv| == |rd| == 16 && c < 16
  {
    sv[c] && forall k :: 0 <= k < 16 && sv[k] ==> rd[c] <= rd[k]
  }

  /** Channel c may be used at time t. */
  ghost predicate Usable(sv: seq<bool>, rd: seq<int>, noDC: bool, t: int, cca: bool, clear: seq<bool>, c: nat)
    requires |sv| == |rd| == |clear| == 16 && c < 16
  {
    sv[c] && (noDC || rd[c] <= t) && (cca ==> clear[c])
  }

  ghost predicate CanSend(sv: seq<bool>, rd: seq<int>, noDC: bool, t: int, cca: bool, clear: seq<bool>)
    requires |sv| == |rd| == |clear| == 16
  {
    exists c :: 0 <= c < 16 && Usable(sv, rd, noDC, t, cca, clear, c)
  }

  /** When to look for a channel again: when the first comes available, or after 100 ms if some are but
      all of them are busy. */
  ghost predicate Again(sv: seq<bool>, rd: seq<int>, noDC: bool, at: int, clear: seq<bool>, later: int, t: int)
    requires |sv| == |rd| == |clear| == 16
  {
    if CanSend(sv, rd, noDC, at, false, clear) then t == S4(later + 100 * OSTICKS_PER_SEC / 1000)
    else exists c :: 0 <= c < 16 && Earliest(sv, rd, c) && t == S4(rd[c])
  }

  lemma MayUse(sv: seq<bool>, rd: seq<int>, noDC: bool, t: int, cca: bool, clear: seq<bool>, ccmap: seq<bool>, cccnt: nat, txavail: int)
    requires |sv| == |rd| == |clear| == |ccmap| == 16 && cccnt == CountSet(ccmap, 16)
    requires forall c :: 0 <= c < 16 ==> (ccmap[c] <==> sv[c] && (noDC || rd[c] <= t))
    requires exists c :: 0 <= c < 16 && Earliest(sv, rd, c) && txavail == rd[c]
    ensures forall c :: 0 <= c < 16 ==> (Usable(sv, rd, noDC, t, cca, clear, c) <==> ccmap[c] && (cca ==> clear[c]))
    ensures cccnt == 0 ==> txavail > t && !noDC && forall c :: 0 <= c < 16 ==> !ccmap[c]
    ensures cccnt > 0 ==> exists c :: 0 <= c < 16 && ccmap[c]
    ensures CanSend(sv, rd, noDC, t, false, clear) <==> cccnt > 0
    ensures CanSend(sv, rd, noDC, t, cca, clear) <==> exists c :: 0 <= c < 16 && ccmap[c] && (cca ==> clear[c])
  {
    assert forall c :: 0 <= c < 16 && ccmap[c] ==> Usable(sv, rd, noDC, t, false, clear, c);
    assert forall c :: 0 <= c < 16 && ccmap[c] && (cca ==> clear[c]) ==> Usable(sv, rd, noDC, t, cca, clear, c);
    if cccnt == 0 {
      NoneLeft(ccmap, 16);
    } else if forall c :: 0 <= c < 16 ==> !ccmap[c] {
      NoneSet(ccmap, 16);
    }
  }

  lemma {:induction false} NoneLeft(m: seq<bool>, n: nat)
    requires n <= |m| && CountSet(m, n) == 0
    ensures forall c :: 0 <= c < n ==> !m[c]
    decreases n
  {
    if n > 0 {
      NoneLeft(m, n - 1);
    }
  }

  lemma {:induction false} CountClear(m: seq<bool>, c: nat, n: nat)
    requires c < n <= |m| && m[c]
    ensures CountSet(m[c := false], n) == CountSet(m, n) - 1
    decreases n
  {
    if c < n - 1 {
      CountClear(m, c, n - 1);
    } else {
      SameCount(m, m[c := false], n - 1);
    }
  }

  lemma LaterWrapped(t: int, at: int)
    requires at < t < at + 0x8000_0000
    ensures S4(S4(t) - S4(at)) > 0
  {
    S4Minus(t, at);
    S4Fits(t - at);
  }

  lemma ScannedNone(sv: seq<bool>, rd: seq<int>, noDC: bool, xnow: int)
    requires |sv| == |rd| == 16
    ensures Scanned(0, sv, rd, noDC, xnow, 0, seq(16, _ => false), OSXTIME_MAX)
  {
  }

  lemma ScannedStep(n: nat, sv: seq<bool>, rd: seq<int>, noDC: bool, xnow: int, cccnt: nat, ccmap: seq<bool>, txavail: int)
    requires n < 16 && Scanned(n, sv, rd, noDC, xnow, cccnt, ccmap, txavail)
    ensures |sv| == |rd| == |ccmap| == 16 && (txavail <= OSXTIME_MAX)
    ensures !sv[n] ==> Scanned(n + 1, sv, rd, noDC, xnow, cccnt, ccmap, txavail)
    ensures sv[n] && rd[n] < OSXTIME_MAX ==>
              var take := noDC || rd[n] <= xnow;
              Scanned(n + 1, sv, rd, noDC, xnow, if take then cccnt + 1 else cccnt,
                      if take then ccmap[n := true] else ccmap, if txavail > rd[n] then rd[n] else txavail)
  {
    SameCount(ccmap, ccmap[n := true], n);
    assert ccmap[n := false] == ccmap;
  }

  const OSXTIME_MAX := 0x7FFF_FFFF_FFFF_FFFF

  lemma AvailBounded(base: int, v: nat)
    requires 0 <= base < LIFETIME && v <= 0xffff
    ensures base <= AvailAt(base, v) < OSXTIME_MAX
  {
  }

  lemma {:induction false} NoneSet(m: seq<bool>, n: nat)
    requires n <= |m| && forall c :: 0 <= c < n ==> !m[c]
    ensures CountSet(m, n) == 0
    decreases n
  {
    if n > 0 {
      NoneSet(m, n - 1);
    }
  }

  lemma {:induction false} SameCount(m: seq<bool>, m': seq<bool>, n: nat)
    requires n <= |m| == |m'| && forall c :: 0 <= c < n ==> m'[c] == m[c]
    ensures CountSet(m', n) == CountSet(m, n)
    decreases n
  {
    if n > 0 {
      SameCount(m, m', n - 1);
    }
  }

  /** Bits set below n. */
  function CountSet(m: seq<bool>, n: nat): (r: nat)
    requires n <= |m|
    ensures r <= n
  {
    if n == 0 then 0 else CountSet(m, n - 1) + if m[n - 1] then 1 else 0
  }

  /** c is the set bit with k set bits below it. */
  predicate IsNth(m: seq<bool>, k: nat, c: nat) { c < |m| && m[c] && CountSet(m, c) == k }

  /** If two bits are set, one of them is not c. */
  lemma SomeNth(m: seq<bool>, c: nat)
    ensures CountSet(m, |m|) > 1 ==> !IsNth(m, 0, c) || !IsNth(m, 1, c)
  {
  }

  /** The 32-bit computation of the end of a transmission's claim yields its extended time. */
  lemma EndTimes(r: Region, t: Tx, now: int)
    requires WFRegion(r) && t.band < 8 && t.airtime * 1000 <= 0x4000_0000 && now - OSTICKS_PER_SEC <= t.beg <= now + RAMPUP_MAX
    ensures Time2XTime(S4(S4(t.beg) + t.airtime * r.bands[t.band].cap), now) == BandEnd(r, t) >= t.beg
    ensures Time2XTime(S4(S4(t.beg) + t.airtime * r.chTxCap), now) == ChEnd(r, t) >= t.beg
    ensures BandEnd(r, t) - now <= 0xffff * OSTICKS_PER_SEC && ChEnd(r, t) - now <= 0xffff * OSTICKS_PER_SEC
    ensures BandEnd(r, t) <= t.beg + 0x4000_0000 && ChEnd(r, t) <= t.beg + 0x4000_0000
  {
    hide S4, Time2XTime;
    EndTime(t.beg, t.airtime, r.bands[t.band].cap, now);
    EndTime(t.beg, t.airtime, r.chTxCap, now);
  }

  lemma EndTime(beg: int, airtime: nat, cap: nat, now: int)
    requires cap <= 1000 && airtime * 1000 <= 0x4000_0000 && now - OSTICKS_PER_SEC <= beg <= now + RAMPUP_MAX
    ensures Time2XTime(S4(S4(beg) + airtime * cap), now) == beg + airtime * cap
    ensures beg <= beg + airtime * cap <= beg + 0x4000_0000
  {
    hide S4;
    assert 0 <= airtime * cap <= airtime * 1000;
    S4Plus(beg, airtime * cap);
    Time2XTimeExact(beg + airtime * cap, now);
  }

  /** A transmission keeps the ledger if it was checked or not, and its claims are recorded. */
  lemma LedgerSend(r: Region, sent: seq<Tx>, gens: seq<nat>, base: int, bands: seq<nat>, chs: seq<nat>,
                   base': int, bands': seq<nat>, chs': seq<nat>, t: Tx)
    requires |r.bands| == |bands| == |bands'| == 8 && |gens| == |chs| == |chs'| == 16
    requires Ledger(r, sent, gens, base, bands, chs) && t.band < 8 && t.chnl < 16 && t.gen == gens[t.chnl]
    requires LaterBut(base, bands, base', bands', t.band) && LaterBut(base, chs, base', chs', t.chnl)
    requires t.beg <= BandEnd(r, t) <= AvailAt(base', bands'[t.band]) && t.beg <= ChEnd(r, t) <= AvailAt(base', chs'[t.chnl])
    requires t.checked ==> AvailAt(base, bands[t.band]) <= t.beg && AvailAt(base, chs[t.chnl]) <= t.beg
    ensures Ledger(r, sent + [t], gens, base', bands', chs')
  {
    hide AvailAt, BandEnd, ChEnd;
    var sent' := sent + [t];
    assert AllChecked(sent') ==> AllChecked(sent) && t.checked by {
      assert sent'[|sent|] == t && forall i :: 0 <= i < |sent| ==> sent'[i] == sent[i];
    }
  }

  lemma NothingSent(r: Region, gens: seq<nat>, base: int, bands: seq<nat>, chs: seq<nat>)
    requires |r.bands| == |bands| == 8 && |gens| == |chs| == 16
    ensures Ledger(r, [], gens, base, bands, chs)
    ensures (forall b :: 0 <= b < 8 ==> bands[b] == 0) && (forall c :: 0 <= c < 16 ==> chs[c] == 0) ==> Honest(r, [], gens, base, bands, chs)
  {
  }

  lemma SameTime(t: int)
    ensures S4(t - t) == 0
  {
  }

  lemma AvailZero(base: int)
    ensures AvailAt(base, 0) == base
  {
  }

  /** Setting up a channel anew makes its own availability, but no band's, start over. */
  lemma LedgerSetup(r: Region, sent: seq<Tx>, gens: seq<nat>, base: int, bands: seq<nat>, chs: seq<nat>, c: nat)
    requires |r.bands| == |bands| == 8 && |gens| == |chs| == 16 && c < 16 && Ledger(r, sent, gens, base, bands, chs)
    ensures Ledger(r, sent, gens[c := gens[c] + 1], base, bands, chs[c := 0])
  {
    hide AvailAt, BandEnd, ChEnd;
  }

  // ---------------------------------------------------------------------------------------------
  // Runs

  /** What may happen wait ticks after the event before: a channel is set up or disabled, the engine has
      a frame to send, or the application asks for the next time to send. */
  datatype Event =
    | Setup(wait: nat, chidx: nat, freq: nat, drmap: seq<bool>)
    | Disable(wait: nat, chidx: nat)
    | Update(wait: nat, airtime: nat, cca: bool, clear: seq<bool>, busy: nat)
    | Next(wait: nat, cca: bool, clear: seq<bool>, busy: nat)

  predicate WFEvent(e: Event) {
    match e
    case Setup(_, _, _, drmap) => |drmap| == 16
    case Disable(_, chidx) => chidx < 16
    case Update(_, airtime, _, clear, busy) => |clear| == 16 && airtime * 1000 <= 0x4000_0000 && busy <= 0x1000_0000
    case Next(_, _, clear, busy) => |clear| == 16 && busy <= 0x1000_0000
  }

  /** The event sets up or disables channel c. */
  predicate Names(e: Event, c: nat) { (e.Setup? || e.Disable?) && e.chidx == c }

  /** The enabled channels after one is set up or disabled. */
  ghost function MapAfter(r: Region, map16: seq<bool>, e: Event): seq<bool>
    requires |r.bands| == 8 && |map16| == 16 && WFEvent(e) && (e.Setup? || e.Disable?)
  {
    if e.Setup? && !Takes(r, e.chidx, e.freq) then map16
    else if e.Setup? && e.freq != 0 then map16[e.chidx := true]
    else WithoutChannel(map16, e.chidx)
  }

  /** Claim i is on the channel, since it was last set up, or on its band, and lasts as long as the channel
      is not ready, but for the seconds lost to rounding. */
  ghost predicate Claims(r: Region, s: State, c: nat, i: nat)
    requires |r.bands| == 8 && WFState(s) && WFSent(s.sent) && c < 16 && i < |s.sent|
  {
    || (s.sent[i].band == s.bands[c] && UpTo(s.base, s.ready[c], s.sent[i].beg, BandEnd(r, s.sent[i])))
    || (s.sent[i].chnl == c && s.sent[i].gen == s.gens[c] && UpTo(s.base, s.ready[c], s.sent[i].beg, ChEnd(r, s.sent[i])))
  }

  /** Every channel is ready, or some transmission claims it. This is said of channels in bands that are
      adjusted when the base moves, and of all others as long as it has not moved. */
  ghost predicate HonestState(r: Region, s: State) {
    && |r.bands| == 8 && WFState(s) && WFSent(s.sent)
    && forall c :: 0 <= c < 16 && (Adjusted(r, s.bands[c]) || s.base == 0) && s.ready[c] > s.base ==>
         exists i :: 0 <= i < |s.sent| && Claims(r, s, c, i)
  }

  lemma NowHonest(d: DutyCycle)
    requires d.Valid() && !d.noDC
    ensures HonestState(d.region, d.Now()) && d.Now().base <= d.clock
  {
    hide Ledger, AvailAt, UpTo, BandEnd, ChEnd, Adjusted, HasRate, ReadyBy, ServedBy;
    var s := d.Now();
    forall c | 0 <= c < 16 && (Adjusted(d.region, s.bands[c]) || s.base == 0) && s.ready[c] > s.base
      ensures exists i :: 0 <= i < |s.sent| && Claims(d.region, s, c, i)
    {
      ReadyHonest(d, c);
    }
  }

  lemma ReadyHonest(d: DutyCycle, c: nat)
    requires d.Valid() && !d.noDC && c < 16
    requires var s := d.Now(); (Adjusted(d.region, s.bands[c]) || s.base == 0) && s.ready[c] > s.base
    ensures |d.region.bands| == 8 && WFSent(d.sent) && exists i :: 0 <= i < |d.sent| && Claims(d.region, d.Now(), c, i)
  {
    hide Ledger, AvailAt, UpTo, BandEnd, ChEnd, Adjusted, HasRate, ReadyBy, ServedBy, Begun;
    var s := d.Now();
    assert s.ready[c] == d.ReadyAt(c) && s.bands[c] == BandOf(d.chUpFreq[c]);
    var b := s.bands[c];
    assert BandHonest(d.region, d.sent, d.baseAvail, d.bandAvail[b], b) && ChHonest(d.region, d.sent, d.gens[c], d.baseAvail, d.chAvail[c], c);
    if s.ready[c] == AvailAt(d.baseAvail, d.bandAvail[b]) {
      var i :| 0 <= i < |d.sent| && d.sent[i].band == b && UpTo(d.baseAvail, s.ready[c], d.sent[i].beg, BandEnd(d.region, d.sent[i]));
      assert Claims(d.region, s, c, i);
    } else {
      var i :| 0 <= i < |d.sent| && d.sent[i].chnl == c && d.sent[i].gen == d.gens[c] && UpTo(d.baseAvail, s.ready[c], d.sent[i].beg, ChEnd(d.region, d.sent[i]));
      assert Claims(d.region, s, c, i);
    }
  }

  /** What event e does at time t, where sending takes rampup ticks to start. Only the engine transmits:
      once it is to pick a channel, exactly if some channel may be used, and then on such a channel;
      otherwise exactly if the time of the transmission has come. Waiting leaves everything as it was,
      but for the data rate if no enabled channel has it. */
  ghost predicate Step(r: Region, rampup: nat, s: State, e: Event, t: int, tx: bool, s': State)
    requires |r.bands| == 8 && WFState(s) && WFState(s') && WFEvent(e)
  {
    match e
    case Setup(_, _, _, _) => !tx && Moved(r, s, e, s')
    case Disable(_, _) => !tx && Moved(r, s, e, s')
    case Update(_, airtime, cca, clear, busy) =>
      && s'.map16 == s.map16 && s'.bands == s.bands && (s.rated || !s.nextChnl ==> s'.served == s.served)
      && (s.nextChnl ==> tx == CanSend(s'.served, s.ready, false, t + rampup, cca, clear))
      && (!s.nextChnl ==> tx == (S4(s.txend - S4(t + rampup)) <= 0))
      && (tx ==> s'.nextChnl && Appended(r, s, t + rampup, airtime, s'))
      && (tx && s.nextChnl ==> s'.txChnl < 16 && Usable(s'.served, s.ready, false, t + rampup, cca, clear, s'.txChnl))
      && (tx && !s.nextChnl ==> s'.txChnl == s.txChnl)
      && (!tx ==> s'.sent == s.sent && s'.ready == s.ready && s'.base == s.base && s'.nextChnl == s.nextChnl && s'.txChnl == s.txChnl)
      && (!tx && s.nextChnl ==> Again(s'.served, s.ready, false, t + rampup, clear, t + busy, s'.txend))
      && s'.gens == s.gens
    case Next(_, cca, clear, _) =>
      && !tx && s'.map16 == s.map16 && s'.bands == s.bands && (s.rated ==> s'.served == s.served) && s'.sent == s.sent && s'.ready == s.ready && s'.base == s.base && s'.gens == s.gens
      && (if CanSend(s'.served, s.ready, false, t, cca, clear) then
            s'.txChnl < 16 && Usable(s'.served, s.ready, false, t, cca, clear, s'.txChnl) && (!cca ==> !s'.nextChnl)
          else
            s'.txChnl == s.txChnl && (s.nextChnl ==> s'.nextChnl))
  }

  ghost predicate Moved(r: Region, s: State, e: Event, s': State)
    requires |r.bands| == 8 && WFState(s) && WFState(s') && WFEvent(e) && (e.Setup? || e.Disable?)
  {
    && s'.map16 == MapAfter(r, s.map16, e) && s'.sent == s.sent && s'.base == s.base && s'.nextChnl == s.nextChnl && s'.txChnl == s.txChnl
    && forall c :: 0 <= c < 16 && c != e.chidx ==>
         && s'.ready[c] == s.ready[c] && s'.bands[c] == s.bands[c] && s'.gens[c] == s.gens[c]
         && (s'.map16[c] == s.map16[c] ==> s'.served[c] == s.served[c])
  }

  /** One transmission more; no channel in its band is ready before its claim ends. */
  ghost predicate Appended(r: Region, s: State, beg: int, airtime: nat, s': State)
    requires |r.bands| == 8 && WFState(s')
  {
    var n := |s.sent|;
    && |s'.sent| == n + 1 && s'.sent[..n] == s.sent && s'.txChnl < 16
    && s'.sent[n].beg == beg && s'.sent[n].airtime == airtime && s'.sent[n].chnl == s'.txChnl
    && s'.sent[n].band == s'.bands[s'.txChnl] && s'.sent[n].band < 8
    && forall c :: 0 <= c < 16 && s'.bands[c] == s'.sent[n].band ==> BandEnd(r, s'.sent[n]) <= s'.ready[c]
  }

  /** Sets up or disables a channel at time t. A channel that had been checked when it was picked still
      counts as checked exactly if the band of its frequency, the new one if it was moved, was available
      then. */
  method Reconfigure(d: DutyCycle, e: Event, t: int)
    requires d.Valid() && WFEvent(e) && (e.Setup? || e.Disable?) && d.clock <= t < LIFETIME
    modifies d`clock, d`channelMap, d`baseAvail, d`globalAvail, d`gens, d`picked, d.bandAvail, d.chAvail, d.chUpFreq, d.chDrMap
    ensures d.Valid() && d.clock == t && d.baseAvail == old(d.baseAvail) && d.bandAvail[..] == old(d.bandAvail[..])
    ensures !Names(e, d.txChnl) ==> d.picked == old(d.picked)
    ensures d.picked <==> old(d.picked) && AvailAt(d.baseAvail, d.bandAvail[BandOf(d.chUpFreq[d.txChnl])]) <= d.pickTime
    ensures d.gens[d.txChnl] == old(d.gens[d.txChnl]) || d.gens[d.txChnl] == old(d.gens[d.txChnl]) + 1
    ensures d.gens[d.txChnl] == old(d.gens[d.txChnl]) ==> d.chAvail[d.txChnl] == old(d.chAvail[d.txChnl])
    ensures d.channelMap == MapAfter(d.region, old(d.channelMap), e)
    ensures forall c :: 0 <= c < 16 && c != e.chidx ==> d.gens[c] == old(d.gens[c])
    ensures e.Setup? && e.freq != 0 && Takes(d.region, e.chidx, e.freq) ==> Placed(d.region, e.freq, d.chUpFreq[e.chidx])
    ensures forall c :: 0 <= c < 16 && c != e.chidx ==>
              && d.Ready()[c] == old(d.Ready()[c]) && d.chUpFreq[c] == old(d.chUpFreq[c])
              && (d.channelMap[c] == old(d.channelMap[c]) ==> d.Served()[c] == old(d.Served()[c]))
  {
    hide Ledger, Honest, AvailAt, WFRegion, BandOf, InBand, Placed, ReadyBy, ServedBy;
    AvailFromBase(d.baseAvail, d.bandAvail[..]);
    match e {
      case Setup(_, chidx, freq, drmap) =>
        var ok := d.SetupChannel(chidx, freq, drmap, t);
      case Disable(_, chidx) =>
        d.clock := t;
        d.DisableChannel(chidx);
    }
  }

  /** Nothing is available before the base. */
  lemma AvailFromBase(base: int, vs: seq<nat>)
    requires Small(vs)
    ensures forall i :: 0 <= i < |vs| ==> AvailAt(base, vs[i]) >= base
  {
  }

  /** engineUpdate, with a frame to send */
  method Attend(d: DutyCycle, e: Event, t: int) returns (tx: bool)
    requires d.Guarded() && WFEvent(e) && e.Update? && d.clock <= t < LIFETIME && d.EnabledDrs() != {}
    modifies d`clock, d`refChnl, d`txChnl, d`nextChnl, d`datarate, d`picked, d`pickTime, d`txend
    modifies d`baseAvail, d`globalAvail, d`sent, d.bandAvail, d.chAvail
    ensures d.Guarded() && d.clock == t && Step(d.region, d.rampup, old(d.Now()), e, t, tx, d.Now())
  {
    hide Ledger, Honest, Begun, AvailAt, Small, WFRegion, BandOf, ReadyBy, ServedBy, HasRate, CanSend, Usable, S4, BandEnd, WithinBase;
    ghost var checked;
    tx, checked := d.Engine(t, e.airtime, e.cca, e.clear, t + e.busy);
  }

  /** LMIC_nextTx */
  method AskNext(d: DutyCycle, e: Event, t: int)
    requires d.Guarded() && WFEvent(e) && e.Next? && d.clock <= t < LIFETIME && d.EnabledDrs() != {}
    modifies d`clock, d`refChnl, d`txChnl, d`nextChnl, d`datarate, d`picked, d`pickTime
    ensures d.Guarded() && d.clock == t && Step(d.region, d.rampup, old(d.Now()), e, t, false, d.Now())
  {
    hide Ledger, Honest, AvailAt, Small, WFRegion, BandOf, ReadyBy, ServedBy, HasRate, Earliest, CanSend, Usable, S4, BandEnd, WithinBase, InBand, Takes;
    d.clock := t;
    ghost var go;
    var at;
    at, go := d.NextTx(S4(t), t, t, e.cca, e.clear, t + e.busy);
    if go {
      d.UsableChecked(d.txChnl, t, e.cca, e.clear);
    }
  }

  /** Carries out event e at time t, and tells whether it led to a transmission. */
  method Perform(d: DutyCycle, e: Event, t: int) returns (tx: bool)
    requires d.Guarded() && WFEvent(e) && d.clock <= t < LIFETIME && (e.Update? || e.Next? ==> d.EnabledDrs() != {})
    requires !Names(e, d.txChnl) || d.nextChnl
    modifies d, d.bandAvail, d.chAvail, d.chUpFreq, d.chDrMap
    ensures d.Guarded() && d.clock == t && Step(d.region, d.rampup, old(d.Now()), e, t, tx, d.Now())
  {
    hide Ledger, Honest, Begun, AvailAt, Small, WFRegion, BandOf, ReadyBy, ServedBy, HasRate, MapAfter, CanSend, Usable, S4, Appended;
    if e.Update? {
      tx := Attend(d, e, t);
    } else if e.Next? {
      AskNext(d, e, t);
      return false;
    } else {
      Reconfigure(d, e, t);
      return false;
    }
  }

  /** Event e of a run happens at time t, in state s. An event that sets up or disables a channel that
      was picked but not yet used is passed over. */
  ghost predicate Happens(r: Region, rampup: nat, s: State, e: Event, t: int, tx: bool, s': State) {
    && HonestState(r, s) && HonestState(r, s') && WFEvent(e) && s.base <= t
    && if Names(e, s.txChnl) && !s.nextChnl then !tx && s' == s else Step(r, rampup, s, e, t, tx, s')
  }

  /** How long the first n events take. */
  function Waits(es: seq<Event>, n: nat): nat
    requires n <= |es|
  {
    if n == 0 then 0 else Waits(es, n - 1) + es[n - 1].wait
  }

  ghost predicate Happened(r: Region, rampup: nat, es: seq<Event>, t0: int, tx: seq<bool>, ss: seq<State>, i: nat)
    requires i < |tx| <= |es| && |ss| == |tx| + 1
  {
    Happens(r, rampup, ss[i], es[i], t0 + Waits(es, i + 1), tx[i], ss[i + 1])
  }

  /** The first |tx| of the events, where tx[i] tells whether event i led to a transmission and ss[i] is
      the state before it. */
  ghost predicate Trace(r: Region, rampup: nat, es: seq<Event>, t0: int, tx: seq<bool>, ss: seq<State>) {
    |tx| <= |es| && |ss| == |tx| + 1 && forall i :: 0 <= i < |tx| ==> Happened(r, rampup, es, t0, tx, ss, i)
  }

  lemma TraceAdd(r: Region, rampup: nat, es: seq<Event>, t0: int, tx: seq<bool>, ss: seq<State>, b: bool, s: State)
    requires Trace(r, rampup, es, t0, tx, ss) && |tx| < |es|
    requires Happens(r, rampup, ss[|tx|], es[|tx|], t0 + Waits(es, |tx| + 1), b, s)
    ensures Trace(r, rampup, es, t0, tx + [b], ss + [s])
  {
    hide Happens, Waits;
    forall i | 0 <= i < |tx| ensures Happened(r, rampup, es, t0, tx + [b], ss + [s], i) {
      assert Happened(r, rampup, es, t0, tx, ss, i);
    }
  }

  /** Transmission number CountSet(tx, i) of a run is the one that event i led to. */
  ghost predicate SentBy(es: seq<Event>, t0: int, tx: seq<bool>, rampup: nat, sent: seq<Tx>, i: nat)
    requires i < |tx| <= |es|
  {
    var k := CountSet(tx, i);
    && es[i].Update? && k < |sent|
    && sent[k].beg == t0 + Waits(es, i + 1) + rampup && sent[k].airtime == es[i].airtime
  }

  lemma HappensSent(r: Region, rampup: nat, s: State, e: Event, t: int, tx: bool, s': State)
    requires Happens(r, rampup, s, e, t, tx, s')
    ensures if tx then e.Update? && Appended(r, s, t + rampup, e.airtime, s') else s'.sent == s.sent
  {
    hide CanSend, Usable, S4, MapAfter, Again, HonestState;
  }

  /** When the engine waits for a channel, every channel that serves is claimed by a transmission for less
      than three seconds longer than it really lasts, and less than one as long as the base has not moved
      since. */
  lemma WaitsForClaims(r: Region, rampup: nat, s: State, e: Event, t: int, tx: bool, s': State, c: nat)
    requires Happens(r, rampup, s, e, t, tx, s') && e.Update? && s.nextChnl && !tx && !e.cca
    requires c < 16 && s'.served[c] && (Adjusted(r, s.bands[c]) || s.base == 0)
    ensures t + rampup < s.ready[c] && exists i :: 0 <= i < |s.sent| && Claims(r, s, c, i)
  {
    hide Claims, Again, Adjusted;
    assert Usable(s'.served, s.ready, false, t + rampup, false, e.clear, c) <==> s.ready[c] <= t + rampup;
  }

  /** The transmissions of a run are those of the engine's events that led to one, in this order. */
  lemma {:induction false} TraceSent(r: Region, rampup: nat, es: seq<Event>, t0: int, tx: seq<bool>, ss: seq<State>, n: nat)
    requires Trace(r, rampup, es, t0, tx, ss) && ss[0].sent == [] && n <= |tx|
    ensures |ss[n].sent| == CountSet(tx, n)
    ensures forall i :: 0 <= i < n && tx[i] ==> SentBy(es, t0, tx, rampup, ss[n].sent, i)
    decreases n
  {
    hide Happens, Waits;
    if n > 0 {
      TraceSent(r, rampup, es, t0, tx, ss, n - 1);
      var s, s' := ss[n - 1], ss[n];
      assert Happened(r, rampup, es, t0, tx, ss, n - 1);
      HappensSent(r, rampup, s, es[n - 1], t0 + Waits(es, n), tx[n - 1], s');
      assert |s.sent| <= |s'.sent| && s'.sent[..|s.sent|] == s.sent;
      forall i | 0 <= i < n - 1 && tx[i] ensures SentBy(es, t0, tx, rampup, s'.sent, i) {
        assert SentBy(es, t0, tx, rampup, s.sent, i);
      }
    }
  }

  /** Any run from a fresh session that is to pick a channel: whatever of the four kinds of events
      happens in whatever order, except that a channel picked for the next transmission is left alone
      until it has been used, all transmissions keep their distance. The run ends where no enabled
      channel has a data rate, which the source asserts not to happen, and with the lifetime. */
  method Run(d: DutyCycle, es: seq<Event>, t0: int) returns (tx: seq<bool>, ghost ss: seq<State>)
    requires d.Valid() && d.sent == [] && d.nextChnl && !d.noDC && t0 == d.clock && forall i :: 0 <= i < |es| ==> WFEvent(es[i])
    modifies d, d.bandAvail, d.chAvail, d.chUpFreq, d.chDrMap
    ensures d.Valid() && |d.region.bands| == 8 && WFSent(d.sent) && Spaced(d.region, d.sent)
    ensures Trace(d.region, d.rampup, es, t0, tx, ss) && ss[0] == old(d.Now()) && ss[|tx|] == d.Now()
    ensures |d.sent| == CountSet(tx, |tx|) && forall i :: 0 <= i < |tx| && tx[i] ==> SentBy(es, t0, tx, d.rampup, d.sent, i)
    ensures |tx| < |es| ==>
              t0 + Waits(es, |tx| + 1) >= LIFETIME || ((es[|tx|].Update? || es[|tx|].Next?) && d.EnabledDrs() == {})
  {
    hide Ledger, Honest, AvailAt, Small, WFRegion, BandOf, HasRate, Spaced, Step, ReadyBy, ServedBy, SentBy, HonestState;
    tx, ss := [], [d.Now()];
    var t := t0;
    GuardedSpaced(d);
    while |tx| < |es|
      invariant d.Guarded() && d.clock <= t && |tx| <= |es| && t == t0 + Waits(es, |tx|)
      invariant Trace(d.region, d.rampup, es, t0, tx, ss) && ss[0] == old(d.Now()) && ss[|tx|] == d.Now()
      decreases |es| - |tx|
    {
      var e := es[|tx|];
      var drs := d.Rates();
      if t + e.wait >= LIFETIME || ((e.Update? || e.Next?) && true !in drs) {
        break;
      }
      t := t + e.wait;
      var sends := false;
      NowHonest(d);
      if !Names(e, d.txChnl) || d.nextChnl {
        sends := Perform(d, e, t);
      }
      NowHonest(d);
      TraceAdd(d.region, d.rampup, es, t0, tx, ss, sends, d.Now());
      tx, ss := tx + [sends], ss + [d.Now()];
    }
    GuardedSpaced(d);
    TraceSent(d.region, d.rampup, es, t0, tx, ss, |tx|);
  }

  lemma GuardedSpaced(d: DutyCycle)
    requires d.Guarded()
    ensures |d.region.bands| == 8 && WFSent(d.sent) && Spaced(d.region, d.sent)
  {
    hide Spaced, Booked, AvailAt;
  }

  /** What happens if a channel that was picked is set up or disabled before it is used: the transmission
      keeps its distance exactly if no earlier one in the band it now falls into lasts longer than until
      its start; it is enough that the band is then available. */
  method ReconfigureAndSend(d: DutyCycle, e: Event, t: int, x: int, airtime: nat) returns (tx: bool)
    requires d.Guarded() && !d.nextChnl && WFEvent(e) && (e.Setup? || e.Disable?)
    requires d.clock <= t <= x < LIFETIME && airtime * 1000 <= 0x4000_0000
    modifies d, d.bandAvail, d.chAvail, d.chUpFreq, d.chDrMap
    ensures d.Valid() && !d.noDC && |d.region.bands| == 8 && WFSent(old(d.sent)) && WFSent(d.sent)
    ensures tx == (S4(old(d.txend) - S4(x + d.rampup)) <= 0) && (!tx ==> d.sent == old(d.sent))
    ensures e.Setup? && e.freq != 0 && Takes(d.region, e.chidx, e.freq) ==> Placed(d.region, e.freq, d.chUpFreq[e.chidx])
    ensures tx ==>
              var b := BandOf(d.chUpFreq[d.txChnl]);
              && |d.sent| == |old(d.sent)| + 1 && d.sent[..|old(d.sent)|] == old(d.sent)
              && d.sent[|old(d.sent)|].beg == x + d.rampup && d.sent[|old(d.sent)|].band == b && d.txChnl == old(d.txChnl)
              && (Spaced(d.region, d.sent) <==>
                    forall i :: 0 <= i < |old(d.sent)| && old(d.sent)[i].band == b ==> BandEnd(d.region, old(d.sent)[i]) <= x + d.rampup)
              && (old(AvailAt(d.baseAvail, d.bandAvail[b])) <= x + d.rampup ==> Spaced(d.region, d.sent))
  {
    hide Ledger, Honest, AvailAt, Small, WFRegion, BandOf, ReadyBy, ServedBy, HasRate, Earliest, CanSend, Usable, S4, BandEnd, ChEnd, WithinBase, InBand, Placed, Takes, MapAfter, Spaced, Booked;
    ghost var sent, gens, bs := d.sent, d.gens, d.bandAvail[..];
    ghost var cs, pickTime := d.chAvail[..], d.pickTime;
    LedgerParts(d);
    Reconfigure(d, e, t);
    var none := seq(16, _ => false);
    ghost var checked;
    tx, checked := d.Engine(x, airtime, false, none, x);
    LedgerSent(d.region, d.sent, d.gens, d.baseAvail, d.bandAvail[..], d.chAvail[..]);
    if tx {
      SpacedAdd(d.region, sent, gens, d.gens, old(d.baseAvail), bs, cs, pickTime, d.sent[|sent|]);
      assert d.sent == sent + [d.sent[|sent|]];
    }
  }

  lemma LedgerParts(d: DutyCycle)
    requires d.Guarded()
    ensures |d.region.bands| == 8 && |d.bandAvail[..]| == 8 && |d.chAvail[..]| == 16 && |d.gens| == 16
    ensures WFSent(d.sent) && GensOk(d.sent, d.gens) && Spaced(d.region, d.sent)
    ensures Booked(d.region, d.sent, d.gens, d.baseAvail, d.bandAvail[..], d.chAvail[..])
    ensures d.picked ==> d.txChnl < 16 && AvailAt(d.baseAvail, d.chAvail[..][d.txChnl]) <= d.pickTime <= d.clock + d.rampup
  {
    hide Spaced, Booked, AvailAt;
  }

  /** One more transmission, on a channel that has been set up anew or was available before it started. */
  lemma SpacedAdd(r: Region, sent: seq<Tx>, gens: seq<nat>, gens': seq<nat>, base: int, bands: seq<nat>, chs: seq<nat>, pickTime: int, t: Tx)
    requires |r.bands| == |bands| == 8 && |gens| == |gens'| == |chs| == 16 && WFSent(sent) && GensOk(sent, gens)
    requires Spaced(r, sent) && Booked(r, sent, gens, base, bands, chs) && t.band < 8 && t.chnl < 16 && t.gen == gens'[t.chnl]
    requires gens'[t.chnl] == gens[t.chnl] || gens'[t.chnl] == gens[t.chnl] + 1
    requires AvailAt(base, chs[t.chnl]) <= pickTime <= t.beg
    ensures WFSent(sent + [t])
    ensures Spaced(r, sent + [t]) <==> forall i :: 0 <= i < |sent| && sent[i].band == t.band ==> BandEnd(r, sent[i]) <= t.beg
    ensures AvailAt(base, bands[t.band]) <= t.beg ==> Spaced(r, sent + [t])
  {
    hide AvailAt, BandEnd, ChEnd;
    var s := sent + [t];
    assert s[|sent|] == t && forall i :: 0 <= i < |sent| ==> s[i] == sent[i];
    if Spaced(r, s) {
      forall i | 0 <= i < |sent| && sent[i].band == t.band ensures BandEnd(r, sent[i]) <= t.beg {
        assert BandEnd(r, s[i]) <= s[|sent|].beg;
      }
    }
  }

  // ---------------------------------------------------------------------------------------------
  // What the spacing means

  /** Duration times cap, summed over the first n transmissions in band b whose claims lie between lo and hi. */
  function Claimed(r: Region, sent: seq<Tx>, n: nat, b: nat, lo: int, hi: int): int
    requires |r.bands| == 8 && b < 8 && WFSent(sent) && n <= |sent|
  {
    if n == 0 then 0
    else
      var t := sent[n - 1];
      Claimed(r, sent, n - 1, b, lo, hi) + if t.band == b && lo <= t.beg && BandEnd(r, t) <= hi then t.airtime * r.bands[b].cap else 0
  }

  /** The claims that lie within a window of time do not exceed it. */
  lemma {:induction false} WindowBound(r: Region, sent: seq<Tx>, n: nat, b: nat, lo: int, hi: int)
    requires WFRegion(r) && WFSent(sent) && Spaced(r, sent) && b < 8 && n <= |sent| && lo <= hi
    ensures Claimed(r, sent, n, b, lo, hi) <= hi - lo
    decreases n
  {
    hide BandEnd;
    if n > 0 {
      var t := sent[n - 1];
      if t.band == b && lo <= t.beg && BandEnd(r, t) <= hi {
        EndsAt(r, t);
        WindowBound(r, sent, n - 1, b, lo, t.beg);
        WindowEnd(r, sent, n - 1, b, lo, hi, t.beg);
      } else {
        WindowBound(r, sent, n - 1, b, lo, hi);
      }
    }
  }

  lemma EndsAt(r: Region, t: Tx)
    requires |r.bands| == 8 && t.band < 8
    ensures BandEnd(r, t) == t.beg + t.airtime * r.bands[t.band].cap >= t.beg
  {
  }

  /** If all claims of the band end by end, the window may end there. */
  lemma {:induction false} WindowEnd(r: Region, sent: seq<Tx>, n: nat, b: nat, lo: int, hi: int, end: int)
    requires WFRegion(r) && WFSent(sent) && b < 8 && n <= |sent| && end <= hi
    requires forall i :: 0 <= i < n && sent[i].band == b ==> BandEnd(r, sent[i]) <= end
    ensures Claimed(r, sent, n, b, lo, hi) == Claimed(r, sent, n, b, lo, end)
    decreases n
  {
    hide BandEnd;
    if n > 0 {
      WindowEnd(r, sent, n - 1, b, lo, hi, end);
    }
  }

  /** The air time of those of the first n transmissions that start in band b between lo and hi. */
  function OnAir(sent: seq<Tx>, n: nat, b: nat, lo: int, hi: int): nat
    requires n <= |sent|
  {
    if n == 0 then 0
    else
      var t := sent[n - 1];
      OnAir(sent, n - 1, b, lo, hi) + if t.band == b && lo <= t.beg <= hi then t.airtime else 0
  }

  /** The duty cycle: the air time that starts in a band within any window, times cap, exceeds the window
      by no more than what a single transmission claims. */
  lemma AirTimeBound(r: Region, sent: seq<Tx>, b: nat, lo: int, hi: int, longest: nat)
    requires WFRegion(r) && WFSent(sent) && Spaced(r, sent) && b < 8 && lo <= hi
    requires forall i :: 0 <= i < |sent| && sent[i].band == b ==> sent[i].airtime * r.bands[b].cap <= longest
    ensures OnAir(sent, |sent|, b, lo, hi) * r.bands[b].cap <= hi - lo + longest
  {
    OnAirClaimed(r, sent, |sent|, b, lo, hi, longest);
    WindowBound(r, sent, |sent|, b, lo, hi + longest);
  }

  lemma {:induction false} OnAirClaimed(r: Region, sent: seq<Tx>, n: nat, b: nat, lo: int, hi: int, longest: nat)
    requires WFRegion(r) && WFSent(sent) && b < 8 && n <= |sent|
    requires forall i :: 0 <= i < |sent| && sent[i].band == b ==> sent[i].airtime * r.bands[b].cap <= longest
    ensures OnAir(sent, n, b, lo, hi) * r.bands[b].cap <= Claimed(r, sent, n, b, lo, hi + longest)
    decreases n
  {
    hide BandEnd;
    if n > 0 {
      OnAirClaimed(r, sent, n - 1, b, lo, hi, longest);
      var t := sent[n - 1];
      if t.band == b {
        EndsAt(r, t);
        MulAdd(OnAir(sent, n - 1, b, lo, hi), t.airtime, r.bands[b].cap);
      }
    }
  }

  lemma MulAdd(x: nat, y: nat, c: nat)
    ensures (x + y) * c == x * c + y * c && y * c >= 0
  {
  }

  // ---------------------------------------------------------------------------------------------
  // A band without limits when the base moves

  function AS923(): (r: Region)
    ensures WFRegion(r)
  {
    Region([Band(0, 0, 1), Band(0, 0, 0), Band(0, 0, 0), Band(0, 0, 0), Band(0, 0, 0), Band(0, 0, 0), Band(0, 0, 0), Band(0, 0, 0)],
           10, seq(16, dr => dr < 6))
  }

  /** In a region without limits the base can move for the claim on the channel after the band was set: a
      transmission of one second that starts within nine seconds before the end of the first 65535 seconds
      leaves the band blocked for more than nine hours, though it claims it for one second. */
  lemma BlockedInAS923(beg: int, base': int, bs: seq<nat>, cs: seq<nat>)
    requires 65525 * OSTICKS_PER_SEC < beg <= 65534 * OSTICKS_PER_SEC
    requires Punctual(AS923(), Tx(beg, OSTICKS_PER_SEC, 0, 0, 1, true), 0, base', bs, cs)
    ensures AvailAt(base', bs[0]) > beg + OSTICKS_PER_SEC + 9 * 3600 * OSTICKS_PER_SEC
  {
    assert AS923().bands[0].lo == 0;
  }

  // ---------------------------------------------------------------------------------------------
  // A channel picked and then moved

  function EU868(): (r: Region)
    ensures WFRegion(r)
  {
    Region([Band(869400000, 869650000, 10), Band(865000000, 868000000, 100), Band(868000000, 868600000, 100),
            Band(869700000, 870000000, 100), Band(862000000, 863000000, 1000), Band(863000000, 865000000, 1000),
            Band(868700000, 869200000, 1000), Band(0, 0, 0)], 0, seq(16, dr => dr < 6))
  }

  lemma BandsOfEU868()
    ensures var bs := EU868().bands; |bs| == 8 && bs[0].lo != 0 && bs[2].cap == 100 && EU868().chTxCap == 0
    ensures forall b :: 0 <= b < 8 ==> (InBand(EU868().bands[b], 868100000) <==> b == 2)
    ensures forall b :: 0 <= b < 8 ==> (InBand(EU868().bands[b], 868300000) <==> b == 2)
    ensures forall b :: 0 <= b < 8 ==> (InBand(EU868().bands[b], 865100000) <==> b == 1)
    ensures InBand(EU868().bands[2], 868100000) && InBand(EU868().bands[2], 868300000) && InBand(EU868().bands[1], 865100000)
  {
  }

  /** When only channel c is both enabled and ready, it can be used and no other. */
  lemma OnlyChoice(sv: seq<bool>, rd: seq<int>, t: int, clear: seq<bool>, c: nat)
    requires |sv| == |rd| == |clear| == 16 && c < 16 && sv[c] && rd[c] <= t
    requires forall k :: 0 <= k < 16 && k != c ==> !sv[k] || rd[k] > t
    ensures CanSend(sv, rd, false, t, false, clear)
    ensures forall k :: 0 <= k < 16 && Usable(sv, rd, false, t, false, clear, k) ==> k == c
  {
    assert Usable(sv, rd, false, t, false, clear, c);
  }

  lemma FirstClaim(t: Tx)
    requires t.beg == 1065 && t.airtime == 32768 && t.band == 2
    ensures |EU868().bands| == 8 && BandEnd(EU868(), t) == 3277865 && WithinBase(EU868(), t, 0)
  {
  }

  lemma LedgerSent(r: Region, sent: seq<Tx>, gens: seq<nat>, base: int, bands: seq<nat>, chs: seq<nat>)
    requires |r.bands| == |bands| == 8 && |gens| == |chs| == 16 && Ledger(r, sent, gens, base, bands, chs)
    ensures WFSent(sent)
  {
  }

  /** One second has been sent on channel 0 in band 2, which is taken for 100 seconds. */
  ghost predicate FirstSent(d: DutyCycle)
    reads d, d.bandAvail, d.chAvail, d.chUpFreq, d.chDrMap
  {
    && d.Valid() && d.region == EU868() && d.rampup == 65 && !d.noDC && d.datarate == 5 && d.baseAvail == 0
    && |EU868().bands| == 8 && AllChecked(d.sent) && |d.sent| == 1 && d.sent[0].band == 2 && BandEnd(EU868(), d.sent[0]) == 3277865
    && d.txend == S4(1065) && 3277865 <= AvailAt(0, d.bandAvail[2]) && d.bandAvail[1] == 0
  }

  /** Channel 0, in band 2, is set up in a fresh session. */
  method SetupFirst() returns (d: DutyCycle)
    ensures fresh(d) && fresh(d.bandAvail) && fresh(d.chAvail) && fresh(d.chUpFreq) && fresh(d.chDrMap)
    ensures d.Valid() && d.region == EU868() && d.rampup == 65 && !d.noDC && d.datarate == 5 && d.baseAvail == 0 && d.clock == 0
    ensures d.sent == [] && d.nextChnl && d.bandAvail[..] == seq(8, _ => 0) && d.chAvail[0] == 0
    ensures BandOf(d.chUpFreq[0]) == 2 && d.Serves(0) && forall k :: 1 <= k < 16 ==> !d.channelMap[k]
  {
    hide Ledger, Honest, BandOf, WFRegion, Small, EU868, InBand;
    BandsOfEU868();
    d := new DutyCycle(EU868(), 65, 5);
    d.nextChnl := true;
    var all := seq(16, dr => dr < 6);
    var ok := d.SetupChannel(0, 868100000, all, 0);
  }

  method SendFirst() returns (d: DutyCycle)
    ensures fresh(d) && fresh(d.bandAvail) && fresh(d.chAvail) && fresh(d.chUpFreq) && fresh(d.chDrMap)
    ensures FirstSent(d) && d.clock == 1000 && d.nextChnl
    ensures BandOf(d.chUpFreq[0]) == 2 && forall k :: 1 <= k < 16 ==> !d.channelMap[k]
  {
    hide Ledger, Honest, S4, BandOf, ReadyBy, ServedBy, HasRate, WFRegion, Small, EU868, InBand, Spaced, BandEnd, WithinBase;
    var none := seq(16, _ => false);
    BandsOfEU868();
    d := SetupFirst();
    var ok;
    d.SomeRate(0);
    AvailZero(0);
    ghost var sv, rd := d.Served(), d.Ready();
    assert sv[0] == d.Serves(0) && rd[0] == d.ReadyAt(0) == 0;
    OnlyChoice(sv, rd, 1065, none, 0);
    ghost var checked;
    ok, checked := d.Engine(1000, 32768, false, none, 1000);
    assert d.txChnl == 0;
    FirstClaim(d.sent[0]);
  }

  /** Channel 1, in band 1, is set up; it is the only one that is ready. */
  method SetupSecond(d: DutyCycle)
    requires FirstSent(d) && d.clock == 1000 && d.nextChnl
    requires BandOf(d.chUpFreq[0]) == 2 && forall k :: 1 <= k < 16 ==> !d.channelMap[k]
    modifies d, d.bandAvail, d.chAvail, d.chUpFreq, d.chDrMap
    ensures FirstSent(d) && d.clock == 66000 && d.nextChnl && d.EnabledDrs() != {} && d.datarate in d.EnabledDrs()
    ensures d.Serves(1) && d.ReadyAt(1) == 0 && d.ReadyAt(0) >= 3277865 && forall k :: 2 <= k < 16 ==> !d.channelMap[k]
  {
    hide Ledger, Honest, S4, BandOf, HasRate, WFRegion, Small, EU868, InBand, Spaced, BandEnd, AvailAt;
    var all := seq(16, dr => dr < 6);
    BandsOfEU868();
    var ok := d.SetupChannel(1, 865100000, all, 66000);
    assert BandOf(d.chUpFreq[1]) == 1 && d.bandAvail[1] == 0 && BandOf(d.chUpFreq[0]) == 2;
    AvailZero(0);
    d.SomeRate(1);
  }

  /** It is then picked. */
  method PickSecond(d: DutyCycle)
    requires FirstSent(d) && d.clock == 1000 && d.nextChnl
    requires BandOf(d.chUpFreq[0]) == 2 && forall k :: 1 <= k < 16 ==> !d.channelMap[k]
    modifies d, d.bandAvail, d.chAvail, d.chUpFreq, d.chDrMap
    ensures FirstSent(d) && d.Guarded() && d.clock == 66000 && !d.nextChnl && d.txChnl == 1
  {
    hide Ledger, Honest, S4, BandOf, ReadyBy, ServedBy, HasRate, WFRegion, Small, EU868, Spaced, BandEnd, AvailAt, CanSend, Usable, Earliest;
    SetupSecond(d);
    var none := seq(16, _ => false);
    ghost var sv, rd := d.Served(), d.Ready();
    forall k | 2 <= k < 16 ensures !sv[k] {
      assert sv[k] == d.Serves(k);
    }
    OnlyChoice(sv, rd, 66000, none, 1);
    ghost var go;
    var t;
    t, go := d.NextTx(S4(66000), 66000, 66000, false, none, 66000);
    assert d.Served() == sv && d.Ready() == rd;
    d.UsableChecked(d.txChnl, 66000, false, none);
  }

  /** If a channel that has been picked for the next transmission is moved to another band before the
      transmission starts, the duty cycle of that band is not observed: channel 1 moves to band 2, and
      a second transmission follows there three seconds after the first. */
  method StalePick() returns (d: DutyCycle)
    ensures fresh(d) && d.Valid() && d.region == EU868() && !d.noDC && !Spaced(d.region, d.sent)
  {
    hide Ledger, Honest, S4, BandOf, HasRate, WFRegion, Small, EU868, InBand, Spaced, BandEnd, AvailAt;
    var all := seq(16, dr => dr < 6);
    BandsOfEU868();
    d := SendFirst();
    PickSecond(d);
    EarlierWrapped(1065, 99369);
    ghost var sent := d.sent;
    var tx := ReconfigureAndSend(d, Setup(1000, 1, 868300000, all), 67000, 99304, 32768);
    assert BandOf(d.chUpFreq[1]) == 2 && sent[0].band == 2 && BandEnd(d.region, sent[0]) > 99369;
  }

  lemma EarlierWrapped(t: int, at: int)
    requires at - 0x8000_0000 < t <= at
    ensures S4(S4(t) - S4(at)) <= 0
  {
    S4Minus(t, at);
    S4Fits(t - at);
  }
}
