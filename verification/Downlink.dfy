/** The frame counter and replay part of decodeFrame in lmic/lmic.c. */
module Downlink {
  import opened Options
  import opened Ints

  type Frame = seq<octet>

  /** The session: device address, LoRaWAN 1.1 counters or not, longest frame at the receive data rate. */
  datatype Config = Config(devaddr: nat, lorawan11: bool, maxLen: nat)

  type U32 = x: nat | x < 0x1_0000_0000

  /** The next counter expected, without and with the application port. */
  datatype Counters = Counters(dn: U32, adn: U32)

  /** A frame is refused, is a repetition to be acknowledged once more, or carries counter n. */
  datatype Outcome = Refused | Repeated | Fresh(n: U32, port: int, payload: Frame)

  function Le2(d: Frame, at: nat): (r: nat)
    requires at + 2 <= |d|
    ensures r < 0x1_0000
  {
    d[at] as nat + 0x100 * d[at + 1] as nat
  }

  function Le4(d: Frame, at: nat): nat
    requires at + 4 <= |d|
  {
    Le2(d, at) + 0x1_0000 * Le2(d, at + 2)
  }

  predicate Confirmed(d: Frame) requires |d| >= 12 { d[0] as nat / 0x20 == 5 }

  function OptLen(d: Frame): nat requires |d| >= 12 { d[5] as nat % 16 }

  /** The port byte, if the frame has one. */
  function Port(d: Frame): int
    requires |d| >= 12
  {
    if 8 + OptLen(d) < |d| - 4 then d[8 + OptLen(d)] as int else -1
  }

  function Payload(d: Frame): Frame
    requires |d| >= 12
  {
    if 8 + OptLen(d) < |d| - 4 then d[9 + OptLen(d)..|d| - 4] else []
  }

  /** Length, version, type, address, options and port are those of a data downlink to this device. */
  predicate Sane(cfg: Config, d: Frame) {
    && 12 <= |d| <= cfg.maxLen
    && d[0] as nat % 4 == 0 && (d[0] as nat / 0x20 == 3 || d[0] as nat / 0x20 == 5)
    && Le4(d, 1) == cfg.devaddr && 8 + OptLen(d) <= |d| - 4
    && !(Port(d) == 0 && OptLen(d) > 0)
  }

  predicate OnApp(cfg: Config, d: Frame) requires |d| >= 12 { cfg.lorawan11 && Port(d) > 0 }

  function Expected(s: Counters, app: bool): U32 { if app then s.adn else s.dn }

  function Advance(s: Counters, app: bool, next: U32): Counters {
    if app then s.(adn := next) else s.(dn := next)
  }

  /** The 32-bit counter nearest to the expected one that has these 16 low bits. */
  function Reconstruct(low: nat, expected: U32): U32 {
    U4(expected + S2(U4(low - expected)))
  }

  /** What decodeFrame does with frame d, when mic tells which frames verify under which counter. */
  function Decode(cfg: Config, mic: (nat, Frame) -> bool, s: Counters, d: Frame): (Counters, Outcome) {
    if !Sane(cfg, d) then (s, Refused)
    else
      var app := OnApp(cfg, d);
      var p := Expected(s, app);
      var n := Reconstruct(Le2(d, 6), p);
      if !mic(n, d) then (s, Refused)
      else if n >= p then (Advance(s, app, U4(n + 1)), Fresh(n, Port(d), Payload(d)))
      else if n == p - 1 && Confirmed(d) && S4(n) <= S4(p) then (s, Repeated)
      else (s, Refused)
  }

  class Lmic {
    const cfg: Config
    var seqnoDn: U32
    var seqnoADn: U32
    var dnConf: bool      // acknowledge with the next uplink
    var frame: Frame

    constructor (cfg: Config)
      ensures this.cfg == cfg && State() == Counters(0, 0) && !dnConf
    {
      this.cfg, seqnoDn, seqnoADn, dnConf, frame := cfg, 0, 0, false, [];
    }

    function State(): Counters
      reads this
    {
      Counters(seqnoDn, seqnoADn)
    }

    /** decodeFrame up to the handling of options: whether the frame is accepted, its port or -1, and
        the payload that is passed on. */
    method DecodeFrame(mic: (nat, Frame) -> bool) returns (ok: bool, port: int, payload: Frame)
      modifies this`seqnoDn, this`seqnoADn, this`dnConf
      ensures var (s, r) := old(Decode(cfg, mic, State(), frame));
              && State() == s && ok == !r.Refused?
              && (r.Fresh? ==> port == r.port && payload == r.payload)
              && (!r.Fresh? ==> port == -1 && payload == [])
      ensures dnConf == if ok then |frame| >= 12 && Confirmed(frame) else old(dnConf)
    {
      hide S2, S4, U4, Le2, Le4, Confirmed;
      var d := frame;
      var dlen := |d|;
      port, payload := -1, [];
      if dlen < 12 || dlen > cfg.maxLen || d[0] as nat % 4 != 0
         || (d[0] as nat / 0x20 != 3 && d[0] as nat / 0x20 != 5) {
        return false, -1, [];
      }
      var olen := d[5] as nat % 16;
      var poff, pend := 8 + olen, dlen - 4;
      if Le4(d, 1) != cfg.devaddr || poff > pend {
        return false, -1, [];
      }
      if pend > poff {
        port := d[poff] as int;
        poff := poff + 1;
      }
      if port == 0 && olen > 0 {
        return false, -1, [];
      }
      var app := port > 0 && cfg.lorawan11;
      var expected := if app then seqnoADn else seqnoDn;
      var seqno := U4(expected + S2(U4(Le2(d, 6) - expected)));
      if !mic(seqno, d) {
        return false, -1, [];
      }
      if seqno < expected {
        if S4(seqno) > S4(expected) {
          return false, -1, [];
        }
        if seqno != expected - 1 || !Confirmed(d) {
          return false, -1, [];
        }
        poff, pend, port := 8, 8, -1;
      } else if app {
        seqnoADn := U4(seqno + 1);
      } else {
        seqnoDn := U4(seqno + 1);
      }
      dnConf := Confirmed(d);
      return true, port, d[poff..pend];
    }
  }

  // ---------------------------------------------------------------------------------------------
  // Reconstruction

  /** Reconstruction gives the sender's counter exactly if it lies, modulo 2^32, within 2^15 of the
      expected one. */
  lemma ReconstructIff(n: U32, expected: U32)
    ensures Reconstruct(n % 0x1_0000, expected) == n <==> -0x8000 <= S4(n - expected) < 0x8000
  {
    hide S2, S4, U4;
    var e: int := n as int - expected as int;
    U4Fits(n);
    assert expected as int + e == n as int;
    LowBits(n, expected);
    S4Congruent(expected, S2(e), e);
    S4Fits(S2(e));
    S2OfS4(e);
    SmallS2(S4(e));
  }

  lemma LowBits(n: nat, expected: nat)
    ensures S2(U4(n % 0x1_0000 - expected)) == S2(n - expected)
  {
    var y := n % 0x1_0000 - expected;
    var k, l := y / 0x1_0000_0000, n / 0x1_0000;
    assert U4(y) == n - expected + 0x1_0000 * -(0x1_0000 * k + l);
    S2Shift(n - expected, -(0x1_0000 * k + l));
  }

  // ---------------------------------------------------------------------------------------------
  // One frame, with an ideal integrity code

  /** mic accepts a frame under the counter its sender gave it, and under no other. */
  ghost predicate Ideal(mic: (nat, Frame) -> bool, sender: Frame -> Option<U32>) {
    && (forall n: U32, d :: mic(n, d) <==> sender(d) == Some(n))
    && forall d :: sender(d).Some? ==> |d| >= 12 && sender(d).value % 0x1_0000 == Le2(d, 6)
  }

  /** Exactly which frames are delivered and which are acknowledged again. */
  lemma OutcomeIff(cfg: Config, mic: (nat, Frame) -> bool, sender: Frame -> Option<U32>, s: Counters, d: Frame)
    requires Ideal(mic, sender) && Sane(cfg, d)
    ensures var p := Expected(s, OnApp(cfg, d)); var r := Decode(cfg, mic, s, d).1;
            && (r.Fresh? <==> sender(d).Some? && sender(d).value >= p && -0x8000 <= S4(sender(d).value - p) < 0x8000)
            && (r.Fresh? ==> r.n == sender(d).value)
            && (r.Repeated? <==> sender(d).Some? && sender(d).value == p - 1 && Confirmed(d) && p != 0x8000_0000)
  {
    hide S4, Le2, Port, Payload, Reconstruct, Confirmed;
    var p := Expected(s, OnApp(cfg, d));
    if sender(d).Some? {
      var n := sender(d).value;
      ReconstructIff(n, p);
      if p as int == n as int + 1 {
        JustBelow(n, p);
      }
    }
  }

  /** A frame that is new and less than 2^15 ahead is never refused by the counter logic. */
  lemma NewFrameAccepted(cfg: Config, mic: (nat, Frame) -> bool, sender: Frame -> Option<U32>, s: Counters, d: Frame)
    requires Ideal(mic, sender) && Sane(cfg, d) && sender(d).Some?
    requires var p := Expected(s, OnApp(cfg, d)); p <= sender(d).value < p + 0x8000
    ensures Decode(cfg, mic, s, d).1 == Fresh(sender(d).value, Port(d), Payload(d))
  {
    OutcomeIff(cfg, mic, sender, s, d);
    S4Fits(sender(d).value - Expected(s, OnApp(cfg, d)));
  }

  // ---------------------------------------------------------------------------------------------
  // Frames as a network server lays them out

  /** Port and payload of a frame that has them. */
  datatype Data = Data(port: octet, payload: Frame)

  /** Byte k of a number, counted from the lowest. */
  function ByteAt(x: nat, k: nat): octet
    requires k < 4
  {
    (x / [1, 0x100, 0x1_0000, 0x100_0000][k] % 0x100) as octet
  }

  function Tail(data: Option<Data>): Frame { if data.None? then [] else [data.value.port] + data.value.payload }

  /** A data downlink: type and version, device address, flags with the length of the options, counter,
      options, port and payload, integrity code. */
  function Build(typ: octet, addr: U32, flags: nat, n: U32, opts: Frame, data: Option<Data>, code: Frame): Frame
    requires flags < 16 && |opts| < 16
  {
    [typ, ByteAt(addr, 0), ByteAt(addr, 1), ByteAt(addr, 2), ByteAt(addr, 3), (16 * flags + |opts|) as octet, ByteAt(n, 0), ByteAt(n, 1)]
    + opts + Tail(data) + code
  }

  lemma FourBytes(x: U32)
    ensures ByteAt(x, 0) as nat + 0x100 * ByteAt(x, 1) as nat == x % 0x1_0000
    ensures ByteAt(x, 2) as nat + 0x100 * ByteAt(x, 3) as nat == x / 0x1_0000
  {
    var q := x / 0x1_0000;
    assert x / 0x100_0000 == q / 0x100 && q / 0x100 < 0x100;
    var r := x % 0x1_0000;
    assert x == 0x1_0000 * q + r && x / 0x100 == 0x100 * q + r / 0x100;
  }

  /** The decoder reads back every field. */
  lemma BuiltFields(typ: octet, addr: U32, flags: nat, n: U32, opts: Frame, data: Option<Data>, code: Frame)
    requires flags < 16 && |opts| < 16 && |code| == 4
    ensures var d := Build(typ, addr, flags, n, opts, data, code);
            && |d| == 12 + |opts| + |Tail(data)| && d[0] == typ && Le4(d, 1) == addr && Le2(d, 6) == n % 0x1_0000 && OptLen(d) == |opts|
            && Port(d) == (if data.None? then -1 else data.value.port as int)
            && Payload(d) == (if data.None? then [] else data.value.payload)
  {
    hide ByteAt, Build;
    var d := Build(typ, addr, flags, n, opts, data, code);
    FourBytes(addr);
    FourBytes(n);
    BuiltShape(typ, addr, flags, n, opts, data, code);
    assert (16 * flags + |opts|) % 16 == |opts|;
    if data.Some? {
      PortFirst(d, 8 + |opts|, Tail(data));
    }
  }

  lemma PortFirst(d: Frame, at: nat, tail: Frame)
    requires at + 4 <= |d| && tail != [] && d[at..|d| - 4] == tail
    ensures at < |d| - 4 && d[at] == tail[0] && d[at + 1..|d| - 4] == tail[1..]
  {
    assert d[at] == d[at..|d| - 4][0];
    assert d[at + 1..|d| - 4] == d[at..|d| - 4][1..];
  }

  lemma BuiltShape(typ: octet, addr: U32, flags: nat, n: U32, opts: Frame, data: Option<Data>, code: Frame)
    requires flags < 16 && |opts| < 16 && |code| == 4
    ensures var d := Build(typ, addr, flags, n, opts, data, code);
            && |d| == 12 + |opts| + |Tail(data)| && d[0] == typ && d[5] as int == 16 * flags + |opts|
            && d[1] == ByteAt(addr, 0) && d[2] == ByteAt(addr, 1) && d[3] == ByteAt(addr, 2) && d[4] == ByteAt(addr, 3)
            && d[6] == ByteAt(n, 0) && d[7] == ByteAt(n, 1) && d[8 + |opts|..|d| - 4] == Tail(data)
  {
    hide ByteAt, Tail;
  }

  /** What becomes of a frame that is laid out like this for the device, when the integrity code verifies
      under the counter n of the sender and no other: exactly if n is not below the expected counter,
      and within 2^15 of it modulo 2^32, its port and payload are delivered and n + 1 is expected next. */
  lemma BuiltDelivered(cfg: Config, mic: (nat, Frame) -> bool, s: Counters, typ: octet, flags: nat, n: U32, opts: Frame,
                       data: Option<Data>, code: Frame)
    requires flags < 16 && |opts| < 16 && |code| == 4 && cfg.devaddr < 0x1_0000_0000
    requires typ as nat % 4 == 0 && typ as nat / 0x20 in {3, 5} && (data.Some? && data.value.port == 0 ==> opts == [])
    requires var d := Build(typ, cfg.devaddr, flags, n, opts, data, code);
             |d| <= cfg.maxLen && forall k: nat :: mic(k, d) <==> k == n
    ensures var d := Build(typ, cfg.devaddr, flags, n, opts, data, code);
            var app := cfg.lorawan11 && data.Some? && data.value.port > 0;
            var p, next: U32 := if app then s.adn else s.dn, (n + 1) % 0x1_0000_0000;
            var (s', r) := Decode(cfg, mic, s, d);
            if n >= p && -0x8000 <= S4(n - p) < 0x8000 then
              && s' == (if app then s.(adn := next) else s.(dn := next))
              && r == (if data.None? then Fresh(n, -1, []) else Fresh(n, data.value.port as int, data.value.payload))
            else
              s' == s && (r == Repeated <==> n == p - 1 && typ as nat / 0x20 == 5 && p != 0x8000_0000) && (r == Repeated || r == Refused)
  {
    hide Build, Le2, Le4, Port, Payload, OptLen, Reconstruct, S4;
    var d := Build(typ, cfg.devaddr, flags, n, opts, data, code);
    BuiltFields(typ, cfg.devaddr, flags, n, opts, data, code);
    assert Sane(cfg, d);
    var p := Expected(s, OnApp(cfg, d));
    ReconstructIff(n, p);
    if p as int == n as int + 1 {
      JustBelow(n, p);
    }
  }

  /** The comparison as signed numbers tells only whether the expected counter is 2^31. */
  lemma JustBelow(n: U32, p: U32)
    requires p as int == n as int + 1
    ensures -0x8000 <= S4(n as int - p as int) < 0x8000 && (S4(n) <= S4(p) <==> p != 0x8000_0000)
  {
  }

  // ---------------------------------------------------------------------------------------------
  // Runs: frames in any order, with losses and repetitions

  function After(cfg: Config, mic: (nat, Frame) -> bool, s: Counters, ds: seq<Frame>): Counters {
    if ds == [] then s else Decode(cfg, mic, After(cfg, mic, s, ds[..|ds| - 1]), ds[|ds| - 1]).0
  }

  /** What happens to frame i of the run. */
  function At(cfg: Config, mic: (nat, Frame) -> bool, s: Counters, ds: seq<Frame>, i: nat): Outcome
    requires i < |ds|
  {
    Decode(cfg, mic, After(cfg, mic, s, ds[..i]), ds[i]).1
  }

  /** Frame i of the run is delivered under the application counter or the other one. */
  predicate Delivered(cfg: Config, mic: (nat, Frame) -> bool, s: Counters, ds: seq<Frame>, i: nat, app: bool)
    requires i < |ds|
  {
    At(cfg, mic, s, ds, i).Fresh? && |ds[i]| >= 12 && OnApp(cfg, ds[i]) == app
  }

  /** No delivered frame has the last of all counters. */
  ghost predicate NoWrap(cfg: Config, mic: (nat, Frame) -> bool, s: Counters, ds: seq<Frame>) {
    forall i :: 0 <= i < |ds| && At(cfg, mic, s, ds, i).Fresh? ==> At(cfg, mic, s, ds, i).n != 0xFFFF_FFFF
  }

  /** A delivered frame sets the expected counter to the next one; no other frame moves it. */
  lemma DecodeMoves(cfg: Config, mic: (nat, Frame) -> bool, s: Counters, d: Frame, app: bool)
    ensures var (s', r) := Decode(cfg, mic, s, d);
            if r.Fresh? && |d| >= 12 && OnApp(cfg, d) == app
            then r.n >= Expected(s, app) && Expected(s', app) == U4(r.n + 1)
            else Expected(s', app) == Expected(s, app)
  {
    hide Port, Payload, Reconstruct, Confirmed, S4, U4;
  }

  /** After delivery of frame i the expected counter stays above its counter. */
  lemma {:induction false} StaysAbove(cfg: Config, mic: (nat, Frame) -> bool, s: Counters, ds: seq<Frame>, i: nat, j: nat, app: bool)
    requires i < j <= |ds| && NoWrap(cfg, mic, s, ds) && Delivered(cfg, mic, s, ds, i, app)
    ensures Expected(After(cfg, mic, s, ds[..j]), app) > At(cfg, mic, s, ds, i).n
    decreases j
  {
    hide Decode, OnApp, Expected;
    DecodeMoves(cfg, mic, After(cfg, mic, s, ds[..j - 1]), ds[j - 1], app);
    assert ds[..j][..j - 1] == ds[..j - 1];
    if j > i + 1 {
      StaysAbove(cfg, mic, s, ds, i, j - 1, app);
      assert At(cfg, mic, s, ds, j - 1).Fresh? ==> At(cfg, mic, s, ds, j - 1).n != 0xFFFF_FFFF;
    }
  }

  /** Under each counter, the frames delivered have strictly increasing counters. */
  lemma CountersIncrease(cfg: Config, mic: (nat, Frame) -> bool, s: Counters, ds: seq<Frame>, i: nat, j: nat, app: bool)
    requires i < j < |ds| && NoWrap(cfg, mic, s, ds)
    requires Delivered(cfg, mic, s, ds, i, app) && Delivered(cfg, mic, s, ds, j, app)
    ensures At(cfg, mic, s, ds, i).n < At(cfg, mic, s, ds, j).n
  {
    hide Decode, OnApp, Expected;
    StaysAbove(cfg, mic, s, ds, i, j, app);
    DecodeMoves(cfg, mic, After(cfg, mic, s, ds[..j]), ds[j], app);
  }

  /** No frame is delivered twice, however often and in whatever order frames arrive. */
  lemma DeliveredOnce(cfg: Config, mic: (nat, Frame) -> bool, sender: Frame -> Option<U32>, s: Counters, ds: seq<Frame>, i: nat, j: nat)
    requires Ideal(mic, sender) && NoWrap(cfg, mic, s, ds) && i < j < |ds|
    requires At(cfg, mic, s, ds, i).Fresh? && At(cfg, mic, s, ds, j).Fresh?
    ensures ds[i] != ds[j]
  {
    OutcomeIff(cfg, mic, sender, After(cfg, mic, s, ds[..i]), ds[i]);
    OutcomeIff(cfg, mic, sender, After(cfg, mic, s, ds[..j]), ds[j]);
    if ds[i] == ds[j] {
      CountersIncrease(cfg, mic, s, ds, i, j, OnApp(cfg, ds[i]));
    }
  }

  // ---------------------------------------------------------------------------------------------
  // When a frame can be delivered twice

  const LAST: U32 := 0xFFFF_FFFF

  /** No frame of the run is delivered twice. */
  ghost predicate Once(cfg: Config, mic: (nat, Frame) -> bool, s: Counters, ds: seq<Frame>) {
    forall i, j :: 0 <= i < j < |ds| && At(cfg, mic, s, ds, i).Fresh? && At(cfg, mic, s, ds, j).Fresh? ==> ds[i] != ds[j]
  }

  /** No frame that its sender gave the last of all counters is delivered. */
  ghost predicate NeverLast(cfg: Config, mic: (nat, Frame) -> bool, sender: Frame -> Option<U32>, s: Counters, ds: seq<Frame>) {
    forall i :: 0 <= i < |ds| && At(cfg, mic, s, ds, i).Fresh? ==> sender(ds[i]) != Some(LAST)
  }

  /** The run consists of frames that air puts on the channel, in any order and any number. */
  ghost predicate From(air: Frame -> bool, ds: seq<Frame>) { forall i :: 0 <= i < |ds| ==> air(ds[i]) }

  lemma NeverLastNoWrap(cfg: Config, mic: (nat, Frame) -> bool, sender: Frame -> Option<U32>, s: Counters, ds: seq<Frame>)
    requires Ideal(mic, sender)
    ensures NeverLast(cfg, mic, sender, s, ds) <==> NoWrap(cfg, mic, s, ds)
  {
    hide Decode, Ideal, Sane;
    forall i | 0 <= i < |ds| && At(cfg, mic, s, ds, i).Fresh? ensures sender(ds[i]) == Some(At(cfg, mic, s, ds, i).n) {
      FreshIsSender(cfg, mic, sender, After(cfg, mic, s, ds[..i]), ds[i]);
    }
  }

  lemma FreshIsSender(cfg: Config, mic: (nat, Frame) -> bool, sender: Frame -> Option<U32>, s: Counters, d: Frame)
    requires Ideal(mic, sender) && Decode(cfg, mic, s, d).1.Fresh?
    ensures Sane(cfg, d) && sender(d) == Some(Decode(cfg, mic, s, d).1.n)
  {
    OutcomeIff(cfg, mic, sender, s, d);
  }

  /** A frame that is delivered under the last counter wraps the expected one to zero, and is then
      delivered again and again. */
  lemma WrapDeliversTwice(cfg: Config, mic: (nat, Frame) -> bool, s: Counters, d: Frame)
    requires Decode(cfg, mic, s, d).1.Fresh? && Decode(cfg, mic, s, d).1.n == LAST
    ensures Decode(cfg, mic, Decode(cfg, mic, s, d).0, d).1 == Decode(cfg, mic, s, d).1
  {
    hide Decode, Sane, Port, Payload, Reconstruct, Le2, U4, OnApp, Expected;
    FreshParts(cfg, mic, s, d);
    ReconstructLow(Le2(d, 6), Expected(s, OnApp(cfg, d)));
    DecodeMoves(cfg, mic, s, d, OnApp(cfg, d));
    U4Last();
    LastAccepted(cfg, mic, Decode(cfg, mic, s, d).0, d);
  }

  lemma U4Last()
    ensures U4(LAST + 1) == 0
  {
  }

  lemma FreshParts(cfg: Config, mic: (nat, Frame) -> bool, s: Counters, d: Frame)
    requires Decode(cfg, mic, s, d).1.Fresh?
    ensures var n := Decode(cfg, mic, s, d).1.n;
            && Sane(cfg, d) && |d| >= 12 && mic(n, d) && Decode(cfg, mic, s, d).1 == Fresh(n, Port(d), Payload(d))
            && n == Reconstruct(Le2(d, 6), Expected(s, OnApp(cfg, d)))
  {
    hide Reconstruct, Le2, Port, Payload;
  }

  /** With the expected counter at zero again, a frame with the last counter is accepted. */
  lemma LastAccepted(cfg: Config, mic: (nat, Frame) -> bool, s: Counters, d: Frame)
    requires Sane(cfg, d) && |d| >= 12 && Le2(d, 6) == 0xFFFF && mic(LAST, d) && Expected(s, OnApp(cfg, d)) == 0
    ensures Decode(cfg, mic, s, d).1 == Fresh(LAST, Port(d), Payload(d))
  {
    hide Reconstruct, Port, Payload, Sane, OnApp;
    ReconstructIff(LAST, 0);
  }

  /** Reconstruction keeps the low bits. */
  lemma ReconstructLow(low: nat, expected: U32)
    requires low < 0x1_0000
    ensures Reconstruct(low, expected) % 0x1_0000 == low
  {
    hide S2, U4;
    var y: int := low - expected as int;
    S2Steps(y);
    U4Steps(expected + S2(U4(y)));
  }

  lemma S2Steps(y: int)
    ensures (S2(U4(y)) - y) % 0x1_0000 == 0
  {
    hide S2;
    var k := y / 0x1_0000_0000;
    assert U4(y) == y + 0x1_0000 * (-0x1_0000 * k);
    S2Shift(y, -0x1_0000 * k);
    S2Multiple(y);
  }

  lemma S2Multiple(y: int)
    ensures (S2(y) - y) % 0x1_0000 == 0
  {
    var q := (y + 0x8000) / 0x1_0000;
    assert S2(y) - y == 0x1_0000 * -q;
  }

  lemma U4Steps(y: int)
    ensures (U4(y) - y) % 0x1_0000 == 0
  {
  }

  /** Whatever frames there are: no run of them delivers a frame twice exactly if no run of them
      delivers a frame under the last counter. */
  lemma OnceIff(cfg: Config, mic: (nat, Frame) -> bool, sender: Frame -> Option<U32>, s: Counters, air: Frame -> bool)
    requires Ideal(mic, sender)
    ensures (forall ds :: From(air, ds) ==> Once(cfg, mic, s, ds)) <==> (forall ds :: From(air, ds) ==> NeverLast(cfg, mic, sender, s, ds))
  {
    hide Ideal, Once, NeverLast;
    if forall ds :: From(air, ds) ==> NeverLast(cfg, mic, sender, s, ds) {
      forall ds | From(air, ds) ensures Once(cfg, mic, s, ds) {
        NeverLastOnce(cfg, mic, sender, s, ds);
      }
    }
    if forall ds :: From(air, ds) ==> Once(cfg, mic, s, ds) {
      forall ds | From(air, ds) ensures NeverLast(cfg, mic, sender, s, ds) {
        OnceNeverLast(cfg, mic, sender, s, air, ds);
      }
    }
  }

  lemma NeverLastOnce(cfg: Config, mic: (nat, Frame) -> bool, sender: Frame -> Option<U32>, s: Counters, ds: seq<Frame>)
    requires Ideal(mic, sender) && NeverLast(cfg, mic, sender, s, ds)
    ensures Once(cfg, mic, s, ds)
  {
    hide Ideal, At, NoWrap, NeverLast;
    NeverLastNoWrap(cfg, mic, sender, s, ds);
    forall i, j | 0 <= i < j < |ds| && At(cfg, mic, s, ds, i).Fresh? && At(cfg, mic, s, ds, j).Fresh? ensures ds[i] != ds[j] {
      DeliveredOnce(cfg, mic, sender, s, ds, i, j);
    }
  }

  lemma OnceNeverLast(cfg: Config, mic: (nat, Frame) -> bool, sender: Frame -> Option<U32>, s: Counters, air: Frame -> bool, ds: seq<Frame>)
    requires Ideal(mic, sender) && From(air, ds) && forall es :: From(air, es) ==> Once(cfg, mic, s, es)
    ensures NeverLast(cfg, mic, sender, s, ds)
  {
    hide Ideal, Once, Decode;
    forall i | 0 <= i < |ds| && At(cfg, mic, s, ds, i).Fresh? ensures sender(ds[i]) != Some(LAST) {
      FreshIsSender(cfg, mic, sender, After(cfg, mic, s, ds[..i]), ds[i]);
      if sender(ds[i]) == Some(LAST) {
        assert From(air, ds[..i + 1] + [ds[i]]);
        LastRepeats(cfg, mic, s, ds, i);
        assert false;
      }
    }
  }

  /** Once a frame has been delivered under the last counter, the same frame next is a second delivery. */
  lemma LastRepeats(cfg: Config, mic: (nat, Frame) -> bool, s: Counters, ds: seq<Frame>, i: nat)
    requires i < |ds| && At(cfg, mic, s, ds, i).Fresh? && At(cfg, mic, s, ds, i).n == LAST
    ensures !Once(cfg, mic, s, ds[..i + 1] + [ds[i]])
  {
    hide Decode;
    var es := ds[..i + 1] + [ds[i]];
    assert es[..i] == ds[..i] && es[..i + 1] == ds[..i + 1] && ds[..i + 1][..i] == ds[..i];
    WrapDeliversTwice(cfg, mic, After(cfg, mic, s, ds[..i]), ds[i]);
    assert At(cfg, mic, s, es, i).Fresh? && At(cfg, mic, s, es, i + 1).Fresh? && es[i] == es[i + 1];
  }

  /** As long as no frame with the last counter arrives, no frame is delivered twice. */
  lemma OnceWithoutLast(cfg: Config, mic: (nat, Frame) -> bool, sender: Frame -> Option<U32>, s: Counters, ds: seq<Frame>)
    requires Ideal(mic, sender) && forall i :: 0 <= i < |ds| ==> sender(ds[i]) != Some(LAST)
    ensures Once(cfg, mic, s, ds)
  {
    hide Ideal, At, Once;
    NeverLastOnce(cfg, mic, sender, s, ds);
  }

  // ---------------------------------------------------------------------------------------------
  // Repeated acknowledgements

  /** The sender uses each counter, with or without the application port, for one frame. */
  ghost predicate OneFrame(cfg: Config, sender: Frame -> Option<U32>) {
    forall d, d' :: sender(d).Some? && sender(d) == sender(d') && |d| >= 12 && |d'| >= 12 && OnApp(cfg, d) == OnApp(cfg, d') ==> d == d'
  }

  /** Only the frame delivered last under a counter is acknowledged again, and only if it was confirmed. */
  lemma {:induction false} RepeatedIsLast(cfg: Config, mic: (nat, Frame) -> bool, sender: Frame -> Option<U32>, s: Counters,
                                          ds: seq<Frame>, i: nat, j: nat)
    requires Ideal(mic, sender) && NoWrap(cfg, mic, s, ds) && i < j < |ds| && At(cfg, mic, s, ds, j).Repeated?
    requires |ds[j]| >= 12 && Delivered(cfg, mic, s, ds, i, OnApp(cfg, ds[j]))
    requires forall k :: i < k < j ==> !Delivered(cfg, mic, s, ds, k, OnApp(cfg, ds[j]))
    ensures sender(ds[j]) == sender(ds[i]) && Confirmed(ds[j])
    ensures OneFrame(cfg, sender) ==> ds[j] == ds[i] && Confirmed(ds[i])
  {
    var app := OnApp(cfg, ds[j]);
    OutcomeIff(cfg, mic, sender, After(cfg, mic, s, ds[..i]), ds[i]);
    OutcomeIff(cfg, mic, sender, After(cfg, mic, s, ds[..j]), ds[j]);
    ExpectedKept(cfg, mic, s, ds, i, j, app);
  }

  /** In a fresh session a frame is acknowledged again only if it is the one delivered last under its
      counter, and was confirmed. */
  lemma RepeatedFrame(cfg: Config, mic: (nat, Frame) -> bool, sender: Frame -> Option<U32>, ds: seq<Frame>, j: nat) returns (i: nat)
    requires var s := Counters(0, 0); Ideal(mic, sender) && NoWrap(cfg, mic, s, ds) && j < |ds| && At(cfg, mic, s, ds, j).Repeated?
    ensures var s := Counters(0, 0);
            && |ds[j]| >= 12 && i < j && Delivered(cfg, mic, s, ds, i, OnApp(cfg, ds[j]))
            && (forall k :: i < k < j ==> !Delivered(cfg, mic, s, ds, k, OnApp(cfg, ds[j])))
            && sender(ds[j]) == sender(ds[i]) && Confirmed(ds[j])
            && (OneFrame(cfg, sender) ==> ds[j] == ds[i] && Confirmed(ds[i]))
  {
    hide Ideal, NoWrap, Delivered, Decode;
    var s := Counters(0, 0);
    RepeatedExpects(cfg, mic, After(cfg, mic, s, ds[..j]), ds[j]);
    i := LastDelivery(cfg, mic, ds, j, OnApp(cfg, ds[j]));
    RepeatedIsLast(cfg, mic, sender, s, ds, i, j);
  }

  lemma RepeatedExpects(cfg: Config, mic: (nat, Frame) -> bool, s: Counters, d: Frame)
    requires Decode(cfg, mic, s, d).1.Repeated?
    ensures |d| >= 12 && Expected(s, OnApp(cfg, d)) > 0
  {
  }

  /** If a counter of a fresh session has moved, some frame was delivered under it, one of them last. */
  lemma {:induction false} LastDelivery(cfg: Config, mic: (nat, Frame) -> bool, ds: seq<Frame>, j: nat, app: bool) returns (i: nat)
    requires j <= |ds| && Expected(After(cfg, mic, Counters(0, 0), ds[..j]), app) > 0
    ensures i < j && Delivered(cfg, mic, Counters(0, 0), ds, i, app)
    ensures forall k :: i < k < j ==> !Delivered(cfg, mic, Counters(0, 0), ds, k, app)
    decreases j
  {
    hide Decode, OnApp;
    var s := Counters(0, 0);
    assert ds[..0] == [];
    if j == 0 {
      assert false;
    } else {
      assert ds[..j][..j - 1] == ds[..j - 1];
      if Delivered(cfg, mic, s, ds, j - 1, app) {
        return j - 1;
      }
      DecodeMoves(cfg, mic, After(cfg, mic, s, ds[..j - 1]), ds[j - 1], app);
      i := LastDelivery(cfg, mic, ds, j - 1, app);
    }
  }

  lemma {:induction false} ExpectedKept(cfg: Config, mic: (nat, Frame) -> bool, s: Counters, ds: seq<Frame>, i: nat, j: nat, app: bool)
    requires NoWrap(cfg, mic, s, ds) && i < j <= |ds| && Delivered(cfg, mic, s, ds, i, app)
    requires forall k :: i < k < j ==> !Delivered(cfg, mic, s, ds, k, app)
    ensures Expected(After(cfg, mic, s, ds[..j]), app) == At(cfg, mic, s, ds, i).n + 1
    decreases j
  {
    hide Decode, OnApp, Expected;
    DecodeMoves(cfg, mic, After(cfg, mic, s, ds[..j - 1]), ds[j - 1], app);
    assert ds[..j][..j - 1] == ds[..j - 1];
    if j > i + 1 {
      ExpectedKept(cfg, mic, s, ds, i, j - 1, app);
      assert !Delivered(cfg, mic, s, ds, j - 1, app);
    }
  }
}
