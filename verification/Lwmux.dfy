/** services/lwmux/lwmux.c without slotted mode: uplink requests, join and shutdown share one radio. */
module Lwmux {
  import opened Options

  datatype Mode = Shutdown | Normal

  /** The callback state.job is queued for. */
  datatype Pending = Idle | Join | TxNext | TxOpportunity

  /** lwm_job, identified by a number. */
  datatype Request = Request(job: nat, prio: nat)

  /** A transmission of a job, and whether the job named a completion function. */
  datatype Sending = Sending(job: nat, notify: bool)

  /** The jobs whose completion function is called once these transmissions are over. */
  function Notified(s: seq<Sending>): seq<nat> {
    if s == [] then []
    else
      var last := s[|s| - 1];
      Notified(s[..|s| - 1]) + if last.notify then [last.job] else []
  }

  /** Highest priority first. */
  ghost predicate Sorted(q: seq<Request>) { forall i, j :: 0 <= i < j < |q| ==> q[i].prio >= q[j].prio }

  /** Jobs at most once. */
  ghost predicate Unique(q: seq<Request>) { forall i, j :: 0 <= i < j < |q| ==> q[i].job != q[j].job }

  /** The first n requests are eligible, but their jobs have nothing to send. */
  ghost predicate Skipped(q: seq<Request>, n: nat, wants: nat -> bool, prio: nat) {
    n <= |q| && forall i :: 0 <= i < n ==> !wants(q[i].job) && q[i].prio >= prio
  }

  ghost predicate SendQueue(q: seq<Request>) { Sorted(q) && Unique(q) }

  /** Where the job is in the queue, or |q|. */
  function Find(q: seq<Request>, job: nat): (k: nat)
    ensures k <= |q| && (k < |q| ==> q[k].job == job) && forall i :: 0 <= i < k ==> q[i].job != job
  {
    if q == [] || q[0].job == job then 0
    else
      var k := Find(q[1..], job);
      assert forall i :: 1 <= i <= k && i < |q| ==> q[i] == q[1..][i - 1];
      1 + k
  }

  function Without(q: seq<Request>, job: nat): seq<Request> {
    var k := Find(q, job);
    if k < |q| then q[..k] + q[k + 1..] else q
  }

  /** How many requests are not to be overtaken by one of this priority. */
  function Ahead(q: seq<Request>, prio: nat): (k: nat)
    ensures k <= |q| && (forall i :: 0 <= i < k ==> q[i].prio >= prio) && (k < |q| ==> q[k].prio < prio)
  {
    if q == [] || q[0].prio < prio then 0
    else
      var k := Ahead(q[1..], prio);
      assert forall i :: 1 <= i <= k && i < |q| ==> q[i] == q[1..][i - 1];
      1 + k
  }

  /** Behind all requests of at least the same priority. */
  function Insert(q: seq<Request>, r: Request): seq<Request> {
    q[..Ahead(q, r.prio)] + [r] + q[Ahead(q, r.prio)..]
  }

  /** The callback tx_next leaves pending: itself until LMIC_nextTx has decided on a channel. */
  function Chosen(nextchnl: bool): Pending { if nextchnl then TxNext else TxOpportunity }

  lemma WithoutQueue(q: seq<Request>, job: nat)
    requires SendQueue(q)
    ensures SendQueue(Without(q, job)) && Find(Without(q, job), job) == |Without(q, job)|
  {
    var k, r := Find(q, job), Without(q, job);
    assert forall i :: 0 <= i < |r| ==> r[i] == if i < k then q[i] else q[i + 1];
  }

  lemma InsertAt(q: seq<Request>, r: Request)
    ensures var k, s := Ahead(q, r.prio), Insert(q, r);
            |s| == |q| + 1 && forall i :: 0 <= i <= |q| ==> s[i] == if i < k then q[i] else if i == k then r else q[i - 1]
  {
  }

  lemma InsertPair(q: seq<Request>, r: Request, i: nat, j: nat)
    requires SendQueue(q) && Find(q, r.job) == |q| && i < j <= |q|
    ensures |Insert(q, r)| == |q| + 1
    ensures Insert(q, r)[i].prio >= Insert(q, r)[j].prio && Insert(q, r)[i].job != Insert(q, r)[j].job
  {
    InsertAt(q, r);
    hide Insert;
    var k, s := Ahead(q, r.prio), Insert(q, r);
    var x := if i < k then q[i] else if i == k then r else q[i - 1];
    var y := if j < k then q[j] else if j == k then r else q[j - 1];
    assert s[i] == x && s[j] == y;
    if i == k {
      assert q[k].prio < r.prio && q[j - 1].job != r.job && (j - 1 == k || q[j - 1].prio <= q[k].prio);
    } else if j == k {
      assert q[i].prio >= r.prio && q[i].job != r.job;
    } else {
      var a, b := if i < k then i else i - 1, if j < k then j else j - 1;
      assert x == q[a] && y == q[b] && a < b;
    }
  }

  lemma InsertQueue(q: seq<Request>, r: Request)
    requires SendQueue(q) && Find(q, r.job) == |q|
    ensures SendQueue(Insert(q, r))
  {
    InsertAt(q, r);
    hide Insert, Ahead, Find;
    var s := Insert(q, r);
    forall i, j | 0 <= i < j < |s| ensures s[i].prio >= s[j].prio && s[i].job != s[j].job {
      InsertPair(q, r, i, j);
    }
  }

  class Mux {
    var modeSwitch: bool
    var busy: bool
    var joining: bool
    var shutdown: bool
    var mode: Mode
    var nextMode: Mode
    var queue: seq<Request>
    var runprio: nat
    var completefunc: Option<nat>   // the job whose completion function is to be called
    var pending: Pending
    var jcnt: nat
    ghost var completed: seq<nat>   // jobs whose completion function has been called
    ghost var sent: seq<Sending>    // transmissions that have started
    ghost var stops: nat            // calls of LMIC_shutdown by do_shutdown

    constructor ()
      ensures Valid() && mode == Shutdown && queue == [] && pending == Idle && sent == [] && completed == []
    {
      modeSwitch, busy, joining, shutdown := false, false, false, false;
      mode, nextMode, queue, runprio, completefunc, pending, jcnt := Shutdown, Shutdown, [], 0, None, Idle, 0;
      completed, sent, stops := [], [], 0;
    }

    /** Some request has the priority to run. */
    ghost predicate Eligible()
      reads this
    {
      exists i :: 0 <= i < |queue| && queue[i].prio >= runprio
    }

    /** The last transmission is under way; its completion function, if any, is still to be called. */
    ghost predicate InFlight()
      reads this
    {
      && sent != [] && completed == Notified(sent[..|sent| - 1])
      && completefunc == if sent[|sent| - 1].notify then Some(sent[|sent| - 1].job) else None
    }

    ghost predicate Valid()
      reads this
    {
      && SendQueue(queue)
      && (busy ==> pending == Idle && mode == Normal)
      && (joining && !busy <==> pending == Join)
      && (joining ==> mode == Normal && !modeSwitch)
      && (mode == Shutdown ==> pending == Idle)
      && (modeSwitch <==> shutdown) && (modeSwitch ==> busy)
      && (mode == Normal && !busy && !joining && Eligible() ==> pending == TxNext || pending == TxOpportunity)
      && (if busy && !joining then InFlight() else completed == Notified(sent) && completefunc == None)
    }

    // -------------------------------------------------------------------------------------------
    // Requests

    /** lwm_clear_send */
    method ClearSend(job: nat) returns (r: bool)
      requires Valid()
      modifies this`queue
      ensures Valid() && queue == Without(old(queue), job) && r == (Find(old(queue), job) < |old(queue)|)
    {
      hide Find;
      WithoutQueue(queue, job);
      WithoutSubset(queue, job, runprio);
      var k := 0;
      while k < |queue|
        invariant 0 <= k <= |queue| && queue == old(queue) && forall i :: 0 <= i < k ==> queue[i].job != job
      {
        if queue[k].job == job {
          FindIs(queue, job, k);
          queue := queue[..k] + queue[k + 1..];
          return true;
        }
        k := k + 1;
      }
      FindIs(queue, job, k);
      return false;
    }

    /** lwm_request_send: nextchnl is whether LMIC_nextTx leaves the channel undecided. */
    method RequestSend(job: nat, priority: nat, nextchnl: bool)
      requires Valid()
      modifies this`queue, this`pending
      ensures Valid() && queue == Insert(Without(old(queue), job), Request(job, priority))
      ensures pending == if mode == Normal && !busy && !joining then Chosen(nextchnl) else old(pending)
    {
      hide Find, Ahead, Insert, Without, Sorted, Unique;
      WithoutQueue(queue, job);
      var r := ClearSend(job);
      InsertQueue(queue, Request(job, priority));
      var k := 0;
      while k < |queue| && queue[k].prio >= priority
        invariant 0 <= k <= |queue| && queue == Without(old(queue), job) && pending == old(pending)
        invariant forall i :: 0 <= i < k ==> queue[i].prio >= priority
      {
        k := k + 1;
      }
      AheadIs(queue, Request(job, priority), k);
      queue := queue[..k] + [Request(job, priority)] + queue[k..];
      if mode != Shutdown && !busy && !joining {
        TxNextCallback(nextchnl);
      }
    }

    /** lwm_setpriority */
    method SetPriority(priority: nat, nextchnl: bool) returns (prev: nat)
      requires Valid()
      modifies this`runprio, this`pending
      ensures Valid() && prev == old(runprio) && runprio == priority
      ensures pending == if mode == Normal && !busy && !joining then Chosen(nextchnl) else old(pending)
    {
      prev := runprio;
      runprio := priority;
      if mode != Shutdown && !busy && !joining {
        TxNextCallback(nextchnl);
      }
    }

    /** tx_next */
    method TxNextCallback(nextchnl: bool)
      modifies this`pending
      ensures pending == Chosen(nextchnl)
    {
      pending := Chosen(nextchnl);
    }

    // -------------------------------------------------------------------------------------------
    // Callbacks of the scheduler; each takes the job off its queue first

    /** The scheduler runs tx_next. */
    method RunTxNext(nextchnl: bool)
      requires Valid() && pending == TxNext
      modifies this`pending
      ensures Valid() && pending == Chosen(nextchnl)
    {
      pending := Idle;
      TxNextCallback(nextchnl);
    }

    /** The scheduler runs tx_opportunity: wants tells which jobs have something to send, notify which
        of them name a completion function. The first eligible job that has is sent; the eligible ones
        before it are dropped; no other is. */
    method RunTxOpportunity(wants: nat -> bool, notify: nat -> bool)
      requires Valid() && pending == TxOpportunity
      modifies this`pending, this`queue, this`busy, this`completefunc, this`sent
      ensures Valid() && pending == Idle
      ensures |queue| <= |old(queue)| && queue == old(queue)[|old(queue)| - |queue|..]
      ensures var n := |old(queue)| - |queue|;
              if busy then
                && n > 0 && sent == old(sent) + [Sending(old(queue)[n - 1].job, notify(old(queue)[n - 1].job))]
                && wants(old(queue)[n - 1].job) && old(queue)[n - 1].prio >= runprio
                && Skipped(old(queue), n - 1, wants, runprio)
              else
                && sent == old(sent) && Skipped(old(queue), n, wants, runprio)
                && forall i :: 0 <= i < |queue| ==> queue[i].prio < runprio
    {
      hide Unique, Sorted, Notified, Skipped;
      pending := Idle;
      assert !busy && !joining;
      ghost var q, n := queue, 0;
      SkippedNone(q, wants, runprio);
      while queue != [] && queue[0].prio >= runprio
        invariant 0 <= n <= |q| && queue == q[n..] && !busy && pending == Idle && sent == old(sent) && completefunc == None && SendQueue(queue)
        invariant Skipped(q, n, wants, runprio)
        decreases |queue|
      {
        var job := queue[0].job;
        SendRest(queue);
        if !wants(job) {
          SkippedAdd(q, n, wants, runprio);
        }
        queue := queue[1..];
        n := n + 1;
        if wants(job) {
          Launch(job, notify(job));
          return;
        }
      }
      if queue != [] {
        SendRest(queue);
      }
    }

    /** The transmission of a job's data in tx_opportunity; named is whether it names a completion function. */
    method Launch(job: nat, named: bool)
      requires SendQueue(queue) && !busy && !joining && pending == Idle && mode == Normal && !modeSwitch && !shutdown
      requires completed == Notified(sent) && completefunc == None
      modifies this`busy, this`completefunc, this`sent
      ensures Valid() && busy && sent == old(sent) + [Sending(job, named)]
    {
      hide SendQueue, Notified;
      busy := true;
      completefunc := if named then Some(job) else None;
      sent := sent + [Sending(job, named)];
      assert sent[..|sent| - 1] == old(sent);
    }

    /** The scheduler runs join. */
    method RunJoin()
      requires Valid() && pending == Join
      modifies this`pending, this`busy
      ensures Valid() && busy && joining
    {
      pending := Idle;
      assert joining && !busy;
      busy := true;
    }

    // -------------------------------------------------------------------------------------------
    // Modes

    /** do_shutdown */
    method DoShutdown()
      modifies this`pending, this`shutdown, this`joining, this`busy, this`mode, this`stops
      ensures pending == Idle && !shutdown && !joining && !busy && mode == Shutdown && stops == old(stops) + 1
    {
      pending := Idle;
      shutdown, joining, busy := false, false, false;
      mode := Shutdown;
      stops := stops + 1;
    }

    /** What holds when mode_switch is called: the radio is idle, and a switch may be pending. */
    ghost predicate AtSwitch()
      reads this
    {
      && SendQueue(queue) && !busy && completed == Notified(sent) && completefunc == None
      && (shutdown ==> modeSwitch)
      && (modeSwitch ==> pending == Idle && (mode == Normal ==> shutdown) && (mode == Shutdown ==> nextMode == Normal && !joining))
    }

    /** mode_switch: whatever was requested last is the mode afterwards, and a shutdown requested since
        is carried out even if it was revoked. */
    method ModeSwitch(nextchnl: bool) returns (r: bool)
      requires AtSwitch()
      modifies this`pending, this`shutdown, this`joining, this`busy, this`mode, this`jcnt, this`modeSwitch, this`stops
      ensures r == old(modeSwitch) && !modeSwitch && (!r ==> Unchanged(old(pending), old(joining), old(mode), old(jcnt), old(stops)) && shutdown == old(shutdown) && !busy)
      ensures r ==> Valid() && mode == nextMode && !busy && stops == old(stops) + (if old(shutdown) || nextMode == Shutdown then 1 else 0)
      ensures r && mode == Normal ==> joining && pending == Join && jcnt == 0
      ensures r && mode == Shutdown ==> !joining && pending == Idle
    {
      hide Sorted, Unique;
      assert !busy;
      if modeSwitch {
        if shutdown && nextMode != Shutdown {
          DoShutdown();
        }
        if nextMode == Shutdown {
          DoShutdown();
        } else {
          if mode == Shutdown {
            joining := true;
            jcnt := 0;
            pending := Join;
          }
          if nextMode == Normal {
            if !busy && !joining {
              TxNextCallback(nextchnl);
            }
          }
        }
        mode := nextMode;
        modeSwitch := false;
        return true;
      }
      return false;
    }

    ghost predicate Unchanged(p: Pending, j: bool, m: Mode, c: nat, s: nat)
      reads this
    {
      pending == p && joining == j && mode == m && jcnt == c && stops == s
    }

    /** lwm_setmode */
    method SetMode(m: Mode, nextchnl: bool)
      requires Valid()
      modifies this`pending, this`shutdown, this`joining, this`busy, this`mode, this`nextMode, this`jcnt, this`modeSwitch, this`stops
      ensures Valid() && nextMode == m
      ensures !busy ==> mode == m
      ensures m == Shutdown && old(mode) == Normal ==> (shutdown && busy) || (stops == old(stops) + 1 && mode == Shutdown)
      ensures busy ==> Unchanged(old(pending), old(joining), old(mode), old(jcnt), old(stops)) && shutdown == (old(shutdown) || m == Shutdown)
      ensures m == old(mode) ==> Unchanged(old(pending), old(joining), m, old(jcnt), old(stops)) && busy == old(busy)
      ensures m == Normal && old(mode) == Shutdown ==> joining && pending == Join && jcnt == 0
    {
      hide Sorted, Unique;
      nextMode := m;
      if nextMode != mode {
        if m == Shutdown {
          if busy && joining {
            DoShutdown();
            modeSwitch := false;
            return;
          }
          shutdown := true;
        }
        modeSwitch := true;
        if !busy {
          pending := Idle;
          var r := ModeSwitch(nextchnl);
        }
      } else if !shutdown {
        modeSwitch := false;
      }
    }

    // -------------------------------------------------------------------------------------------
    // Events of the MAC, which come while the radio is busy

    /** tx_complete */
    method TxComplete(nextchnl: bool)
      requires SendQueue(queue) && busy && pending == Idle && mode == Normal && !joining && (modeSwitch <==> shutdown)
      requires completed == Notified(sent) && completefunc == None
      modifies this`pending, this`shutdown, this`joining, this`busy, this`mode, this`jcnt, this`modeSwitch, this`stops
      ensures Valid() && !busy && !shutdown
      ensures old(shutdown) ==> mode == nextMode && stops == old(stops) + 1
      ensures !old(shutdown) ==> mode == Normal && !joining && pending == Chosen(nextchnl) && stops == old(stops)
    {
      hide Sorted, Unique;
      busy := false;
      var r := ModeSwitch(nextchnl);
      if r {
        return;
      }
      if mode == Normal {
        TxNextCallback(nextchnl);
      }
    }

    /** EV_TXCOMPLETE: the completion function of the job that was sent, if it named one, is called, once. */
    method OnTxComplete(nextchnl: bool)
      requires Valid() && busy && !joining
      modifies this`pending, this`shutdown, this`joining, this`busy, this`mode, this`jcnt, this`modeSwitch, this`stops,
               this`completefunc, this`completed
      ensures Valid() && !busy && !shutdown && completed == Notified(sent)
      ensures completed == old(completed) + (if old(completefunc).Some? then [old(completefunc).value] else [])
      ensures old(shutdown) ==> mode == nextMode && stops == old(stops) + 1
      ensures !old(shutdown) ==> mode == Normal && !joining && pending == Chosen(nextchnl) && stops == old(stops)
    {
      hide Sorted, Unique;
      if completefunc.Some? {
        completed := completed + [completefunc.value];
        completefunc := None;
      }
      TxComplete(nextchnl);
    }

    /** EV_JOINED */
    method OnJoined(nextchnl: bool)
      requires Valid() && busy && joining
      modifies this`pending, this`shutdown, this`joining, this`busy, this`mode, this`jcnt, this`modeSwitch, this`stops
      ensures Valid() && !busy && !joining && mode == Normal && pending == Chosen(nextchnl)
    {
      hide Sorted, Unique;
      joining := false;
      TxComplete(nextchnl);
    }

    /** EV_JOIN_FAILED: another attempt is scheduled. */
    method OnJoinFailed(nextchnl: bool)
      requires Valid() && busy && joining
      modifies this`pending, this`shutdown, this`joining, this`busy, this`mode, this`jcnt, this`modeSwitch, this`stops
      ensures Valid() && !busy && joining && pending == Join && mode == Normal && jcnt == old(jcnt) + 1
    {
      hide Sorted, Unique;
      jcnt := jcnt + 1;
      busy := false;
      var r := ModeSwitch(nextchnl);
      if !r {
        pending := Join;
      }
    }
  }

  lemma FindIs(q: seq<Request>, job: nat, k: nat)
    requires k <= |q| && (k < |q| ==> q[k].job == job) && forall i :: 0 <= i < k ==> q[i].job != job
    ensures Find(q, job) == k
  {
    var f := Find(q, job);
  }

  lemma AheadIs(q: seq<Request>, r: Request, k: nat)
    requires k <= |q| && (forall i :: 0 <= i < k ==> q[i].prio >= r.prio) && (k < |q| ==> q[k].prio < r.prio)
    ensures Ahead(q, r.prio) == k && Insert(q, r) == q[..k] + [r] + q[k..]
  {
    var a := Ahead(q, r.prio);
  }

  lemma WithoutSubset(q: seq<Request>, job: nat, prio: nat)
    ensures (exists i :: 0 <= i < |Without(q, job)| && Without(q, job)[i].prio >= prio) ==> exists i :: 0 <= i < |q| && q[i].prio >= prio
  {
    var k, r := Find(q, job), Without(q, job);
    if exists i :: 0 <= i < |r| && r[i].prio >= prio {
      var i :| 0 <= i < |r| && r[i].prio >= prio;
      assert r[i] == if i < k then q[i] else q[i + 1];
    }
  }

  lemma SkippedNone(q: seq<Request>, wants: nat -> bool, prio: nat)
    ensures Skipped(q, 0, wants, prio)
  {
  }

  lemma SkippedAdd(q: seq<Request>, n: nat, wants: nat -> bool, prio: nat)
    requires Skipped(q, n, wants, prio) && n < |q| && q[n].prio >= prio && !wants(q[n].job)
    ensures Skipped(q, n + 1, wants, prio)
  {
  }

  lemma SendRest(q: seq<Request>)
    requires SendQueue(q) && q != []
    ensures SendQueue(q[1..]) && forall i :: 1 <= i < |q| ==> q[i].prio <= q[0].prio
  {
  }
}
