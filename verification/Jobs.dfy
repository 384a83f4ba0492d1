/** The job queue of lmic/oslmic.c: an intrusive list ordered by wrapped differences of 32-bit times. */
module Jobs {
  import opened Ints

  const MAX_DIFF := 0x7FFF_FFFF
  const XJOBTIME_MAX_DIFF := MAX_DIFF / 2

  /** Callbacks are numbers; this one is extendedjobcb. */
  const EXTENDED: nat := 0

  /** osjob_t, with the additional fields of osxjob_t. */
  class Job {
    var next: Job?
    var deadline: int       // 32 bits
    var func: nat
    var approx: bool
    var asap: bool          // OSJOB_FLAG_NOW
    var xdeadline: int      // extended deadline
    var xfunc: nat

    constructor ()
      ensures next == null
    {
      next := null;
    }
  }

  /** A queued job, the time its deadline stands for, and whether it is to run exactly then. */
  datatype Entry = Entry(job: Job, at: int, exact: bool)

  type Queue = seq<Entry>

  ghost predicate Distinct(q: Queue) { forall i, j :: 0 <= i < j < |q| ==> q[i].job != q[j].job }

  ghost function JobsOf(q: Queue): set<Job> { set i | 0 <= i < |q| :: q[i].job }

  /** q is the list that starts at head. */
  ghost predicate Linked(head: Job?, q: Queue)
    reads JobsOf(q)`next
  {
    && head == (if q == [] then null else q[0].job)
    && (q != [] ==> q[|q| - 1].job.next == null)
    && forall i :: 0 <= i < |q| - 1 ==> q[i].job.next == q[i + 1].job
  }

  /** Deadlines hold the low 32 bits of the times meant. */
  ghost predicate Stamped(q: Queue)
    reads JobsOf(q)`deadline, JobsOf(q)`approx
  {
    forall i :: 0 <= i < |q| ==> q[i].job.deadline == S4(q[i].at) && q[i].job.approx == !q[i].exact
  }

  /** In order of time, and all within 2^31 - 1 ticks. */
  ghost predicate Ordered(q: Queue) { forall i, j :: 0 <= i < j < |q| ==> q[i].at <= q[j].at <= q[i].at + MAX_DIFF }

  /** Time at is within 2^31 - 1 ticks of all jobs. */
  ghost predicate Window(q: Queue, at: int) { forall i :: 0 <= i < |q| ==> -MAX_DIFF <= at - q[i].at <= MAX_DIFF }

  ghost function CountExact(q: Queue): nat {
    if q == [] then 0 else CountExact(q[..|q| - 1]) + if q[|q| - 1].exact then 1 else 0
  }

  ghost predicate Has(q: Queue, job: Job) { exists i :: 0 <= i < |q| && q[i].job == job }

  ghost function Without(q: Queue, job: Job): Queue {
    if q == [] then []
    else if q[|q| - 1].job == job then Without(q[..|q| - 1], job)
    else Without(q[..|q| - 1], job) + [q[|q| - 1]]
  }

  /** Behind all jobs that are not later: how far into q time at belongs. */
  ghost function Place(q: Queue, at: int): (k: nat)
    ensures k <= |q|
  {
    if q == [] then 0 else if q[|q| - 1].at <= at then |q| else Place(q[..|q| - 1], at)
  }

  ghost function Insert(q: Queue, e: Entry): Queue {
    q[..Place(q, e.at)] + [e] + q[Place(q, e.at)..]
  }

  // ---------------------------------------------------------------------------------------------

  lemma {:induction false} WithoutAbsent(q: Queue, job: Job)
    requires !Has(q, job)
    ensures Without(q, job) == q
    decreases |q|
  {
    if q != [] {
      assert q[|q| - 1].job != job;
      assert forall i :: 0 <= i < |q| - 1 ==> q[..|q| - 1][i] == q[i];
      WithoutAbsent(q[..|q| - 1], job);
      assert q == q[..|q| - 1] + [q[|q| - 1]];
    }
  }

  lemma {:induction false} WithoutAt(q: Queue, i: nat)
    requires Distinct(q) && i < |q|
    ensures Without(q, q[i].job) == q[..i] + q[i + 1..]
    decreases |q|
  {
    var n := |q| - 1;
    if i < n {
      assert q[..n][i] == q[i];
      WithoutAt(q[..n], i);
      assert q[..n][..i] + q[..n][i + 1..] + [q[n]] == q[..i] + q[i + 1..];
    } else {
      assert forall k :: 0 <= k < n ==> q[..n][k] == q[k];
      WithoutAbsent(q[..n], q[n].job);
      assert q[..n] == q[..n] + q[n + 1..];
    }
  }

  lemma {:induction false} WithoutIn(q: Queue, job: Job)
    ensures JobsOf(Without(q, job)) <= JobsOf(q) - {job}
    decreases |q|
  {
    if q != [] {
      var e := q[|q| - 1];
      WithoutIn(q[..|q| - 1], job);
      JobsAppend(q[..|q| - 1], e);
      JobsAppend(Without(q[..|q| - 1], job), e);
      assert q == q[..|q| - 1] + [e];
    }
  }

  lemma JobsAppend(q: Queue, e: Entry)
    ensures JobsOf(q + [e]) == JobsOf(q) + {e.job}
  {
    var r := q + [e];
    forall j | j in JobsOf(q) + {e.job} ensures j in JobsOf(r) {
      if j == e.job {
        assert r[|q|].job == j;
      } else {
        var i :| 0 <= i < |q| && q[i].job == j;
        assert r[i].job == j;
      }
    }
  }

  lemma {:induction false} CountAppend(a: Queue, b: Queue)
    ensures CountExact(a + b) == CountExact(a) + CountExact(b)
    decreases |b|
  {
    if b == [] {
      assert a + b == a;
    } else {
      CountAppend(a, b[..|b| - 1]);
      assert (a + b)[..|a + b| - 1] == a + b[..|b| - 1];
    }
  }

  lemma CountOne(e: Entry)
    ensures CountExact([e]) == if e.exact then 1 else 0
  {
    assert [e][..0] == [];
  }

  lemma CountInsert(q: Queue, e: Entry, i: nat)
    requires i <= |q|
    ensures CountExact(q[..i] + [e] + q[i..]) == CountExact(q) + if e.exact then 1 else 0
  {
    hide CountExact;
    CountOne(e);
    CountAppend(q[..i], [e]);
    CountAppend(q[..i] + [e], q[i..]);
    CountAppend(q[..i], q[i..]);
    assert q == q[..i] + q[i..];
  }

  lemma CountRemove(q: Queue, i: nat)
    requires i < |q|
    ensures CountExact(q) == CountExact(q[..i] + q[i + 1..]) + if q[i].exact then 1 else 0
  {
    hide CountExact;
    var r := q[..i] + q[i + 1..];
    assert r[..i] == q[..i] && r[i..] == q[i + 1..];
    CountInsert(r, q[i], i);
    assert r[..i] + [q[i]] + r[i..] == q;
  }

  lemma OrderedRemove(q: Queue, i: nat)
    requires i < |q| && Ordered(q) && Distinct(q)
    ensures Ordered(q[..i] + q[i + 1..]) && Distinct(q[..i] + q[i + 1..])
  {
  }

  /** The place of at separates the jobs that are not later from those that are. */
  lemma {:induction false} PlaceIs(q: Queue, at: int, k: nat)
    requires k <= |q| && (forall i :: 0 <= i < k ==> q[i].at <= at) && (forall i :: k <= i < |q| ==> q[i].at > at)
    ensures Place(q, at) == k
    decreases |q|
  {
    if k < |q| {
      PlaceIs(q[..|q| - 1], at, k);
    }
  }

  lemma OrderedInsert(q: Queue, e: Entry, k: nat)
    requires Ordered(q) && Distinct(q) && Window(q, e.at) && !Has(q, e.job)
    requires k <= |q| && (forall i :: 0 <= i < k ==> q[i].at <= e.at) && (forall i :: k <= i < |q| ==> q[i].at > e.at)
    ensures Ordered(q[..k] + [e] + q[k..]) && Distinct(q[..k] + [e] + q[k..])
  {
  }

  /** In an ordered queue, a new job comes behind all that are not later and before all that are. */
  lemma {:induction false} PlaceSplits(q: Queue, at: int)
    requires Ordered(q)
    ensures var k := Place(q, at); (forall i :: 0 <= i < k ==> q[i].at <= at) && (forall i :: k <= i < |q| ==> q[i].at > at)
    decreases |q|
  {
    if q != [] {
      PlaceSplits(q[..|q| - 1], at);
    }
  }

  /** Comparing two times by their wrapped difference is right exactly within 2^31 ticks. */
  lemma ComparedIff(a: int, b: int)
    requires -0x1_0000_0000 < a - b < 0x1_0000_0000
    ensures (S4(S4(a) - S4(b)) > 0 <==> a > b) <==> -0x8000_0000 <= a - b < 0x8000_0000
  {
    S4Minus(a, b);
    S4Fits(a - b);
    if a - b >= 0x8000_0000 {
      S4Shift(a - b - 0x1_0000_0000, 1);
    } else if a - b < -0x8000_0000 {
      S4Shift(a - b + 0x1_0000_0000, -1);
    }
  }

  /** A wrapped difference within the window has the sign of the true one. */
  lemma Compared(q: Queue, i: nat, at: int)
    requires i < |q| && Window(q, at)
    ensures S4(S4(q[i].at) - S4(at)) == q[i].at - at
  {
    hide S4;
    S4Minus(q[i].at, at);
    S4Fits(q[i].at - at);
  }

  class Os {
    var scheduledjobs: Job?
    var exact: nat
    ghost var queue: Queue

    constructor ()
      ensures Valid() && queue == []
    {
      scheduledjobs, exact, queue := null, 0, [];
    }

    ghost predicate Valid()
      reads this, JobsOf(queue)
    {
      && Distinct(queue) && Ordered(queue) && exact == CountExact(queue)
      && Linked(scheduledjobs, queue) && Stamped(queue)
    }

    /** unlinkjob on the schedule. */
    method UnlinkJob(job: Job) returns (r: bool)
      requires Valid()
      modifies this, JobsOf(queue)`next
      ensures Valid() && r == Has(old(queue), job) && queue == Without(old(queue), job)
    {
      hide Without, CountExact, Ordered, Stamped, S4;
      ghost var q := queue;
      var prev: Job? := null;
      var cur := scheduledjobs;
      ghost var i := 0;
      while cur != null
        invariant 0 <= i <= |q| && cur == (if i < |q| then q[i].job else null) && prev == (if i > 0 then q[i - 1].job else null)
        invariant forall k :: 0 <= k < i ==> q[k].job != job
        invariant queue == q && Valid()
        decreases |q| - i
      {
        if cur == job {
          TakeOut(job, prev, i);
          return true;
        }
        prev, cur := cur, cur.next;
        i := i + 1;
      }
      WithoutAbsent(q, job);
      return false;
    }

    /** Links job out of the schedule, where it comes after prev. */
    method TakeOut(job: Job, prev: Job?, ghost i: nat)
      requires Valid() && i < |queue| && queue[i].job == job && prev == (if i > 0 then queue[i - 1].job else null)
      modifies this, JobsOf(queue)`next
      ensures Valid() && queue == Without(old(queue), job)
    {
      hide Without, CountExact, Ordered, Distinct, Stamped, Linked, S4;
      ghost var q := queue;
      ghost var nx := Heads(scheduledjobs, q);
      DistinctFrom(q, i);
      WithoutAt(q, i);
      CountRemove(q, i);
      OrderedRemove(q, i);
      StampAt(q, i);
      if prev == null {
        scheduledjobs := job.next;
      } else {
        prev.next := job.next;
      }
      if !job.approx {
        exact := exact - 1;
      }
      queue := q[..i] + q[i + 1..];
      assert Stamped(q);
      Delink(q, i, nx);
      StampedRemove(q, i);
    }

    /** os_clearCallback */
    method ClearCallback(job: Job) returns (r: bool)
      requires Valid()
      modifies this, JobsOf(queue)`next
      ensures Valid() && r == Has(old(queue), job) && queue == Without(old(queue), job)
    {
      r := UnlinkJob(job);
    }

    /** os_setTimedCallbackEx: now is what os_getTime reads; at is the time meant, which is the present
        when the job is to run as soon as possible. The job goes behind all that are not later. */
    method SetTimedCallbackEx(job: Job, time: int, cb: nat, approx: bool, asap: bool, now: int, ghost at: int)
      requires Valid() && S4(at) == (if asap then now else time) && Window(Without(queue, job), at)
      modifies this, JobsOf(queue)`next, job
      ensures Valid() && queue == Insert(Without(old(queue), job), Entry(job, at, !approx))
      ensures job.func == cb && job.deadline == S4(at) && job.asap == (asap || S4(time - now) <= 0)
      ensures job.xdeadline == old(job.xdeadline) && job.xfunc == old(job.xfunc)
    {
      hide Without, CountExact, Ordered, S4, Window, Insert, Place, Distinct, Stamped, Linked;
      WithoutIn(queue, job);
      ghost var e := Entry(job, at, !approx);
      var was := UnlinkJob(job);
      ghost var q := queue;
      assert job !in JobsOf(q) && !Has(q, job);
      var t := if asap then now else time;
      job.deadline, job.func, job.approx := t, cb, approx;
      job.asap := asap || S4(time - now) <= 0;
      if !approx {
        exact := exact + 1;
      }
      Schedule(job, e);
    }

    /** The loop of os_setTimedCallbackEx: the first job later than t, and the one before it. */
    method FindPlace(t: int, ghost at: int) returns (prev: Job?, cur: Job?, ghost i: nat)
      requires Ordered(queue) && Linked(scheduledjobs, queue) && Stamped(queue) && Window(queue, at) && t == S4(at)
      ensures i == Place(queue, at) && (forall k :: 0 <= k < i ==> queue[k].at <= at) && (forall k :: i <= k < |queue| ==> queue[k].at > at)
      ensures cur == (if i < |queue| then queue[i].job else null) && prev == (if i > 0 then queue[i - 1].job else null)
    {
      hide Ordered, S4, Window, Place, Stamped;
      prev, cur, i := null, scheduledjobs, 0;
      while cur != null && S4(cur.deadline - t) <= 0
        invariant Stamped(queue) && 0 <= i <= |queue| && forall k :: 0 <= k < i ==> queue[k].at <= at
        invariant cur == (if i < |queue| then queue[i].job else null) && prev == (if i > 0 then queue[i - 1].job else null)
        decreases |queue| - i
      {
        StampAt(queue, i);
        Compared(queue, i, at);
        prev, cur := cur, cur.next;
        i := i + 1;
      }
      if i < |queue| {
        StampAt(queue, i);
      }
      RestLater(queue, i, at);
      PlaceIs(queue, at, i);
    }

    /** The second half of os_setTimedCallbackEx: links the job into the schedule. */
    method Schedule(job: Job, ghost e: Entry)
      requires Distinct(queue) && Ordered(queue) && Linked(scheduledjobs, queue) && Stamped(queue)
      requires e.job == job && job !in JobsOf(queue) && Window(queue, e.at)
      requires job.deadline == S4(e.at) && job.approx == !e.exact && exact == CountExact(queue) + if e.exact then 1 else 0
      modifies this`scheduledjobs, this`queue, JobsOf(queue)`next, job`next
      ensures Valid() && queue == Insert(old(queue), e)
    {
      hide CountExact, Ordered, S4, Window, Insert, Place, Distinct, Stamped, Linked;
      ghost var q := queue;
      ghost var i;
      var prev, cur;
      prev, cur, i := FindPlace(job.deadline, e.at);
      Splice(job, prev, cur, e, i);
      queue := q[..i] + [e] + q[i..];
      InsertIs(q, e, i);
      OrderedInsert(q, e, i);
      CountInsert(q, e, i);
      StampedInsert(q, e, i);
    }

    /** Links job in between prev and cur. */
    method Splice(job: Job, prev: Job?, cur: Job?, ghost e: Entry, ghost i: nat)
      requires Distinct(queue) && Linked(scheduledjobs, queue) && e.job == job && job !in JobsOf(queue) && i <= |queue|
      requires cur == (if i < |queue| then queue[i].job else null) && prev == (if i > 0 then queue[i - 1].job else null)
      modifies this`scheduledjobs, JobsOf(queue)`next, job`next
      ensures Linked(scheduledjobs, queue[..i] + [e] + queue[i..])
    {
      hide Distinct, Linked;
      ghost var nx := Heads(scheduledjobs, queue);
      DistinctFrom(queue, i);
      job.next := cur;
      if prev == null {
        scheduledjobs := job;
      } else {
        prev.next := job;
      }
      Relink(queue, e, i, nx);
    }

    /** os_runstep up to the call of the job: due is whether hal_sleep reports the first job due. The
        job taken is the earliest; sleep is exact if some job is. */
    method RunStep(due: bool) returns (j: Job?, exactSleep: bool)
      requires Valid()
      modifies this
      ensures Valid() && (j == null <==> old(queue) == [] || !due)
      ensures j == null ==> queue == old(queue)
      ensures j != null ==> queue == old(queue)[1..] && j == old(queue)[0].job && forall i :: 0 <= i < |queue| ==> old(queue)[0].at <= queue[i].at
      ensures old(queue) != [] ==> (exactSleep <==> exists i :: 0 <= i < |old(queue)| && old(queue)[i].exact)
    {
      hide CountExact, S4, Ordered, Distinct, Linked, Stamped;
      HeadsStamped(scheduledjobs, queue);
      j, exactSleep := null, false;
      if scheduledjobs != null {
        CountPositive(queue);
        exactSleep := exact != 0;
        if due {
          ghost var q := queue;
          assert q[..0] + q[0 + 1..] == q[1..];
          CountRemove(q, 0);
          OrderedRemove(q, 0);
          Rest(scheduledjobs, q);
          j := scheduledjobs;
          scheduledjobs := j.next;
          if !j.approx {
            exact := exact - 1;
          }
          queue := q[1..];
        }
      }
    }

    /** extendedjobcb: xnow is what os_getXTime reads. */
    method ExtendedJobCb(xjob: Job, xnow: int)
      requires Valid() && Window(Without(queue, xjob), StageAt(xjob.xdeadline, xnow))
      modifies this, JobsOf(queue)`next, xjob
      ensures Valid() && queue == Insert(Without(old(queue), xjob), Entry(xjob, StageAt(old(xjob.xdeadline), xnow), false))
      ensures xjob.func == (if Final(xjob.xdeadline, xnow) then xjob.xfunc else EXTENDED)
      ensures xjob.xdeadline == old(xjob.xdeadline) && xjob.xfunc == old(xjob.xfunc)
      ensures xjob.deadline == S4(StageAt(xjob.xdeadline, xnow)) && (xjob.asap <==> DueAtOnce(xjob.xdeadline, xnow))
    {
      hide S4, Without, Insert, Window;
      S4Minus(StageAt(xjob.xdeadline, xnow), xnow);
      StageWraps(xjob.xdeadline, xnow);
      if xjob.xdeadline - xnow > XJOBTIME_MAX_DIFF {
        SetTimedCallbackEx(xjob, S4(xnow + XJOBTIME_MAX_DIFF), EXTENDED, true, false, S4(xnow), xnow + XJOBTIME_MAX_DIFF);
      } else {
        SetTimedCallbackEx(xjob, S4(xjob.xdeadline), xjob.xfunc, true, false, S4(xnow), xjob.xdeadline);
      }
    }

    /** os_setExtendedTimedCallback */
    method SetExtendedTimedCallback(xjob: Job, xtime: int, cb: nat, xnow: int)
      requires Valid() && Window(Without(queue, xjob), StageAt(xtime, xnow))
      modifies this, JobsOf(queue)`next, xjob
      ensures Valid() && queue == Insert(Without(old(queue), xjob), Entry(xjob, StageAt(xtime, xnow), false))
      ensures xjob.func == (if xtime - xnow < 0x4000_0000 then cb else EXTENDED) && xjob.xdeadline == xtime && xjob.xfunc == cb
      ensures xjob.asap <==> DueAtOnce(xtime, xnow)
      ensures xtime >= xnow - 0x8000_0000 ==> (xjob.asap <==> xtime <= xnow) && S4(xjob.deadline - S4(xnow)) == StageAt(xtime, xnow) - xnow
    {
      StageWithin(xtime, xnow);
      hide S4, Without, Insert, Window, Ordered, CountExact, Stamped;
      WithoutTwice(queue, xjob);
      WithoutIn(queue, xjob);
      var was := UnlinkJob(xjob);
      xjob.xfunc := cb;
      xjob.xdeadline := xtime;
      ExtendedJobCb(xjob, xnow);
    }
  }

  lemma HeadsStamped(head: Job?, q: Queue)
    requires Linked(head, q) && Stamped(q)
    ensures head == if q == [] then null else q[0].job
    ensures q != [] ==> q[0].job.approx == !q[0].exact
  {
  }

  lemma Rest(head: Job?, q: Queue)
    requires Linked(head, q) && Stamped(q) && Ordered(q) && q != []
    ensures Linked(q[0].job.next, q[1..]) && Stamped(q[1..]) && forall i :: 0 <= i < |q[1..]| ==> q[0].at <= q[1..][i].at
  {
    hide S4;
  }

  lemma {:induction false} CountPositive(q: Queue)
    ensures CountExact(q) > 0 <==> exists i :: 0 <= i < |q| && q[i].exact
    decreases |q|
  {
    if q != [] {
      var n := |q| - 1;
      CountPositive(q[..n]);
      if exists i :: 0 <= i < |q| && q[i].exact {
        var i :| 0 <= i < |q| && q[i].exact;
        assert i < n ==> q[..n][i].exact;
      }
      if exists i :: 0 <= i < n && q[..n][i].exact {
        var i :| 0 <= i < n && q[..n][i].exact;
        assert q[i].exact;
      }
    }
  }

  lemma {:induction false} WithoutTwice(q: Queue, job: Job)
    ensures Without(Without(q, job), job) == Without(q, job)
    decreases |q|
  {
    if q != [] {
      var r := Without(q[..|q| - 1], job);
      WithoutTwice(q[..|q| - 1], job);
      if q[|q| - 1].job != job {
        assert (r + [q[|q| - 1]])[..|r|] == r;
      }
    }
  }

  // ---------------------------------------------------------------------------------------------
  // Extended jobs

  /** The deadline is near enough for the real callback to be scheduled. */
  predicate Final(deadline: int, now: int) { deadline - now <= XJOBTIME_MAX_DIFF }

  /** The time an extended job is scheduled for when looked at now. */
  function StageAt(deadline: int, now: int): int {
    if Final(deadline, now) then deadline else now + XJOBTIME_MAX_DIFF
  }

  /** An extended job is looked at a bounded number of times, each time no earlier than it was scheduled
      for; then it is scheduled for its true deadline, and never for a later time. */
  lemma {:induction false} ExtendedReaches(deadline: int, nows: seq<int>)
    requires nows != [] && forall i :: 0 <= i < |nows| - 1 ==> !Final(deadline, nows[i]) && nows[i + 1] >= StageAt(deadline, nows[i])
    ensures |nows| > 1 ==> (|nows| - 1) * 0x3FFF_FFFF < deadline - nows[0]
    ensures forall i :: 0 <= i < |nows| ==> StageAt(deadline, nows[i]) <= deadline
    ensures Final(deadline, nows[|nows| - 1]) ==> StageAt(deadline, nows[|nows| - 1]) == deadline
    decreases |nows|
  {
    if |nows| > 1 {
      var rest := nows[1..];
      forall i | 0 <= i < |rest| - 1 ensures !Final(deadline, rest[i]) && rest[i + 1] >= StageAt(deadline, rest[i]) {
        assert !Final(deadline, nows[i + 1]);
      }
      ExtendedReaches(deadline, rest);
      assert forall i :: 1 <= i < |nows| ==> nows[i] == rest[i - 1];
    }
  }

  /** Scheduled times are between now and 2^30 ticks from now, unless the deadline has passed; 32-bit
      times tell how far away they are, however far the deadline is. */
  lemma StageWithin(deadline: int, now: int)
    ensures StageAt(deadline, now) < now + 0x4000_0000
    ensures deadline >= now ==> now <= StageAt(deadline, now) <= deadline
    ensures deadline > now ==> now < StageAt(deadline, now)
    ensures deadline >= now - 0x8000_0000 ==> S4(S4(StageAt(deadline, now)) - S4(now)) == StageAt(deadline, now) - now
    ensures Final(deadline, now) <==> deadline - now < 0x4000_0000
  {
    hide S4;
    S4Minus(StageAt(deadline, now), now);
    S4Fits(StageAt(deadline, now) - now);
  }

  /** An extended job counts as due at once when looked at now: the deadline has passed, and the distance
      modulo 2^32 is at most 2^31 ticks. */
  predicate DueAtOnce(deadline: int, now: int) { deadline <= now && (now - deadline) % 0x1_0000_0000 <= 0x8000_0000 }

  /** The wrapped comparison of a stage with the present. */
  lemma StageWraps(deadline: int, now: int)
    ensures S4(StageAt(deadline, now) - now) <= 0 <==> DueAtOnce(deadline, now)
  {
    if deadline > now {
      S4Fits(StageAt(deadline, now) - now);
    } else {
      WrappedPast(now - deadline);
    }
  }

  lemma WrappedPast(d: int)
    requires d >= 0
    ensures S4(-d) <= 0 <==> d % 0x1_0000_0000 <= 0x8000_0000
  {
    var q, r := d / 0x1_0000_0000, d % 0x1_0000_0000;
    assert -d == -r + 0x1_0000_0000 * -q;
    S4Shift(-r, -q);
    if r <= 0x8000_0000 {
      S4Fits(-r);
    } else {
      S4Shift(-r, 1);
      S4Fits(-r + 0x1_0000_0000);
    }
  }

  /** A deadline counts as due at once exactly if it has passed, for a given distance, unless it passed
      more than 2^31 ticks ago: one that passed 2^31 + 1 ticks ago is taken to be still to come. */
  lemma DueIff(deadline: int, now: int)
    ensures (DueAtOnce(deadline, now) <==> deadline <= now) <==> deadline > now || (now - deadline) % 0x1_0000_0000 <= 0x8000_0000
    ensures now - deadline == 0x8000_0001 ==> deadline <= now && !DueAtOnce(deadline, now)
  {
  }

  /** nx are the next fields of a complete list. */
  ghost predicate Nexts(nx: seq<Job?>, q: Queue) {
    |nx| == |q| && (q != [] ==> nx[|q| - 1] == null) && forall k :: 0 <= k < |q| - 1 ==> nx[k] == q[k + 1].job
  }

  lemma Heads(head: Job?, q: Queue) returns (nx: seq<Job?>)
    requires Linked(head, q)
    ensures head == if q == [] then null else q[0].job
    ensures Nexts(nx, q) && forall k :: 0 <= k < |q| ==> q[k].job.next == nx[k]
  {
    nx := seq(|q|, k requires 0 <= k < |q| => if k == |q| - 1 then null else q[k + 1].job);
  }

  lemma StampAt(q: Queue, i: nat)
    requires Stamped(q) && i < |q|
    ensures q[i].job.deadline == S4(q[i].at) && q[i].job.approx == !q[i].exact
  {
    hide S4;
  }

  lemma StampedRemove(q: Queue, i: nat)
    requires Stamped(q) && i < |q|
    ensures Stamped(q[..i] + q[i + 1..])
  {
    hide S4;
  }

  lemma StampedInsert(q: Queue, e: Entry, i: nat)
    requires Stamped(q) && e.job.deadline == S4(e.at) && e.job.approx == !e.exact && i <= |q|
    ensures Stamped(q[..i] + [e] + q[i..])
  {
    hide S4;
  }

  /** With the links around position i redirected, the list is the one with e inserted there. */
  lemma Relink(q: Queue, e: Entry, i: nat, nx: seq<Job?>)
    requires i <= |q| && Nexts(nx, q)
    requires e.job.next == (if i < |q| then q[i].job else null) && (i > 0 ==> q[i - 1].job.next == e.job)
    requires forall k :: 0 <= k < |q| && k + 1 != i ==> q[k].job.next == nx[k]
    ensures Linked(if i == 0 then e.job else q[0].job, q[..i] + [e] + q[i..])
  {
    var q' := q[..i] + [e] + q[i..];
    assert q'[|q|] == if i == |q| then e else q[|q| - 1];
    forall k | 0 <= k < |q| ensures q'[k].job.next == q'[k + 1].job {
      if k > i {
        assert q'[k] == q[k - 1] && q'[k + 1] == q[k];
      }
    }
  }

  /** With the link around position i redirected, the list is the one without the job there. */
  lemma Delink(q: Queue, i: nat, nx: seq<Job?>)
    requires i < |q| && Nexts(nx, q) && (i > 0 ==> q[i - 1].job.next == nx[i])
    requires forall k :: 0 <= k < |q| && k + 1 != i ==> q[k].job.next == nx[k]
    ensures Linked(if i == 0 then nx[0] else q[0].job, q[..i] + q[i + 1..])
  {
    var q' := q[..i] + q[i + 1..];
    assert q' != [] ==> q'[|q'| - 1] == if i == |q| - 1 then q[i - 1] else q[|q| - 1];
    forall k | 0 <= k < |q'| - 1 ensures q'[k].job.next == q'[k + 1].job {
      if k >= i {
        assert q'[k] == q[k + 1] && q'[k + 1] == q[k + 2];
      }
    }
  }

  lemma DistinctFrom(q: Queue, i: nat)
    requires Distinct(q) && i <= |q|
    ensures forall k :: 0 <= k < |q| ==> q[k].job in JobsOf(q)
    ensures i > 0 ==> forall k :: 0 <= k < |q| && k + 1 != i ==> q[k].job != q[i - 1].job
  {
  }

  lemma InsertIs(q: Queue, e: Entry, k: nat)
    requires Place(q, e.at) == k
    ensures k <= |q| && Insert(q, e) == q[..k] + [e] + q[k..]
  {
  }

  lemma RestLater(q: Queue, i: nat, at: int)
    requires Ordered(q) && i <= |q| && Window(q, at) && (i < |q| ==> S4(S4(q[i].at) - S4(at)) > 0)
    ensures forall k :: i <= k < |q| ==> q[k].at > at
  {
    hide S4;
    if i < |q| {
      Compared(q, i, at);
    }
  }
}
