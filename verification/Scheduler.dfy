/**
 * The gateway's persistent scheduler: jobs in memory, a jobs file, ticks, creations, deletions,
 * completions, crashes and restarts, over clocks that may even run backwards.
 */
module Scheduler {
  import opened Base

  type JobId = nat
  type ExecutionId = nat

  datatype Job = Job(enabled: bool, interval: nat, nextRun: int, request: nat, lastExecution: Option<ExecutionId>)

  type Jobs = map<JobId, Job>

  const MIN_INTERVAL: nat := 10
  const U64: int := 0x1_0000_0000_0000_0000
  const I64_LIMIT: int := 0x8000_0000_0000_0000
  /** Times are nanoseconds since 1970. */
  const SECOND: int := 1_000_000_000
  /** The longest duration in seconds, and the range of the clock (years -262143 to 262142). */
  const MAX_DURATION: int := (I64_LIMIT - 1) / 1000
  const MIN_TIME: int := -8334601228800 * SECOND
  const MAX_TIME: int := 8210266876800 * SECOND - 1

  /** `interval as i64`: what is too large for a signed number turns negative. */
  function Delay(interval: nat): int {
    if interval < I64_LIMIT then interval else interval - U64
  }

  /** `now` plus the interval; none where the addition panics. */
  function NextRun(now: int, interval: nat): Option<int> {
    var delay := Delay(interval);
    if delay > MAX_DURATION || delay < -MAX_DURATION then None
    else if now + delay * SECOND < MIN_TIME || now + delay * SECOND > MAX_TIME then None
    else Some(now + delay * SECOND)
  }

  // ----- the steps on values -----

  predicate IsDue(job: Job, now: int) {
    job.enabled && job.nextRun <= now
  }

  function Due(jobs: Jobs, now: int): set<JobId> {
    set id | id in jobs && IsDue(jobs[id], now)
  }

  predicate Reschedulable(jobs: Jobs, ids: set<JobId>, now: int) {
    forall id :: id in ids ==> id in jobs && NextRun(now, jobs[id].interval).Some?
  }

  /** The jobs with the next run of some of them counted from now. */
  function Advance(jobs: Jobs, ids: set<JobId>, now: int): Jobs
    requires Reschedulable(jobs, ids, now)
  {
    map id | id in jobs :: if id in ids then jobs[id].(nextRun := NextRun(now, jobs[id].interval).value) else jobs[id]
  }

  datatype World = World(jobs: Jobs, file: Jobs, alive: bool)

  datatype Event =
    | Create(id: JobId, interval: nat, enabled: bool, request: nat, now: int, written: bool)
    | Delete(id: JobId, written: bool)
    | Tick(now: int, written: bool)
    | Panic(now: int, done: set<JobId>)
    | Complete(id: JobId, execution: ExecutionId, written: bool)
    | Restart

  /** A write of the jobs file replaces it whole or fails. */
  function Persisted(w: World, written: bool): World {
    if written then w.(file := w.jobs) else w
  }

  predicate Accepts(e: Event) {
    e.Create? && e.interval >= MIN_INTERVAL && NextRun(e.now, e.interval).Some?
  }

  /** A tick needs a live scheduler; it panics exactly when some due job cannot be rescheduled. */
  predicate Possible(w: World, e: Event) {
    match e
    case Tick(now, _) => w.alive && Reschedulable(w.jobs, Due(w.jobs, now), now)
    case Panic(now, done) =>
      && w.alive && done <= Due(w.jobs, now)
      && Reschedulable(w.jobs, done, now) && !Reschedulable(w.jobs, Due(w.jobs, now), now)
    case _ => true
  }

  function Apply(w: World, e: Event): World
    requires Possible(w, e)
  {
    match e
    case Create(id, interval, enabled, request, now, written) =>
      if Accepts(e) then
        Persisted(w.(jobs := w.jobs[id := Job(enabled, interval, NextRun(now, interval).value, request, None)]), written)
      else w
    case Delete(id, written) =>
      if id in w.jobs then Persisted(w.(jobs := w.jobs - {id}), written) else w
    case Tick(now, written) =>
      var due := Due(w.jobs, now);
      if due == {} then w else Persisted(w.(jobs := Advance(w.jobs, due, now)), written)
    case Panic(now, done) => w.(jobs := Advance(w.jobs, done, now), alive := false)
    case Complete(id, execution, written) =>
      if id in w.jobs then Persisted(w.(jobs := w.jobs[id := w.jobs[id].(lastExecution := Some(execution))]), written) else w
    case Restart => w.(jobs := w.file, alive := true)
  }

  /** What a tick starts: each due job once, however late the tick comes. */
  predicate Dispatches(jobs: Jobs, now: int, due: seq<(JobId, nat)>) {
    && (forall i :: 0 <= i < |due| ==> due[i].0 in Due(jobs, now) && due[i].1 == jobs[due[i].0].request)
    && (forall id :: id in Due(jobs, now) ==> (id, jobs[id].request) in due)
    && (forall i, j :: 0 <= i < j < |due| ==> due[i].0 != due[j].0)
  }

  class Gateway {
    var jobs: Jobs
    var file: Jobs
    var alive: bool

    ghost function View(): World reads this { World(jobs, file, alive) }

    constructor (file: Jobs)
      ensures View() == World(file, file, true)
    {
      jobs, this.file, alive := file, file, true;
    }

    method Persist(written: bool)
      modifies this`file
      ensures View() == Persisted(old(View()), written)
    {
      if written {
        file := jobs;
      }
    }

    method CreateJob(id: JobId, interval: nat, enabled: bool, request: nat, now: int, written: bool) returns (accepted: bool)
      requires interval < U64
      modifies this`jobs, this`file
      ensures accepted <==> interval >= MIN_INTERVAL && NextRun(now, interval).Some?
      ensures View() == Apply(old(View()), Create(id, interval, enabled, request, now, written))
    {
      if interval < MIN_INTERVAL {
        return false;
      }
      var next := NextRun(now, interval);
      if next.None? {
        return false;
      }
      jobs := jobs[id := Job(enabled, interval, next.value, request, None)];
      Persist(written);
      accepted := true;
    }

    method DeleteJob(id: JobId, written: bool) returns (found: bool)
      modifies this`jobs, this`file
      ensures found <==> id in old(jobs)
      ensures View() == Apply(old(View()), Delete(id, written))
    {
      if id !in jobs {
        return false;
      }
      jobs := jobs - {id};
      Persist(written);
      found := true;
    }

    /**
     * One tick: the due jobs in arbitrary order. A panic while rescheduling stops the scheduler with
     * nothing dispatched and nothing written.
     */
    method TickOnce(now: int, written: bool) returns (due: seq<(JobId, nat)>)
      requires alive
      modifies this
      ensures alive ==>
                && Possible(old(View()), Tick(now, written)) && View() == Apply(old(View()), Tick(now, written))
                && Dispatches(old(jobs), now, due)
      ensures !alive ==>
                && due == []
                && exists done :: Possible(old(View()), Panic(now, done)) && View() == Apply(old(View()), Panic(now, done))
    {
      ghost var was := jobs;
      ghost var done: set<JobId>;
      due, done := Reschedule(now);
      if !alive {
        assert Possible(old(View()), Panic(now, done));
        assert View() == Apply(old(View()), Panic(now, done));
        return;
      }
      if due != [] {
        assert due[0].0 in Due(was, now);
        Persist(written);
      } else {
        AdvanceNone(was, now);
      }
    }

    method Reschedule(now: int) returns (due: seq<(JobId, nat)>, ghost done: set<JobId>)
      requires alive
      modifies this`jobs, this`alive
      ensures done <= Due(old(jobs), now) && Reschedulable(old(jobs), done, now) && jobs == Advance(old(jobs), done, now)
      ensures alive ==> done == Due(old(jobs), now) && Dispatches(old(jobs), now, due)
      ensures !alive ==> due == [] && !Reschedulable(old(jobs), Due(old(jobs), now), now)
    {
      due := [];
      var left := Due(jobs, now);
      ghost var all := Due(jobs, now);
      done := {};
      AdvanceNone(jobs, now);
      while left != {}
        invariant done == all - left && left <= all == Due(old(jobs), now)
        invariant alive
        invariant Reschedulable(old(jobs), done, now) && jobs == Advance(old(jobs), done, now)
        invariant forall i :: 0 <= i < |due| ==> due[i].0 in done && due[i].1 == old(jobs)[due[i].0].request
        invariant forall id :: id in done ==> (id, old(jobs)[id].request) in due
        invariant forall i, j :: 0 <= i < j < |due| ==> due[i].0 != due[j].0
        decreases left
      {
        var id :| id in left;
        var next := NextRun(now, jobs[id].interval);
        if next.None? {
          alive := false;
          due := [];
          return;
        }
        AdvanceOne(old(jobs), done, now, id);
        jobs := jobs[id := jobs[id].(nextRun := next.value)];
        due := due + [(id, jobs[id].request)];
        done := done + {id};
        left := left - {id};
      }
      assert done == all;
    }

    /** A finished execution is noted on its job if the job still exists. */
    method CompleteJob(id: JobId, execution: ExecutionId, written: bool)
      modifies this`jobs, this`file
      ensures View() == Apply(old(View()), Complete(id, execution, written))
    {
      if id in jobs {
        jobs := jobs[id := jobs[id].(lastExecution := Some(execution))];
        Persist(written);
      }
    }

    /** After a crash the jobs are what the file says. */
    method LoadJobs()
      modifies this`jobs, this`alive
      ensures View() == Apply(old(View()), Restart)
    {
      jobs, alive := file, true;
    }
  }

  lemma AdvanceNone(jobs: Jobs, now: int)
    ensures Advance(jobs, {}, now) == jobs
  {}

  lemma AdvanceOne(jobs: Jobs, done: set<JobId>, now: int, id: JobId)
    requires Reschedulable(jobs, done, now) && id in jobs && id !in done && NextRun(now, jobs[id].interval).Some?
    ensures Reschedulable(jobs, done + {id}, now)
    ensures Advance(jobs, done + {id}, now) ==
            Advance(jobs, done, now)[id := jobs[id].(nextRun := NextRun(now, jobs[id].interval).value)]
  {}
}
