/** Whole runs of the scheduler: pacing, windows, deletion, and what a lost write can break. */
module SchedulerRuns {
  import opened Base
  import opened Scheduler

  /**
   * The gateway with what an observer notes: every job ever known and its interval, when it was
   * dispatched, which jobs were deleted, and whether the latest write of the file failed.
   */
  datatype Log = Log(world: World, known: map<JobId, nat>, dispatched: map<JobId, seq<int>>, deleted: set<JobId>, lost: bool)

  function Start(file: Jobs): Log {
    Log(World(file, file, true), map id | id in file :: file[id].interval, map id | id in file :: [], {}, false)
  }

  /** Does the step try to write the file? */
  predicate Writes(w: World, e: Event) {
    match e
    case Create(_, _, _, _, _, _) => Accepts(e)
    case Delete(id, _) => id in w.jobs
    case Tick(now, _) => Due(w.jobs, now) != {}
    case Complete(id, _, _) => id in w.jobs
    case _ => false
  }

  predicate Written(e: Event) {
    match e
    case Panic(_, _) => true
    case Restart => true
    case _ => e.written
  }

  /** What can happen at all: ids are new when jobs are created. Crashes come at any time. */
  predicate CanHappen(g: Log, e: Event) {
    Possible(g.world, e) && (e.Create? ==> e.id !in g.known)
  }

  /** A crash is allowed only when the file is on pace, that is, when it brings back nothing too early. */
  ghost predicate Allowed(g: Log, e: Event) {
    CanHappen(g, e) && (e.Restart? ==> Paced(g, g.world.file))
  }

  function Note(g: Log, e: Event): Log
    requires Possible(g.world, e)
  {
    Log(
      Apply(g.world, e),
      if Accepts(e) then g.known[e.id := e.interval] else g.known,
      if Accepts(e) then g.dispatched[e.id := []]
      else if e.Tick? then map id | id in g.dispatched ::
        if id in Due(g.world.jobs, e.now) then g.dispatched[id] + [e.now] else g.dispatched[id]
      else g.dispatched,
      if e.Delete? && e.id in g.world.jobs then g.deleted + {e.id} else g.deleted,
      if Writes(g.world, e) then !Written(e) else g.lost)
  }

  ghost predicate AllowedRun(g: Log, events: seq<Event>)
    decreases |events|
  {
    events == [] || (Allowed(g, events[0]) && AllowedRun(Note(g, events[0]), events[1..]))
  }

  ghost function Run(g: Log, events: seq<Event>): Log
    requires AllowedRun(g, events)
    decreases |events|
  {
    if events == [] then g else Run(Note(g, events[0]), events[1..])
  }

  // ----- the invariant -----

  ghost predicate Spaced(times: seq<int>, gap: int) {
    forall i :: 0 <= i < |times| - 1 ==> times[i + 1] >= times[i] + gap
  }

  /** The dispatches so far are an interval apart, unless the interval turns negative when cast. */
  ghost predicate OnPace(times: seq<int>, interval: nat) {
    interval < I64_LIMIT ==> Spaced(times, interval * SECOND)
  }

  /**
   * Whenever the job would be dispatched, a full interval has passed since its last dispatch. A job
   * that is disabled, or that no reading of the clock can reschedule, is not dispatched at all.
   */
  ghost predicate NextOnPace(times: seq<int>, job: Job) {
    job.enabled && job.interval < I64_LIMIT && times != [] ==>
      forall now :: job.nextRun <= now && NextRun(now, job.interval).Some? ==>
        now >= times[|times| - 1] + job.interval * SECOND
  }

  ghost predicate KnownJob(g: Log, id: JobId, job: Job) {
    id in g.known && id in g.dispatched && job.interval == g.known[id]
  }

  ghost predicate PacedJob(g: Log, id: JobId, job: Job) {
    KnownJob(g, id, job) && id !in g.deleted && NextOnPace(g.dispatched[id], job)
  }

  /** No job is a deleted one, and none can be dispatched too early. */
  ghost predicate Paced(g: Log, jobs: Jobs) {
    forall id :: id in jobs ==> PacedJob(g, id, jobs[id])
  }

  /** The file may lag behind only after a failed write. */
  ghost predicate Invariant(g: Log) {
    && g.dispatched.Keys == g.known.Keys
    && g.deleted <= g.known.Keys
    && (forall id :: id in g.known ==> OnPace(g.dispatched[id], g.known[id]))
    && Paced(g, g.world.jobs)
    && (forall id :: id in g.world.file ==> KnownJob(g, id, g.world.file[id]))
    && (!g.lost ==> Paced(g, g.world.file))
  }

  lemma StartInvariant(file: Jobs)
    ensures Invariant(Start(file))
  {}

  /** Dispatching a due job and counting its next run from now keeps the pace; so does only counting. */
  lemma RescheduleKeepsPace(times: seq<int>, job: Job, now: int)
    requires OnPace(times, job.interval) && NextOnPace(times, job) && IsDue(job, now)
    requires NextRun(now, job.interval).Some?
    ensures OnPace(times + [now], job.interval)
    ensures var next := job.(nextRun := NextRun(now, job.interval).value);
            NextOnPace(times + [now], next) && NextOnPace(times, next)
  {}

  /** What the observer noted about other jobs stays true of a job. */
  lemma PacedJobSame(g: Log, h: Log, id: JobId, job: Job)
    requires id in g.known ==> id in h.known && h.known[id] == g.known[id]
    requires id in g.dispatched ==> id in h.dispatched && h.dispatched[id] == g.dispatched[id]
    requires id in h.deleted ==> id in g.deleted
    ensures KnownJob(g, id, job) ==> KnownJob(h, id, job)
    ensures PacedJob(g, id, job) ==> PacedJob(h, id, job)
  {}

  lemma TickKeeps(g: Log, now: int, written: bool)
    requires Invariant(g) && Possible(g.world, Tick(now, written))
    ensures Invariant(Note(g, Tick(now, written)))
  {
    hide OnPace, NextOnPace, NextRun;
    var due := Due(g.world.jobs, now);
    var h := Note(g, Tick(now, written));
    forall id | id in due
      ensures OnPace(g.dispatched[id] + [now], g.known[id])
      ensures PacedJob(h, id, h.world.jobs[id])
    {
      assert PacedJob(g, id, g.world.jobs[id]);
      RescheduleKeepsPace(g.dispatched[id], g.world.jobs[id], now);
    }
    forall id | id in h.world.jobs && id !in due ensures PacedJob(h, id, h.world.jobs[id]) {
      assert PacedJob(g, id, g.world.jobs[id]);
    }
    if due == {} {
      assert h.dispatched == g.dispatched;
      assert h == g;
    }
  }

  lemma PanicKeeps(g: Log, now: int, done: set<JobId>)
    requires Invariant(g) && Possible(g.world, Panic(now, done))
    ensures Invariant(Note(g, Panic(now, done)))
  {
    hide OnPace, NextOnPace, NextRun;
    var h := Note(g, Panic(now, done));
    forall id | id in h.world.jobs ensures PacedJob(h, id, h.world.jobs[id]) {
      assert PacedJob(g, id, g.world.jobs[id]);
      if id in done {
        RescheduleKeepsPace(g.dispatched[id], g.world.jobs[id], now);
      }
    }
    FileSame(g, h);
  }

  /** A file that is not written stays as paced as it was while the notes only grow. */
  lemma FileSame(g: Log, h: Log)
    requires h.world.file == g.world.file && h.deleted == g.deleted
    requires forall id :: id in g.known ==> id in h.known && h.known[id] == g.known[id]
    requires forall id :: id in g.dispatched ==> id in h.dispatched && h.dispatched[id] == g.dispatched[id]
    ensures Paced(g, g.world.file) ==> Paced(h, h.world.file)
    ensures (forall id :: id in g.world.file ==> KnownJob(g, id, g.world.file[id])) ==>
            (forall id :: id in h.world.file ==> KnownJob(h, id, h.world.file[id]))
  {
    forall id | id in g.world.file
      ensures PacedJob(g, id, g.world.file[id]) ==> PacedJob(h, id, g.world.file[id])
    {
      PacedJobSame(g, h, id, g.world.file[id]);
    }
  }

  lemma CreateKeeps(g: Log, e: Event)
    requires Invariant(g) && CanHappen(g, e) && e.Create?
    ensures Invariant(Note(g, e))
  {
    if Accepts(e) {
      var h := Note(g, e);
      assert OnPace(h.dispatched[e.id], e.interval);
      hide OnPace, NextRun;
      assert PacedJob(h, e.id, h.world.jobs[e.id]);
      hide NextOnPace;
      forall id | id in g.world.jobs ensures PacedJob(h, id, g.world.jobs[id]) {
        assert PacedJob(g, id, g.world.jobs[id]);
      }
      forall id | id in g.world.file
        ensures KnownJob(h, id, g.world.file[id])
        ensures PacedJob(g, id, g.world.file[id]) ==> PacedJob(h, id, g.world.file[id])
      {
        assert KnownJob(g, id, g.world.file[id]);
      }
    }
  }

  lemma DeleteKeeps(g: Log, e: Event)
    requires Invariant(g) && e.Delete?
    ensures Invariant(Note(g, e))
  {
    hide OnPace, NextOnPace;
    var h := Note(g, e);
    if e.id in g.world.jobs {
      assert PacedJob(g, e.id, g.world.jobs[e.id]);
      forall id | id in h.world.jobs ensures PacedJob(h, id, h.world.jobs[id]) {
        assert PacedJob(g, id, g.world.jobs[id]);
      }
      forall id | id in g.world.file ensures KnownJob(h, id, g.world.file[id]) {
        assert KnownJob(g, id, g.world.file[id]);
      }
    }
  }

  lemma CompleteKeeps(g: Log, e: Event)
    requires Invariant(g) && e.Complete?
    ensures Invariant(Note(g, e))
  {
    hide OnPace;
    var h := Note(g, e);
    forall id | id in h.world.jobs ensures PacedJob(h, id, h.world.jobs[id]) {
      assert PacedJob(g, id, g.world.jobs[id]);
    }
    hide NextOnPace;
    FileSame(g, h.(world := g.world));
    forall id | id in h.world.file ensures KnownJob(h, id, h.world.file[id]) {
      assert id in g.world.file ==> KnownJob(g, id, g.world.file[id]);
      assert id in h.world.jobs ==> PacedJob(h, id, h.world.jobs[id]);
    }
    if !h.lost {
      forall id | id in h.world.file ensures PacedJob(h, id, h.world.file[id]) {
        assert id in h.world.jobs ==> PacedJob(h, id, h.world.jobs[id]);
        if h.world.file == g.world.file {
          assert !g.lost ==> PacedJob(g, id, g.world.file[id]);
        }
      }
    }
  }

  /** A restart from a file that is on pace. */
  lemma RestartKeeps(g: Log)
    requires Invariant(g) && Paced(g, g.world.file)
    ensures Invariant(Note(g, Restart))
  {
    hide OnPace, NextOnPace;
    var h := Note(g, Restart);
    FileSame(g, h);
  }

  lemma StepKeeps(g: Log, e: Event)
    requires Invariant(g) && Allowed(g, e)
    ensures Invariant(Note(g, e))
  {
    hide Invariant, Note, Paced;
    match e
    case Tick(now, written) => TickKeeps(g, now, written);
    case Panic(now, done) => PanicKeeps(g, now, done);
    case Create(_, _, _, _, _, _) => CreateKeeps(g, e);
    case Delete(_, _) => DeleteKeeps(g, e);
    case Complete(_, _, _) => CompleteKeeps(g, e);
    case Restart => RestartKeeps(g);
  }

  lemma {:induction false} RunKeeps(g: Log, events: seq<Event>)
    requires Invariant(g) && AllowedRun(g, events)
    ensures Invariant(Run(g, events))
    decreases |events|
  {
    if events != [] {
      StepKeeps(g, events[0]);
      RunKeeps(Note(g, events[0]), events[1..]);
    }
  }

  // ----- pacing -----

  lemma {:induction false} SpacedApart(times: seq<int>, gap: int, i: nat, j: nat)
    requires Spaced(times, gap) && i <= j < |times|
    ensures times[j] >= times[i] + (j - i) * gap
    decreases j
  {
    if i < j {
      SpacedApart(times, gap, i, j - 1);
      assert times[j - 1 + 1] >= times[j - 1] + gap;
    }
  }

  /** Two dispatches of one job are at least its interval apart, in every run and over restarts. */
  lemma DispatchesApart(file: Jobs, events: seq<Event>, id: JobId, i: nat, j: nat)
    requires AllowedRun(Start(file), events)
    requires id in Run(Start(file), events).dispatched && i < j < |Run(Start(file), events).dispatched[id]|
    ensures var g := Run(Start(file), events);
            id in g.known &&
            (g.known[id] < I64_LIMIT ==> g.dispatched[id][j] - g.dispatched[id][i] >= (j - i) * (g.known[id] * SECOND))
  {
    StartInvariant(file);
    RunKeeps(Start(file), events);
    var g := Run(Start(file), events);
    if g.known[id] < I64_LIMIT {
      SpacedApart(g.dispatched[id], g.known[id] * SECOND, i, j);
    }
  }

  function CountIn(times: seq<int>, lo: int, hi: int): nat {
    if times == [] then 0
    else
      var last := times[|times| - 1];
      CountIn(times[..|times| - 1], lo, hi) + if lo <= last <= hi then 1 else 0
  }

  lemma {:induction false} CountBelow(times: seq<int>, lo: int, hi: int, cut: int)
    requires cut <= hi && forall i :: 0 <= i < |times| ==> times[i] <= cut
    ensures CountIn(times, lo, hi) == CountIn(times, lo, cut)
    ensures cut < lo ==> CountIn(times, lo, hi) == 0
    decreases |times|
  {
    if times != [] {
      CountBelow(times[..|times| - 1], lo, hi, cut);
    }
  }

  lemma {:induction false} WindowBound(times: seq<int>, gap: int, lo: int, hi: int)
    requires gap > 0 && Spaced(times, gap) && lo <= hi
    ensures CountIn(times, lo, hi) == 0 || (CountIn(times, lo, hi) - 1) * gap <= hi - lo
    decreases |times|
  {
    if times != [] {
      var n := |times| - 1;
      var front, last := times[..n], times[n];
      assert Spaced(front, gap);
      if lo <= last <= hi {
        forall i | 0 <= i < |front| ensures front[i] <= last - gap {
          SpacedApart(times, gap, i, n);
          OneGapMore(n - i, gap);
        }
        CountBelow(front, lo, hi, last - gap);
        if lo <= last - gap {
          WindowBound(front, gap, lo, last - gap);
          OneGapMore(CountIn(front, lo, hi), gap);
        }
      } else {
        WindowBound(front, gap, lo, hi);
      }
    }
  }

  lemma OneGapMore(n: int, gap: int)
    requires gap > 0
    ensures n * gap == (n - 1) * gap + gap
    ensures n >= 1 ==> n * gap >= gap
  {}

  lemma QuotientBound(k: int, w: int, gap: int)
    requires gap > 0 && k >= w / gap + 1
    ensures k * gap > w
  {
    var q, r := w / gap, w % gap;
    assert w == q * gap + r && r < gap;
    MonotoneProduct(q + 1, k, gap);
    OneGapMore(q + 1, gap);
  }

  lemma MonotoneProduct(a: int, b: int, gap: int)
    requires gap > 0 && a <= b
    ensures a * gap <= b * gap
  {}

  /** No burst: a window of W seconds sees a job at most W / interval + 1 times. */
  lemma WindowHoldsFew(file: Jobs, events: seq<Event>, id: JobId, lo: int, hi: int)
    requires AllowedRun(Start(file), events) && lo <= hi
    requires id in Run(Start(file), events).known
    ensures var g := Run(Start(file), events);
            id in g.dispatched &&
            (0 < g.known[id] < I64_LIMIT ==> CountIn(g.dispatched[id], lo, hi) <= (hi - lo) / (g.known[id] * SECOND) + 1)
  {
    StartInvariant(file);
    RunKeeps(Start(file), events);
    var g := Run(Start(file), events);
    if 0 < g.known[id] < I64_LIMIT {
      var gap := g.known[id] * SECOND;
      WindowBound(g.dispatched[id], gap, lo, hi);
      var k := CountIn(g.dispatched[id], lo, hi) - 1;
      if k >= (hi - lo) / gap + 1 {
        QuotientBound(k, hi - lo, gap);
      }
    }
  }

  // ----- deletion -----

  lemma {:induction false} DeletedStays(g: Log, events: seq<Event>, id: JobId)
    requires AllowedRun(g, events) && id in g.deleted
    ensures id in Run(g, events).deleted
    decreases |events|
  {
    if events != [] {
      DeletedStays(Note(g, events[0]), events[1..], id);
    }
  }

  lemma {:induction false} DeletedSilent(g: Log, events: seq<Event>, id: JobId)
    requires Invariant(g) && AllowedRun(g, events) && id in g.deleted
    ensures id in g.dispatched && id in Run(g, events).dispatched
    ensures Run(g, events).dispatched[id] == g.dispatched[id]
    decreases |events|
  {
    if events != [] {
      StepKeeps(g, events[0]);
      assert id !in g.world.jobs;
      DeletedSilent(Note(g, events[0]), events[1..], id);
    }
  }

  /**
   * Once deleted, a job is never seen in memory again and never dispatched again, whatever
   * completions, restarts and ticks follow.
   */
  lemma DeletedNeverRevived(file: Jobs, before: seq<Event>, id: JobId, written: bool, after: seq<Event>)
    requires AllowedRun(Start(file), before) && id in Run(Start(file), before).world.jobs
    requires AllowedRun(Note(Run(Start(file), before), Delete(id, written)), after)
    ensures var deletion := Note(Run(Start(file), before), Delete(id, written));
            var end := Run(deletion, after);
            && id !in end.world.jobs && id in end.dispatched && id in deletion.dispatched
            && end.dispatched[id] == deletion.dispatched[id]
  {
    StartInvariant(file);
    RunKeeps(Start(file), before);
    var g := Run(Start(file), before);
    var deletion := Note(g, Delete(id, written));
    StepKeeps(g, Delete(id, written));
    RunKeeps(deletion, after);
    DeletedStays(deletion, after, id);
    DeletedSilent(deletion, after, id);
  }

  // ----- writes -----

  ghost predicate CanHappenRun(g: Log, events: seq<Event>)
    decreases |events|
  {
    events == [] || (CanHappen(g, events[0]) && CanHappenRun(Note(g, events[0]), events[1..]))
  }

  /** When every write succeeds the file is always on pace, so crashes may come at any time. */
  lemma {:induction false} WrittenRunsAllowed(g: Log, events: seq<Event>)
    requires Invariant(g) && !g.lost && CanHappenRun(g, events)
    requires forall i :: 0 <= i < |events| ==> Written(events[i])
    ensures AllowedRun(g, events) && !Run(g, events).lost
    decreases |events|
  {
    if events != [] {
      assert Written(events[0]);
      StepKeeps(g, events[0]);
      hide Invariant, CanHappen, Paced;
      assert forall i :: 0 <= i < |events[1..]| ==> events[1..][i] == events[i + 1];
      WrittenRunsAllowed(Note(g, events[0]), events[1..]);
    }
  }

  // ----- crashes after a failed write -----

  /** Dispatches are an interval apart and no deleted job is back. */
  ghost predicate InOrder(g: Log) {
    && (forall id :: id in g.known && id in g.dispatched ==> OnPace(g.dispatched[id], g.known[id]))
    && (forall id :: id in g.world.jobs ==> id !in g.deleted)
  }

  lemma InvariantInOrder(g: Log)
    requires Invariant(g)
    ensures InOrder(g)
  {
    hide OnPace, NextOnPace;
    forall id | id in g.world.jobs ensures id !in g.deleted {
      assert PacedJob(g, id, g.world.jobs[id]);
    }
  }

  /** Deleting the others and then ticking dispatches one job at a chosen time. */
  lemma {:induction false} TickAlone(g: Log, id: JobId, now: int, others: set<JobId>) returns (events: seq<Event>)
    requires g.world.alive && id in g.dispatched && id in g.known && id !in others && g.world.jobs.Keys == others + {id}
    requires IsDue(g.world.jobs[id], now) && NextRun(now, g.world.jobs[id].interval).Some?
    ensures AllowedRun(g, events)
    ensures var h := Run(g, events);
            && id in h.dispatched && h.dispatched[id] == g.dispatched[id] + [now]
            && id in h.known && h.known[id] == g.known[id]
    decreases |others|
  {
    if others == {} {
      var tick := Tick(now, true);
      assert Due(g.world.jobs, now) == {id};
      RunOne(g, tick);
      events := [tick];
    } else {
      var x :| x in others;
      var h := Note(g, Delete(x, true));
      assert h.world.jobs.Keys == (others - {x}) + {id};
      var rest := TickAlone(h, id, now, others - {x});
      events := [Delete(x, true)] + rest;
      assert events[1..] == rest;
    }
  }

  lemma RunOne(g: Log, e: Event)
    requires Allowed(g, e)
    ensures AllowedRun(g, [e]) && Run(g, [e]) == Note(g, e)
  {
    hide Note, Possible, Paced;
    assert [e][1..] == [];
    assert AllowedRun(Note(g, e), []);
  }

  /** A file that is off pace: some continuation of the restart shows it. */
  lemma OffPaceShows(g: Log, id: JobId) returns (events: seq<Event>)
    requires Invariant(g) && id in g.world.file && !PacedJob(g, id, g.world.file[id])
    ensures AllowedRun(Note(g, Restart), events) && !InOrder(Run(Note(g, Restart), events))
  {
    var h := Note(g, Restart);
    var job := g.world.file[id];
    assert KnownJob(g, id, job);
    if id in g.deleted {
      events := [];
      assert id in h.world.jobs && id in h.deleted;
    } else {
      var times := g.dispatched[id];
      var now :| job.nextRun <= now && NextRun(now, job.interval).Some? && now < times[|times| - 1] + job.interval * SECOND;
      events := TickAlone(h, id, now, h.world.jobs.Keys - {id});
      TooEarly(times, job.interval, now);
    }
  }

  lemma TooEarly(times: seq<int>, interval: nat, now: int)
    requires times != [] && interval < I64_LIMIT && now < times[|times| - 1] + interval * SECOND
    ensures !OnPace(times + [now], interval)
  {
    var all := times + [now];
    var i := |times| - 1;
    assert all[i + 1] == now && all[i] == times[i];
  }

  /**
   * A crash does no harm, whatever happens afterwards, if and only if the file is on pace: it holds
   * no deleted job and none that could be dispatched before its interval has passed.
   */
  lemma RestartHarmlessExactly(g: Log)
    requires Invariant(g)
    ensures Paced(g, g.world.file) <==>
            forall events :: AllowedRun(Note(g, Restart), events) ==> InOrder(Run(Note(g, Restart), events))
  {
    var h := Note(g, Restart);
    if Paced(g, g.world.file) {
      RestartKeeps(g);
      forall events | AllowedRun(h, events) ensures InOrder(Run(h, events)) {
        RunKeeps(h, events);
        InvariantInOrder(Run(h, events));
      }
    } else {
      var id :| id in g.world.file && !PacedJob(g, id, g.world.file[id]);
      var events := OffPaceShows(g, id);
    }
  }

  /**
   * A tick whose write failed, then a crash: the next tick dispatches the same jobs again, and the
   * pace is kept if and only if that tick happens to come a full interval later.
   */
  lemma LostTickRepeats(g: Log, id: JobId, now: int, later: int)
    requires Invariant(g) && g.world.jobs == g.world.file && id in Due(g.world.jobs, now) && now <= later
    requires Possible(g.world, Tick(now, false)) && Reschedulable(g.world.jobs, Due(g.world.jobs, later), later)
    ensures var crashed := Note(Note(g, Tick(now, false)), Restart);
            && CanHappenRun(g, [Tick(now, false), Restart, Tick(later, true)])
            && var h := Note(crashed, Tick(later, true));
               && id in g.dispatched && id in h.dispatched && h.dispatched[id] == g.dispatched[id] + [now, later]
               && (g.known[id] < I64_LIMIT ==>
                     (OnPace(h.dispatched[id], g.known[id]) <==> later >= now + g.known[id] * SECOND))
  {
    assert PacedJob(g, id, g.world.jobs[id]);
    RescheduleKeepsPace(g.dispatched[id], g.world.jobs[id], now);
    RepeatNoted(g, id, now, later);
    var times := g.dispatched[id] + [now];
    assert times + [later] == g.dispatched[id] + [now, later];
    if g.known[id] < I64_LIMIT {
      OneMoreOnPace(times, g.known[id], later);
    }
    var crashed := Note(Note(g, Tick(now, false)), Restart);
    hide Note, Invariant, PacedJob, NextOnPace, Due, OnPace;
    assert [Tick(now, false), Restart, Tick(later, true)][1..] == [Restart, Tick(later, true)];
    assert [Restart, Tick(later, true)][1..] == [Tick(later, true)] && [Tick(later, true)][1..] == [];
    assert CanHappenRun(Note(crashed, Tick(later, true)), []);
    assert CanHappenRun(crashed, [Tick(later, true)]);
    assert CanHappenRun(Note(g, Tick(now, false)), [Restart, Tick(later, true)]);
  }

  lemma RepeatNoted(g: Log, id: JobId, now: int, later: int)
    requires g.world.jobs == g.world.file && id in Due(g.world.jobs, now) && now <= later && id in g.dispatched
    requires Possible(g.world, Tick(now, false)) && Reschedulable(g.world.jobs, Due(g.world.jobs, later), later)
    ensures var crashed := Note(Note(g, Tick(now, false)), Restart);
            && crashed.world.jobs == g.world.jobs && Possible(crashed.world, Tick(later, true))
            && var h := Note(crashed, Tick(later, true));
               id in h.dispatched && h.dispatched[id] == g.dispatched[id] + [now] + [later]
  {
    var g1 := Note(g, Tick(now, false));
    assert g1.dispatched[id] == g.dispatched[id] + [now];
    var crashed := Note(g1, Restart);
    assert crashed.world.jobs == g.world.jobs && id in Due(crashed.world.jobs, later);
  }

  lemma OneMoreOnPace(times: seq<int>, interval: nat, later: int)
    requires OnPace(times, interval) && times != [] && interval < I64_LIMIT
    ensures OnPace(times + [later], interval) <==> later >= times[|times| - 1] + interval * SECOND
  {
    if later < times[|times| - 1] + interval * SECOND {
      TooEarly(times, interval, later);
    }
  }

  /** A deletion whose write failed is undone by a crash. */
  lemma LostDeleteRevives(g: Log, id: JobId)
    requires Invariant(g) && g.world.jobs == g.world.file && id in g.world.jobs
    ensures var crashed := Note(Note(g, Delete(id, false)), Restart);
            && id in crashed.deleted && crashed.world.jobs == g.world.jobs && !InOrder(crashed)
  {
    var crashed := Note(Note(g, Delete(id, false)), Restart);
    assert id in crashed.world.jobs && id in crashed.deleted;
  }

  /**
   * An interval that turns negative, yet is a valid duration, is accepted and paces nothing: the job
   * is due again in the very instant it was dispatched.
   */
  lemma WrappedIntervalBursts(g: Log, id: JobId, interval: nat, request: nat, now: int)
    requires g.world.alive && id !in g.known && I64_LIMIT <= interval < U64
    requires Due(g.world.jobs, now) == {} && NextRun(now, interval).Some?
    ensures var events := [Create(id, interval, true, request, now, true), Tick(now, true), Tick(now, true)];
            && AllowedRun(g, events)
            && id in Run(g, events).dispatched && Run(g, events).dispatched[id] == [now, now]
  {
    var create, tick := Create(id, interval, true, request, now, true), Tick(now, true);
    WrappedCreated(g, id, interval, request, now);
    hide Due, Note, NextRun, Apply, Accepts;
    WrappedStaysDue(Note(g, create), id, now);
    WrappedStaysDue(Note(Note(g, create), tick), id, now);
    RunThree(g, create, tick, tick);
    assert [] + [now] + [now] == [now, now];
  }

  lemma WrappedCreated(g: Log, id: JobId, interval: nat, request: nat, now: int)
    requires g.world.alive && id !in g.known && I64_LIMIT <= interval < U64
    requires Due(g.world.jobs, now) == {} && NextRun(now, interval).Some?
    ensures Allowed(g, Create(id, interval, true, request, now, true))
    ensures var h := Note(g, Create(id, interval, true, request, now, true));
            && h.world.alive && Due(h.world.jobs, now) == {id} && id in h.dispatched && h.dispatched[id] == []
            && id in h.world.jobs && h.world.jobs[id].interval == interval
  {
    var h := Note(g, Create(id, interval, true, request, now, true));
    assert h.world.jobs[id].nextRun <= now;
    forall other | other in h.world.jobs && other != id ensures !IsDue(h.world.jobs[other], now) {
      assert other !in Due(g.world.jobs, now);
    }
  }

  lemma WrappedStaysDue(g: Log, id: JobId, now: int)
    requires g.world.alive && Due(g.world.jobs, now) == {id} && id in g.dispatched && id in g.world.jobs
    requires g.world.jobs[id].interval >= I64_LIMIT && NextRun(now, g.world.jobs[id].interval).Some?
    requires g.world.jobs[id].interval < U64
    ensures Allowed(g, Tick(now, true))
    ensures var h := Note(g, Tick(now, true));
            && h.world.alive && Due(h.world.jobs, now) == {id} && id in h.dispatched && id in h.world.jobs
            && h.world.jobs[id].interval == g.world.jobs[id].interval
            && h.dispatched[id] == g.dispatched[id] + [now]
  {
    var h := Note(g, Tick(now, true));
    assert IsDue(h.world.jobs[id], now) by {
      assert IsDue(g.world.jobs[id], now) by {
        assert id in Due(g.world.jobs, now);
      }
    }
    forall other | other in h.world.jobs && other != id ensures !IsDue(h.world.jobs[other], now) {
      assert other !in Due(g.world.jobs, now);
    }
  }

  lemma RunThree(g: Log, a: Event, b: Event, c: Event)
    requires Allowed(g, a) && Allowed(Note(g, a), b) && Allowed(Note(Note(g, a), b), c)
    ensures AllowedRun(g, [a, b, c]) && Run(g, [a, b, c]) == Note(Note(Note(g, a), b), c)
  {
    hide Note, Possible;
    var g3 := Note(Note(Note(g, a), b), c);
    assert [a, b, c][1..] == [b, c] && [b, c][1..] == [c] && [c][1..] == [];
    assert AllowedRun(g3, []) && Run(g3, []) == g3;
    assert AllowedRun(Note(Note(g, a), b), [c]) && Run(Note(Note(g, a), b), [c]) == g3;
    assert AllowedRun(Note(g, a), [b, c]) && Run(Note(g, a), [b, c]) == g3;
  }

  // ----- who is dispatched, and when -----

  /** A tick dispatches a job if and only if it is enabled and its next run has come. */
  lemma TickDispatchesExactly(g: Log, now: int, written: bool, id: JobId)
    requires Possible(g.world, Tick(now, written)) && id in g.dispatched
    ensures var h := Note(g, Tick(now, written));
            && id in h.dispatched
            && h.dispatched[id] == g.dispatched[id] +
               if id in g.world.jobs && g.world.jobs[id].enabled && g.world.jobs[id].nextRun <= now then [now] else []
  {
    assert g.dispatched[id] + [] == g.dispatched[id];
  }

  /** A new job first runs exactly its interval after its creation, if it is enabled. */
  lemma CreatedRunsAfterInterval(g: Log, e: Event)
    requires e.Create? && Accepts(e) && e.interval < I64_LIMIT
    ensures var h := Note(g, e);
            && e.id in h.world.jobs && h.dispatched[e.id] == [] && h.world.jobs[e.id].enabled == e.enabled
            && h.world.jobs[e.id].nextRun == e.now + e.interval * SECOND && h.world.jobs[e.id].request == e.request
  {}

  /** A dispatched job next runs exactly its interval after the tick, not after the time it was due. */
  lemma DispatchedRunsAfterInterval(g: Log, now: int, written: bool, id: JobId)
    requires Possible(g.world, Tick(now, written)) && id in g.world.jobs && g.world.jobs[id].interval < I64_LIMIT
    requires g.world.jobs[id].enabled && g.world.jobs[id].nextRun <= now
    ensures var h := Note(g, Tick(now, written));
            id in h.world.jobs && h.world.jobs[id] == g.world.jobs[id].(nextRun := now + g.world.jobs[id].interval * SECOND)
  {
    assert id in Due(g.world.jobs, now);
  }

  /** A completion is noted on its own job and changes nothing else about any job. */
  lemma CompletionNoted(g: Log, id: JobId, execution: ExecutionId, written: bool)
    ensures var h := Note(g, Complete(id, execution, written));
            && h.world.jobs.Keys == g.world.jobs.Keys && h.dispatched == g.dispatched
            && (id in g.world.jobs ==> h.world.jobs[id] == g.world.jobs[id].(lastExecution := Some(execution)))
            && forall other :: other in g.world.jobs && other != id ==> h.world.jobs[other] == g.world.jobs[other]
  {}

  /** Nothing that ends, delays or advances the job. */
  predicate LeavesAlone(e: Event, id: JobId, nextRun: int) {
    match e
    case Create(other, _, _, _, _, _) => other != id
    case Delete(other, _) => other != id
    case Tick(now, _) => now < nextRun
    case Panic(now, _) => now < nextRun
    case Complete(_, _, _) => true
    case Restart => false
  }

  lemma LeftAlone(g: Log, e: Event, id: JobId)
    requires Possible(g.world, e) && id in g.world.jobs && id in g.dispatched && LeavesAlone(e, id, g.world.jobs[id].nextRun)
    ensures var h := Note(g, e);
            && id in h.world.jobs && id in h.dispatched && h.dispatched[id] == g.dispatched[id]
            && h.world.jobs[id].nextRun == g.world.jobs[id].nextRun && h.world.jobs[id].enabled == g.world.jobs[id].enabled
  {
    hide NextRun;
    assert e.Tick? || e.Panic? ==> id !in Due(g.world.jobs, e.now);
  }

  /**
   * An enabled job is dispatched by the first tick at or after its next run, and not before, whatever
   * else happens to other jobs in between.
   */
  lemma {:induction false} FirstTickDispatches(g: Log, events: seq<Event>, id: JobId, now: int, written: bool)
    requires AllowedRun(g, events) && id in g.world.jobs && id in g.dispatched && g.world.jobs[id].enabled
    requires forall i :: 0 <= i < |events| ==> LeavesAlone(events[i], id, g.world.jobs[id].nextRun)
    requires now >= g.world.jobs[id].nextRun && Possible(Run(g, events).world, Tick(now, written))
    ensures var h := Run(g, events);
            && id in h.dispatched && h.dispatched[id] == g.dispatched[id]
            && Note(h, Tick(now, written)).dispatched[id] == g.dispatched[id] + [now]
    decreases |events|
  {
    hide Note, Possible, Paced, LeavesAlone;
    if events == [] {
      TickDispatchesExactly(g, now, written, id);
    } else {
      assert LeavesAlone(events[0], id, g.world.jobs[id].nextRun);
      LeftAlone(g, events[0], id);
      assert forall i :: 0 <= i < |events[1..]| ==> events[1..][i] == events[i + 1];
      FirstTickDispatches(Note(g, events[0]), events[1..], id, now, written);
    }
  }

  /** A known job that is disabled wherever it is written down, and was never dispatched. */
  ghost predicate Idle(g: Log, id: JobId) {
    && id in g.known && id in g.dispatched && g.dispatched[id] == []
    && (id in g.world.jobs ==> !g.world.jobs[id].enabled)
    && (id in g.world.file ==> !g.world.file[id].enabled)
  }

  lemma StepStaysIdle(g: Log, e: Event, id: JobId)
    requires CanHappen(g, e) && Idle(g, id)
    ensures Idle(Note(g, e), id)
  {
    hide NextRun;
    assert e.Tick? || e.Panic? ==> id !in Due(g.world.jobs, e.now);
  }

  lemma {:induction false} StaysIdle(g: Log, events: seq<Event>, id: JobId)
    requires AllowedRun(g, events) && Idle(g, id)
    ensures Idle(Run(g, events), id)
    decreases |events|
  {
    hide Note, Paced, Idle;
    if events != [] {
      StepStaysIdle(g, events[0], id);
      StaysIdle(Note(g, events[0]), events[1..], id);
    }
  }

  /** A job created disabled is never dispatched, whatever happens afterwards. */
  lemma DisabledNeverDispatched(file: Jobs, before: seq<Event>, e: Event, after: seq<Event>)
    requires AllowedRun(Start(file), before) && Allowed(Run(Start(file), before), e) && Accepts(e) && !e.enabled
    requires AllowedRun(Note(Run(Start(file), before), e), after)
    ensures var end := Run(Note(Run(Start(file), before), e), after);
            e.id in end.dispatched && end.dispatched[e.id] == []
  {
    StartInvariant(file);
    RunKeeps(Start(file), before);
    var g := Run(Start(file), before);
    assert forall id :: id in g.world.file ==> KnownJob(g, id, g.world.file[id]);
    assert Idle(Note(g, e), e.id);
    StaysIdle(Note(g, e), after, e.id);
  }
}
