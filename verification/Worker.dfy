/** The worker's singleton lock and orphan reaper. */
module Worker {
  // scripts/run_worker.py as a system of workers and job rows. The advisory lock lives as long as the worker's
  // process; worker identities are fresh; WORKER_ALLOW_MULTIPLE is off.

  import opened Order
  import opened Text

  // ---- the lock key -----------------------------------------------------------------------

  /** `_lock_key`: the string hashed into the advisory-lock key (the hash is taken to be injective). */
  function LockKey(queues: seq<string>): string {
    "adaptive-intake.worker:" + Join(Sort(StringLe, queues), ",")
  }

  predicate CommaFree(names: seq<string>) {
    forall i | 0 <= i < |names| :: ',' !in names[i]
  }

  /** Two names followed by a comma or by the end of the text split in one way. */
  lemma {:induction false} FirstNameSplits(a: string, s: string, b: string, t: string)
    requires a + s == b + t && ',' !in a && ',' !in b
    requires (s == "" || s[0] == ',') && (t == "" || t[0] == ',')
    ensures a == b && s == t
  {
    assert forall i | 0 <= i < |a| :: (a + s)[i] == a[i] && a[i] in a;
    assert forall i | 0 <= i < |b| :: (b + t)[i] == b[i] && b[i] in b;
    if a == "" {
      assert s == b + t;
    } else if b == "" {
    } else {
      assert (a + s)[0] == a[0] && (b + t)[0] == b[0];
      assert (a + s)[1..] == a[1..] + s && (b + t)[1..] == b[1..] + t;
      FirstNameSplits(a[1..], s, b[1..], t);
      assert a == [a[0]] + a[1..] && b == [b[0]] + b[1..];
    }
  }

  function Tail(names: seq<string>): string {
    if |names| <= 1 then "" else "," + Join(names[1..], ",")
  }

  lemma {:induction false} JoinInjective(a: seq<string>, b: seq<string>)
    requires a != [] && b != [] && CommaFree(a) && CommaFree(b) && Join(a, ",") == Join(b, ",")
    ensures a == b
  {
    assert Join(a, ",") == a[0] + Tail(a) && Join(b, ",") == b[0] + Tail(b);
    FirstNameSplits(a[0], Tail(a), b[0], Tail(b));
    assert Tail(a) != "" ==> Tail(a)[1..] == Join(a[1..], ",");
    assert Tail(b) != "" ==> Tail(b)[1..] == Join(b[1..], ",");
    if |a| > 1 {
      JoinInjective(a[1..], b[1..]);
    }
    assert a == [a[0]] + a[1..] && b == [b[0]] + b[1..];
  }

  /** Two queue lists contend for one lock exactly when they list the same names equally often. */
  lemma LockKeyIgnoresOrderOnly(a: seq<string>, b: seq<string>)
    requires a != [] && b != [] && CommaFree(a) && CommaFree(b)
    ensures LockKey(a) == LockKey(b) <==> multiset(a) == multiset(b)
  {
    StringLeIsTotalOrder();
    SortEqualIffSameMultiset(StringLe, a, b);
    var sa, sb := Sort(StringLe, a), Sort(StringLe, b);
    if LockKey(a) == LockKey(b) {
      var p := "adaptive-intake.worker:";
      assert LockKey(a)[|p|..] == Join(sa, ",") && LockKey(b)[|p|..] == Join(sb, ",");
      forall i | 0 <= i < |sa| ensures ',' !in sa[i] { assert sa[i] in multiset(a); }
      forall i | 0 <= i < |sb| ensures ',' !in sb[i] { assert sb[i] in multiset(b); }
      assert |multiset(sa)| == |multiset(a)| && |multiset(sb)| == |multiset(b)|;
      JoinInjective(sa, sb);
    }
  }

  /** A queue named twice: the same set of queues, two locks, so both workers start. */
  lemma RepeatedQueueTakesAnotherLock()
    ensures LockKey(["default", "default"]) != LockKey(["default"])
    ensures (set q | q in ["default", "default"]) == (set q | q in ["default"])
  {
    LockKeyIgnoresOrderOnly(["default", "default"], ["default"]);
    assert |multiset(["default", "default"])| == 2 && |multiset(["default"])| == 1;
  }

  // ---- workers and job rows ---------------------------------------------------------------

  /** Any lock-key function; the code's is `LockKey`. */
  type Lock = seq<string> -> string

  datatype Status = Todo | Doing(owner: nat) | Finished
  datatype Job = Job(queue: string, status: Status)
  /** Between taking the lock and fetching, a worker reaps. */
  datatype Phase = Starting | Fetching(reaped: bool)
  datatype Process = Process(queues: seq<string>, phase: Phase)
  /** `live` holds the running processes, each with its lock connection; `retired` the dead ones. */
  datatype System = System(jobs: map<nat, Job>, live: map<nat, Process>, retired: set<nat>)

  datatype Step =
    | Defer(job: nat, queue: string)
    | Start(worker: nat, queues: seq<string>)
    | Reap(worker: nat)
    | ReapFails(worker: nat)
    | Fetch(worker: nat, job: nat)
    | Finish(worker: nat, job: nat)
    | Retry(worker: nat, job: nat)
    | Die(worker: nat)

  const EMPTY := System(map[], map[], {})

  predicate Held(lock: Lock, live: map<nat, Process>, key: string) {
    exists w | w in live :: lock(live[w].queues) == key
  }

  predicate OnQueues(j: Job, queues: seq<string>) {
    j.status.Doing? && j.queue in queues
  }

  /** The UPDATE of `reap_orphaned_jobs`. */
  function Reaped(jobs: map<nat, Job>, queues: seq<string>): map<nat, Job> {
    map id | id in jobs :: if OnQueues(jobs[id], queues) then jobs[id].(status := Todo) else jobs[id]
  }

  /** One step; a step that the system refuses changes nothing. */
  function Apply(lock: Lock, s: System, step: Step): System {
    match step
    case Defer(id, q) =>
      if id in s.jobs then s else s.(jobs := s.jobs[id := Job(q, Todo)])
    case Start(w, qs) =>
      if w in s.live || w in s.retired || Held(lock, s.live, lock(qs)) then s
      else s.(live := s.live[w := Process(qs, Starting)])
    case Reap(w) =>
      if w in s.live && s.live[w].phase == Starting
      then s.(jobs := Reaped(s.jobs, s.live[w].queues), live := s.live[w := s.live[w].(phase := Fetching(true))])
      else s
    case ReapFails(w) =>
      if w in s.live && s.live[w].phase == Starting
      then s.(live := s.live[w := s.live[w].(phase := Fetching(false))])
      else s
    case Fetch(w, id) =>
      if w in s.live && s.live[w].phase.Fetching? && id in s.jobs && s.jobs[id].status == Todo && s.jobs[id].queue in s.live[w].queues
      then s.(jobs := s.jobs[id := s.jobs[id].(status := Doing(w))])
      else s
    case Finish(w, id) =>
      if w in s.live && id in s.jobs && s.jobs[id].status == Doing(w)
      then s.(jobs := s.jobs[id := s.jobs[id].(status := Finished)])
      else s
    case Retry(w, id) =>
      if w in s.live && id in s.jobs && s.jobs[id].status == Doing(w)
      then s.(jobs := s.jobs[id := s.jobs[id].(status := Todo)])
      else s
    case Die(w) =>
      if w in s.live then s.(live := s.live - {w}, retired := s.retired + {w}) else s
  }

  function Run(lock: Lock, s: System, steps: seq<Step>): System {
    if steps == [] then s else Apply(lock, Run(lock, s, steps[..|steps| - 1]), steps[|steps| - 1])
  }

  lemma RunSnoc(lock: Lock, s: System, steps: seq<Step>, step: Step)
    ensures Run(lock, s, steps + [step]) == Apply(lock, Run(lock, s, steps), step)
  {
    assert (steps + [step])[..|steps|] == steps;
  }

  /** What a worker does to a job that exists: it takes a waiting one from its own queues once it fetches, ends or
      puts back the one it runs, and dying leaves it where it is. */
  lemma JobStepsExactly(lock: Lock, s: System, w: nat, id: nat)
    requires w in s.live && id in s.jobs
    ensures var p, job := s.live[w], s.jobs[id];
      var takes, runs := p.phase != Starting && job.status == Todo && job.queue in p.queues, job.status == Doing(w);
      Apply(lock, s, Fetch(w, id)) == System(if takes then s.jobs[id := Job(job.queue, Doing(w))] else s.jobs, s.live, s.retired) &&
      Apply(lock, s, Finish(w, id)) == System(if runs then s.jobs[id := Job(job.queue, Finished)] else s.jobs, s.live, s.retired) &&
      Apply(lock, s, Retry(w, id)) == System(if runs then s.jobs[id := Job(job.queue, Todo)] else s.jobs, s.live, s.retired) &&
      Apply(lock, s, Die(w)) == System(s.jobs, s.live - {w}, s.retired + {w})
  {}

  /** A new process starts exactly when no live one holds the lock of its queues. */
  lemma StartsExactlyWhen(lock: Lock, s: System, w: nat, queues: seq<string>)
    requires w !in s.live && w !in s.retired
    ensures var s' := Apply(lock, s, Start(w, queues));
      if exists v | v in s.live :: lock(s.live[v].queues) == lock(queues) then s' == s
      else s' == System(s.jobs, s.live[w := Process(queues, Starting)], s.retired)
  {}

  // ---- what every run keeps ---------------------------------------------------------------

  predicate Disjoint(a: seq<string>, b: seq<string>) {
    forall q | q in a :: q !in b
  }

  predicate Compatible(lock: Lock, a: seq<string>, b: seq<string>) {
    lock(a) == lock(b) || Disjoint(a, b)
  }

  /** Every worker is started on one of the given lists, and these pairwise agree or are disjoint. */
  ghost predicate Deployment(lock: Lock, lists: set<seq<string>>, steps: seq<Step>) {
    (forall a, b | a in lists && b in lists :: Compatible(lock, a, b)) &&
    (forall i | 0 <= i < |steps| && steps[i].Start? :: steps[i].queues in lists)
  }

  ghost predicate OneHolder(lock: Lock, s: System) {
    forall v, w | v in s.live && w in s.live && lock(s.live[v].queues) == lock(s.live[w].queues) :: v == w
  }

  /** A running job's owner has existed; if it is live, it is fetching and serves the job's queue. */
  ghost predicate Served(s: System) {
    s.live.Keys !! s.retired &&
    forall id | id in s.jobs && s.jobs[id].status.Doing? ::
      var w := s.jobs[id].status.owner;
      (w in s.live || w in s.retired) &&
      (w in s.live ==> s.live[w].phase.Fetching? && s.jobs[id].queue in s.live[w].queues)
  }

  /** A worker that reaped sees no running job on its queues but its own. */
  ghost predicate SoleOwner(s: System) {
    forall w, id | w in s.live && s.live[w].phase == Fetching(true) && id in s.jobs && OnQueues(s.jobs[id], s.live[w].queues) ::
      s.jobs[id].status.owner == w
  }

  ghost predicate Owned(s: System) {
    Served(s) && SoleOwner(s)
  }

  ghost predicate Known(lists: set<seq<string>>, s: System) {
    forall w | w in s.live :: s.live[w].queues in lists
  }

  /** At most one live worker holds each lock, in every run. */
  lemma {:induction false} OneLiveWorkerPerQueueSet(lock: Lock, steps: seq<Step>)
    ensures OneHolder(lock, Run(lock, EMPTY, steps))
  {
    if steps != [] {
      OneLiveWorkerPerQueueSet(lock, steps[..|steps| - 1]);
    }
  }

  lemma SharedQueueSharesWorker(lock: Lock, lists: set<seq<string>>, s: System, v: nat, w: nat, q: string)
    requires OneHolder(lock, s) && Known(lists, s) && forall a, b | a in lists && b in lists :: Compatible(lock, a, b)
    requires v in s.live && w in s.live && q in s.live[v].queues && q in s.live[w].queues
    ensures v == w
  {
    assert Compatible(lock, s.live[v].queues, s.live[w].queues);
  }

  lemma ServedStep(lock: Lock, lists: set<seq<string>>, s: System, step: Step)
    requires Known(lists, s) && Served(s) && (step.Start? ==> step.queues in lists)
    ensures Known(lists, Apply(lock, s, step)) && Served(Apply(lock, s, step))
  {}

  lemma SoleOwnerStep(lock: Lock, lists: set<seq<string>>, s: System, step: Step)
    requires OneHolder(lock, s) && Known(lists, s) && Owned(s)
    requires forall a, b | a in lists && b in lists :: Compatible(lock, a, b)
    ensures SoleOwner(Apply(lock, s, step))
  {
    var s' := Apply(lock, s, step);
    forall w, id | w in s'.live && s'.live[w].phase == Fetching(true) && id in s'.jobs && OnQueues(s'.jobs[id], s'.live[w].queues)
      ensures s'.jobs[id].status.owner == w
    {
      if step.Fetch? && step.job == id && s' != s {
        SharedQueueSharesWorker(lock, lists, s, w, step.worker, s'.jobs[id].queue);
      }
    }
  }

  lemma {:induction false} EveryRunKeepsOwnership(lock: Lock, lists: set<seq<string>>, steps: seq<Step>)
    requires Deployment(lock, lists, steps)
    ensures Known(lists, Run(lock, EMPTY, steps)) && Owned(Run(lock, EMPTY, steps))
  {
    if steps != [] {
      var before := steps[..|steps| - 1];
      assert forall i | 0 <= i < |before| :: before[i] == steps[i];
      EveryRunKeepsOwnership(lock, lists, before);
      OneLiveWorkerPerQueueSet(lock, before);
      ServedStep(lock, lists, Run(lock, EMPTY, before), steps[|steps| - 1]);
      SoleOwnerStep(lock, lists, Run(lock, EMPTY, before), steps[|steps| - 1]);
    }
  }

  /** Reaping never resets a job that a live worker is running. */
  lemma ReapSparesLiveWorkers(lock: Lock, lists: set<seq<string>>, steps: seq<Step>, w: nat, id: nat)
    requires Deployment(lock, lists, steps)
    ensures var s := Run(lock, EMPTY, steps);
      id in s.jobs && s.jobs[id].status.Doing? && s.jobs[id].status.owner in s.live ==>
        Apply(lock, s, Reap(w)).jobs[id] == s.jobs[id]
  {
    var s := Run(lock, EMPTY, steps);
    EveryRunKeepsOwnership(lock, lists, steps);
    OneLiveWorkerPerQueueSet(lock, steps);
    if id in s.jobs && s.jobs[id].status.Doing? && s.jobs[id].status.owner in s.live && w in s.live && s.jobs[id].queue in s.live[w].queues {
      SharedQueueSharesWorker(lock, lists, s, s.jobs[id].status.owner, w, s.jobs[id].queue);
    }
  }

  /** From a successful reap to the worker's death, no job of its queues runs without a live owner. */
  lemma NoOrphanWhileAReapedWorkerLives(lock: Lock, lists: set<seq<string>>, steps: seq<Step>, w: nat, id: nat)
    requires Deployment(lock, lists, steps)
    ensures var s := Run(lock, EMPTY, steps);
      w in s.live && s.live[w].phase == Fetching(true) && id in s.jobs && OnQueues(s.jobs[id], s.live[w].queues) ==>
        s.jobs[id].status == Doing(w)
  {
    EveryRunKeepsOwnership(lock, lists, steps);
  }

  // ---- the condition is exact -------------------------------------------------------------

  /** For two lists that share a queue under different locks, the run in which the second worker's
      start-up reap takes a job away from the first. */
  function StolenJob(a: seq<string>, b: seq<string>, q: string): seq<Step> {
    [Defer(0, q), Start(1, a), Reap(1), Fetch(1, 0), Start(2, b)]
  }

  /** Its first four steps put the job into the first worker's hands. */
  lemma FirstWorkerTakesTheJob(lock: Lock, a: seq<string>, q: string)
    requires q in a
    ensures Run(lock, EMPTY, [Defer(0, q), Start(1, a), Reap(1), Fetch(1, 0)]) ==
      System(map[0 := Job(q, Doing(1))], map[1 := Process(a, Fetching(true))], {})
  {
    var p1 := [Defer(0, q)];
    var p2 := p1 + [Start(1, a)];
    var p3 := p2 + [Reap(1)];
    assert p1 == [] + p1 && [Defer(0, q), Start(1, a), Reap(1), Fetch(1, 0)] == p3 + [Fetch(1, 0)];
    RunSnoc(lock, EMPTY, [], Defer(0, q));
    RunSnoc(lock, EMPTY, p1, Start(1, a));
    RunSnoc(lock, EMPTY, p2, Reap(1));
    RunSnoc(lock, EMPTY, p3, Fetch(1, 0));
    var s1 := EMPTY.(jobs := map[0 := Job(q, Todo)]);
    assert Run(lock, EMPTY, p1) == s1;
    assert Run(lock, EMPTY, p2) == s1.(live := map[1 := Process(a, Starting)]);
    assert Run(lock, EMPTY, p3) == s1.(live := map[1 := Process(a, Fetching(true))]);
  }

  lemma OverlapUnderTwoLocksStealsAJob(lock: Lock, a: seq<string>, b: seq<string>, q: string)
    requires !Compatible(lock, a, b) && q in a && q in b
    ensures Steals(lock, Run(lock, EMPTY, StolenJob(a, b, q)), 2, 0)
  {
    var p4 := [Defer(0, q), Start(1, a), Reap(1), Fetch(1, 0)];
    FirstWorkerTakesTheJob(lock, a, q);
    assert StolenJob(a, b, q) == p4 + [Start(2, b)];
    RunSnoc(lock, EMPTY, p4, Start(2, b));
  }

  ghost predicate StealsIn(lock: Lock, steps: seq<Step>, w: nat, id: nat) {
    Steals(lock, Run(lock, EMPTY, steps), w, id)
  }

  /** No run of workers on these two lists ever reaps a job in flight. */
  ghost predicate Safe(lock: Lock, a: seq<string>, b: seq<string>) {
    forall steps, w: nat, id: nat | Deploys(a, b, steps) :: !StealsIn(lock, steps, w, id)
  }

  /** Two lists are safe to run side by side exactly when they are compatible. */
  lemma SafeExactlyWhenCompatible(lock: Lock, a: seq<string>, b: seq<string>)
    ensures Compatible(lock, a, b) <==> Safe(lock, a, b)
  {
    if Compatible(lock, a, b) {
      forall steps, w: nat, id: nat | Deploys(a, b, steps) ensures !StealsIn(lock, steps, w, id) {
        assert Compatible(lock, b, a);
        assert Deployment(lock, {a, b}, steps);
        ReapSparesLiveWorkers(lock, {a, b}, steps, w, id);
      }
    } else {
      var q :| q in a && q in b;
      OverlapUnderTwoLocksStealsAJob(lock, a, b, q);
      var steps := StolenJob(a, b, q);
      assert Deploys(a, b, steps) && StealsIn(lock, steps, 2, 0);
    }
  }

  ghost predicate Deploys(a: seq<string>, b: seq<string>, steps: seq<Step>) {
    forall i | 0 <= i < |steps| && steps[i].Start? :: steps[i].queues in [a, b]
  }

  /** The reap of worker w would reset job `id` while its live owner is running it. */
  ghost predicate Steals(lock: Lock, s: System, w: nat, id: nat) {
    id in s.jobs && s.jobs[id].status.Doing? && s.jobs[id].status.owner in s.live &&
    Apply(lock, s, Reap(w)).jobs[id] != s.jobs[id]
  }

  /** For the code's own lock key: exactly when the lists name the same queues equally often, or share none. */
  lemma SafeQueueLists(a: seq<string>, b: seq<string>)
    requires a != [] && b != [] && CommaFree(a) && CommaFree(b)
    ensures Safe(LockKey, a, b) <==> multiset(a) == multiset(b) || Disjoint(a, b)
  {
    LockKeyIgnoresOrderOnly(a, b);
    SafeExactlyWhenCompatible(LockKey, a, b);
  }

  // ---- the start-up code ------------------------------------------------------------------

  /** The shared database as one starting process sees it: job rows and held locks. */
  class Database {
    var jobs: map<nat, Job>
    var live: map<nat, Process>
    var retired: set<nat>

    ghost function State(): System
      reads this
    {
      System(jobs, live, retired)
    }

    /** `_singleton_lock`: false stands for the exit with status 3. */
    method SingletonLock(worker: nat, queues: seq<string>) returns (got: bool)
      requires worker !in live && worker !in retired
      modifies this`live
      ensures State() == Apply(LockKey, old(State()), Start(worker, queues))
      ensures got <==> forall w | w in old(live) :: LockKey(old(live)[w].queues) != LockKey(queues)
      ensures got <==> worker in live
    {
      var key := LockKey(queues);
      if Held(LockKey, live, key) {
        return false;
      }
      live := live[worker := Process(queues, Starting)];
      return true;
    }

    /** `reap_orphaned_jobs`: the released ids are exactly the running jobs on these queues. */
    method ReapOrphanedJobs(queues: seq<string>) returns (ids: set<nat>)
      modifies this`jobs
      ensures ids == set id | id in old(jobs) && OnQueues(old(jobs)[id], queues)
      ensures jobs == Reaped(old(jobs), queues)
    {
      ids := set id | id in jobs && OnQueues(jobs[id], queues);
      jobs := map id | id in jobs :: if id in ids then jobs[id].(status := Todo) else jobs[id];
    }

    /** The start-up order of `main`: lock, then reap (a reaper failure does not stop the worker). */
    method StartUp(worker: nat, queues: seq<string>, reapWorks: bool) returns (started: bool)
      requires worker !in live && worker !in retired
      modifies this
      ensures !started ==> State() == old(State())
      ensures started ==>
        State() == Apply(LockKey, Apply(LockKey, old(State()), Start(worker, queues)), if reapWorks then Reap(worker) else ReapFails(worker))
      ensures started && reapWorks ==> forall id | id in jobs :: !OnQueues(jobs[id], queues)
    {
      started := SingletonLock(worker, queues);
      if !started {
        return;
      }
      if reapWorks {
        var ids := ReapOrphanedJobs(queues);
      }
      live := live[worker := Process(queues, Fetching(reapWorks))];
    }
  }
}
