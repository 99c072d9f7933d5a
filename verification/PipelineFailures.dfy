/** Retries, failure stamps and crashes of the case pipeline. */
module PipelineFailures {
  import opened Options
  import opened Text
  import opened Pipeline
  import opened PipelineLaws
  import Elicitation

  // ---- runs from a state ------------------------------------------------------------------

  lemma {:induction false} FromAppend(tag: Tagging, db: Db, first: seq<Step>, more: seq<Step>)
    ensures From(tag, db, first + more) == From(tag, From(tag, db, first), more)
    decreases |more|
  {
    hide Apply;
    var all := first + more;
    if more == [] {
      assert all == first;
    } else {
      FromAppend(tag, db, first, more[..|more| - 1]);
      assert all[..|all| - 1] == first + more[..|more| - 1];
    }
  }

  lemma FromOne(tag: Tagging, db: Db, step: Step)
    ensures From(tag, db, [step]) == Apply(tag, db, step)
  {
    hide Apply;
    assert [step][..0] == [];
    assert From(tag, db, []) == db;
  }

  lemma FromTwo(tag: Tagging, db: Db, s1: Step, s2: Step)
    ensures From(tag, db, [s1, s2]) == Apply(tag, Apply(tag, db, s1), s2)
  {
    hide Apply;
    FromOne(tag, db, s1);
    assert [s1, s2][..1] == [s1];
  }

  // ---- retries ----------------------------------------------------------------------------

  ghost predicate AttemptsBounded(db: Db) {
    forall j | j in db.jobs :: j < db.nextJob && db.jobs[j].attempts <= MAX_ATTEMPTS &&
      (db.jobs[j].status == Exhausted <==> db.jobs[j].attempts == MAX_ATTEMPTS)
  }

  lemma {:induction false} StoreAllBounded(db: Db, items: seq<Item>)
    requires AttemptsBounded(db)
    ensures AttemptsBounded(StoreAll(db, items))
  {
    if items != [] {
      StoreAllBounded(db, items[..|items| - 1]);
    }
  }

  lemma TaskTxBounded(tag: Tagging, db: Db, task: Task, o: Outcome)
    requires AttemptsBounded(db)
    ensures AttemptsBounded(TaskTx(tag, db, task, o))
  {
    hide CaseText, Save, Blank, Elicitation.HandedOff, Elicitation.Elicit, Elicitation.Dispatch, Elicited, InputsOf;
  }

  lemma FailBounded(db: Db, j: nat, stampWorks: bool)
    requires AttemptsBounded(db) && j in db.jobs && db.jobs[j].status.Doing?
    ensures AttemptsBounded(Fail(db, j, stampWorks))
  {}

  lemma BoundedStep(tag: Tagging, db: Db, step: Step)
    requires AttemptsBounded(db)
    ensures AttemptsBounded(Apply(tag, db, step))
  {
    hide TaskTx, StoreAll, Fail;
    match step
    case Arrive(newCases, items) => StoreAllBounded(WithCases(db, newCases), items);
    case Commit(j, o) =>
      if j in db.jobs && db.jobs[j].status == Doing(false) {
        TaskTxBounded(tag, SetStatus(db, j, Doing(true)), db.jobs[j].task, o);
      }
    case Raise(j, ok) => if j in db.jobs && db.jobs[j].status.Doing? { FailBounded(db, j, ok); }
    case _ =>
  }

  /** A job raises at most four times, and is given up exactly at the fourth. */
  lemma {:induction false} RetriesAreBounded(tag: Tagging, steps: seq<Step>)
    ensures AttemptsBounded(Run(tag, steps))
  {
    hide Apply, AttemptsBounded;
    if steps == [] {
      NoJobsNoAttempts();
    } else {
      RetriesAreBounded(tag, steps[..|steps| - 1]);
      BoundedStep(tag, Run(tag, steps[..|steps| - 1]), steps[|steps| - 1]);
    }
  }

  lemma NoJobsNoAttempts()
    ensures AttemptsBounded(EMPTY)
  {}

  // ---- the failure stamp ------------------------------------------------------------------

  /** The task normalises one of the case's documents, extracts the case or elicits it. */
  predicate WorksOn(db: Db, task: Task, c: nat) {
    (task.Normalise? && task.doc in db.docs && db.docs[task.doc].caseId == c) || task == Extract(c) || task == Elicit(c)
  }

  predicate RaisesForTheLastTime(db: Db, j: nat) {
    j in db.jobs && db.jobs[j].status.Doing? && db.jobs[j].attempts + 1 >= MAX_ATTEMPTS
  }

  /** Exactly when a task that raises stamps a case: the case is in flight, the retries are over, the task
      works on the case before any question was decided, and the marking itself works. Nothing else about
      any case changes. */
  lemma StampsExactlyWhen(tag: Tagging, db: Db, j: nat, stampWorks: bool, c: nat)
    requires c in db.cases
    ensures var db' := Apply(tag, db, Raise(j, stampWorks));
      db'.cases.Keys == db.cases.Keys &&
      (db'.cases[c] != db.cases[c] <==>
        InFlight(db.cases[c].state) && RaisesForTheLastTime(db, j) && WorksOn(db, db.jobs[j].task, c) && stampWorks) &&
      (db'.cases[c] != db.cases[c] ==> db'.cases[c] == db.cases[c].(state := Elicitation.ProcessingFailed))
  {
    assert InFlight(db.cases[c].state) ==> db.cases[c] != db.cases[c].(state := Elicitation.ProcessingFailed);
  }

  // ---- after the stamp --------------------------------------------------------------------

  /** Once failed, a case is handed off, or elicited on values it was not elicited on before, or still
      failed. */
  ghost predicate FailedSince(db: Db, db': Db, c: nat)
    requires c in db'.cases
  {
    db'.cases[c].state == Elicitation.ProcessingFailed || Elicitation.HandedOff(db'.cases[c].state) ||
    Elicited(db.ledger, c) < Elicited(db'.ledger, c)
  }

  lemma {:induction false} StoreAllSameLedger(db: Db, items: seq<Item>)
    ensures StoreAll(db, items).ledger == db.ledger && StoreAll(db, items).contents == db.contents && StoreAll(db, items).cases == db.cases
  {
    if items != [] {
      StoreAllSameLedger(db, items[..|items| - 1]);
    }
  }

  lemma ElicitedGrows(before: map<Key, Entry>, after: map<Key, Entry>, c: nat)
    requires forall k | k in before && k.ElicitKey? && before[k].status == Done :: k in after && after[k].status == Done
    ensures Elicited(before, c) <= Elicited(after, c)
  {}

  lemma ElicitMoves(db: Db, c: nat, look: Lookup)
    requires c in db.cases
    ensures var db' := ElicitTx(db, c, look);
      c in db'.cases && (db'.cases[c].state == db.cases[c].state ||
        (!Elicitation.HandedOff(db.cases[c].state) && Elicited(db.ledger, c) < Elicited(db'.ledger, c)))
  {
    hide Elicitation.HandedOff, Elicitation.Elicit, Elicited;
    var k, db' := ElicitKey(c, db.cases[c].governed), ElicitTx(db, c, look);
    if !Elicitation.HandedOff(db.cases[c].state) && !IsDone(db, k) {
      ElicitedGrows(db.ledger, db'.ledger, c);
      ElicitedExactlyWhenDone(db, c, db.cases[c].governed);
      ElicitedExactlyWhenDone(db', c, db.cases[c].governed);
    }
  }

  lemma TaskTxElicited(tag: Tagging, db: Db, task: Task, o: Outcome, c: nat)
    ensures Elicited(db.ledger, c) <= Elicited(TaskTx(tag, db, task, o).ledger, c)
  {
    hide CaseText, Save, Blank, Elicitation.HandedOff, Elicitation.Elicit, Elicitation.Dispatch, InputsOf, Elicited;
    ElicitedGrows(db.ledger, TaskTx(tag, db, task, o).ledger, c);
  }

  /** How a transaction may move a case: only its own elicitation changes the state, and then on new values. */
  lemma TaskTxMoves(tag: Tagging, db: Db, task: Task, o: Outcome, c: nat)
    requires c in db.cases
    ensures var db' := TaskTx(tag, db, task, o);
      c in db'.cases && Elicited(db.ledger, c) <= Elicited(db'.ledger, c) &&
      (db'.cases[c].state == db.cases[c].state || (!Elicitation.HandedOff(db.cases[c].state) && Elicited(db.ledger, c) < Elicited(db'.ledger, c)))
  {
    hide CaseText, Save, Blank, Elicitation.HandedOff, Elicitation.Elicit, Elicitation.Dispatch, InputsOf, Elicited, IsDone;
    TaskTxElicited(tag, db, task, o, c);
    if task == Elicit(c) {
      ElicitMoves(db, c, o.look);
    }
  }

  lemma StepMoves(tag: Tagging, db: Db, step: Step, c: nat)
    requires c in db.cases
    ensures var db' := Apply(tag, db, step);
      c in db'.cases && Elicited(db.ledger, c) <= Elicited(db'.ledger, c) &&
      (Elicitation.HandedOff(db.cases[c].state) ==> Elicitation.HandedOff(db'.cases[c].state)) &&
      (db.cases[c].state == Elicitation.ProcessingFailed ==> FailedSince(db, db', c))
  {
    hide TaskTx, StoreAll, Elicited;
    match step
    case Arrive(newCases, items) => StoreAllSameLedger(WithCases(db, newCases), items);
    case Commit(j, o) =>
      if j in db.jobs && db.jobs[j].status == Doing(false) {
        TaskTxMoves(tag, SetStatus(db, j, Doing(true)), db.jobs[j].task, o, c);
      }
    case _ =>
  }

  /** What a stamp promises from then on: the case stays visibly failed until it is handed off or elicited
      on new values. */
  lemma {:induction false} StampLastsUntilTheNextMove(tag: Tagging, db: Db, steps: seq<Step>, c: nat)
    requires c in db.cases && db.cases[c].state == Elicitation.ProcessingFailed
    ensures c in From(tag, db, steps).cases && FailedSince(db, From(tag, db, steps), c)
    ensures Elicited(db.ledger, c) <= Elicited(From(tag, db, steps).ledger, c)
  {
    hide Apply, Elicited;
    if steps != [] {
      StampLastsUntilTheNextMove(tag, db, steps[..|steps| - 1], c);
      StepMoves(tag, From(tag, db, steps[..|steps| - 1]), steps[|steps| - 1], c);
    }
  }

  ghost predicate StampsWork(steps: seq<Step>) {
    forall i | 0 <= i < |steps| && steps[i].Raise? :: steps[i].stampWorks
  }

  /** Every exhausted job that stamps has stamped. */
  ghost predicate Surfaced(db: Db) {
    forall j | j in db.jobs && db.jobs[j].status == Exhausted :: SurfacedJob(db, db.jobs[j].task)
  }

  ghost predicate SurfacedJob(db: Db, task: Task) {
    forall c | c in db.cases && WorksOn(db, task, c) :: db.cases[c].state != Elicitation.Created
  }

  /** Nothing but an elicitation leaves an undecided case incomplete or actionable. */
  ghost predicate Undecided(db: Db) {
    forall c | c in db.cases && Elicited(db.ledger, c) == {} :: UndecidedState(db.cases[c].state)
  }

  predicate UndecidedState(s: Elicitation.State) {
    s == Elicitation.Created || s == Elicitation.ProcessingFailed || Elicitation.HandedOff(s)
  }

  lemma {:induction false} StoreAllJobs(db: Db, items: seq<Item>)
    ensures var jobs := StoreAll(db, items).jobs; forall j | j in jobs && jobs[j].status == Exhausted :: j in db.jobs && jobs[j] == db.jobs[j]
  {
    if items != [] {
      StoreAllJobs(db, items[..|items| - 1]);
    }
  }

  lemma TaskTxJobs(tag: Tagging, db: Db, task: Task, o: Outcome)
    ensures var jobs := TaskTx(tag, db, task, o).jobs; forall j | j in jobs && jobs[j].status == Exhausted :: j in db.jobs && jobs[j] == db.jobs[j]
  {
    hide CaseText, Save, Blank, Elicitation.HandedOff, Elicitation.Elicit, Elicitation.Dispatch, InputsOf, Elicited;
  }

  /** A job is given up by a raise and by nothing else. */
  lemma GivenUpOnlyByRaising(tag: Tagging, db: Db, step: Step, j: nat)
    requires j in Apply(tag, db, step).jobs && Apply(tag, db, step).jobs[j].status == Exhausted
    ensures j in db.jobs && Apply(tag, db, step).jobs[j].task == db.jobs[j].task
    ensures db.jobs[j].status == Exhausted || (step.Raise? && step.job == j && RaisesForTheLastTime(db, j))
  {
    hide TaskTx, StoreAll;
    match step
    case Arrive(newCases, items) => StoreAllJobs(WithCases(db, newCases), items);
    case Commit(k, o) =>
      if k in db.jobs && db.jobs[k].status == Doing(false) {
        TaskTxJobs(tag, SetStatus(db, k, Doing(true)), db.jobs[k].task, o);
      }
    case _ =>
  }

  lemma ElicitNeverCreates(db: Db, c: nat, look: Lookup)
    requires c in db.cases
    ensures c in ElicitTx(db, c, look).cases
    ensures ElicitTx(db, c, look).cases[c].state == Elicitation.Created ==> ElicitTx(db, c, look) == db
  {
    if !Elicitation.HandedOff(db.cases[c].state) && !IsDone(db, ElicitKey(c, db.cases[c].governed)) {
      ElicitWrites(db, c, look);
      var turn := TurnOf(db.cases[c], look);
      Elicitation.ActionableExactlyOnEssentials(turn.governed.Keys, Elicitation.SituationOf(CaseOf(db, c), turn));
    }
  }

  lemma NeverBackToCreated(tag: Tagging, db: Db, step: Step, c: nat)
    requires c in db.cases && c in Apply(tag, db, step).cases && Apply(tag, db, step).cases[c].state == Elicitation.Created
    ensures db.cases[c].state == Elicitation.Created
    ensures !(step.Raise? && step.stampWorks && RaisesForTheLastTime(db, step.job) && WorksOn(db, db.jobs[step.job].task, c))
  {
    if step.Raise? {
      hide Apply;
      StampsExactlyWhen(tag, db, step.job, step.stampWorks, c);
    } else {
      hide TaskTx, StoreAll, Fail;
      match step
      case Arrive(newCases, items) => StoreAllSameLedger(WithCases(db, newCases), items);
      case Commit(j, o) =>
        if j in db.jobs && db.jobs[j].status == Doing(false) {
          CommitNeverCreates(tag, SetStatus(db, j, Doing(true)), db.jobs[j].task, o, c);
        }
      case _ =>
    }
  }

  lemma CommitNeverCreates(tag: Tagging, db: Db, task: Task, o: Outcome, c: nat)
    requires c in db.cases
    ensures c in TaskTx(tag, db, task, o).cases
    ensures TaskTx(tag, db, task, o).cases[c].state == Elicitation.Created ==> db.cases[c].state == Elicitation.Created
  {
    hide CaseText, Save, Blank, ElicitTx, Elicitation.Dispatch, InputsOf, Elicited;
    if task == Elicit(c) {
      ElicitNeverCreates(db, c, o.look);
    } else if task.Elicit? {
      ElicitSparesOthers(db, task.caseId, o.look, c);
    }
  }

  lemma ElicitSparesOthers(db: Db, c: nat, look: Lookup, other: nat)
    requires other != c && other in db.cases
    ensures other in ElicitTx(db, c, look).cases && ElicitTx(db, c, look).cases[other] == db.cases[other]
  {
    hide Elicitation.HandedOff, Elicitation.Elicit, Elicited;
  }

  lemma {:induction false} StoreAllDocs(db: Db, items: seq<Item>)
    ensures forall d | d in db.docs :: d in StoreAll(db, items).docs && StoreAll(db, items).docs[d] == db.docs[d]
  {
    if items != [] {
      StoreAllDocs(db, items[..|items| - 1]);
    }
  }

  lemma DocumentsStay(tag: Tagging, db: Db, step: Step, d: string)
    requires d in db.docs
    ensures d in Apply(tag, db, step).docs && Apply(tag, db, step).docs[d] == db.docs[d]
  {
    hide CaseText, Save, Blank, Elicitation.HandedOff, Elicitation.Elicit, Elicitation.Dispatch, InputsOf, Elicited;
    if step.Arrive? {
      StoreAllDocs(WithCases(db, step.newCases), step.items);
    }
  }

  /** What a task that a job names works on does not change. */
  lemma WorkStays(tag: Tagging, db: Db, step: Step, task: Task, c: nat)
    requires Grounded(db) && RefersTo(db, task)
    ensures WorksOn(Apply(tag, db, step), task, c) ==> WorksOn(db, task, c) && c in db.cases
  {
    hide Apply;
    if task.Normalise? {
      DocumentsStay(tag, db, step, task.doc);
    }
  }

  lemma SurfacedStep(tag: Tagging, db: Db, step: Step)
    requires Grounded(db) && Surfaced(db) && (step.Raise? ==> step.stampWorks)
    ensures Surfaced(Apply(tag, db, step))
  {
    hide Apply, WorksOn, RefersTo;
    var db' := Apply(tag, db, step);
    forall j, c | j in db'.jobs && db'.jobs[j].status == Exhausted && c in db'.cases && WorksOn(db', db'.jobs[j].task, c)
      ensures db'.cases[c].state != Elicitation.Created
    {
      GivenUpOnlyByRaising(tag, db, step, j);
      WorkStays(tag, db, step, db.jobs[j].task, c);
      if db'.cases[c].state == Elicitation.Created {
        NeverBackToCreated(tag, db, step, c);
      }
    }
  }

  /** When marking works, a case whose normalise, extract or elicit job was given up never looks fresh: it
      failed, was decided on some extracted values, or is with the reviewer. */
  lemma {:induction false} ExhaustionSurfaces(tag: Tagging, steps: seq<Step>)
    requires StampsWork(steps)
    ensures Surfaced(Run(tag, steps))
  {
    hide Apply, Invariant, Grounded, Surfaced;
    if steps == [] {
      NothingToSurface();
    } else {
      var front := steps[..|steps| - 1];
      assert forall i | 0 <= i < |front| :: front[i] == steps[i];
      ExhaustionSurfaces(tag, front);
      RunIsGrounded(tag, front);
      SurfacedStep(tag, Run(tag, front), steps[|steps| - 1]);
    }
  }

  lemma NothingToSurface()
    ensures Surfaced(EMPTY)
  {}

  lemma RunIsGrounded(tag: Tagging, steps: seq<Step>)
    ensures Grounded(Run(tag, steps))
  {
    EveryRunKeeps(tag, steps);
  }

  lemma UndecidedStep(tag: Tagging, db: Db, step: Step, c: nat)
    requires c in db.cases ==> Elicited(db.ledger, c) == {} ==> UndecidedState(db.cases[c].state)
    ensures var db' := Apply(tag, db, step); c in db'.cases ==> Elicited(db'.ledger, c) == {} ==> UndecidedState(db'.cases[c].state)
  {
    hide TaskTx, StoreAll, Elicited;
    if c in db.cases {
      StepMoves(tag, db, step, c);
    }
    match step
    case Arrive(newCases, items) => StoreAllSameLedger(WithCases(db, newCases), items);
    case Commit(j, o) =>
      if j in db.jobs && db.jobs[j].status == Doing(false) {
        if c in db.cases {
          TaskTxMoves(tag, SetStatus(db, j, Doing(true)), db.jobs[j].task, o, c);
        } else {
          TaskTxSameCases(tag, SetStatus(db, j, Doing(true)), db.jobs[j].task, o);
        }
      }
    case _ =>
  }

  lemma TaskTxSameCases(tag: Tagging, db: Db, task: Task, o: Outcome)
    ensures TaskTx(tag, db, task, o).cases.Keys == db.cases.Keys
  {
    hide CaseText, Save, Blank, Elicitation.HandedOff, Elicitation.Elicit, Elicitation.Dispatch, InputsOf, Elicited;
  }

  lemma {:induction false} OnlyElicitationDecides(tag: Tagging, steps: seq<Step>)
    ensures Undecided(Run(tag, steps))
  {
    hide Apply, UndecidedState, Elicited;
    if steps != [] {
      var db := Run(tag, steps[..|steps| - 1]);
      OnlyElicitationDecides(tag, steps[..|steps| - 1]);
      forall c | c in Run(tag, steps).cases && Elicited(Run(tag, steps).ledger, c) == {} ensures UndecidedState(Run(tag, steps).cases[c].state) {
        UndecidedStep(tag, db, steps[|steps| - 1], c);
      }
    }
  }

  /** So a case that no elicitation ever decided is then visibly failed, or the reviewer has it. */
  lemma UndecidedExhaustedCaseIsFailed(tag: Tagging, steps: seq<Step>, j: nat, c: nat)
    requires StampsWork(steps)
    requires var db := Run(tag, steps);
      j in db.jobs && db.jobs[j].status == Exhausted && c in db.cases && WorksOn(db, db.jobs[j].task, c) && Elicited(db.ledger, c) == {}
    ensures var s := Run(tag, steps).cases[c].state; s == Elicitation.ProcessingFailed || Elicitation.HandedOff(s)
  {
    hide Run, Elicited, WorksOn;
    ExhaustionSurfaces(tag, steps);
    OnlyElicitationDecides(tag, steps);
    assert SurfacedJob(Run(tag, steps), Run(tag, steps).jobs[j].task);
  }

  // ---- a job given up in silence ----------------------------------------------------------

  /** Fetched and raising, four times over. */
  function FourFailures(j: nat): seq<Step> {
    [Fetch(j), Raise(j, true)] + [Fetch(j), Raise(j, true)] + [Fetch(j), Raise(j, true)] + [Fetch(j), Raise(j, true)]
  }

  lemma FailInSilence(db: Db, j: nat, task: Task, n: nat)
    requires j in db.jobs && db.jobs[j].task == task && db.jobs[j].attempts == n && (task.Rules? || task.Dispatch?)
    ensures Fail(db, j, true) == db.(jobs := db.jobs[j := Job(task, if n + 1 < MAX_ATTEMPTS then Todo else Exhausted, n + 1)])
  {}

  lemma OneFailure(tag: Tagging, db: Db, j: nat, task: Task, n: nat)
    requires j in db.jobs && db.jobs[j] == Job(task, Todo, n) && (task.Rules? || task.Dispatch?)
    ensures From(tag, db, [Fetch(j), Raise(j, true)]) ==
      db.(jobs := db.jobs[j := Job(task, if n + 1 < MAX_ATTEMPTS then Todo else Exhausted, n + 1)])
  {
    hide From, Fail, TaskTx, Ingest;
    var fetched, job := SetStatus(db, j, Doing(false)), Job(task, if n + 1 < MAX_ATTEMPTS then Todo else Exhausted, n + 1);
    FromTwo(tag, db, Fetch(j), Raise(j, true));
    FailInSilence(fetched, j, task, n);
    assert fetched.jobs[j := job] == db.jobs[j := job];
  }

  /** Any rules or dispatch job that waits can be given up without a mark on any case. */
  lemma GivenUpInSilence(tag: Tagging, db: Db, j: nat, task: Task)
    requires j in db.jobs && db.jobs[j] == Job(task, Todo, 0) && (task.Rules? || task.Dispatch?)
    ensures From(tag, db, FourFailures(j)) == db.(jobs := db.jobs[j := Job(task, Exhausted, MAX_ATTEMPTS)])
  {
    hide From, Apply;
    var f := [Fetch(j), Raise(j, true)];
    var db1 := db.(jobs := db.jobs[j := Job(task, Todo, 1)]);
    var db2 := db.(jobs := db.jobs[j := Job(task, Todo, 2)]);
    var db3 := db.(jobs := db.jobs[j := Job(task, Todo, 3)]);
    var db4 := db.(jobs := db.jobs[j := Job(task, Exhausted, 4)]);
    OneFailure(tag, db, j, task, 0);
    OneFailure(tag, db1, j, task, 1);
    assert db1.jobs[j := Job(task, Todo, 2)] == db2.jobs;
    OneFailure(tag, db2, j, task, 2);
    assert db2.jobs[j := Job(task, Todo, 3)] == db3.jobs;
    OneFailure(tag, db3, j, task, 3);
    assert db3.jobs[j := Job(task, Exhausted, 4)] == db4.jobs;
    FromFour(tag, db, f);
  }

  lemma FromFour(tag: Tagging, db: Db, f: seq<Step>)
    ensures From(tag, db, f + f + f + f) == From(tag, From(tag, From(tag, From(tag, db, f), f), f), f)
  {
    hide From;
    FromAppend(tag, db, f, f);
    FromAppend(tag, db, f + f, f);
    FromAppend(tag, db, f + f + f, f);
  }

  // ---- nothing doubled --------------------------------------------------------------------

  lemma TaskKeepsDone(tag: Tagging, db: Db, task: Task, o: Outcome, k: Key)
    requires IsDone(db, k)
    ensures IsDone(TaskTx(tag, db, task, o), k)
  {
    hide CaseText, Save, Blank, Elicitation.HandedOff, Elicitation.Elicit, Elicitation.Dispatch, InputsOf, Elicited;
  }

  /** A done key stays done. */
  lemma DoneStaysDone(tag: Tagging, db: Db, step: Step, k: Key)
    requires IsDone(db, k)
    ensures IsDone(Apply(tag, db, step), k)
  {
    hide TaskTx, StoreAll;
    if step.Arrive? {
      StoreAllSameLedger(WithCases(db, step.newCases), step.items);
    } else if step.Commit? && step.job in db.jobs {
      TaskKeepsDone(tag, SetStatus(db, step.job, Doing(true)), db.jobs[step.job].task, step.outcome, k);
    }
  }

  lemma {:induction false} DoneForever(tag: Tagging, db: Db, steps: seq<Step>, k: Key)
    requires IsDone(db, k)
    ensures IsDone(From(tag, db, steps), k)
  {
    hide Apply, IsDone;
    if steps != [] {
      DoneForever(tag, db, steps[..|steps| - 1], k);
      DoneStaysDone(tag, From(tag, db, steps[..|steps| - 1]), steps[|steps| - 1], k);
    }
  }

  /** A second run of the same task finds nothing to do: its first run was not degraded, and no
      vocabulary was minted and no emotion arc moved in between. */
  predicate Repeats(task: Task, o: Outcome, again: Outcome) {
    (task.Normalise? ==> !o.content.degraded) && (task.Extract? ==> again.minted == o.minted) && (task.Rules? ==> again.arc == o.arc)
  }

  /** The worker may die after the transaction and before the job row says so. The reaped job runs again
      and changes nothing, whatever else its second run computes: the first one stands. */
  lemma CrashAfterCommitChangesNothing(tag: Tagging, db: Db, j: nat, o: Outcome, again: Outcome)
    requires j in db.jobs && db.jobs[j].status == Doing(false) && Grounded(db) && Repeats(db.jobs[j].task, o, again)
    ensures var once := Apply(tag, db, Commit(j, o));
      Apply(tag, Apply(tag, Apply(tag, once, Reset(j)), Fetch(j)), Commit(j, again)) == once
  {
    hide TaskTx, Repeats;
    var task, started := db.jobs[j].task, SetStatus(db, j, Doing(true));
    var once := TaskTx(tag, started, task, o);
    TaskTxKeepsRow(tag, started, j, task, o);
    TaskTxReplays(tag, started, task, o, again);
    Refetched(once, j);
    assert Apply(tag, db, Commit(j, o)) == once;
    assert Apply(tag, once, Reset(j)) == SetStatus(once, j, Todo);
    assert Apply(tag, SetStatus(once, j, Todo), Fetch(j)) == SetStatus(once, j, Doing(false));
  }

  lemma TaskTxKeepsRow(tag: Tagging, db: Db, j: nat, task: Task, o: Outcome)
    requires j in db.jobs && j < db.nextJob
    ensures j in TaskTx(tag, db, task, o).jobs && TaskTx(tag, db, task, o).jobs[j] == db.jobs[j]
    ensures db.nextJob <= TaskTx(tag, db, task, o).nextJob
  {
    hide CaseText, Save, Blank, Elicitation.HandedOff, Elicitation.Elicit, Elicitation.Dispatch, InputsOf, Elicited;
  }

  lemma Refetched(db: Db, j: nat)
    requires j in db.jobs && db.jobs[j].status == Doing(true)
    ensures SetStatus(SetStatus(db, j, Todo), j, Doing(false)) == SetStatus(db, j, Doing(false))
    ensures SetStatus(SetStatus(db, j, Doing(false)), j, Doing(true)) == db
  {
    assert db.jobs[j := db.jobs[j].(status := Doing(true))] == db.jobs;
  }

  lemma ElicitReplays(db: Db, c: nat, look: Lookup, again: Lookup)
    ensures ElicitTx(ElicitTx(db, c, look), c, again) == ElicitTx(db, c, look)
  {
    hide Elicitation.Elicit, Elicited;
    if c in db.cases && !Elicitation.HandedOff(db.cases[c].state) && !IsDone(db, ElicitKey(c, db.cases[c].governed)) {
      assert IsDone(ElicitTx(db, c, look), ElicitKey(c, db.cases[c].governed));
    }
  }

  lemma DispatchReplays(db: Db, c: nat)
    ensures DispatchTx(DispatchTx(db, c), c) == DispatchTx(db, c)
  {
    hide Elicited;
  }

  lemma TaskTxReplays(tag: Tagging, db: Db, task: Task, o: Outcome, again: Outcome)
    requires Repeats(task, o, again)
    ensures TaskTx(tag, TaskTx(tag, db, task, o), task, again) == TaskTx(tag, db, task, o)
  {
    hide ElicitTx, DispatchTx, Blank, Save, InputsOf;
    match task
    case Elicit(c) => ElicitReplays(db, c, o.look, again.look);
    case Dispatch(c) => DispatchReplays(db, c);
    case _ =>
  }
}
