/** What becomes of the very jobs that a stage queues. */
module PipelineChains {
  // `PipelineLaws` says of each state that some job of a due task waits or was given up. Here each document
  // and each done stage has the jobs that its own transaction queued, and each of them is followed over
  // the whole rest of the run.

  import opened Options
  import opened Text
  import opened Pipeline
  import opened PipelineLaws
  import opened PipelineFailures
  import Elicitation

  // ---- one job over a run -----------------------------------------------------------------

  /** Step m of the run commits the transaction of job j. */
  ghost predicate RanAt(tag: Tagging, steps: seq<Step>, m: nat, j: nat) {
    m < |steps| && steps[m].Commit? && steps[m].job == j &&
    j in Run(tag, steps[..m]).jobs && Run(tag, steps[..m]).jobs[j].status == Doing(false)
  }

  ghost predicate RanSince(tag: Tagging, steps: seq<Step>, n: nat, j: nat) {
    exists m: nat :: n <= m && RanAt(tag, steps, m, j)
  }

  /** Job j of the task waits, was given up, or committed at one of the steps from n on. */
  ghost predicate WaitsOrRan(tag: Tagging, steps: seq<Step>, n: nat, j: nat, t: Task) {
    var jobs := Run(tag, steps).jobs;
    j in jobs && jobs[j].task == t && (Pending(jobs[j], t) || jobs[j].status == Exhausted || RanSince(tag, steps, n, j))
  }

  lemma {:induction false} StoreAllKeepsRows(db: Db, items: seq<Item>, j: nat)
    requires j in db.jobs && j < db.nextJob
    ensures j in StoreAll(db, items).jobs && StoreAll(db, items).jobs[j] == db.jobs[j]
    ensures db.nextJob <= StoreAll(db, items).nextJob
  {
    if items != [] {
      StoreAllKeepsRows(db, items[..|items| - 1], j);
    }
  }

  /** A step leaves a job what it was, waiting if it waited, unless it commits or gives up this very job. */
  lemma StepRow(tag: Tagging, db: Db, step: Step, j: nat)
    requires j in db.jobs && Grounded(db)
    ensures var jobs, t := Apply(tag, db, step).jobs, db.jobs[j].task;
      j in jobs && jobs[j].task == t && (db.jobs[j].status == Exhausted ==> jobs[j].status == Exhausted) &&
      (Pending(db.jobs[j], t) ==>
        Pending(jobs[j], t) || jobs[j].status == Exhausted || (step.Commit? && step.job == j && db.jobs[j].status == Doing(false)))
  {
    hide TaskTx, StoreAll, RefersTo;
    match step
    case Arrive(newCases, items) => StoreAllKeepsRows(WithCases(db, newCases), items, j);
    case Commit(i, o) =>
      if i in db.jobs && db.jobs[i].status == Doing(false) {
        TaskTxKeepsRow(tag, SetStatus(db, i, Doing(true)), j, db.jobs[i].task, o);
      }
    case _ =>
  }

  lemma RanEarlier(tag: Tagging, steps: seq<Step>, n: nat, j: nat)
    requires steps != [] && RanSince(tag, steps[..|steps| - 1], n, j)
    ensures RanSince(tag, steps, n, j)
  {
    hide Run;
    var front := steps[..|steps| - 1];
    var m: nat :| n <= m && RanAt(tag, front, m, j);
    assert front[..m] == steps[..m];
    assert RanAt(tag, steps, m, j);
  }

  /** A job that waits at one point of a run is, at every later point, waiting, given up or committed. */
  lemma {:induction false} JobWaitsOrRan(tag: Tagging, steps: seq<Step>, n: nat, j: nat, t: Task)
    requires n <= |steps| && j in Run(tag, steps[..n]).jobs && Pending(Run(tag, steps[..n]).jobs[j], t)
    ensures WaitsOrRan(tag, steps, n, j, t)
    decreases |steps|
  {
    hide Apply;
    if n == |steps| {
      assert steps[..n] == steps;
    } else {
      var front := steps[..|steps| - 1];
      assert front[..n] == steps[..n];
      JobWaitsOrRan(tag, front, n, j, t);
      RunIsGrounded(tag, front);
      StepRow(tag, Run(tag, front), steps[|steps| - 1], j);
      if RanSince(tag, front, n, j) {
        RanEarlier(tag, steps, n, j);
      } else if RanAt(tag, steps, |steps| - 1, j) {
        assert RanSince(tag, steps, n, j);
      }
    }
  }

  // ---- the jobs of a stage ----------------------------------------------------------------

  /** The stage of the key chains to the task, which the code queues in the transaction that does it. */
  predicate ChainsTo(db: Db, k: Key, t: Task) {
    match k
    case NormaliseKey(sha, _) => sha in db.docs && t == Extract(db.docs[sha].caseId)
    case ExtractKey(_, _) => k in db.ledger && (t == Elicit(db.ledger[k].caseId) || t == Rules(db.ledger[k].caseId))
    case ElicitKey(c, _) => c in db.cases && db.cases[c].pending.Some? && t == Dispatch(c)
    case RulesKey(_, _) => false
  }

  ghost predicate NewJob(db: Db, db': Db, t: Task) {
    exists j :: j !in db.jobs && j in db'.jobs && db'.jobs[j] == Job(t, Todo, 0)
  }

  lemma NormaliseChains(tag: Tagging, db: Db, sha: string, content: Normalised, k: Key, t: Task)
    requires Grounded(db) && !IsDone(db, k)
    requires var db' := NormaliseTx(tag, db, sha, content); IsDone(db', k) && ChainsTo(db', k, t)
    ensures NewJob(db, NormaliseTx(tag, db, sha, content), t)
  {
    hide Save, RefersTo;
    assert NormaliseTx(tag, db, sha, content).jobs[db.nextJob] == Job(t, Todo, 0);
  }

  lemma ExtractChainsOn(db: Db, c: nat, minted: set<string>, governed: map<string, string>, k: Key, t: Task)
    requires Grounded(db) && AllSettled(db) && !IsDone(db, k)
    requires var db' := ExtractTx(db, c, minted, governed); IsDone(db', k) && ChainsTo(db', k, t)
    ensures NewJob(db, ExtractTx(db, c, minted, governed), t)
  {
    hide CaseText, Blank, RefersTo;
    var jobs := ExtractTx(db, c, minted, governed).jobs;
    assert jobs[db.nextJob] == Job(Elicit(c), Todo, 0) && jobs[db.nextJob + 1] == Job(Rules(c), Todo, 0);
  }

  lemma ElicitChains(db: Db, c: nat, look: Lookup, k: Key, t: Task)
    requires Grounded(db) && !IsDone(db, k)
    requires var db' := ElicitTx(db, c, look); IsDone(db', k) && ChainsTo(db', k, t)
    ensures NewJob(db, ElicitTx(db, c, look), t)
  {
    hide Elicitation.Elicit, Elicited, RefersTo;
    ElicitWrites(db, c, look);
    assert ElicitTx(db, c, look).jobs[db.nextJob] == Job(t, Todo, 0);
  }

  lemma TaskChains(tag: Tagging, db: Db, task: Task, o: Outcome, k: Key, t: Task)
    requires Grounded(db) && AllSettled(db) && !IsDone(db, k)
    requires var db' := TaskTx(tag, db, task, o); IsDone(db', k) && ChainsTo(db', k, t)
    ensures NewJob(db, TaskTx(tag, db, task, o), t)
  {
    hide Grounded, AllSettled, NormaliseTx, ExtractTx, ElicitTx, NewJob, InputsOf;
    match task
    case Normalise(sha) => NormaliseChains(tag, db, sha, o.content, k, t);
    case Extract(c) => ExtractChainsOn(db, c, o.minted, o.governed, k, t);
    case Elicit(c) => ElicitChains(db, c, o.look, k, t);
    case _ =>
  }

  lemma NothingDoneElsewhere(tag: Tagging, db: Db, step: Step)
    requires !step.Commit?
    ensures Apply(tag, db, step).ledger == db.ledger
  {
    hide StoreAll;
    if step.Arrive? {
      StoreAllSameLedger(WithCases(db, step.newCases), step.items);
    }
  }

  /** A stage gets done in one step with a new job for each task that it chains to. */
  lemma StepChains(tag: Tagging, db: Db, step: Step, k: Key, t: Task)
    requires Invariant(tag, db) && !IsDone(db, k)
    requires var db' := Apply(tag, db, step); IsDone(db', k) && ChainsTo(db', k, t)
    ensures NewJob(db, Apply(tag, db, step), t)
  {
    hide TaskTx, Ingest, Fail, ChainsTo, NothingLost, AllChained, RefersTo;
    if step.Commit? {
      var started := SetStatus(db, step.job, Doing(true));
      RowGrounded(db, step.job, db.jobs[step.job].(status := Doing(true)));
      TaskChains(tag, started, db.jobs[step.job].task, step.outcome, k, t);
    } else {
      NothingDoneElsewhere(tag, db, step);
    }
  }

  // ---- every stage and every document over every run --------------------------------------

  /** Step i queues a job for the task, and that job waits, was given up, or committed after step i. */
  ghost predicate HandsOn(tag: Tagging, steps: seq<Step>, i: nat, t: Task)
    requires i < |steps|
  {
    exists j :: j !in Run(tag, steps[..i]).jobs && WaitsOrRan(tag, steps, i + 1, j, t)
  }

  ghost predicate GotDone(tag: Tagging, steps: seq<Step>, i: nat, k: Key) {
    i < |steps| && !IsDone(Run(tag, steps[..i]), k) && IsDone(Run(tag, steps[..i + 1]), k)
  }

  lemma {:induction false} DoneSomewhere(tag: Tagging, steps: seq<Step>, k: Key) returns (i: nat)
    requires IsDone(Run(tag, steps), k)
    ensures GotDone(tag, steps, i, k)
  {
    hide Apply;
    var front := steps[..|steps| - 1];
    if IsDone(Run(tag, front), k) {
      i := DoneSomewhere(tag, front, k);
      assert front[..i] == steps[..i] && front[..i + 1] == steps[..i + 1];
    } else {
      i := |steps| - 1;
      assert steps[..i + 1] == steps;
    }
  }

  lemma StepOfRun(tag: Tagging, steps: seq<Step>, i: nat)
    requires i < |steps|
    ensures Run(tag, steps[..i + 1]) == Apply(tag, Run(tag, steps[..i]), steps[i])
  {
    hide Apply;
    assert steps[..i + 1][..i] == steps[..i];
  }

  lemma NewJobHandsOn(tag: Tagging, steps: seq<Step>, i: nat, t: Task)
    requires i < |steps| && NewJob(Run(tag, steps[..i]), Run(tag, steps[..i + 1]), t)
    ensures HandsOn(tag, steps, i, t)
  {
    hide Run, WaitsOrRan;
    var before, after := Run(tag, steps[..i]).jobs, Run(tag, steps[..i + 1]).jobs;
    var j :| j !in before && j in after && after[j] == Job(t, Todo, 0);
    JobWaitsOrRan(tag, steps, i + 1, j, t);
  }

  /** Over every run, each done stage got done at one step that queued a job of its own for each task it
      chains to, and each of these jobs has since committed, was given up, or still waits. */
  lemma EveryDoneStageHandsOn(tag: Tagging, steps: seq<Step>, k: Key) returns (i: nat)
    requires IsDone(Run(tag, steps), k)
    ensures GotDone(tag, steps, i, k)
    ensures forall t | ChainsTo(Run(tag, steps[..i + 1]), k, t) :: HandsOn(tag, steps, i, t)
  {
    hide Run, Apply, Invariant, ChainsTo, NewJob, HandsOn, IsDone;
    i := DoneSomewhere(tag, steps, k);
    EveryRunKeeps(tag, steps[..i]);
    StepOfRun(tag, steps, i);
    forall t | ChainsTo(Run(tag, steps[..i + 1]), k, t) ensures HandsOn(tag, steps, i, t) {
      StepChains(tag, Run(tag, steps[..i]), steps[i], k, t);
      NewJobHandsOn(tag, steps, i, t);
    }
  }

  lemma {:induction false} StoreAllQueues(db: Db, items: seq<Item>, sha: string)
    requires sha !in db.docs && sha in StoreAll(db, items).docs && forall j | j in db.jobs :: j < db.nextJob
    ensures db.nextJob <= StoreAll(db, items).nextJob && NewJob(db, StoreAll(db, items), Normalise(sha))
  {
    var rest := items[..|items| - 1];
    StoreAllFresh(db, rest);
    if sha in StoreAll(db, rest).docs {
      StoreAllQueues(db, rest, sha);
    } else {
      var j := StoreAll(db, rest).nextJob;
      assert j !in db.jobs && StoreAll(db, items).jobs[j] == Job(Normalise(sha), Todo, 0);
    }
  }

  lemma {:induction false} StoreAllFresh(db: Db, items: seq<Item>)
    requires forall j | j in db.jobs :: j < db.nextJob
    ensures var db' := StoreAll(db, items); db.nextJob <= db'.nextJob && forall j | j in db'.jobs :: j < db'.nextJob
  {
    if items != [] {
      StoreAllFresh(db, items[..|items| - 1]);
    }
  }

  lemma TaskTxSameDocuments(tag: Tagging, db: Db, task: Task, o: Outcome)
    ensures TaskTx(tag, db, task, o).docs == db.docs
  {
    hide CaseText, Save, Blank, Elicitation.HandedOff, Elicitation.Elicit, Elicitation.Dispatch, InputsOf, Elicited;
  }

  /** A document enters the tables together with a job that normalises it. */
  lemma StepQueues(tag: Tagging, db: Db, step: Step, sha: string)
    requires Grounded(db) && sha !in db.docs && sha in Apply(tag, db, step).docs
    ensures NewJob(db, Apply(tag, db, step), Normalise(sha))
  {
    hide TaskTx, StoreAll, Fail, RefersTo, NewJob;
    match step
    case Arrive(newCases, items) => StoreAllQueues(WithCases(db, newCases), items, sha); SameJobsNew(db, newCases, items, sha);
    case Commit(j, o) => TaskTxSameDocuments(tag, SetStatus(db, j, Doing(true)), db.jobs[j].task, o);
    case Raise(j, ok) => FailSameDocuments(db, j, ok);
    case _ =>
  }

  lemma SameJobsNew(db: Db, newCases: map<nat, bool>, items: seq<Item>, sha: string)
    requires NewJob(WithCases(db, newCases), StoreAll(WithCases(db, newCases), items), Normalise(sha))
    ensures NewJob(db, StoreAll(WithCases(db, newCases), items), Normalise(sha))
  {}

  lemma FailSameDocuments(db: Db, j: nat, stampWorks: bool)
    requires j in db.jobs
    ensures Fail(db, j, stampWorks).docs == db.docs
  {}

  ghost predicate Entered(tag: Tagging, steps: seq<Step>, i: nat, sha: string) {
    i < |steps| && sha !in Run(tag, steps[..i]).docs && sha in Run(tag, steps[..i + 1]).docs
  }

  lemma {:induction false} EnteredSomewhere(tag: Tagging, steps: seq<Step>, sha: string) returns (i: nat)
    requires sha in Run(tag, steps).docs
    ensures Entered(tag, steps, i, sha)
  {
    hide Apply;
    var front := steps[..|steps| - 1];
    if sha in Run(tag, front).docs {
      i := EnteredSomewhere(tag, front, sha);
      assert front[..i] == steps[..i] && front[..i + 1] == steps[..i + 1];
    } else {
      i := |steps| - 1;
      assert steps[..i + 1] == steps;
    }
  }

  /** Over every run, each document entered in a step that queued a job of its own to normalise it, and that
      job has since committed, was given up, or still waits. */
  lemma EveryDocumentHandsOn(tag: Tagging, steps: seq<Step>, sha: string) returns (i: nat)
    requires sha in Run(tag, steps).docs
    ensures Entered(tag, steps, i, sha) && HandsOn(tag, steps, i, Normalise(sha))
  {
    hide Run, Apply, NewJob, HandsOn;
    i := EnteredSomewhere(tag, steps, sha);
    RunIsGrounded(tag, steps[..i]);
    StepOfRun(tag, steps, i);
    StepQueues(tag, Run(tag, steps[..i]), steps[i], sha);
    NewJobHandsOn(tag, steps, i, Normalise(sha));
  }

  // ---- the text of a normalised document --------------------------------------------------

  ghost predicate ReadByThen(db: Db, text: string) {
    Blank(text) || exists whole, minted :: IsDone(db, ExtractKey(whole, minted)) && IsPart(text, whole)
  }

  /** The row of a normalised document with this text. */
  predicate Holds(tag: Tagging, db: Db, row: Content) {
    row in db.contents && row.doc in db.docs && IsDone(db, KeyOf(tag, db, row.doc))
  }

  lemma GoodTextIsRead(tag: Tagging, db: Db, row: Content)
    requires Holds(tag, db, row) && GoodExtracted(tag, db, row.caseId)
    ensures ReadByThen(db, row.text)
  {
    hide Blank, IsPart;
    var i :| 0 <= i < |db.contents| && db.contents[i] == row;
    if !Blank(row.text) {
      assert GoodRow(tag, db, row.caseId, i);
    }
  }

  lemma {:induction false} SaveSparesOtherDocuments(contents: seq<Content>, c: Content, row: Content)
    requires row in contents && row.doc != c.doc
    ensures row in Save(contents, c)
  {
    if contents[0] != row && contents[0].doc != c.doc {
      SaveSparesOtherDocuments(contents[1..], c, row);
    }
  }

  lemma TaskTxKeepsText(tag: Tagging, db: Db, task: Task, o: Outcome, row: Content)
    requires Holds(tag, db, row)
    ensures row in TaskTx(tag, db, task, o).contents
  {
    hide CaseText, Save, Blank, Elicitation.HandedOff, Elicitation.Elicit, Elicitation.Dispatch, InputsOf, Elicited;
    if task.Normalise? && task.doc in db.docs && !IsDone(db, KeyOf(tag, db, task.doc)) {
      SaveSparesOtherDocuments(db.contents, Content(task.doc, db.docs[task.doc].caseId, o.content.text), row);
    }
  }

  lemma StepKeepsText(tag: Tagging, db: Db, step: Step, row: Content)
    requires Holds(tag, db, row)
    ensures Holds(tag, Apply(tag, db, step), row)
  {
    DoneStaysDone(tag, db, step, KeyOf(tag, db, row.doc));
    DocumentsStay(tag, db, step, row.doc);
    hide TaskTx, StoreAll, IsDone;
    if step.Arrive? {
      StoreAllSameLedger(WithCases(db, step.newCases), step.items);
    } else if step.Commit? && step.job in db.jobs {
      TaskTxKeepsText(tag, SetStatus(db, step.job, Doing(true)), db.jobs[step.job].task, step.outcome, row);
    }
  }

  /** The text of a normalised document is in the tables for good. */
  lemma {:induction false} TextForever(tag: Tagging, steps: seq<Step>, n: nat, m: nat, row: Content)
    requires n <= m <= |steps| && Holds(tag, Run(tag, steps[..n]), row)
    ensures Holds(tag, Run(tag, steps[..m]), row)
  {
    hide Apply, Run, Holds;
    if n < m {
      TextForever(tag, steps, n, m - 1, row);
      StepOfRun(tag, steps, m - 1);
      StepKeepsText(tag, Run(tag, steps[..m - 1]), steps[m - 1], row);
    }
  }

  lemma {:induction false} SaveHolds(contents: seq<Content>, c: Content)
    ensures c in Save(contents, c)
  {
    if contents != [] && contents[0].doc != c.doc {
      SaveHolds(contents[1..], c);
    }
  }

  lemma NormaliseHolds(tag: Tagging, db: Db, task: Task, o: Outcome, k: Key)
    requires k.NormaliseKey? && !IsDone(db, k) && IsDone(TaskTx(tag, db, task, o), k)
    ensures k.sha in db.docs && Holds(tag, TaskTx(tag, db, task, o), Content(k.sha, db.docs[k.sha].caseId, o.content.text))
  {
    hide CaseText, Save, Blank, Elicitation.HandedOff, Elicitation.Elicit, Elicitation.Dispatch, InputsOf, Elicited;
    if task.Normalise? && task.doc in db.docs {
      SaveHolds(db.contents, Content(task.doc, db.docs[task.doc].caseId, o.content.text));
    }
  }

  /** A normalise stage gets done by a commit that saves its text. */
  lemma DoneWithItsText(tag: Tagging, db: Db, step: Step, k: Key)
    requires k.NormaliseKey? && !IsDone(db, k) && IsDone(Apply(tag, db, step), k)
    ensures step.Commit? && k.sha in db.docs
    ensures Holds(tag, Apply(tag, db, step), Content(k.sha, db.docs[k.sha].caseId, step.outcome.content.text))
  {
    hide TaskTx, Ingest, Fail, Holds;
    if step.Commit? {
      NormaliseHolds(tag, SetStatus(db, step.job, Doing(true)), db.jobs[step.job].task, step.outcome, k);
    } else {
      NothingDoneElsewhere(tag, db, step);
    }
  }

  /** Step m commits job j, and by then the text is blank or part of a text that was extracted. */
  ghost predicate ReadAt(tag: Tagging, steps: seq<Step>, m: nat, j: nat, text: string) {
    RanAt(tag, steps, m, j) && ReadByThen(Run(tag, steps[..m + 1]), text)
  }

  lemma CommitReads(tag: Tagging, db: Db, j: nat, o: Outcome, c: nat)
    requires Grounded(db) && j in db.jobs && db.jobs[j].status == Doing(false) && db.jobs[j].task == Extract(c)
    ensures GoodExtracted(tag, Apply(tag, db, Commit(j, o)), c)
  {
    hide ExtractTx, GoodExtracted, WholeTextDue;
    var started := SetStatus(db, j, Doing(true));
    ExtractSettles(tag, started, c, o.minted, o.governed);
    CaseTablesStay(started, c, o.minted, o.governed);
    assert RefersTo(db, db.jobs[j].task);
  }

  lemma CaseTablesStay(db: Db, c: nat, minted: set<string>, governed: map<string, string>)
    ensures ExtractTx(db, c, minted, governed).cases.Keys == db.cases.Keys
  {
    hide CaseText, Blank;
  }

  lemma {:induction false} TaskForever(tag: Tagging, steps: seq<Step>, n: nat, j: nat)
    requires n <= |steps| && j in Run(tag, steps[..n]).jobs
    ensures j in Run(tag, steps).jobs && Run(tag, steps).jobs[j].task == Run(tag, steps[..n]).jobs[j].task
    decreases |steps|
  {
    hide Apply;
    if n == |steps| {
      assert steps[..n] == steps;
    } else {
      var front := steps[..|steps| - 1];
      assert front[..n] == steps[..n];
      TaskForever(tag, front, n, j);
      RunIsGrounded(tag, front);
      StepRow(tag, Run(tag, front), steps[|steps| - 1], j);
    }
  }

  lemma ReadsWhenItRuns(tag: Tagging, steps: seq<Step>, n: nat, m: nat, j: nat, row: Content)
    requires RanAt(tag, steps, m, j) && j in Run(tag, steps).jobs && Run(tag, steps).jobs[j].task == Extract(row.caseId)
    requires n <= m && Holds(tag, Run(tag, steps[..n]), row)
    ensures ReadAt(tag, steps, m, j, row.text)
  {
    hide Run, Apply, GoodExtracted, Holds, ReadByThen;
    TaskForever(tag, steps, m, j);
    RunIsGrounded(tag, steps[..m]);
    StepOfRun(tag, steps, m);
    CommitReads(tag, Run(tag, steps[..m]), j, steps[m].outcome, row.caseId);
    TextForever(tag, steps, n, m + 1, row);
    GoodTextIsRead(tag, Run(tag, steps[..m + 1]), row);
  }

  /** Job j waits to extract the case, was given up, or committed after step i with the text read by then. */
  ghost predicate WaitsOrRead(tag: Tagging, steps: seq<Step>, i: nat, j: nat, c: nat, text: string) {
    var jobs := Run(tag, steps).jobs;
    j in jobs && jobs[j].task == Extract(c) &&
    (Pending(jobs[j], Extract(c)) || jobs[j].status == Exhausted || exists m: nat :: i < m && ReadAt(tag, steps, m, j, text))
  }

  /** Step i queued such a job. */
  ghost predicate PickedUp(tag: Tagging, steps: seq<Step>, i: nat, c: nat, text: string)
    requires i < |steps|
  {
    exists j :: j !in Run(tag, steps[..i]).jobs && WaitsOrRead(tag, steps, i, j, c, text)
  }

  lemma HandedOnIsPickedUp(tag: Tagging, steps: seq<Step>, i: nat, row: Content)
    requires i < |steps| && HandsOn(tag, steps, i, Extract(row.caseId)) && Holds(tag, Run(tag, steps[..i + 1]), row)
    ensures PickedUp(tag, steps, i, row.caseId, row.text)
  {
    hide Run, ReadAt, RanAt, Holds, Pending;
    var j :| j !in Run(tag, steps[..i]).jobs && WaitsOrRan(tag, steps, i + 1, j, Extract(row.caseId));
    if RanSince(tag, steps, i + 1, j) {
      var m: nat :| i + 1 <= m && RanAt(tag, steps, m, j);
      ReadsWhenItRuns(tag, steps, i + 1, m, j, row);
    }
    assert WaitsOrRead(tag, steps, i, j, row.caseId, row.text);
  }

  /** Over every run, the text that a done normalisation saved is picked up by an extraction that was queued
      with it, not by one that ran before: that job waits, was given up, or committed after it, and then the
      text is part of an extracted one. */
  lemma NormalisedTextIsPickedUp(tag: Tagging, steps: seq<Step>, k: Key) returns (i: nat)
    requires k.NormaliseKey? && IsDone(Run(tag, steps), k)
    ensures GotDone(tag, steps, i, k) && steps[i].Commit? && k.sha in Run(tag, steps[..i]).docs
    ensures PickedUp(tag, steps, i, Run(tag, steps[..i]).docs[k.sha].caseId, steps[i].outcome.content.text)
  {
    hide Run, Apply, Invariant, PickedUp, HandsOn, IsDone, NewJob, WaitsOrRan;
    i := DoneSomewhere(tag, steps, k);
    var db := Run(tag, steps[..i]);
    EveryRunKeeps(tag, steps[..i]);
    StepOfRun(tag, steps, i);
    DoneWithItsText(tag, db, steps[i], k);
    DocumentsStay(tag, db, steps[i], k.sha);
    var row := Content(k.sha, db.docs[k.sha].caseId, steps[i].outcome.content.text);
    StepChains(tag, db, steps[i], k, Extract(row.caseId));
    NewJobHandsOn(tag, steps, i, Extract(row.caseId));
    HandedOnIsPickedUp(tag, steps, i, row);
  }
}
