/** Runs of the case pipeline that show what it does not promise. */
module PipelineRuns {
  import opened Options
  import opened Text
  import opened Pipeline
  import opened PipelineLaws
  import opened PipelineChains
  import opened PipelineFailures
  import Elicitation

  // ---- reaching a state -------------------------------------------------------------------

  ghost predicate Reachable(tag: Tagging, db: Db) {
    exists steps :: db == Run(tag, steps)
  }

  lemma ReachEmpty(tag: Tagging)
    ensures Reachable(tag, EMPTY)
  {
    assert Run(tag, []) == EMPTY;
  }

  lemma ReachMore(tag: Tagging, db: Db, more: seq<Step>)
    requires Reachable(tag, db)
    ensures Reachable(tag, From(tag, db, more))
  {
    hide From;
    var steps :| db == Run(tag, steps);
    FromAppend(tag, EMPTY, steps, more);
    assert Run(tag, steps + more) == From(tag, db, more);
  }

  lemma ReachStep(tag: Tagging, db: Db, step: Step)
    requires Reachable(tag, db)
    ensures Reachable(tag, Apply(tag, db, step))
  {
    hide Reachable, Apply;
    FromOne(tag, db, step);
    ReachMore(tag, db, [step]);
  }

  /** The job is fetched, commits and is reported. */
  function Completed(tag: Tagging, db: Db, j: nat, o: Outcome): Db
    requires j in db.jobs && j < db.nextJob
  {
    var task, started := db.jobs[j].task, SetStatus(db, j, Doing(true));
    TaskTxKeepsRow(tag, started, j, task, o);
    SetStatus(TaskTx(tag, started, task, o), j, Succeeded)
  }

  lemma ReachCompleted(tag: Tagging, db: Db, j: nat, o: Outcome)
    requires Reachable(tag, db) && j in db.jobs && j < db.nextJob && db.jobs[j].status == Todo
    ensures Reachable(tag, Completed(tag, db, j, o))
  {
    hide Reachable, TaskTx;
    var fetched, started := SetStatus(db, j, Doing(false)), SetStatus(db, j, Doing(true));
    TaskTxKeepsRow(tag, started, j, db.jobs[j].task, o);
    assert SetStatus(fetched, j, Doing(true)) == started by {
      assert fetched.jobs[j := fetched.jobs[j].(status := Doing(true))] == started.jobs;
    }
    assert Apply(tag, db, Fetch(j)) == fetched;
    ReachStep(tag, db, Fetch(j));
    ReachStep(tag, fetched, Commit(j, o));
    ReachStep(tag, Apply(tag, fetched, Commit(j, o)), Finish(j));
  }

  // ---- what one completed job leaves ------------------------------------------------------

  function NoOutcome(): Outcome {
    Outcome(Normalised("", false), {}, map[], Lookup(false, "", false), "")
  }

  function Succeed(db: Db, j: nat): map<nat, Job>
    requires j in db.jobs
  {
    db.jobs[j := db.jobs[j].(status := Succeeded)]
  }

  lemma {:induction false} SaveAppends(contents: seq<Content>, c: Content)
    requires forall i | 0 <= i < |contents| :: contents[i].doc != c.doc
    ensures Save(contents, c) == contents + [c]
  {
    if contents != [] {
      SaveAppends(contents[1..], c);
    }
  }

  lemma NormaliseCompletes(tag: Tagging, db: Db, j: nat, sha: string, text: string)
    requires j in db.jobs && j < db.nextJob && db.nextJob !in db.jobs && db.jobs[j] == Job(Normalise(sha), Todo, 0)
    requires sha in db.docs && KeyOf(tag, db, sha) !in db.ledger && forall i | 0 <= i < |db.contents| :: db.contents[i].doc != sha
    ensures var c := db.docs[sha].caseId;
      Completed(tag, db, j, NoOutcome().(content := Normalised(text, false))) ==
      Db(db.docs, db.cases, db.ledger[KeyOf(tag, db, sha) := Entry(Done, c)], db.contents + [Content(sha, c, text)],
         Succeed(db, j)[db.nextJob := Job(Extract(c), Todo, 0)], db.nextJob + 1)
  {
    hide Save;
    SaveAppends(db.contents, Content(sha, db.docs[sha].caseId, text));
    assert Completed(tag, db, j, NoOutcome().(content := Normalised(text, false))).jobs ==
      Succeed(db, j)[db.nextJob := Job(Extract(db.docs[sha].caseId), Todo, 0)];
  }

  lemma TextIsOfTheRows(db: Db, db': Db, c: nat)
    requires db.contents == db'.contents
    ensures CaseText(db, c) == CaseText(db', c)
  {}

  lemma ExtractWrites(db: Db, c: nat, minted: set<string>, governed: map<string, string>)
    requires c in db.cases && !Blank(CaseText(db, c)) && ExtractKey(CaseText(db, c), minted) !in db.ledger
    ensures ExtractTx(db, c, minted, governed) ==
      Db(db.docs, db.cases[c := db.cases[c].(extracted := true, governed := governed)],
         db.ledger[ExtractKey(CaseText(db, c), minted) := Entry(Done, c)], db.contents,
         db.jobs[db.nextJob := Job(Elicit(c), Todo, 0)][db.nextJob + 1 := Job(Rules(c), Todo, 0)], db.nextJob + 2)
  {
    hide Blank, CaseText;
  }

  lemma ExtractCompletes(tag: Tagging, db: Db, j: nat, c: nat, minted: set<string>, governed: map<string, string>)
    requires j in db.jobs && j < db.nextJob && db.jobs[j] == Job(Extract(c), Todo, 0)
    requires c in db.cases && !Blank(CaseText(db, c)) && ExtractKey(CaseText(db, c), minted) !in db.ledger
    ensures Completed(tag, db, j, NoOutcome().(minted := minted, governed := governed)) ==
      Db(db.docs, db.cases[c := db.cases[c].(extracted := true, governed := governed)],
         db.ledger[ExtractKey(CaseText(db, c), minted) := Entry(Done, c)], db.contents,
         Succeed(db, j)[db.nextJob := Job(Elicit(c), Todo, 0)][db.nextJob + 1 := Job(Rules(c), Todo, 0)], db.nextJob + 2)
  {
    hide Blank, CaseText, ExtractTx;
    var started := SetStatus(db, j, Doing(true));
    TextIsOfTheRows(db, started, c);
    ExtractWrites(started, c, minted, governed);
    JobsOfTwo(db, j, Job(Elicit(c), Todo, 0), Job(Rules(c), Todo, 0));
  }

  lemma JobsOfTwo(db: Db, j: nat, first: Job, second: Job)
    requires j in db.jobs && j < db.nextJob
    ensures var jobs := SetStatus(db, j, Doing(true)).jobs[db.nextJob := first][db.nextJob + 1 := second];
      jobs[j := jobs[j].(status := Succeeded)] == Succeed(db, j)[db.nextJob := first][db.nextJob + 1 := second]
  {}

  lemma ExtractSkips(tag: Tagging, db: Db, j: nat, c: nat, minted: set<string>, governed: map<string, string>)
    requires j in db.jobs && j < db.nextJob && db.jobs[j] == Job(Extract(c), Todo, 0) && IsDone(db, ExtractKey(CaseText(db, c), minted))
    ensures Completed(tag, db, j, NoOutcome().(minted := minted, governed := governed)) == db.(jobs := Succeed(db, j))
  {
    hide Blank, CaseText;
    TextIsOfTheRows(db, SetStatus(db, j, Doing(true)), c);
    assert SetStatus(db, j, Doing(true)).jobs[j := db.jobs[j].(status := Succeeded)] == Succeed(db, j);
  }

  lemma RulesCompletes(tag: Tagging, db: Db, j: nat, c: nat, arc: string)
    requires j in db.jobs && j < db.nextJob && db.jobs[j] == Job(Rules(c), Todo, 0) && c in db.cases
    ensures var inputs := InputsOf(db.cases[c].governed, arc);
      Completed(tag, db, j, NoOutcome().(arc := arc)) ==
      if IsDone(db, RulesKey(c, inputs)) then db.(jobs := Succeed(db, j))
      else Db(db.docs, db.cases[c := db.cases[c].(decision := Some(inputs))],
              db.ledger[RulesKey(c, inputs) := Entry(Done, if RulesKey(c, inputs) in db.ledger then db.ledger[RulesKey(c, inputs)].caseId else c)],
              db.contents, Succeed(db, j), db.nextJob)
  {
    hide InputsOf;
    assert SetStatus(db, j, Doing(true)).jobs[j := db.jobs[j].(status := Succeeded)] == Succeed(db, j);
  }

  /** An angry case with a category is handed off without a question. */
  lemma ElicitHandsOff(tag: Tagging, db: Db, j: nat, c: nat)
    requires j in db.jobs && j < db.nextJob && db.jobs[j] == Job(Elicit(c), Todo, 0) && c in db.cases
    requires db.cases[c].governed == map["emotion_signal" := "angry"] && !Elicitation.HandedOff(db.cases[c].state)
    requires ElicitKey(c, db.cases[c].governed) !in db.ledger
    ensures Completed(tag, db, j, NoOutcome()) ==
      Db(db.docs, db.cases[c := db.cases[c].(state := Elicitation.InReview, pending := None)],
         db.ledger[ElicitKey(c, db.cases[c].governed) := Entry(Done, c)], db.contents, Succeed(db, j), db.nextJob)
  {
    hide Elicitation.Elicit, Elicited;
    var started := SetStatus(db, j, Doing(true));
    AngryTurn(started, c);
    assert started.jobs[j := db.jobs[j].(status := Succeeded)] == Succeed(db, j);
  }

  lemma AngryTurn(db: Db, c: nat)
    requires c in db.cases && db.cases[c].governed == map["emotion_signal" := "angry"] && !Elicitation.HandedOff(db.cases[c].state)
    requires ElicitKey(c, db.cases[c].governed) !in db.ledger
    ensures Elicitation.Elicit(CaseOf(db, c), TurnOf(db.cases[c], Lookup(false, "", false))) ==
      (CaseOf(db, c).(state := Elicitation.InReview, pending := None, elicited := Elicited(db.ledger, c) + {db.cases[c].governed}), None)
  {
    ElicitedExactlyWhenDone(db, c, db.cases[c].governed);
    var t := TurnOf(db.cases[c], Lookup(false, "", false));
    Elicitation.ActionableExactlyOnEssentials(t.governed.Keys, Elicitation.SituationOf(CaseOf(db, c), t));
    Elicitation.AngryIsHandedOff(t.governed.Keys, Elicitation.SituationOf(CaseOf(db, c), t));
  }

  /** A fresh case about which only an uncertain category is known is asked what happened. */
  lemma ElicitAsks(tag: Tagging, db: Db, j: nat, c: nat)
    requires j in db.jobs && j < db.nextJob && db.jobs[j] == Job(Elicit(c), Todo, 0) && c in db.cases
    requires db.cases[c] == FreshRow(true).(extracted := true, governed := map["category" := "other"])
    requires ElicitKey(c, db.cases[c].governed) !in db.ledger
    ensures Completed(tag, db, j, NoOutcome()) ==
      Db(db.docs, db.cases[c := db.cases[c].(state := Elicitation.Incomplete, questionCount := 1, pending := Some(Elicitation.FAULT_Q))],
         db.ledger[ElicitKey(c, db.cases[c].governed) := Entry(Done, c)], db.contents,
         Succeed(db, j)[db.nextJob := Job(Dispatch(c), Todo, 0)], db.nextJob + 1)
  {
    hide Elicitation.Elicit, Elicited;
    var started := SetStatus(db, j, Doing(true));
    var t := TurnOf(db.cases[c], Lookup(false, "", false));
    ElicitedExactlyWhenDone(started, c, t.governed);
    Elicitation.ContentlessTurnIsAsked(CaseOf(started, c), t);
    QuestionOfAsked(CaseOf(started, c), t);
    var jobs := started.jobs[db.nextJob := Job(Dispatch(c), Todo, 0)];
    assert jobs[j := jobs[j].(status := Succeeded)] == Succeed(db, j)[db.nextJob := Job(Dispatch(c), Todo, 0)];
  }

  lemma QuestionOfAsked(v: Elicitation.Case, t: Elicitation.Turn)
    requires !Elicitation.HandedOff(v.state) && t.governed !in v.elicited
    ensures Elicitation.Elicit(v, t).1.Some? <==> Elicitation.Elicit(v, t).0.pending.Some?
  {}

  lemma ReachFourFailures(tag: Tagging, db: Db, j: nat, task: Task)
    requires Reachable(tag, db) && j in db.jobs && db.jobs[j] == Job(task, Todo, 0) && (task.Rules? || task.Dispatch?)
    ensures Reachable(tag, db.(jobs := db.jobs[j := Job(task, Exhausted, MAX_ATTEMPTS)]))
  {
    hide Reachable, From;
    GivenUpInSilence(tag, db, j, task);
    ReachMore(tag, db, FourFailures(j));
  }

  // ---- a degraded normalisation -----------------------------------------------------------

  /** A degraded normalisation commits its text without an extract job and leaves the stage claimable; when
      a later run of the same document does better, the stage is done and the extract job queued. */
  lemma DegradedCommitsWithoutAJob(tag: Tagging, db: Db, sha: string, poor: string, better: string)
    requires sha in db.docs && !IsDone(db, KeyOf(tag, db, sha))
    ensures var db' := NormaliseTx(tag, db, sha, Normalised(poor, true));
      db'.jobs == db.jobs && Content(sha, db.docs[sha].caseId, poor) in db'.contents && Degraded(tag, db', sha) &&
      var db'' := NormaliseTx(tag, db', sha, Normalised(better, false));
      IsDone(db'', KeyOf(tag, db, sha)) && Queued(db'', Extract(db.docs[sha].caseId))
  {
    hide Save;
    SaveHolds(db.contents, Content(sha, db.docs[sha].caseId, poor));
    var db' := NormaliseTx(tag, db, sha, Normalised(poor, true));
    var db'' := NormaliseTx(tag, db', sha, Normalised(better, false));
    assert Pending(db''.jobs[db'.nextJob], Extract(db.docs[sha].caseId));
  }

  // ---- given up, and nobody is told -------------------------------------------------------

  /** One text from one customer. */
  function OneArrived(): Db {
    Db(map["a" := Document(0, "text/plain")], map[0 := FreshRow(true)], map[], [], map[0 := Job(Normalise("a"), Todo, 0)], 1)
  }

  lemma OneArrives(tag: Tagging)
    ensures Reachable(tag, OneArrived())
  {
    hide Reachable, TaskTx;
    ReachEmpty(tag);
    var items := [Item(0, "a", "text/plain")];
    ReachStep(tag, EMPTY, Arrive(map[0 := true], items));
    var db := WithCases(EMPTY, map[0 := true]);
    assert db.cases == map[0 := FreshRow(true)];
    assert items[..0] == [];
    assert StoreAll(db, []) == db;
    assert StoreAll(db, items) == Store(db, items[0]) == OneArrived();
    assert Apply(tag, EMPTY, Arrive(map[0 := true], items)) == OneArrived();
  }

  function Key0(tag: Tagging): Key {
    NormaliseKey("a", tag("text/plain"))
  }

  /** Its text is extracted with these values. */
  function OneExtracted(tag: Tagging, text: string, governed: map<string, string>): Db {
    Db(OneArrived().docs, map[0 := FreshRow(true).(extracted := true, governed := governed)],
       map[Key0(tag) := Entry(Done, 0), ExtractKey(text, {}) := Entry(Done, 0)], [Content("a", 0, text)],
       map[0 := Job(Normalise("a"), Succeeded, 0), 1 := Job(Extract(0), Succeeded, 0), 2 := Job(Elicit(0), Todo, 0), 3 := Job(Rules(0), Todo, 0)], 4)
  }

  lemma OneIsExtracted(tag: Tagging, text: string, governed: map<string, string>)
    requires !Blank(text)
    ensures Reachable(tag, OneExtracted(tag, text, governed))
  {
    hide Reachable, Completed, Blank;
    var db := OneArrived();
    OneArrives(tag);
    NormaliseCompletes(tag, db, 0, "a", text);
    ReachCompleted(tag, db, 0, NoOutcome().(content := Normalised(text, false)));
    var db1 := Completed(tag, db, 0, NoOutcome().(content := Normalised(text, false)));
    assert db1 == Db(db.docs, db.cases, map[Key0(tag) := Entry(Done, 0)], [Content("a", 0, text)],
                     map[0 := Job(Normalise("a"), Succeeded, 0), 1 := Job(Extract(0), Todo, 0)], 2);
    OneText(db1, "a", 0, text);
    ExtractCompletes(tag, db1, 1, 0, {}, governed);
    ReachCompleted(tag, db1, 1, NoOutcome().(minted := {}, governed := governed));
    var db2 := Completed(tag, db1, 1, NoOutcome().(minted := {}, governed := governed));
    assert db2.cases == OneExtracted(tag, text, governed).cases;
    assert db2.ledger == OneExtracted(tag, text, governed).ledger;
    assert db2.jobs == OneExtracted(tag, text, governed).jobs;
  }

  lemma OneText(db: Db, doc: string, c: nat, text: string)
    requires db.contents == [Content(doc, c, text)] && !Blank(text)
    ensures CaseText(db, c) == text
  {
    assert Texts(db.contents[1..], c) == [];
    assert Texts(db.contents, c) == [text];
  }

  /** Nothing is left to do, the customer's question was never sent and the case never decided, and the case
      looks as if work went on. */
  ghost predicate Stranded(db: Db) {
    Quiet(db) && 0 in db.cases && GivenUp(db, Dispatch(0)) && GivenUp(db, Rules(0)) &&
    var row := db.cases[0];
    InFlight(row.state) && row.pending == Some(Elicitation.FAULT_Q) && row.reachable && row.sent == [] && row.decision == None
  }

  /** Such a state is reached: the dispatch and rules tasks retry, run out and mark nothing. */
  lemma SilentlyStranded(tag: Tagging)
    ensures exists db :: Reachable(tag, db) && Stranded(db)
  {
    hide Reachable, Completed;
    var governed := map["category" := "other"];
    var db := OneExtracted(tag, "late", governed);
    assert !IsSpace("late"[0]);
    OneIsExtracted(tag, "late", governed);
    ElicitAsks(tag, db, 2, 0);
    ReachCompleted(tag, db, 2, NoOutcome());
    var db1 := Completed(tag, db, 2, NoOutcome());
    ReachFourFailures(tag, db1, 3, Rules(0));
    var db2 := db1.(jobs := db1.jobs[3 := Job(Rules(0), Exhausted, MAX_ATTEMPTS)]);
    ReachFourFailures(tag, db2, 4, Dispatch(0));
    var db3 := db2.(jobs := db2.jobs[4 := Job(Dispatch(0), Exhausted, MAX_ATTEMPTS)]);
    assert db3.jobs[3].status == Exhausted && db3.jobs[4].status == Exhausted;
    assert Quiet(db3) && Stranded(db3);
  }

  // ---- one text, two cases ----------------------------------------------------------------

  /** The extract key names the text and not the case. A run of the stage does something exactly when the
      case has text and that text was extracted for no case before. */
  lemma ExtractsExactlyAFreshText(db: Db, c: nat, minted: set<string>, governed: map<string, string>)
    requires c in db.cases
    ensures ExtractTx(db, c, minted, governed) != db <==> !Blank(CaseText(db, c)) && !IsDone(db, ExtractKey(CaseText(db, c), minted))
  {
    var db' := ExtractTx(db, c, minted, governed);
    if !Blank(CaseText(db, c)) && !IsDone(db, ExtractKey(CaseText(db, c), minted)) {
      assert IsDone(db', ExtractKey(CaseText(db, c), minted));
    }
  }

  /** The run extracts the case only under this vocabulary and while it holds this text. */
  ghost predicate Repeatedly(tag: Tagging, db: Db, steps: seq<Step>, c: nat, text: string, minted: set<string>) {
    forall i | 0 <= i < |steps| && steps[i].Commit? ::
      var before := From(tag, db, steps[..i]);
      steps[i].job in before.jobs && before.jobs[steps[i].job].task == Extract(c) ==> CaseText(before, c) == text && steps[i].outcome.minted == minted
  }

  lemma OnlyItsExtractionWrites(tag: Tagging, db: Db, task: Task, o: Outcome, c: nat)
    requires c in db.cases && task != Extract(c)
    ensures var db' := TaskTx(tag, db, task, o); c in db'.cases && db'.cases[c].extracted == db.cases[c].extracted && db'.cases[c].governed == db.cases[c].governed
  {
    hide CaseText, Save, Blank, Elicitation.HandedOff, Elicitation.Elicit, Elicitation.Dispatch, InputsOf, Elicited;
  }

  lemma TakenTextIsSkipped(tag: Tagging, db: Db, step: Step, c: nat, text: string, minted: set<string>)
    requires c in db.cases && IsDone(db, ExtractKey(text, minted))
    requires step.Commit? && step.job in db.jobs && db.jobs[step.job].task == Extract(c) ==> CaseText(db, c) == text && step.outcome.minted == minted
    ensures var db' := Apply(tag, db, step); c in db'.cases && db'.cases[c].extracted == db.cases[c].extracted && db'.cases[c].governed == db.cases[c].governed
  {
    hide TaskTx, StoreAll, CaseText, Blank;
    match step
    case Arrive(newCases, items) => StoreAllSameLedger(WithCases(db, newCases), items);
    case Commit(j, o) =>
      if j in db.jobs && db.jobs[j].status == Doing(false) {
        var started := SetStatus(db, j, Doing(true));
        if db.jobs[j].task == Extract(c) {
          TextIsOfTheRows(db, started, c);
          ExtractOfDone(tag, started, c, o);
        } else {
          OnlyItsExtractionWrites(tag, started, db.jobs[j].task, o, c);
        }
      }
    case _ =>
  }

  lemma ExtractOfDone(tag: Tagging, db: Db, c: nat, o: Outcome)
    requires IsDone(db, ExtractKey(CaseText(db, c), o.minted))
    ensures TaskTx(tag, db, Extract(c), o) == db
  {}

  /** Once a text is extracted for some case, another case that holds it gets no values from any number of
      later steps, retries and rescans under the same vocabulary. */
  lemma {:induction false} SecondCaseIsNeverExtracted(tag: Tagging, db: Db, steps: seq<Step>, c: nat, text: string, minted: set<string>)
    requires c in db.cases && IsDone(db, ExtractKey(text, minted)) && Repeatedly(tag, db, steps, c, text, minted)
    ensures var db' := From(tag, db, steps); c in db'.cases && db'.cases[c].extracted == db.cases[c].extracted && db'.cases[c].governed == db.cases[c].governed
  {
    hide Apply, CaseText, IsDone;
    if steps != [] {
      var front := steps[..|steps| - 1];
      assert forall i | 0 <= i < |front| :: front[..i] == steps[..i] && front[i] == steps[i];
      SecondCaseIsNeverExtracted(tag, db, front, c, text, minted);
      DoneForever(tag, db, front, ExtractKey(text, minted));
      assert steps[..|steps| - 1] == front;
      TakenTextIsSkipped(tag, From(tag, db, front), steps[|steps| - 1], c, text, minted);
    }
  }

  /** Two customers, two documents with the same text. */
  function TwoArrived(): Db {
    Db(map["a" := Document(0, "text/plain"), "b" := Document(1, "text/plain")], map[0 := FreshRow(true), 1 := FreshRow(true)], map[], [],
       map[0 := Job(Normalise("a"), Todo, 0), 1 := Job(Normalise("b"), Todo, 0)], 2)
  }

  lemma TwoArrive(tag: Tagging)
    ensures Reachable(tag, TwoArrived())
  {
    hide Reachable, TaskTx;
    ReachEmpty(tag);
    var cases := map[0 := true, 1 := true];
    var items := [Item(0, "a", "text/plain"), Item(1, "b", "text/plain")];
    ReachStep(tag, EMPTY, Arrive(cases, items));
    var db := WithCases(EMPTY, cases);
    assert db.cases == map[0 := FreshRow(true), 1 := FreshRow(true)];
    assert items[..1] == [items[0]] && [items[0]][..0] == [];
    assert StoreAll(db, []) == db;
    assert StoreAll(db, [items[0]]) == Store(db, items[0]);
    assert StoreAll(db, items) == Store(Store(db, items[0]), items[1]);
    assert Store(Store(db, items[0]), items[1]) == TwoArrived();
    assert Apply(tag, EMPTY, Arrive(cases, items)) == TwoArrived();
  }

  function Key1(tag: Tagging): Key {
    NormaliseKey("b", tag("text/plain"))
  }

  /** Both texts are normalised. */
  function TwoNormalised(tag: Tagging, text: string): Db {
    Db(TwoArrived().docs, TwoArrived().cases, map[Key0(tag) := Entry(Done, 0), Key1(tag) := Entry(Done, 1)],
       [Content("a", 0, text), Content("b", 1, text)],
       map[0 := Job(Normalise("a"), Succeeded, 0), 1 := Job(Normalise("b"), Succeeded, 0), 2 := Job(Extract(0), Todo, 0), 3 := Job(Extract(1), Todo, 0)], 4)
  }

  lemma TwoAreNormalised(tag: Tagging, text: string)
    ensures Reachable(tag, TwoNormalised(tag, text))
  {
    hide Reachable, Completed;
    var db, o := TwoArrived(), NoOutcome().(content := Normalised(text, false));
    TwoArrive(tag);
    NormaliseCompletes(tag, db, 0, "a", text);
    ReachCompleted(tag, db, 0, o);
    var db1 := Completed(tag, db, 0, o);
    NormaliseCompletes(tag, db1, 1, "b", text);
    ReachCompleted(tag, db1, 1, o);
    var db2 := Completed(tag, db1, 1, o);
    assert db2.ledger == TwoNormalised(tag, text).ledger;
    assert db2.jobs == TwoNormalised(tag, text).jobs;
    assert db2.contents == TwoNormalised(tag, text).contents;
  }

  lemma TwoTexts(db: Db, text: string)
    requires db.contents == [Content("a", 0, text), Content("b", 1, text)] && text != ""
    ensures CaseText(db, 0) == text && CaseText(db, 1) == text
  {
    var rest := db.contents[1..];
    assert rest == [Content("b", 1, text)];
    assert Texts(rest[1..], 0) == [] && Texts(rest[1..], 1) == [];
    assert Texts(rest, 0) == [] && Texts(rest, 1) == [text];
    assert Texts(db.contents, 0) == [text] && Texts(db.contents, 1) == [text];
  }

  const ANGRY := map["emotion_signal" := "angry"]

  /** Both extract jobs have run. */
  function TwoTried(tag: Tagging, text: string): Db {
    Db(TwoArrived().docs, map[0 := FreshRow(true).(extracted := true, governed := ANGRY), 1 := FreshRow(true)],
       map[Key0(tag) := Entry(Done, 0), Key1(tag) := Entry(Done, 1), ExtractKey(text, {}) := Entry(Done, 0)],
       [Content("a", 0, text), Content("b", 1, text)],
       map[0 := Job(Normalise("a"), Succeeded, 0), 1 := Job(Normalise("b"), Succeeded, 0), 2 := Job(Extract(0), Succeeded, 0),
           3 := Job(Extract(1), Succeeded, 0), 4 := Job(Elicit(0), Todo, 0), 5 := Job(Rules(0), Todo, 0)], 6)
  }

  lemma TwoAreTried(tag: Tagging, text: string)
    requires !Blank(text)
    ensures Reachable(tag, TwoTried(tag, text))
  {
    hide Reachable, Completed, Blank, CaseText;
    var db, o := TwoNormalised(tag, text), NoOutcome().(minted := {}, governed := ANGRY);
    TwoAreNormalised(tag, text);
    NotBlankNotEmpty(text);
    TwoTexts(db, text);
    ExtractCompletes(tag, db, 2, 0, {}, ANGRY);
    ReachCompleted(tag, db, 2, o);
    var db1 := Completed(tag, db, 2, o);
    TextIsOfTheRows(db, db1, 1);
    ExtractSkips(tag, db1, 3, 1, {}, ANGRY);
    ReachCompleted(tag, db1, 3, o);
    var db2 := Completed(tag, db1, 3, o);
    assert db2.cases == TwoTried(tag, text).cases;
    assert db2.ledger == TwoTried(tag, text).ledger;
    assert db2.jobs == TwoTried(tag, text).jobs;
  }

  /** Every job succeeded, and of two cases with the same text the second is as fresh as it arrived. */
  ghost predicate SecondHasNothing(db: Db, text: string) {
    0 in db.cases && 1 in db.cases && CaseText(db, 0) == CaseText(db, 1) == text &&
    (forall j | j in db.jobs :: db.jobs[j].status == Succeeded) && db.cases[0].extracted && db.cases[1] == FreshRow(true)
  }

  lemma SecondCaseWithTheSameTextGetsNothing(tag: Tagging, text: string)
    requires !Blank(text)
    ensures exists db :: Reachable(tag, db) && SecondHasNothing(db, text)
  {
    hide Reachable, Completed, Blank, CaseText, InputsOf;
    var db := TwoTried(tag, text);
    TwoAreTried(tag, text);
    ElicitHandsOff(tag, db, 4, 0);
    ReachCompleted(tag, db, 4, NoOutcome());
    var db1 := Completed(tag, db, 4, NoOutcome());
    RulesCompletes(tag, db1, 5, 0, "");
    ReachCompleted(tag, db1, 5, NoOutcome().(arc := ""));
    var db2 := Completed(tag, db1, 5, NoOutcome().(arc := ""));
    NotBlankNotEmpty(text);
    TwoTexts(db2, text);
    assert SecondHasNothing(db2, text);
  }

  lemma NotBlankNotEmpty(text: string)
    requires !Blank(text)
    ensures text != ""
  {}

  // ---- values that come back --------------------------------------------------------------

  /** A run of the rules stage leaves the decision for the inputs it read exactly when those inputs are new
      or the standing decision already is for them. */
  lemma DecisionIsCurrentExactlyWhen(db: Db, c: nat, arc: string)
    requires c in db.cases
    ensures var inputs := InputsOf(db.cases[c].governed, arc);
      RulesTx(db, c, arc).cases[c].decision == Some(inputs) <==> !IsDone(db, RulesKey(c, inputs)) || db.cases[c].decision == Some(inputs)
  {
    hide InputsOf;
  }

  const REFUND := map["emotion_signal" := "angry", "category" := "refund"]

  lemma ElicitSkips(tag: Tagging, db: Db, j: nat, c: nat)
    requires j in db.jobs && j < db.nextJob && db.jobs[j] == Job(Elicit(c), Todo, 0) && c in db.cases && Elicitation.HandedOff(db.cases[c].state)
    ensures Completed(tag, db, j, NoOutcome()) == db.(jobs := Succeed(db, j))
  {
    hide Elicited;
    assert SetStatus(db, j, Doing(true)).jobs[j := db.jobs[j].(status := Succeeded)] == Succeed(db, j);
  }

  /** One case handed off, with everything decided; the next job has this id. */
  ghost predicate Rested(db: Db, text: string) {
    (forall j | j in db.jobs :: j < db.nextJob && db.jobs[j].status == Succeeded) && db.cases.Keys == {0} &&
    CaseText(db, 0) == text && Elicitation.HandedOff(db.cases[0].state)
  }

  /** A rested case after a rescan, its extraction and an elicitation that finds it handed off. */
  function Rescanned(db: Db, text: string, minted: set<string>, governed: map<string, string>): Db
    requires 0 in db.cases
  {
    var j := db.nextJob;
    Db(db.docs, db.cases[0 := db.cases[0].(extracted := true, governed := governed)], db.ledger[ExtractKey(text, minted) := Entry(Done, 0)],
       db.contents,
       db.jobs[j := Job(Extract(0), Succeeded, 0)][j + 1 := Job(Elicit(0), Succeeded, 0)][j + 2 := Job(Rules(0), Todo, 0)], j + 3)
  }

  lemma RescanReached(tag: Tagging, db: Db, text: string, minted: set<string>, governed: map<string, string>)
    requires Reachable(tag, db) && Rested(db, text) && !Blank(text) && ExtractKey(text, minted) !in db.ledger
    ensures Reachable(tag, Rescanned(db, text, minted, governed))
  {
    hide Reachable, Completed, Blank, CaseText;
    var j := db.nextJob;
    ReachStep(tag, db, Rescan(0));
    var db0 := Enqueue(db, Extract(0));
    TextIsOfTheRows(db, db0, 0);
    var o := NoOutcome().(minted := minted, governed := governed);
    ExtractCompletes(tag, db0, j, 0, minted, governed);
    ReachCompleted(tag, db0, j, o);
    var db1 := Completed(tag, db0, j, o);
    ElicitSkips(tag, db1, j + 1, 0);
    ReachCompleted(tag, db1, j + 1, NoOutcome());
    assert Completed(tag, db1, j + 1, NoOutcome()).jobs == Rescanned(db, text, minted, governed).jobs;
  }

  /** A rescan under a larger vocabulary, with its extraction, elicitation and rules runs. */
  lemma Reextracted(tag: Tagging, db: Db, text: string, minted: set<string>, governed: map<string, string>, arc: string) returns (db': Db)
    requires Reachable(tag, db) && Rested(db, text) && !Blank(text) && ExtractKey(text, minted) !in db.ledger
    ensures Reachable(tag, db') && Rested(db', text) && db'.cases[0].governed == governed
    ensures var k := RulesKey(0, InputsOf(governed, arc));
      db'.cases[0].decision == (if IsDone(db, k) then db.cases[0].decision else Some(InputsOf(governed, arc))) &&
      IsDone(db', k) && (forall l | l != k && l != ExtractKey(text, minted) :: l in db'.ledger <==> l in db.ledger) &&
      (forall l | IsDone(db, l) :: IsDone(db', l))
  {
    hide Reachable, Completed, Blank, CaseText, InputsOf;
    var mid := Rescanned(db, text, minted, governed);
    RescanReached(tag, db, text, minted, governed);
    RulesCompletes(tag, mid, db.nextJob + 2, 0, arc);
    ReachCompleted(tag, mid, db.nextJob + 2, NoOutcome().(arc := arc));
    db' := Completed(tag, mid, db.nextJob + 2, NoOutcome().(arc := arc));
    TextIsOfTheRows(db, db', 0);
  }

  /** Every job succeeded, the case has a category again unknown, and its decision is for a refund. */
  ghost predicate DecidedOnOldValues(db: Db) {
    (forall j | j in db.jobs :: db.jobs[j].status == Succeeded) && 0 in db.cases && db.cases[0].governed == ANGRY &&
    db.cases[0].decision == Some(InputsOf(REFUND, ""))
  }

  /** The first extraction is handed off, and its rules job waits. */
  function FirstHandedOff(tag: Tagging, text: string): Db {
    Db(OneArrived().docs, map[0 := FreshRow(true).(extracted := true, governed := ANGRY, state := Elicitation.InReview)],
       map[Key0(tag) := Entry(Done, 0), ExtractKey(text, {}) := Entry(Done, 0), ElicitKey(0, ANGRY) := Entry(Done, 0)], [Content("a", 0, text)],
       map[0 := Job(Normalise("a"), Succeeded, 0), 1 := Job(Extract(0), Succeeded, 0), 2 := Job(Elicit(0), Succeeded, 0), 3 := Job(Rules(0), Todo, 0)], 4)
  }

  lemma FirstIsHandedOff(tag: Tagging, text: string)
    requires !Blank(text)
    ensures Reachable(tag, FirstHandedOff(tag, text))
  {
    hide Reachable, Completed, Blank;
    var db := OneExtracted(tag, text, ANGRY);
    OneIsExtracted(tag, text, ANGRY);
    ElicitHandsOff(tag, db, 2, 0);
    ReachCompleted(tag, db, 2, NoOutcome());
    assert Completed(tag, db, 2, NoOutcome()).ledger == FirstHandedOff(tag, text).ledger;
    assert Completed(tag, db, 2, NoOutcome()).jobs == FirstHandedOff(tag, text).jobs;
    assert Completed(tag, db, 2, NoOutcome()).cases == FirstHandedOff(tag, text).cases;
  }

  lemma FirstDecided(tag: Tagging, text: string) returns (db: Db)
    requires !Blank(text)
    ensures Reachable(tag, db) && Rested(db, text) && IsDone(db, RulesKey(0, InputsOf(ANGRY, ""))) && !IsDone(db, RulesKey(0, InputsOf(REFUND, "")))
    ensures ExtractKey(text, {"m"}) !in db.ledger && ExtractKey(text, {"m", "n"}) !in db.ledger
  {
    hide Reachable, Completed, Blank, CaseText, InputsOf, Rested;
    var mid := FirstHandedOff(tag, text);
    FirstIsHandedOff(tag, text);
    RulesCompletes(tag, mid, 3, 0, "");
    ReachCompleted(tag, mid, 3, NoOutcome().(arc := ""));
    db := Completed(tag, mid, 3, NoOutcome().(arc := ""));
    FirstRests(db, text);
    DifferentInputs();
    assert "m" in {"m"} && "m" in {"m", "n"};
  }

  lemma FirstRests(db: Db, text: string)
    requires db.contents == [Content("a", 0, text)] && !Blank(text) && db.nextJob == 4 && db.cases.Keys == {0} && db.jobs.Keys == {0, 1, 2, 3}
    requires forall j | j in db.jobs :: db.jobs[j].status == Succeeded
    requires db.cases[0].state == Elicitation.InReview
    ensures Rested(db, text)
  {
    OneText(db, "a", 0, text);
  }

  /** Values that come back are not decided on again: their key is done, so the decision for what was
      extracted in between stands. */
  lemma ComebackKeepsTheOldDecision(tag: Tagging)
    ensures exists db :: Reachable(tag, db) && DecidedOnOldValues(db)
  {
    hide Reachable, Blank, CaseText, InputsOf, Quiet;
    var text := "late";
    assert !Blank(text) by {
      assert !IsSpace(text[0]);
      NotBlank(text);
    }
    assert InputsOf(ANGRY, "") != InputsOf(REFUND, "") by {
      DifferentInputs();
    }
    var db1 := FirstDecided(tag, text);
    assert "n" !in {"m"} && "n" in {"m", "n"};
    var db2 := Reextracted(tag, db1, text, {"m"}, REFUND, "");
    var db3 := Reextracted(tag, db2, text, {"m", "n"}, ANGRY, "");
    assert DecidedOnOldValues(db3);
  }

  lemma NotBlank(text: string)
    requires text != "" && !IsSpace(text[0])
    ensures !Blank(text)
  {}

  lemma DifferentInputs()
    ensures InputsOf(ANGRY, "") != InputsOf(REFUND, "")
  {
    assert Signal(ANGRY, "category") == None && Signal(REFUND, "category") == Some("refund");
  }
}
