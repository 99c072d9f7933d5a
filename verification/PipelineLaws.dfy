/** What every run of the case pipeline keeps. */
module PipelineLaws {
  import opened Options
  import opened Text
  import opened Pipeline
  import Elicitation

  // ---- no phantom -------------------------------------------------------------------------

  predicate RefersTo(db: Db, task: Task) {
    match task
    case Normalise(sha) => sha in db.docs
    case Extract(c) => c in db.cases
    case Elicit(c) => c in db.cases
    case Rules(c) => c in db.cases
    case Dispatch(c) => c in db.cases
  }

  /** Every job refers to a committed document or case; every document and text row to a committed case
      and document; and job ids are fresh. */
  ghost predicate Grounded(db: Db) {
    && (forall j | j in db.jobs :: j < db.nextJob && RefersTo(db, db.jobs[j].task))
    && (forall d | d in db.docs :: db.docs[d].caseId in db.cases)
    && (forall i | 0 <= i < |db.contents| :: db.contents[i].doc in db.docs && db.contents[i].caseId == db.docs[db.contents[i].doc].caseId)
  }

  // ---- nothing lost -----------------------------------------------------------------------

  /** A job that will still run the task. */
  predicate Pending(j: Job, task: Task) {
    j.task == task && (j.status == Todo || j.status == Doing(false))
  }

  ghost predicate Queued(db: Db, task: Task) {
    exists j :: j in db.jobs && Pending(db.jobs[j], task)
  }

  ghost predicate GivenUp(db: Db, task: Task) {
    exists j :: j in db.jobs && db.jobs[j].task == task && db.jobs[j].status == Exhausted
  }

  ghost predicate Enqueued(db: Db, task: Task) {
    exists j :: j in db.jobs && db.jobs[j].task == task
  }

  predicate Degraded(tag: Tagging, db: Db, sha: string)
    requires sha in db.docs
  {
    KeyOf(tag, db, sha) in db.ledger && db.ledger[KeyOf(tag, db, sha)].status == Failed
  }

  ghost predicate TextExtracted(db: Db, text: string) {
    exists minted :: IsDone(db, ExtractKey(text, minted))
  }

  ghost predicate HasDegraded(tag: Tagging, db: Db, c: nat) {
    exists sha :: sha in db.docs && db.docs[sha].caseId == c && Degraded(tag, db, sha)
  }

  /** The text is one of the texts that the joined text was joined from. */
  ghost predicate IsPart(text: string, joined: string) {
    exists parts: seq<string> :: Join(parts, "\n") == joined && text in parts
  }

  /** Row i holds the nonblank text of a normalised document of the case. */
  ghost predicate GoodRow(tag: Tagging, db: Db, c: nat, i: nat) {
    i < |db.contents| && db.contents[i].caseId == c && !Blank(db.contents[i].text) &&
    db.contents[i].doc in db.docs && IsDone(db, KeyOf(tag, db, db.contents[i].doc))
  }

  ghost predicate CoversGood(tag: Tagging, db: Db, c: nat, text: string) {
    forall i: nat | GoodRow(tag, db, c, i) :: IsPart(db.contents[i].text, text)
  }

  /** One extraction read the texts of all normalised documents of the case. */
  ghost predicate GoodExtracted(tag: Tagging, db: Db, c: nat) {
    (forall i: nat :: !GoodRow(tag, db, c, i)) || exists text, minted :: IsDone(db, ExtractKey(text, minted)) && CoversGood(tag, db, c, text)
  }

  ghost predicate Decided(db: Db, c: nat, governed: map<string, string>) {
    exists arc :: IsDone(db, RulesKey(c, InputsOf(governed, arc)))
  }

  ghost predicate WholeTextDue(tag: Tagging, db: Db, c: nat) {
    !Blank(CaseText(db, c)) && !TextExtracted(db, CaseText(db, c)) && !HasDegraded(tag, db, c)
  }

  /** The question that a dispatch run would transmit. */
  function Unsent(row: CaseRow): Option<string> {
    Elicitation.ToSend(Elicitation.Case(row.state, row.questionCount, row.anchorAsked, row.pending, {}, row.sent), row.reachable)
  }

  /** The task has something left to do: a document to normalise that is not degraded, a case whose
      normalised documents were not read by one extraction or whose whole text was not although no document
      in it is degraded, values to elicit on and to decide on, a question to send. */
  ghost predicate Due(tag: Tagging, db: Db, task: Task) {
    match task
    case Normalise(sha) => sha in db.docs && !IsDone(db, KeyOf(tag, db, sha)) && !Degraded(tag, db, sha)
    case Extract(c) => c in db.cases && (WholeTextDue(tag, db, c) || !GoodExtracted(tag, db, c))
    case Elicit(c) =>
      c in db.cases && db.cases[c].extracted && !Elicitation.HandedOff(db.cases[c].state) && !IsDone(db, ElicitKey(c, db.cases[c].governed))
    case Rules(c) => c in db.cases && db.cases[c].extracted && !Decided(db, c, db.cases[c].governed)
    case Dispatch(c) => c in db.cases && Unsent(db.cases[c]).Some?
  }

  /** A task that is due is queued or was given up, but for the one whose transaction is running. */
  ghost predicate NothingLost(tag: Tagging, db: Db, running: Option<Task>) {
    forall t | Due(tag, db, t) && running != Some(t) :: Queued(db, t) || GivenUp(db, t)
  }

  /** There is a job for each task that a done stage chains to; `PipelineChains` says that it has its own. */
  ghost predicate Chained(db: Db, k: Key) {
    k in db.ledger && db.ledger[k].status == Done ==>
      match k
      case NormaliseKey(sha, _) => sha in db.docs && Enqueued(db, Extract(db.docs[sha].caseId))
      case ExtractKey(_, _) => Enqueued(db, Elicit(db.ledger[k].caseId)) && Enqueued(db, Rules(db.ledger[k].caseId))
      case ElicitKey(c, _) => c in db.cases
      case RulesKey(c, _) => c in db.cases
  }

  ghost predicate AllChained(db: Db) {
    forall k :: Chained(db, k)
  }

  /** No committed ledger row is left running, and only a normalise stage can be left failed. */
  predicate Settled(k: Key, status: Status) {
    status == Done || (status == Failed && k.NormaliseKey?)
  }

  ghost predicate AllSettled(db: Db) {
    forall k | k in db.ledger :: Settled(k, db.ledger[k].status)
  }

  /** Everything a run keeps, but for what the transaction of `running` is about to settle. */
  ghost predicate Kept(tag: Tagging, db: Db, running: Option<Task>) {
    Grounded(db) && NothingLost(tag, db, running) && AllChained(db) && AllSettled(db)
  }

  ghost predicate Invariant(tag: Tagging, db: Db) {
    Kept(tag, db, None)
  }

  // ---- carrying the invariant over --------------------------------------------------------

  /** Jobs keep their task, and a job that was to run still is, or is given up. */
  ghost predicate JobsSurvive(db: Db, db': Db, running: Option<Task>) {
    (forall j | j in db.jobs :: j in db'.jobs && db'.jobs[j].task == db.jobs[j].task) &&
    (forall j, t | j in db.jobs && Pending(db.jobs[j], t) && running != Some(t) ::
      Pending(db'.jobs[j], t) || db'.jobs[j].status == Exhausted) &&
    (forall j | j in db.jobs && db.jobs[j].status == Exhausted :: db'.jobs[j].status == Exhausted)
  }

  lemma TaskSurvives(db: Db, db': Db, running: Option<Task>, t: Task)
    requires JobsSurvive(db, db', running)
    ensures Enqueued(db, t) ==> Enqueued(db', t)
    ensures GivenUp(db, t) ==> GivenUp(db', t)
    ensures Queued(db, t) && running != Some(t) ==> Queued(db', t) || GivenUp(db', t)
  {
    if Enqueued(db, t) {
      var j :| j in db.jobs && db.jobs[j].task == t;
      assert j in db'.jobs && db'.jobs[j].task == t;
    }
    if GivenUp(db, t) {
      var j :| j in db.jobs && db.jobs[j].task == t && db.jobs[j].status == Exhausted;
      assert j in db'.jobs && db'.jobs[j].task == t && db'.jobs[j].status == Exhausted;
    }
    if Queued(db, t) && running != Some(t) {
      var j :| j in db.jobs && Pending(db.jobs[j], t);
      assert j in db'.jobs && (Pending(db'.jobs[j], t) || db'.jobs[j].status == Exhausted);
    }
  }

  /** Committed rows are only added, and done keys stay. */
  ghost predicate Grows(db: Db, db': Db, running: Option<Task>) {
    && (forall d | d in db.docs :: d in db'.docs && db'.docs[d] == db.docs[d])
    && db.cases.Keys <= db'.cases.Keys
    && JobsSurvive(db, db', running)
    && (forall k | IsDone(db, k) :: IsDone(db', k) && db'.ledger[k] == db.ledger[k])
  }

  lemma CarryChain(db: Db, db': Db, running: Option<Task>, k: Key)
    requires Grows(db, db', running) && Chained(db, k) && IsDone(db, k)
    ensures Chained(db', k)
  {
    hide JobsSurvive, Enqueued;
    match k
    case NormaliseKey(sha, _) => TaskSurvives(db, db', running, Extract(db.docs[sha].caseId));
    case ExtractKey(_, _) =>
      TaskSurvives(db, db', running, Elicit(db.ledger[k].caseId));
      TaskSurvives(db, db', running, Rules(db.ledger[k].caseId));
    case ElicitKey(c, _) =>
    case RulesKey(c, _) =>
  }

  /** The chains hold on if the newly done stages are chained. */
  lemma CarryChains(db: Db, db': Db, running: Option<Task>)
    requires Grows(db, db', running) && AllChained(db)
    requires forall k | IsDone(db', k) && !IsDone(db, k) :: Chained(db', k)
    ensures AllChained(db')
  {
    hide Grows;
    forall k ensures Chained(db', k) {
      assert Chained(db, k);
      if IsDone(db, k) {
        CarryChain(db, db', running, k);
      } else {
        assert IsDone(db', k) ==> Chained(db', k);
      }
    }
  }

  /** Nothing is lost if a task becomes due only together with its job, and what was owed is settled. */
  lemma CarryDues(tag: Tagging, db: Db, db': Db, running: Option<Task>, owed: Option<Task>)
    requires JobsSurvive(db, db', running) && NothingLost(tag, db, owed)
    requires forall t | Due(tag, db', t) && running != Some(t) :: Queued(db', t) || (Due(tag, db, t) && owed != Some(t))
    ensures NothingLost(tag, db', running)
  {
    hide JobsSurvive, Due, Queued, GivenUp;
    forall t | Due(tag, db', t) && running != Some(t) ensures Queued(db', t) || GivenUp(db', t) {
      if !Queued(db', t) {
        assert Due(tag, db, t);
        TaskSurvives(db, db', running, t);
      }
    }
  }

  lemma CarryKept(tag: Tagging, db: Db, db': Db, running: Option<Task>, owed: Option<Task>)
    requires Kept(tag, db, owed) && Grows(db, db', running) && Grounded(db') && AllSettled(db')
    requires forall k | IsDone(db', k) && !IsDone(db, k) :: Chained(db', k)
    requires forall t | Due(tag, db', t) && running != Some(t) :: Queued(db', t) || (Due(tag, db, t) && owed != Some(t))
    ensures Kept(tag, db', running)
  {
    hide Due, Queued, Chained, Grounded, AllSettled, JobsSurvive, GivenUp, IsDone;
    CarryChains(db, db', running);
    CarryDues(tag, db, db', running, owed);
  }

  // ---- steps that change job rows only ----------------------------------------------------

  /** Documents are at most added, texts and normalise keys stay, and extractions are at most added. */
  ghost predicate SameTexts(db: Db, db': Db) {
    && db'.contents == db.contents
    && (forall i | 0 <= i < |db.contents| && db.contents[i].doc in db'.docs :: db.contents[i].doc in db.docs)
    && (forall d | d in db.docs :: d in db'.docs && db'.docs[d] == db.docs[d])
    && (forall k: Key | k.NormaliseKey? :: k in db.ledger <==> k in db'.ledger)
    && (forall k: Key | k.NormaliseKey? && k in db.ledger :: db'.ledger[k] == db.ledger[k])
    && (forall k: Key | k.ExtractKey? && IsDone(db, k) :: IsDone(db', k))
  }

  lemma GoodStays(tag: Tagging, db: Db, db': Db, c: nat)
    requires SameTexts(db, db') && GoodExtracted(tag, db, c)
    ensures GoodExtracted(tag, db', c)
  {
    hide IsPart, Blank;
    forall i: nat | GoodRow(tag, db', c, i) ensures GoodRow(tag, db, c, i) {}
    if exists i: nat :: GoodRow(tag, db, c, i) {
      var text, minted :| IsDone(db, ExtractKey(text, minted)) && CoversGood(tag, db, c, text);
      assert IsDone(db', ExtractKey(text, minted)) && CoversGood(tag, db', c, text);
    }
  }

  /** Then no case comes to owe an extraction. */
  lemma TextDueStays(tag: Tagging, db: Db, db': Db, c: nat)
    requires SameTexts(db, db')
    ensures WholeTextDue(tag, db', c) ==> WholeTextDue(tag, db, c)
    ensures GoodExtracted(tag, db, c) ==> GoodExtracted(tag, db', c)
  {
    hide Blank, Join, Texts, GoodExtracted;
    assert CaseText(db', c) == CaseText(db, c);
    if TextExtracted(db, CaseText(db, c)) {
      StillExtracted(db, db', CaseText(db, c));
    }
    if HasDegraded(tag, db, c) {
      var d :| d in db.docs && db.docs[d].caseId == c && Degraded(tag, db, d);
      assert Degraded(tag, db', d);
    }
    if GoodExtracted(tag, db, c) {
      GoodStays(tag, db, db', c);
    }
  }

  lemma SameTablesSameDues(tag: Tagging, db: Db, db': Db, t: Task)
    requires db'.docs == db.docs && db'.ledger == db.ledger && db'.contents == db.contents && db'.cases == db.cases
    ensures Due(tag, db', t) == Due(tag, db, t)
  {
    hide Blank, CaseText, Unsent, WholeTextDue, GoodExtracted;
    if t.Extract? {
      TextDueStays(tag, db, db', t.caseId);
      TextDueStays(tag, db', db, t.caseId);
    }
  }

  lemma JobStep(tag: Tagging, db: Db, db': Db, running: Option<Task>)
    requires Invariant(tag, db) && JobsSurvive(db, db', running) && Grounded(db')
    requires db'.docs == db.docs && db'.ledger == db.ledger && db'.contents == db.contents && db'.cases == db.cases
    ensures Kept(tag, db', running)
  {
    hide Due, Queued, Chained, GivenUp, Settled, JobsSurvive, Grounded, IsDone;
    assert Grows(db, db', running) by {
      SameLedgerGrows(db, db', running);
    }
    forall t | Due(tag, db', t) ensures Due(tag, db, t) {
      SameTablesSameDues(tag, db, db', t);
    }
    forall k ensures IsDone(db', k) == IsDone(db, k) {
      SameLedger(db, db', k);
    }
    CarryKept(tag, db, db', running, None);
  }

  lemma SameLedger(db: Db, db': Db, k: Key)
    requires db'.ledger == db.ledger
    ensures IsDone(db', k) == IsDone(db, k)
  {}

  lemma SameLedgerGrows(db: Db, db': Db, running: Option<Task>)
    requires db'.docs == db.docs && db'.ledger == db.ledger && db'.cases == db.cases && JobsSurvive(db, db', running)
    ensures Grows(db, db', running)
  {}

  lemma RowGrounded(db: Db, j: nat, job: Job)
    requires Grounded(db) && j in db.jobs && db.jobs[j].task == job.task
    ensures Grounded(db.(jobs := db.jobs[j := job]))
  {}

  lemma RowSurvives(db: Db, j: nat, job: Job, running: Option<Task>)
    requires j in db.jobs && db.jobs[j].status != Exhausted && db.jobs[j].task == job.task
    requires Pending(db.jobs[j], job.task) && running != Some(job.task) ==> Pending(job, job.task) || job.status == Exhausted
    ensures JobsSurvive(db, db.(jobs := db.jobs[j := job]), running)
  {}

  /** One job row rewritten, its task kept. */
  lemma RowStep(tag: Tagging, db: Db, j: nat, job: Job, running: Option<Task>)
    requires Invariant(tag, db) && j in db.jobs && db.jobs[j].status != Exhausted && db.jobs[j].task == job.task
    requires Pending(db.jobs[j], job.task) && running != Some(job.task) ==> Pending(job, job.task) || job.status == Exhausted
    ensures Kept(tag, db.(jobs := db.jobs[j := job]), running)
  {
    hide NothingLost, AllChained, AllSettled, Grounded, JobsSurvive;
    RowGrounded(db, j, job);
    RowSurvives(db, j, job, running);
    JobStep(tag, db, db.(jobs := db.jobs[j := job]), running);
  }

  lemma EnqueueStep(tag: Tagging, db: Db, task: Task)
    requires Invariant(tag, db) && RefersTo(db, task)
    ensures Invariant(tag, Enqueue(db, task))
  {
    hide NothingLost, AllChained, AllSettled;
    JobStep(tag, db, Enqueue(db, task), None);
  }

  // ---- the normalise transaction ----------------------------------------------------------

  lemma {:induction false} SaveTouchesOneDocument(contents: seq<Content>, c: Content)
    ensures forall i | 0 <= i < |Save(contents, c)| :: Save(contents, c)[i] == c || Save(contents, c)[i] in contents
  {
    if contents != [] && contents[0].doc != c.doc {
      SaveTouchesOneDocument(contents[1..], c);
      forall i | 0 <= i < |Save(contents, c)| ensures Save(contents, c)[i] == c || Save(contents, c)[i] in contents {
        if i > 0 {
          assert Save(contents, c)[i] == Save(contents[1..], c)[i - 1];
        }
      }
    }
  }

  lemma {:induction false} SaveSparesOtherCases(contents: seq<Content>, c: Content, other: nat)
    requires other != c.caseId
    requires forall i | 0 <= i < |contents| && contents[i].doc == c.doc :: contents[i].caseId == c.caseId
    ensures Texts(Save(contents, c), other) == Texts(contents, other)
  {
    if contents != [] {
      if contents[0].doc != c.doc {
        SaveSparesOtherCases(contents[1..], c, other);
      }
      assert Save(contents, c)[1..] == if contents[0].doc == c.doc then contents[1..] else Save(contents[1..], c);
    }
  }

  lemma QueuedIsEnqueued(db: Db, task: Task)
    requires Queued(db, task)
    ensures Enqueued(db, task)
  {
    var j :| j in db.jobs && Pending(db.jobs[j], task);
  }

  /** What a normalise transaction that does its work writes. */
  lemma NormaliseWrites(tag: Tagging, db: Db, sha: string, content: Normalised)
    requires Grounded(db) && AllSettled(db) && sha in db.docs && !IsDone(db, KeyOf(tag, db, sha))
    ensures var db', k, c := NormaliseTx(tag, db, sha, content), KeyOf(tag, db, sha), db.docs[sha].caseId;
      Grounded(db') && AllSettled(db') && Grows(db, db', None) && db'.docs == db.docs && db'.cases == db.cases &&
      db'.contents == Save(db.contents, Content(sha, c, content.text)) && db'.ledger - {k} == db.ledger - {k} &&
      (if content.degraded then Degraded(tag, db', sha) else IsDone(db', k) && Queued(db', Extract(c)))
  {
    hide Save;
    var db', c := NormaliseTx(tag, db, sha, content), db.docs[sha].caseId;
    SaveTouchesOneDocument(db.contents, Content(sha, c, content.text));
    if !content.degraded {
      assert Pending(db'.jobs[db.nextJob], Extract(c));
    }
  }

  lemma StillExtracted(db: Db, db': Db, text: string)
    requires TextExtracted(db, text) && forall minted :: IsDone(db, ExtractKey(text, minted)) ==> IsDone(db', ExtractKey(text, minted))
    ensures TextExtracted(db', text)
  {
    var m :| IsDone(db, ExtractKey(text, m));
    assert IsDone(db', ExtractKey(text, m));
  }

  lemma StillDecided(db: Db, db': Db, c: nat, governed: map<string, string>)
    requires Decided(db, c, governed) && forall arc :: IsDone(db, RulesKey(c, InputsOf(governed, arc))) ==> IsDone(db', RulesKey(c, InputsOf(governed, arc)))
    ensures Decided(db', c, governed)
  {
    var arc :| IsDone(db, RulesKey(c, InputsOf(governed, arc)));
    assert IsDone(db', RulesKey(c, InputsOf(governed, arc)));
  }

  lemma NormaliseWholeText(tag: Tagging, db: Db, sha: string, content: Normalised, c: nat)
    requires Grounded(db) && AllSettled(db) && sha in db.docs && !IsDone(db, KeyOf(tag, db, sha))
    requires c != db.docs[sha].caseId || content.degraded
    ensures WholeTextDue(tag, NormaliseTx(tag, db, sha, content), c) ==> WholeTextDue(tag, db, c)
  {
    hide Blank, Join, Save, Grounded, Queued, AllSettled, JobsSurvive;
    var db', k, c0 := NormaliseTx(tag, db, sha, content), KeyOf(tag, db, sha), db.docs[sha].caseId;
    NormaliseWrites(tag, db, sha, content);
    if c == c0 {
      assert HasDegraded(tag, db', c);
    } else {
      OtherTextsStay(db, sha, c0, content.text, c);
      if HasDegraded(tag, db, c) {
        var d :| d in db.docs && db.docs[d].caseId == c && Degraded(tag, db, d);
        assert Degraded(tag, db', d);
      }
      if TextExtracted(db, CaseText(db, c)) {
        StillExtracted(db, db', CaseText(db, c));
      }
    }
  }

  /** A good row after the transaction was one before, unless the transaction made it. */
  lemma GoodRowBefore(tag: Tagging, db: Db, sha: string, content: Normalised, c: nat, i: nat) returns (k: nat)
    requires Grounded(db) && AllSettled(db) && sha in db.docs && !IsDone(db, KeyOf(tag, db, sha))
    requires c != db.docs[sha].caseId || content.degraded
    requires GoodRow(tag, NormaliseTx(tag, db, sha, content), c, i)
    ensures GoodRow(tag, db, c, k) && db.contents[k].text == NormaliseTx(tag, db, sha, content).contents[i].text
  {
    hide Save, Grounded, AllSettled, Grows, Blank;
    var db', c0 := NormaliseTx(tag, db, sha, content), db.docs[sha].caseId;
    var row := Content(sha, c0, content.text);
    NormaliseWrites(tag, db, sha, content);
    SaveTouchesOneDocument(db.contents, row);
    assert db'.contents[i] != row;
    k :| 0 <= k < |db.contents| && db.contents[k] == db'.contents[i];
    RowsOfOtherDocuments(tag, db, sha, content, c, k);
  }

  lemma RowsOfOtherDocuments(tag: Tagging, db: Db, sha: string, content: Normalised, c: nat, k: nat)
    requires Grounded(db) && AllSettled(db) && sha in db.docs && !IsDone(db, KeyOf(tag, db, sha)) && k < |db.contents|
    requires c != db.docs[sha].caseId || content.degraded
    requires db.contents[k].caseId == c && db.contents[k].doc in db.docs
    requires IsDone(NormaliseTx(tag, db, sha, content), KeyOf(tag, db, db.contents[k].doc))
    ensures IsDone(db, KeyOf(tag, db, db.contents[k].doc))
  {
    hide Save;
  }

  lemma NormaliseGoodTexts(tag: Tagging, db: Db, sha: string, content: Normalised, c: nat)
    requires Grounded(db) && AllSettled(db) && sha in db.docs && !IsDone(db, KeyOf(tag, db, sha))
    requires (c != db.docs[sha].caseId || content.degraded) && GoodExtracted(tag, db, c)
    ensures GoodExtracted(tag, NormaliseTx(tag, db, sha, content), c)
  {
    hide IsPart, Grounded, AllSettled, NormaliseTx, JobsSurvive, Blank, IsDone;
    var db' := NormaliseTx(tag, db, sha, content);
    NormaliseWrites(tag, db, sha, content);
    if i: nat :| GoodRow(tag, db', c, i) {
      var k := GoodRowBefore(tag, db, sha, content, c, i);
      var text, minted :| IsDone(db, ExtractKey(text, minted)) && CoversGood(tag, db, c, text);
      forall l: nat | GoodRow(tag, db', c, l) ensures IsPart(db'.contents[l].text, text) {
        var m := GoodRowBefore(tag, db, sha, content, c, l);
        assert GoodRow(tag, db, c, m);
      }
      assert IsDone(db', ExtractKey(text, minted)) && CoversGood(tag, db', c, text);
    }
  }

  lemma NormaliseTextDue(tag: Tagging, db: Db, sha: string, content: Normalised, c: nat)
    requires Grounded(db) && AllSettled(db) && sha in db.docs && !IsDone(db, KeyOf(tag, db, sha))
    ensures var db' := NormaliseTx(tag, db, sha, content); Due(tag, db', Extract(c)) ==> Queued(db', Extract(c)) || Due(tag, db, Extract(c))
  {
    hide WholeTextDue, GoodExtracted, Queued, Grounded, AllSettled, Save, Grows;
    NormaliseWrites(tag, db, sha, content);
    if c != db.docs[sha].caseId || content.degraded {
      NormaliseWholeText(tag, db, sha, content, c);
      if GoodExtracted(tag, db, c) {
        NormaliseGoodTexts(tag, db, sha, content, c);
      }
    }
  }

  lemma NormaliseOtherDues(tag: Tagging, db: Db, sha: string, content: Normalised, t: Task)
    requires AllSettled(db) && sha in db.docs && !IsDone(db, KeyOf(tag, db, sha)) && !t.Extract?
    ensures Due(tag, NormaliseTx(tag, db, sha, content), t) ==> Due(tag, db, t) && t != Normalise(sha)
  {
    hide Save, Unsent;
    if t.Rules? && t.caseId in db.cases && Decided(db, t.caseId, db.cases[t.caseId].governed) {
      StillDecided(db, NormaliseTx(tag, db, sha, content), t.caseId, db.cases[t.caseId].governed);
    }
  }

  lemma NormaliseDues(tag: Tagging, db: Db, sha: string, content: Normalised, t: Task)
    requires Grounded(db) && AllSettled(db)
    ensures var db' := NormaliseTx(tag, db, sha, content);
      Due(tag, db', t) ==> Queued(db', t) || (Due(tag, db, t) && t != Normalise(sha))
  {
    if sha in db.docs && !IsDone(db, KeyOf(tag, db, sha)) {
      hide Due, Queued, Save, Grounded, AllSettled;
      if t.Extract? {
        NormaliseTextDue(tag, db, sha, content, t.caseId);
      } else {
        NormaliseOtherDues(tag, db, sha, content, t);
      }
    } else {
      hide Save, Grounded, AllSettled, Queued, Blank, Join, Texts, Unsent, TextExtracted, HasDegraded, Decided;
    }
  }

  lemma OtherTextsStay(db: Db, sha: string, c0: nat, text: string, c: nat)
    requires Grounded(db) && sha in db.docs && db.docs[sha].caseId == c0 && c != c0
    ensures Texts(Save(db.contents, Content(sha, c0, text)), c) == Texts(db.contents, c)
  {
    SaveSparesOtherCases(db.contents, Content(sha, c0, text), c);
  }

  lemma NormaliseKeeps(tag: Tagging, db: Db, sha: string, content: Normalised)
    requires Kept(tag, db, Some(Normalise(sha)))
    ensures Invariant(tag, NormaliseTx(tag, db, sha, content))
  {
    hide Due, Queued, GivenUp, Save, Degraded;
    var db' := NormaliseTx(tag, db, sha, content);
    forall t | Due(tag, db', t) ensures Queued(db', t) || (Due(tag, db, t) && t != Normalise(sha)) {
      NormaliseDues(tag, db, sha, content, t);
    }
    if sha in db.docs && !IsDone(db, KeyOf(tag, db, sha)) {
      NormaliseWrites(tag, db, sha, content);
      if !content.degraded {
        QueuedIsEnqueued(db', Extract(db.docs[sha].caseId));
      }
    }
    CarryKept(tag, db, db', None, Some(Normalise(sha)));
  }

  // ---- the extract transaction ------------------------------------------------------------

  lemma ExtractGrounded(db: Db, c: nat, minted: set<string>, governed: map<string, string>)
    requires Grounded(db) && AllSettled(db)
    ensures Grounded(ExtractTx(db, c, minted, governed)) && AllSettled(ExtractTx(db, c, minted, governed))
  {
    hide CaseText, Blank;
  }

  lemma ExtractGrows(db: Db, c: nat, minted: set<string>, governed: map<string, string>)
    requires Grounded(db)
    ensures Grows(db, ExtractTx(db, c, minted, governed), None)
  {
    hide CaseText, Blank, RefersTo;
  }

  lemma ExtractChains(db: Db, c: nat, minted: set<string>, governed: map<string, string>, k: Key)
    requires AllSettled(db) && IsDone(ExtractTx(db, c, minted, governed), k) && !IsDone(db, k)
    ensures Chained(ExtractTx(db, c, minted, governed), k)
  {
    hide CaseText, Blank;
    var db' := ExtractTx(db, c, minted, governed);
    assert db'.jobs[db.nextJob].task == Elicit(c) && db'.jobs[db.nextJob + 1].task == Rules(c);
  }

  lemma {:induction false} TextsHold(contents: seq<Content>, c: nat, i: nat)
    requires i < |contents| && contents[i].caseId == c && contents[i].text != ""
    ensures contents[i].text in Texts(contents, c)
  {
    if i > 0 {
      TextsHold(contents[1..], c, i - 1);
    }
  }

  lemma {:induction false} BlankJoinOfBlanks(parts: seq<string>, part: string)
    requires part in parts && !Blank(part)
    ensures !Blank(Join(parts, "\n"))
  {
    hide IsSpace;
    if |parts| == 1 {
      assert parts[0] == part;
    } else {
      var i :| 0 <= i < |part| && !IsSpace(part[i]);
      var joined := Join(parts, "\n");
      if parts[0] == part {
        assert joined[i] == part[i];
      } else {
        var rest := Join(parts[1..], "\n");
        BlankJoinOfBlanks(parts[1..], part);
        var k :| 0 <= k < |rest| && !IsSpace(rest[k]);
        assert joined[|parts[0]| + 1 + k] == rest[k];
      }
    }
  }

  /** The text of a case has the text of each of its good rows as a part. */
  lemma CaseTextCovers(tag: Tagging, db: Db, c: nat)
    ensures CoversGood(tag, db, c, CaseText(db, c))
    ensures Blank(CaseText(db, c)) ==> forall i: nat :: !GoodRow(tag, db, c, i)
  {
    hide IsDone;
    var parts := Texts(db.contents, c);
    forall i: nat | GoodRow(tag, db, c, i) ensures IsPart(db.contents[i].text, CaseText(db, c)) && !Blank(CaseText(db, c)) {
      TextsHold(db.contents, c, i);
      BlankJoinOfBlanks(parts, db.contents[i].text);
      assert Join(parts, "\n") == CaseText(db, c) && db.contents[i].text in parts;
    }
  }

  /** After its extraction a case owes none. */
  lemma ExtractSettles(tag: Tagging, db: Db, c: nat, minted: set<string>, governed: map<string, string>)
    ensures !Due(tag, ExtractTx(db, c, minted, governed), Extract(c))
  {
    hide Blank, Join, Texts, IsPart;
    var k, db' := ExtractKey(CaseText(db, c), minted), ExtractTx(db, c, minted, governed);
    CaseTextCovers(tag, db', c);
    assert CaseText(db', c) == CaseText(db, c);
    if c in db.cases && !Blank(CaseText(db, c)) {
      assert IsDone(db', k);
    }
  }

  lemma ExtractSparesTexts(db: Db, c: nat, minted: set<string>, governed: map<string, string>)
    ensures SameTexts(db, ExtractTx(db, c, minted, governed))
  {
    hide CaseText, Blank;
  }

  lemma ExtractOtherDues(tag: Tagging, db: Db, c: nat, minted: set<string>, governed: map<string, string>, t: Task)
    requires !t.Extract?
    ensures var db' := ExtractTx(db, c, minted, governed); Due(tag, db', t) ==> Queued(db', t) || Due(tag, db, t)
  {
    hide Blank, CaseText;
    var k, db' := ExtractKey(CaseText(db, c), minted), ExtractTx(db, c, minted, governed);
    if c in db.cases && !Blank(CaseText(db, c)) && !IsDone(db, k) {
      assert Pending(db'.jobs[db.nextJob], Elicit(c)) && Pending(db'.jobs[db.nextJob + 1], Rules(c));
      if t.Rules? && t.caseId != c && t.caseId in db.cases && Decided(db, t.caseId, db.cases[t.caseId].governed) {
        StillDecided(db, db', t.caseId, db.cases[t.caseId].governed);
      }
    }
  }

  lemma ExtractDues(tag: Tagging, db: Db, c: nat, minted: set<string>, governed: map<string, string>, t: Task)
    ensures var db' := ExtractTx(db, c, minted, governed);
      Due(tag, db', t) ==> Queued(db', t) || (Due(tag, db, t) && t != Extract(c))
  {
    hide WholeTextDue, GoodExtracted, CaseText, Blank, Queued;
    if t.Extract? {
      ExtractSettles(tag, db, c, minted, governed);
      ExtractSparesTexts(db, c, minted, governed);
      TextDueStays(tag, db, ExtractTx(db, c, minted, governed), t.caseId);
    } else {
      ExtractOtherDues(tag, db, c, minted, governed, t);
    }
  }

  lemma ExtractKeeps(tag: Tagging, db: Db, c: nat, minted: set<string>, governed: map<string, string>)
    requires Kept(tag, db, Some(Extract(c)))
    ensures Invariant(tag, ExtractTx(db, c, minted, governed))
  {
    hide Due, Queued, GivenUp, ExtractTx, Chained, Grounded, AllSettled, Grows;
    var db' := ExtractTx(db, c, minted, governed);
    ExtractGrounded(db, c, minted, governed);
    ExtractGrows(db, c, minted, governed);
    forall k | IsDone(db', k) && !IsDone(db, k) ensures Chained(db', k) {
      ExtractChains(db, c, minted, governed, k);
    }
    forall t | Due(tag, db', t) ensures Queued(db', t) || (Due(tag, db, t) && t != Extract(c)) {
      ExtractDues(tag, db, c, minted, governed, t);
    }
    CarryKept(tag, db, db', None, Some(Extract(c)));
  }

  // ---- the elicit, rules and dispatch transactions ----------------------------------------

  lemma ElicitedExactlyWhenDone(db: Db, c: nat, governed: map<string, string>)
    ensures governed in Elicited(db.ledger, c) <==> IsDone(db, ElicitKey(c, governed))
  {
    if IsDone(db, ElicitKey(c, governed)) {
      assert ElicitKey(c, governed).governed in Elicited(db.ledger, c);
    }
  }

  /** What an elicit transaction that decides something leaves in the case row. */
  lemma ElicitWrites(db: Db, c: nat, look: Lookup)
    requires c in db.cases && !Elicitation.HandedOff(db.cases[c].state) && !IsDone(db, ElicitKey(c, db.cases[c].governed))
    ensures var (v, q) := Elicitation.Elicit(CaseOf(db, c), TurnOf(db.cases[c], look));
      v.elicited == Elicited(db.ledger, c) + {db.cases[c].governed} && v.sent == db.cases[c].sent &&
      (q.Some? <==> v.pending.Some?) && (v.pending.Some? <==> v.state == Elicitation.Incomplete)
  {
    ElicitedExactlyWhenDone(db, c, db.cases[c].governed);
    var turn := TurnOf(db.cases[c], look);
    Elicitation.QuestionsAreJustified(turn.governed.Keys, Elicitation.SituationOf(CaseOf(db, c), turn));
  }

  /** The three transactions that follow extraction. */
  function CaseTx(db: Db, task: Task, o: Outcome): Db
    requires task.Elicit? || task.Rules? || task.Dispatch?
  {
    match task
    case Elicit(c) => ElicitTx(db, c, o.look)
    case Rules(c) => RulesTx(db, c, o.arc)
    case Dispatch(c) => DispatchTx(db, c)
  }

  lemma CaseTxGrounded(db: Db, task: Task, o: Outcome)
    requires (task.Elicit? || task.Rules? || task.Dispatch?) && Grounded(db) && AllSettled(db)
    ensures Grounded(CaseTx(db, task, o)) && AllSettled(CaseTx(db, task, o))
  {
    hide Elicitation.HandedOff, Elicitation.Elicit, Elicitation.Dispatch, InputsOf, Elicited;
  }

  lemma CaseTxGrows(db: Db, task: Task, o: Outcome)
    requires (task.Elicit? || task.Rules? || task.Dispatch?) && Grounded(db)
    ensures Grows(db, CaseTx(db, task, o), None)
  {
    hide Elicitation.HandedOff, Elicitation.Elicit, Elicitation.Dispatch, InputsOf, Elicited, RefersTo;
  }

  lemma CaseTxChains(db: Db, task: Task, o: Outcome)
    requires task.Elicit? || task.Rules? || task.Dispatch?
    ensures forall k | IsDone(CaseTx(db, task, o), k) && !IsDone(db, k) :: Chained(CaseTx(db, task, o), k)
  {
    hide Elicitation.HandedOff, Elicitation.Elicit, Elicitation.Dispatch, InputsOf, Elicited, RefersTo;
  }

  lemma ElicitSameTexts(db: Db, c: nat, look: Lookup)
    ensures var db' := ElicitTx(db, c, look); SameTexts(db, db') && db'.docs == db.docs && db'.cases.Keys == db.cases.Keys
  {
    hide Elicitation.HandedOff, Elicitation.Elicit, Elicited;
  }

  /** None of the three touches documents or texts, and the ledger only grows. */
  lemma CaseTxSameTexts(db: Db, task: Task, o: Outcome)
    requires task.Elicit? || task.Rules? || task.Dispatch?
    ensures var db' := CaseTx(db, task, o); SameTexts(db, db') && db'.docs == db.docs && db'.cases.Keys == db.cases.Keys
  {
    hide ElicitTx, Elicitation.Dispatch, InputsOf, Elicited;
    if task.Elicit? {
      ElicitSameTexts(db, task.caseId, o.look);
    }
  }

  lemma CaseTxSparesTexts(tag: Tagging, db: Db, task: Task, o: Outcome, t: Task)
    requires (task.Elicit? || task.Rules? || task.Dispatch?) && (t.Normalise? || t.Extract?)
    ensures Due(tag, CaseTx(db, task, o), t) ==> Due(tag, db, t)
  {
    hide CaseTx, WholeTextDue, GoodExtracted;
    CaseTxSameTexts(db, task, o);
    if t.Extract? {
      TextDueStays(tag, db, CaseTx(db, task, o), t.caseId);
    }
  }

  lemma ElicitDues(tag: Tagging, db: Db, c: nat, look: Lookup, t: Task)
    requires t.Elicit? || t.Rules? || t.Dispatch?
    ensures var db' := ElicitTx(db, c, look); Due(tag, db', t) ==> Queued(db', t) || (Due(tag, db, t) && t != Elicit(c))
  {
    hide Elicitation.Elicit, InputsOf, Elicited;
    var db' := ElicitTx(db, c, look);
    if c in db.cases && !Elicitation.HandedOff(db.cases[c].state) && !IsDone(db, ElicitKey(c, db.cases[c].governed)) {
      ElicitWrites(db, c, look);
      if db'.cases[c].pending.Some? {
        assert Pending(db'.jobs[db.nextJob], Dispatch(c));
      }
      if t.Rules? && t.caseId in db.cases && Decided(db, t.caseId, db.cases[t.caseId].governed) {
        StillDecided(db, db', t.caseId, db.cases[t.caseId].governed);
      }
    }
  }

  lemma RulesDues(tag: Tagging, db: Db, c: nat, arc: string, t: Task)
    requires t.Elicit? || t.Rules? || t.Dispatch?
    ensures var db' := RulesTx(db, c, arc); Due(tag, db', t) ==> Due(tag, db, t) && t != Rules(c)
  {
    hide InputsOf, Elicited, Elicitation.HandedOff;
    var db' := RulesTx(db, c, arc);
    if c in db.cases {
      assert IsDone(db', RulesKey(c, InputsOf(db.cases[c].governed, arc)));
      assert Decided(db', c, db'.cases[c].governed);
      if t.Rules? && t.caseId in db.cases && Decided(db, t.caseId, db.cases[t.caseId].governed) {
        StillDecided(db, db', t.caseId, db.cases[t.caseId].governed);
      }
    }
  }

  lemma DispatchDues(tag: Tagging, db: Db, c: nat, t: Task)
    requires t.Elicit? || t.Rules? || t.Dispatch?
    ensures var db' := DispatchTx(db, c); Due(tag, db', t) ==> Due(tag, db, t) && t != Dispatch(c)
  {
    hide InputsOf, Elicited, Elicitation.HandedOff;
    var db' := DispatchTx(db, c);
    if t.Rules? && t.caseId in db.cases && Decided(db, t.caseId, db.cases[t.caseId].governed) {
      StillDecided(db, db', t.caseId, db.cases[t.caseId].governed);
    }
  }

  lemma CaseTxDues(tag: Tagging, db: Db, task: Task, o: Outcome, t: Task)
    requires (task.Elicit? || task.Rules? || task.Dispatch?) && AllSettled(db)
    ensures var db' := CaseTx(db, task, o); Due(tag, db', t) ==> Queued(db', t) || (Due(tag, db, t) && t != task)
  {
    hide Due, Queued, ElicitTx, RulesTx, DispatchTx, AllSettled;
    if t.Normalise? || t.Extract? {
      CaseTxSparesTexts(tag, db, task, o, t);
    } else {
      match task
      case Elicit(c) => ElicitDues(tag, db, c, o.look, t);
      case Rules(c) => RulesDues(tag, db, c, o.arc, t);
      case Dispatch(c) => DispatchDues(tag, db, c, t);
    }
  }

  lemma CaseTxKeeps(tag: Tagging, db: Db, task: Task, o: Outcome)
    requires (task.Elicit? || task.Rules? || task.Dispatch?) && Kept(tag, db, Some(task))
    ensures Invariant(tag, CaseTx(db, task, o))
  {
    hide Due, Queued, GivenUp, CaseTx, Chained, Grounded, AllSettled, Grows;
    var db' := CaseTx(db, task, o);
    CaseTxGrounded(db, task, o);
    CaseTxGrows(db, task, o);
    CaseTxChains(db, task, o);
    forall t | Due(tag, db', t) ensures Queued(db', t) || (Due(tag, db, t) && t != task) {
      CaseTxDues(tag, db, task, o, t);
    }
    CarryKept(tag, db, db', None, Some(task));
  }

  // ---- arrivals, reviews and failures -----------------------------------------------------

  lemma StoreGrounded(db: Db, item: Item)
    requires Grounded(db) && AllSettled(db) && item.caseId in db.cases
    ensures Grounded(Store(db, item)) && AllSettled(Store(db, item))
  {}

  lemma StoreGrows(db: Db, item: Item)
    requires Grounded(db)
    ensures Grows(db, Store(db, item), None)
  {
    hide RefersTo;
  }

  lemma StoreDues(tag: Tagging, db: Db, item: Item, t: Task)
    requires Grounded(db)
    ensures var db' := Store(db, item); Due(tag, db', t) ==> Queued(db', t) || Due(tag, db, t)
  {
    hide WholeTextDue, GoodExtracted, Unsent, InputsOf, Elicited, Elicitation.HandedOff;
    var db' := Store(db, item);
    assert Pending(db'.jobs[db.nextJob], Normalise(item.sha));
    match t
    case Extract(c) =>
      StoreSparesTexts(db, item);
      TextDueStays(tag, db, db', c);
    case Rules(c) =>
      if c in db.cases && Decided(db, c, db.cases[c].governed) {
        StillDecided(db, db', c, db.cases[c].governed);
      }
    case _ =>
  }

  lemma StoreSparesTexts(db: Db, item: Item)
    requires Grounded(db)
    ensures SameTexts(db, Store(db, item))
  {}

  lemma StoreKeeps(tag: Tagging, db: Db, item: Item)
    requires Invariant(tag, db) && item.caseId in db.cases
    ensures Invariant(tag, Store(db, item)) && Store(db, item).cases == db.cases
  {
    hide Due, Queued, GivenUp, Chained, Grounded, AllSettled, Grows;
    var db' := Store(db, item);
    StoreGrounded(db, item);
    StoreGrows(db, item);
    forall t | Due(tag, db', t) ensures Queued(db', t) || Due(tag, db, t) {
      StoreDues(tag, db, item, t);
    }
    forall k ensures IsDone(db', k) == IsDone(db, k) {
      SameLedger(db, db', k);
    }
    CarryKept(tag, db, db', None, None);
  }

  lemma {:induction false} StoreAllKeeps(tag: Tagging, db: Db, items: seq<Item>)
    requires Invariant(tag, db) && forall i | 0 <= i < |items| :: items[i].caseId in db.cases
    ensures Invariant(tag, StoreAll(db, items)) && StoreAll(db, items).cases == db.cases
  {
    hide Invariant, Store;
    if items != [] {
      var rest := items[..|items| - 1];
      assert forall i | 0 <= i < |rest| :: rest[i] == items[i];
      StoreAllKeeps(tag, db, rest);
      StoreKeeps(tag, StoreAll(db, rest), items[|items| - 1]);
    }
  }

  /** Case rows added or rewritten, everything else kept. */
  lemma CasesStep(tag: Tagging, db: Db, cases: map<nat, CaseRow>)
    requires Invariant(tag, db) && db.cases.Keys <= cases.Keys
    requires forall t | Due(tag, db.(cases := cases), t) :: Due(tag, db, t)
    ensures Invariant(tag, db.(cases := cases))
  {
    hide Due, Queued, GivenUp, Chained, Grounded, AllSettled, Grows;
    var db' := db.(cases := cases);
    CasesGrow(db, cases);
    forall k ensures IsDone(db', k) == IsDone(db, k) {
      SameLedger(db, db', k);
    }
    CarryKept(tag, db, db', None, None);
  }

  lemma CasesGrow(db: Db, cases: map<nat, CaseRow>)
    requires Grounded(db) && AllSettled(db) && db.cases.Keys <= cases.Keys
    ensures Grounded(db.(cases := cases)) && AllSettled(db.(cases := cases)) && Grows(db, db.(cases := cases), None)
  {}

  /** A task is due by the rows of its own case. */
  lemma SameRowSameDue(tag: Tagging, db: Db, cases: map<nat, CaseRow>, t: Task)
    requires t.Normalise? || (t.caseId in db.cases && t.caseId in cases && cases[t.caseId] == db.cases[t.caseId])
    ensures Due(tag, db.(cases := cases), t) == Due(tag, db, t)
  {
    hide WholeTextDue, GoodExtracted, Unsent;
    if t.Extract? {
      TextDueStays(tag, db, db.(cases := cases), t.caseId);
      TextDueStays(tag, db.(cases := cases), db, t.caseId);
    }
  }

  lemma NewCaseOwesNothing(tag: Tagging, db: Db, c: nat, reachable: bool, t: Task)
    requires !t.Normalise? && t.caseId == c && c in db.cases && db.cases[c] == FreshRow(reachable)
    requires forall i | 0 <= i < |db.contents| :: db.contents[i].caseId != c
    ensures !Due(tag, db, t)
  {
    NoRowsNoText(db.contents, c);
  }

  lemma WithCasesKeeps(tag: Tagging, db: Db, newCases: map<nat, bool>)
    requires Invariant(tag, db)
    ensures Invariant(tag, WithCases(db, newCases))
  {
    hide Due, NothingLost, AllChained, AllSettled, CaseText, FreshRow;
    var db' := WithCases(db, newCases);
    forall t | Due(tag, db', t) ensures Due(tag, db, t) {
      if t.Normalise? || t.caseId in db.cases {
        SameRowSameDue(tag, db, db'.cases, t);
      } else if t.caseId in db'.cases {
        NewCaseOwesNothing(tag, db', t.caseId, newCases[t.caseId], t);
      } else {
        UnknownCaseOwesNothing(tag, db', t);
      }
    }
    CasesStep(tag, db, db'.cases);
  }

  lemma UnknownCaseOwesNothing(tag: Tagging, db: Db, t: Task)
    requires !t.Normalise? && t.caseId !in db.cases
    ensures !Due(tag, db, t)
  {}

  lemma ArriveKeeps(tag: Tagging, db: Db, newCases: map<nat, bool>, items: seq<Item>)
    requires Invariant(tag, db)
    ensures Invariant(tag, Ingest(db, newCases, items))
  {
    hide Invariant, WithCases;
    var db' := WithCases(db, newCases);
    WithCasesKeeps(tag, db, newCases);
    if forall i | 0 <= i < |items| :: items[i].caseId in db'.cases {
      StoreAllKeeps(tag, db', items);
    }
  }

  /** A new state that opens no question and gives nobody back. */
  lemma StateDues(tag: Tagging, db: Db, c: nat, state: Elicitation.State, t: Task)
    requires c in db.cases && state != Elicitation.Incomplete
    requires Elicitation.HandedOff(db.cases[c].state) ==> Elicitation.HandedOff(state)
    ensures Due(tag, SetState(db, c, state), t) ==> Due(tag, db, t)
  {
    hide WholeTextDue, GoodExtracted, Elicited;
    var db' := SetState(db, c, state);
    if t.Extract? {
      TextDueStays(tag, db, db', t.caseId);
    } else if t.Normalise? || t.caseId != c {
      if !t.Normalise? && t.caseId !in db.cases {
        UnknownCaseOwesNothing(tag, db', t);
      } else {
        SameRowSameDue(tag, db, db'.cases, t);
      }
    }
  }

  lemma StateKeeps(tag: Tagging, db: Db, c: nat, state: Elicitation.State)
    requires Invariant(tag, db) && c in db.cases && state != Elicitation.Incomplete
    requires Elicitation.HandedOff(db.cases[c].state) ==> Elicitation.HandedOff(state)
    ensures Invariant(tag, SetState(db, c, state))
  {
    hide Due, Invariant;
    var db' := SetState(db, c, state);
    forall t | Due(tag, db', t) ensures Due(tag, db, t) {
      StateDues(tag, db, c, state, t);
    }
    CasesStep(tag, db, db'.cases);
  }

  lemma CommitKeeps(tag: Tagging, db: Db, j: nat, o: Outcome)
    requires Invariant(tag, db) && j in db.jobs && db.jobs[j].status == Doing(false)
    ensures Invariant(tag, TaskTx(tag, SetStatus(db, j, Doing(true)), db.jobs[j].task, o))
  {
    hide Kept, NormaliseTx, ExtractTx, ElicitTx, RulesTx, DispatchTx;
    var task, started := db.jobs[j].task, SetStatus(db, j, Doing(true));
    RowStep(tag, db, j, db.jobs[j].(status := Doing(true)), Some(task));
    match task
    case Normalise(sha) => NormaliseKeeps(tag, started, sha, o.content);
    case Extract(c) => ExtractKeeps(tag, started, c, o.minted, o.governed);
    case _ => CaseTxKeeps(tag, started, task, o);
  }

  lemma GiveUpKeeps(tag: Tagging, db: Db, j: nat, job: Job, stampWorks: bool)
    requires Invariant(tag, db) && j in db.jobs && db.jobs[j].status.Doing? && job.task == db.jobs[j].task && job.status == Exhausted
    ensures Invariant(tag, StampAfter(db.(jobs := db.jobs[j := job]), job.task, stampWorks))
  {
    hide Kept;
    RowStep(tag, db, j, job, None);
    StampAfterKeeps(tag, db.(jobs := db.jobs[j := job]), job.task, stampWorks);
  }

  lemma StampAfterKeeps(tag: Tagging, db: Db, task: Task, stampWorks: bool)
    requires Invariant(tag, db)
    ensures Invariant(tag, StampAfter(db, task, stampWorks))
  {
    hide Invariant;
    var c := StampedCase(db, task);
    if c.Some? && stampWorks && c.value in db.cases && InFlight(db.cases[c.value].state) {
      StateKeeps(tag, db, c.value, Elicitation.ProcessingFailed);
    }
  }

  lemma FailKeeps(tag: Tagging, db: Db, j: nat, stampWorks: bool)
    requires Invariant(tag, db) && j in db.jobs && db.jobs[j].status.Doing?
    ensures Invariant(tag, Fail(db, j, stampWorks))
  {
    hide Kept, StampAfter;
    var task, n := db.jobs[j].task, db.jobs[j].attempts + 1;
    if n < MAX_ATTEMPTS {
      RowStep(tag, db, j, Job(task, Todo, n), None);
    } else {
      GiveUpKeeps(tag, db, j, Job(task, Exhausted, n), stampWorks);
    }
  }

  lemma ReviewKeeps(tag: Tagging, db: Db, c: nat, commits: bool)
    requires Invariant(tag, db)
    ensures Invariant(tag, Apply(tag, db, Review(c, commits)))
  {
    hide Kept;
    if c in db.cases && (commits || db.cases[c].state == Elicitation.Committed) {
      StateKeeps(tag, db, c, if commits then Elicitation.Committed else Elicitation.InReview);
    }
  }

  // ---- every step, every run --------------------------------------------------------------

  lemma StepKeeps(tag: Tagging, db: Db, step: Step)
    requires Invariant(tag, db)
    ensures Invariant(tag, Apply(tag, db, step))
  {
    hide Kept, TaskTx, Ingest, Fail;
    match step
    case Arrive(newCases, items) => ArriveKeeps(tag, db, newCases, items);
    case Rescan(c) => if c in db.cases { EnqueueStep(tag, db, Extract(c)); }
    case Review(c, commits) => ReviewKeeps(tag, db, c, commits);
    case Fetch(j) => if j in db.jobs && db.jobs[j].status == Todo { RowStep(tag, db, j, db.jobs[j].(status := Doing(false)), None); }
    case Commit(j, o) => if j in db.jobs && db.jobs[j].status == Doing(false) { CommitKeeps(tag, db, j, o); }
    case Finish(j) => if j in db.jobs && db.jobs[j].status == Doing(true) { RowStep(tag, db, j, db.jobs[j].(status := Succeeded), None); }
    case Raise(j, ok) => if j in db.jobs && db.jobs[j].status.Doing? { FailKeeps(tag, db, j, ok); }
    case Reset(j) => if j in db.jobs && db.jobs[j].status.Doing? { RowStep(tag, db, j, db.jobs[j].(status := Todo), None); }
  }

  lemma EmptyKeeps(tag: Tagging)
    ensures Invariant(tag, EMPTY)
  {}

  /** Over every run: nothing lost from ingest to dispatch, nothing phantom, and jobs for each done stage. */
  lemma {:induction false} EveryRunKeeps(tag: Tagging, steps: seq<Step>)
    ensures Invariant(tag, Run(tag, steps))
  {
    hide Invariant, Apply;
    if steps == [] {
      EmptyKeeps(tag);
    } else {
      EveryRunKeeps(tag, steps[..|steps| - 1]);
      StepKeeps(tag, Run(tag, steps[..|steps| - 1]), steps[|steps| - 1]);
    }
  }

  ghost predicate Quiet(db: Db) {
    forall j | j in db.jobs :: db.jobs[j].status == Succeeded || db.jobs[j].status == Exhausted
  }

  /** When the queue has drained, whatever is still to do was given up on after its retries. */
  lemma DrainedQueueLeavesNothingBehind(tag: Tagging, steps: seq<Step>, t: Task)
    requires Quiet(Run(tag, steps)) && Due(tag, Run(tag, steps), t)
    ensures GivenUp(Run(tag, steps), t)
  {
    hide Due, GivenUp;
    EveryRunKeeps(tag, steps);
  }

  /** So where no retries ran out, the drained pipeline is complete: each document is normalised or
      degraded, the normalised documents of each case were read by one extraction, and its whole text by
      one if no document in it is degraded, each extracted case is handed off or elicited on its values and
      has a decision on them, and no question that can be sent is unsent. */
  lemma DrainedWithoutFailuresIsComplete(tag: Tagging, steps: seq<Step>)
    requires var db := Run(tag, steps); Quiet(db) && forall j | j in db.jobs :: db.jobs[j].status != Exhausted
    ensures var db := Run(tag, steps);
      (forall sha | sha in db.docs :: IsDone(db, KeyOf(tag, db, sha)) || Degraded(tag, db, sha)) &&
      forall c | c in db.cases :: var row := db.cases[c];
        GoodExtracted(tag, db, c) && (Blank(CaseText(db, c)) || TextExtracted(db, CaseText(db, c)) || HasDegraded(tag, db, c)) &&
        (row.extracted ==> (Elicitation.HandedOff(row.state) || IsDone(db, ElicitKey(c, row.governed))) && Decided(db, c, row.governed)) &&
        (row.state == Elicitation.Incomplete && row.pending.Some? && row.reachable ==> row.pending.value in row.sent)
  {
    hide Run, Blank, CaseText, TextExtracted, HasDegraded, GoodExtracted, Decided, Degraded;
    var db := Run(tag, steps);
    forall t ensures !Due(tag, db, t) {
      if Due(tag, db, t) {
        DrainedQueueLeavesNothingBehind(tag, steps, t);
      }
    }
    forall sha | sha in db.docs ensures IsDone(db, KeyOf(tag, db, sha)) || Degraded(tag, db, sha) {
      assert !Due(tag, db, Normalise(sha));
    }
    forall c | c in db.cases ensures var row := db.cases[c];
      GoodExtracted(tag, db, c) && (Blank(CaseText(db, c)) || TextExtracted(db, CaseText(db, c)) || HasDegraded(tag, db, c)) &&
      (row.extracted ==> (Elicitation.HandedOff(row.state) || IsDone(db, ElicitKey(c, row.governed))) && Decided(db, c, row.governed)) &&
      (row.state == Elicitation.Incomplete && row.pending.Some? && row.reachable ==> row.pending.value in row.sent)
    {
      assert !Due(tag, db, Extract(c)) && !Due(tag, db, Elicit(c)) && !Due(tag, db, Rules(c)) && !Due(tag, db, Dispatch(c));
    }
  }
}
