/** The durable case pipeline as a step system. */
module Pipeline {
  // The transactions of engine/app/pipeline.py, engine/app/extract/stage.py and engine/app/rules/stage.py,
  // the queue tasks of engine/app/queue.py, and the stage ledger of engine/app/store/api.py. What a case is
  // asked and sent is the machine of `Elicitation`.
  //
  // One tenant, one code and model version. Hashes are injective, so a key is what it hashes. What the
  // stages compute (OCR, the model, object resolution, the emotion arc) are arbitrary outcomes of a step.

  import opened Options
  import opened Text
  import Elicitation

  const MAX_ATTEMPTS := 4

  // ---- rows -------------------------------------------------------------------------------

  /** The normaliser identity per media type; the code's is `ModelSwap.ModelVersionTag` of its settings. */
  type Tagging = string -> string
  /** A source document; documents are stored once per tenant and content hash, which is their identity. */
  datatype Document = Document(caseId: nat, mime: string)
  datatype Content = Content(doc: string, caseId: nat, text: string)
  /** What the rules stage reads: two governed signals, and the arc, which stands for the emotions that the
      log holds in the window and for the policy. */
  datatype Inputs = Inputs(category: Option<string>, severity: Option<string>, arc: string)
  /** A case with its question, its outbound ledger, whether it has a recipient, and what was extracted and
      decided for it. */
  datatype CaseRow = CaseRow(
    state: Elicitation.State, questionCount: nat, anchorAsked: bool, pending: Option<string>, sent: seq<string>,
    reachable: bool, extracted: bool, governed: map<string, string>, decision: Option<Inputs>)

  datatype Key =
    | NormaliseKey(sha: string, model: string)
    | ExtractKey(text: string, minted: set<string>)     // no case in it
    | ElicitKey(caseId: nat, governed: map<string, string>)
    | RulesKey(caseId: nat, inputs: Inputs)
  datatype Status = Running | Done | Failed
  datatype Entry = Entry(status: Status, caseId: nat)

  datatype Task = Normalise(doc: string) | Extract(caseId: nat) | Elicit(caseId: nat) | Rules(caseId: nat) | Dispatch(caseId: nat)
  /** `Doing(true)`: the task's transaction has committed but the job row does not say so yet. */
  datatype JobStatus = Todo | Doing(committed: bool) | Succeeded | Exhausted
  datatype Job = Job(task: Task, status: JobStatus, attempts: nat)

  datatype Db = Db(docs: map<string, Document>, cases: map<nat, CaseRow>, ledger: map<Key, Entry>,
                   contents: seq<Content>, jobs: map<nat, Job>, nextJob: nat)

  const EMPTY := Db(map[], map[], map[], [], map[], 0)

  // ---- the pieces of a transaction --------------------------------------------------------

  function KeyOf(tag: Tagging, db: Db, sha: string): Key
    requires sha in db.docs
  {
    NormaliseKey(sha, tag(db.docs[sha].mime))
  }

  predicate IsDone(db: Db, k: Key) {
    k in db.ledger && db.ledger[k].status == Done
  }

  /** The insert-or-reclaim of `claim_stage`, the row keeping its first claimant's case. */
  function Mark(db: Db, k: Key, status: Status, caseId: nat): Db {
    db.(ledger := db.ledger[k := Entry(status, if k in db.ledger then db.ledger[k].caseId else caseId)])
  }

  /** `defer_in_transaction`. */
  function Enqueue(db: Db, task: Task): Db {
    db.(jobs := db.jobs[db.nextJob := Job(task, Todo, 0)], nextJob := db.nextJob + 1)
  }

  /** `save_normalised_content`: one row per document, replaced in place. */
  function Save(contents: seq<Content>, c: Content): (r: seq<Content>) {
    if contents == [] then [c]
    else if contents[0].doc == c.doc then [c] + contents[1..]
    else [contents[0]] + Save(contents[1..], c)
  }

  function Texts(contents: seq<Content>, caseId: nat): seq<string> {
    if contents == [] then []
    else (if contents[0].caseId == caseId && contents[0].text != "" then [contents[0].text] else []) + Texts(contents[1..], caseId)
  }

  /** `get_case_normalised_text`. */
  function CaseText(db: Db, caseId: nat): string {
    Join(Texts(db.contents, caseId), "\n")
  }

  lemma {:induction false} NoRowsNoTexts(contents: seq<Content>, c: nat)
    requires forall i | 0 <= i < |contents| :: contents[i].caseId != c
    ensures Texts(contents, c) == []
  {
    if contents != [] {
      NoRowsNoTexts(contents[1..], c);
    }
  }

  lemma NoRowsNoText(contents: seq<Content>, c: nat)
    requires forall i | 0 <= i < |contents| :: contents[i].caseId != c
    ensures Blank(Join(Texts(contents, c), "\n"))
  {
    NoRowsNoTexts(contents, c);
  }

  function Signal(governed: map<string, string>, name: string): Option<string> {
    if name in governed then Some(governed[name]) else None
  }

  function InputsOf(governed: map<string, string>, arc: string): Inputs {
    Inputs(Signal(governed, "category"), Signal(governed, "severity_signal"), arc)
  }

  /** The extracted states of the case that were elicited. */
  function Elicited(ledger: map<Key, Entry>, c: nat): set<map<string, string>> {
    set k | k in ledger && k.ElicitKey? && k.caseId == c && ledger[k].status == Done :: k.governed
  }

  /** The case as the elicitation machine sees it. */
  function CaseOf(db: Db, c: nat): Elicitation.Case
    requires c in db.cases
  {
    var row := db.cases[c];
    Elicitation.Case(row.state, row.questionCount, row.anchorAsked, row.pending, Elicited(db.ledger, c), row.sent)
  }

  // ---- the committed transactions ---------------------------------------------------------

  datatype Item = Item(caseId: nat, sha: string, mime: string)

  /** `_store_and_queue`: bytes already stored keep their first row, and a job is queued either way. */
  function Store(db: Db, item: Item): Db {
    var db' := if item.sha in db.docs then db else db.(docs := db.docs[item.sha := Document(item.caseId, item.mime)]);
    Enqueue(db', Normalise(item.sha))
  }

  function StoreAll(db: Db, items: seq<Item>): Db {
    if items == [] then db else Store(StoreAll(db, items[..|items| - 1]), items[|items| - 1])
  }

  function FreshRow(reachable: bool): CaseRow {
    CaseRow(Elicitation.Created, 0, false, None, [], reachable, false, map[], None)
  }

  function WithCases(db: Db, newCases: map<nat, bool>): Db {
    db.(cases := db.cases + map c | c in newCases.Keys - db.cases.Keys :: FreshRow(newCases[c]))
  }

  /** One ingest transaction: new cases, with or without a recipient, then documents with their jobs. */
  function Ingest(db: Db, newCases: map<nat, bool>, items: seq<Item>): Db {
    var db' := WithCases(db, newCases);
    if forall i | 0 <= i < |items| :: items[i].caseId in db'.cases then StoreAll(db', items) else db
  }

  datatype Normalised = Normalised(text: string, degraded: bool)

  /** `normalise_source_document`: claim, work, then complete with the extract job — or, degraded, leave
      the stage re-claimable with no job. */
  function NormaliseTx(tag: Tagging, db: Db, sha: string, content: Normalised): Db {
    if sha !in db.docs || IsDone(db, KeyOf(tag, db, sha)) then db
    else
      var k, c := KeyOf(tag, db, sha), db.docs[sha].caseId;
      var saved := db.(contents := Save(db.contents, Content(sha, c, content.text)));
      if content.degraded then Mark(saved, k, Failed, c)
      else Enqueue(Mark(saved, k, Done, c), Extract(c))
  }

  /** `extract_case`: an empty case returns before claiming. */
  function ExtractTx(db: Db, caseId: nat, minted: set<string>, governed: map<string, string>): Db {
    var k := ExtractKey(CaseText(db, caseId), minted);
    if caseId !in db.cases || Blank(CaseText(db, caseId)) || IsDone(db, k) then db
    else
      var written := db.(cases := db.cases[caseId := db.cases[caseId].(extracted := true, governed := governed)]);
      Enqueue(Enqueue(Mark(written, k, Done, caseId), Elicit(caseId)), Rules(caseId))
  }

  /** What a run of the elicit stage finds out besides the case row. */
  datatype Lookup = Lookup(resolved: bool, confirmation: string, attested: bool)

  function TurnOf(row: CaseRow, look: Lookup): Elicitation.Turn {
    Elicitation.Turn(row.governed, look.resolved, look.confirmation, look.attested)
  }

  /** `elicit_case`: the machine's turn on the current values, with the dispatch job of its question. */
  function ElicitTx(db: Db, caseId: nat, look: Lookup): Db {
    if caseId !in db.cases then db
    else
      var row := db.cases[caseId];
      var k := ElicitKey(caseId, row.governed);
      if Elicitation.HandedOff(row.state) || IsDone(db, k) then db
      else
        var (v, q) := Elicitation.Elicit(CaseOf(db, caseId), TurnOf(row, look));
        var asked := row.(state := v.state, questionCount := v.questionCount, anchorAsked := v.anchorAsked, pending := v.pending);
        var decided := Mark(db.(cases := db.cases[caseId := asked]), k, Done, caseId);
        if q.Some? then Enqueue(decided, Dispatch(caseId)) else decided
  }

  /** `decide_case`. */
  function RulesTx(db: Db, caseId: nat, arc: string): Db {
    if caseId !in db.cases then db
    else
      var inputs := InputsOf(db.cases[caseId].governed, arc);
      var k := RulesKey(caseId, inputs);
      if IsDone(db, k) then db
      else Mark(db.(cases := db.cases[caseId := db.cases[caseId].(decision := Some(inputs))]), k, Done, caseId)
  }

  /** `dispatch_case_question`, when the channel takes the message; a send that fails raises. */
  function DispatchTx(db: Db, caseId: nat): Db {
    if caseId !in db.cases then db
    else
      var row := db.cases[caseId];
      db.(cases := db.cases[caseId := row.(sent := Elicitation.Dispatch(CaseOf(db, caseId), row.reachable, true).sent)])
  }

  /** The oracle answers a run of any task may need. */
  datatype Outcome = Outcome(content: Normalised, minted: set<string>, governed: map<string, string>, look: Lookup, arc: string)

  function TaskTx(tag: Tagging, db: Db, task: Task, o: Outcome): Db {
    match task
    case Normalise(sha) => NormaliseTx(tag, db, sha, o.content)
    case Extract(c) => ExtractTx(db, c, o.minted, o.governed)
    case Elicit(c) => ElicitTx(db, c, o.look)
    case Rules(c) => RulesTx(db, c, o.arc)
    case Dispatch(c) => DispatchTx(db, c)
  }

  // ---- steps ------------------------------------------------------------------------------

  datatype Step =
    | Arrive(newCases: map<nat, bool>, items: seq<Item>)   // an ingest transaction commits
    | Rescan(caseId: nat)                             // a schema scan defers a re-extraction
    | Review(caseId: nat, commits: bool)              // the reviewer commits a case or takes that back
    | Fetch(job: nat)                                 // a worker takes the job
    | Commit(job: nat, outcome: Outcome)              // the task's transaction commits
    | Finish(job: nat)                                // the worker reports success
    | Raise(job: nat, stampWorks: bool)               // the task raises; its transaction is rolled back
    | Reset(job: nat)                                 // the worker died, and a later one reaps the job

  /** The case behind a task whose exhaustion stamps it; dispatch and rules tasks stamp nothing. */
  function StampedCase(db: Db, task: Task): Option<nat> {
    match task
    case Normalise(sha) => if sha in db.docs then Some(db.docs[sha].caseId) else None
    case Extract(c) => Some(c)
    case Elicit(c) => Some(c)
    case _ => None
  }

  /** `fail_case_processing`: only a case still in flight is stamped. */
  function Stamp(db: Db, c: nat): Db {
    if c in db.cases && InFlight(db.cases[c].state) then SetState(db, c, Elicitation.ProcessingFailed) else db
  }

  predicate InFlight(state: Elicitation.State) {
    state == Elicitation.Created || state == Elicitation.Incomplete
  }

  function SetState(db: Db, c: nat, state: Elicitation.State): Db
    requires c in db.cases
  {
    db.(cases := db.cases[c := db.cases[c].(state := state)])
  }

  function SetStatus(db: Db, j: nat, s: JobStatus): Db
    requires j in db.jobs
  {
    db.(jobs := db.jobs[j := db.jobs[j].(status := s)])
  }

  /** The retry decision, and the stamp when no retry is coming. */
  function Fail(db: Db, j: nat, stampWorks: bool): Db
    requires j in db.jobs
  {
    var job := db.jobs[j];
    if job.attempts + 1 < MAX_ATTEMPTS then db.(jobs := db.jobs[j := Job(job.task, Todo, job.attempts + 1)])
    else StampAfter(db.(jobs := db.jobs[j := Job(job.task, Exhausted, job.attempts + 1)]), job.task, stampWorks)
  }

  /** `_fail_case_if_terminal` once no retry is coming; marking the case is best-effort. */
  function StampAfter(db: Db, task: Task, stampWorks: bool): Db {
    var c := StampedCase(db, task);
    if c.Some? && stampWorks then Stamp(db, c.value) else db
  }

  /** A step that cannot happen changes nothing. */
  function Apply(tag: Tagging, db: Db, step: Step): Db {
    match step
    case Arrive(cases, items) => Ingest(db, cases, items)
    case Rescan(c) => if c in db.cases then Enqueue(db, Extract(c)) else db
    case Review(c, commits) =>
      if c !in db.cases then db
      else if commits then SetState(db, c, Elicitation.Committed)
      else if db.cases[c].state == Elicitation.Committed then SetState(db, c, Elicitation.InReview)
      else db
    case Fetch(j) => if j in db.jobs && db.jobs[j].status == Todo then SetStatus(db, j, Doing(false)) else db
    case Commit(j, o) =>
      if j in db.jobs && db.jobs[j].status == Doing(false) then TaskTx(tag, SetStatus(db, j, Doing(true)), db.jobs[j].task, o) else db
    case Finish(j) => if j in db.jobs && db.jobs[j].status == Doing(true) then SetStatus(db, j, Succeeded) else db
    case Raise(j, ok) => if j in db.jobs && db.jobs[j].status.Doing? then Fail(db, j, ok) else db
    case Reset(j) => if j in db.jobs && db.jobs[j].status.Doing? then SetStatus(db, j, Todo) else db
  }

  function From(tag: Tagging, db: Db, steps: seq<Step>): Db {
    if steps == [] then db else Apply(tag, From(tag, db, steps[..|steps| - 1]), steps[|steps| - 1])
  }

  function Run(tag: Tagging, steps: seq<Step>): Db {
    From(tag, EMPTY, steps)
  }

  // ---- the transactions as written --------------------------------------------------------

  /** The tenant's tables, inside one session. */
  class Session {
    var docs: map<string, Document>
    var cases: map<nat, CaseRow>
    var ledger: map<Key, Entry>
    var contents: seq<Content>
    var jobs: map<nat, Job>
    var nextJob: nat

    function View(): Db
      reads this
    {
      Db(docs, cases, ledger, contents, jobs, nextJob)
    }

    /** `session.rollback`. */
    method Rollback(to: Db)
      modifies this
      ensures View() == to
    {
      docs, cases, ledger, contents, jobs, nextJob := to.docs, to.cases, to.ledger, to.contents, to.jobs, to.nextJob;
    }

    /** `claim_stage`. */
    method ClaimStage(k: Key, caseId: nat) returns (claimed: bool)
      modifies this`ledger
      ensures claimed <==> !IsDone(old(View()), k)
      ensures View() == if claimed then Mark(old(View()), k, Running, caseId) else old(View())
    {
      if k in ledger && ledger[k].status == Done {
        return false;
      }
      ledger := ledger[k := Entry(Running, if k in ledger then ledger[k].caseId else caseId)];
      return true;
    }

    /** `complete_stage` and `fail_stage`. */
    method SetStage(k: Key, status: Status)
      requires k in ledger
      modifies this`ledger
      ensures ledger == old(ledger)[k := Entry(status, old(ledger)[k].caseId)]
    {
      ledger := ledger[k := Entry(status, ledger[k].caseId)];
    }

    /** `defer_in_transaction`. */
    method DeferInTransaction(task: Task)
      modifies this`jobs, this`nextJob
      ensures View() == Enqueue(old(View()), task)
    {
      jobs := jobs[nextJob := Job(task, Todo, 0)];
      nextJob := nextJob + 1;
    }

    /** `normalise_source_document`; no content stands for a blob read or a backend that raises. */
    method NormaliseSourceDocument(tag: Tagging, sha: string, content: Option<Normalised>) returns (ok: bool)
      modifies this
      ensures !ok ==> View() == old(View())
      ensures ok ==> View() == NormaliseTx(tag, old(View()), sha, if content.Some? then content.value else Normalised("", false))
      ensures ok <==> content.Some? || sha !in old(docs) || IsDone(old(View()), KeyOf(tag, old(View()), sha))
    {
      hide Save;
      var before := View();
      if sha !in docs {
        return true;
      }
      var doc := docs[sha];
      var k := NormaliseKey(sha, tag(doc.mime));
      var claimed := ClaimStage(k, doc.caseId);
      if !claimed {
        return true;
      }
      if content.None? {
        Rollback(before);
        return false;
      }
      SaveAndSettle(k, sha, doc.caseId, content.value);
      return true;
    }

    /** The end of the transaction: the text row, and the stage done with its extract job, or failed. */
    method SaveAndSettle(k: Key, sha: string, caseId: nat, content: Normalised)
      requires k in ledger
      modifies this`contents, this`ledger, this`jobs, this`nextJob
      ensures var saved := old(View()).(contents := Save(old(contents), Content(sha, caseId, content.text)));
        View() == if content.degraded then Mark(saved, k, Failed, caseId) else Enqueue(Mark(saved, k, Done, caseId), Extract(caseId))
    {
      hide Save;
      contents := Save(contents, Content(sha, caseId, content.text));
      if content.degraded {
        SetStage(k, Failed);
      } else {
        SetStage(k, Done);
        DeferInTransaction(Extract(caseId));
      }
    }

    /** `extract_case`; no result stands for a model call that raises. */
    method ExtractCase(caseId: nat, minted: set<string>, result: Option<map<string, string>>) returns (ok: bool)
      requires forall i | 0 <= i < |contents| :: contents[i].caseId in cases
      modifies this
      ensures result.Some? ==> ok && View() == ExtractTx(old(View()), caseId, minted, result.value)
      ensures result.None? ==> View() == old(View())
      ensures ok <==> result.Some? || ExtractTx(old(View()), caseId, minted, map[]) == old(View())
    {
      hide Join, Texts, Blank;
      var before := View();
      if caseId !in cases {
        NoRowsNoText(contents, caseId);
      }
      var text := Join(Texts(contents, caseId), "\n");
      if Blank(text) {
        return true;
      }
      var k := ExtractKey(text, minted);
      var claimed := ClaimStage(k, caseId);
      if !claimed {
        return true;
      }
      if result.None? {
        Rollback(before);
        return false;
      }
      WriteAndChain(k, caseId, result.value);
      return true;
    }

    /** The end of the transaction: the values, the stage done, and the two jobs it chains to. */
    method WriteAndChain(k: Key, caseId: nat, governed: map<string, string>)
      requires k in ledger && caseId in cases
      modifies this`cases, this`ledger, this`jobs, this`nextJob
      ensures var written := old(View()).(cases := old(cases)[caseId := old(cases)[caseId].(extracted := true, governed := governed)]);
        View() == Enqueue(Enqueue(Mark(written, k, Done, caseId), Elicit(caseId)), Rules(caseId))
    {
      cases := cases[caseId := cases[caseId].(extracted := true, governed := governed)];
      SetStage(k, Done);
      DeferInTransaction(Elicit(caseId));
      DeferInTransaction(Rules(caseId));
    }

    /** `decide_case`: the deterministic decision on the current signals, once per input. */
    method DecideCase(caseId: nat, arc: string) returns (decided: bool)
      modifies this`cases, this`ledger
      ensures View() == RulesTx(old(View()), caseId, arc)
      ensures decided <==> caseId in cases && !IsDone(old(View()), RulesKey(caseId, InputsOf(old(cases)[caseId].governed, arc)))
    {
      if caseId !in cases {
        return false;
      }
      var inputs := InputsOf(cases[caseId].governed, arc);
      var k := RulesKey(caseId, inputs);
      var claimed := ClaimStage(k, caseId);
      if !claimed {
        return false;
      }
      cases := cases[caseId := cases[caseId].(decision := Some(inputs))];
      SetStage(k, Done);
      return true;
    }
  }
}
