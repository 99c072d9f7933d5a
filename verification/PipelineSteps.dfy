/** What each step of the case pipeline writes, table by table. */
module PipelineSteps {
  // `Pipeline.Session` has the transactions of normalisation, extraction and the rules statement by statement.
  // Here are the arrival, the elicitation and the dispatch, and the steps of the worker and the reviewer.

  import opened Options
  import opened Text
  import opened Pipeline
  import opened PipelineLaws
  import Elicitation

  // ---- an arrival -------------------------------------------------------------------------

  ghost predicate SomeItem(items: seq<Item>, sha: string) {
    exists i :: 0 <= i < |items| && items[i].sha == sha
  }

  /** The item is the first to bring its bytes. */
  ghost predicate Brings(items: seq<Item>, sha: string, d: Document) {
    exists i :: 0 <= i < |items| && items[i].sha == sha && d == Document(items[i].caseId, items[i].mime) && forall j | 0 <= j < i :: items[j].sha != sha
  }

  /** Documents stay; each new one is that of the first item with its bytes. */
  ghost predicate DocumentsArrive(before: map<string, Document>, after: map<string, Document>, items: seq<Item>) {
    (forall sha :: sha in after <==> sha in before || SomeItem(items, sha)) &&
    (forall sha | sha in before :: after[sha] == before[sha]) &&
    forall sha | sha in after && sha !in before :: Brings(items, sha, after[sha])
  }

  predicate IsNew(jobs: map<nat, Job>, j: nat, t: Task) {
    j in jobs && jobs[j] == Job(t, Todo, 0)
  }

  /** Jobs stay, and each item has a new one, in order. */
  predicate JobsArrive(jobs: map<nat, Job>, next: nat, db': Db, items: seq<Item>) {
    db'.nextJob == next + |items| && (forall j | j in jobs && j < next :: j in db'.jobs && db'.jobs[j] == jobs[j]) &&
    (forall i | 0 <= i < |items| :: IsNew(db'.jobs, next + i, Normalise(items[i].sha))) &&
    forall j | j in db'.jobs :: j in jobs || next <= j < db'.nextJob
  }

  lemma BringsMore(items: seq<Item>, item: Item, sha: string, d: Document)
    requires Brings(items, sha, d)
    ensures Brings(items + [item], sha, d)
  {
    var i :| 0 <= i < |items| && items[i].sha == sha && d == Document(items[i].caseId, items[i].mime) && forall j | 0 <= j < i :: items[j].sha != sha;
    var all := items + [item];
    assert all[i] == items[i] && forall j | 0 <= j < i :: all[j] == items[j];
  }

  lemma BringsIts(items: seq<Item>, item: Item)
    requires forall i | 0 <= i < |items| :: items[i].sha != item.sha
    ensures Brings(items + [item], item.sha, Document(item.caseId, item.mime))
  {
    var all := items + [item];
    assert all[|items|] == item;
    assert forall j | 0 <= j < |items| :: all[j] == items[j];
  }

  lemma SomeItemMore(items: seq<Item>, item: Item, sha: string)
    ensures SomeItem(items + [item], sha) <==> SomeItem(items, sha) || item.sha == sha
  {
    var all := items + [item];
    assert all[|items|] == item;
    if i :| 0 <= i < |items| && items[i].sha == sha {
      assert all[i].sha == sha;
    }
  }

  lemma DocumentsArriveMore(db: Db, mid: Db, items: seq<Item>, item: Item)
    requires DocumentsArrive(db.docs, mid.docs, items)
    ensures DocumentsArrive(db.docs, Store(mid, item).docs, items + [item])
  {
    hide Brings;
    var after, all := Store(mid, item).docs, items + [item];
    forall sha ensures SomeItem(all, sha) <==> SomeItem(items, sha) || item.sha == sha {
      SomeItemMore(items, item, sha);
    }
    hide SomeItem;
    forall sha | sha in after && sha !in db.docs ensures Brings(all, sha, after[sha]) {
      if sha in mid.docs {
        BringsMore(items, item, sha, mid.docs[sha]);
      } else {
        NotSomeItem(items, sha);
        BringsIts(items, item);
      }
    }
  }

  lemma NotSomeItem(items: seq<Item>, sha: string)
    requires !SomeItem(items, sha)
    ensures forall i | 0 <= i < |items| :: items[i].sha != sha
  {}

  lemma NothingArrives(db: Db)
    ensures DocumentsArrive(db.docs, db.docs, []) && JobsArrive(db.jobs, db.nextJob, db, [])
  {}

  lemma JobsArriveMore(db: Db, mid: Db, items: seq<Item>, item: Item)
    requires JobsArrive(db.jobs, db.nextJob, mid, items)
    ensures JobsArrive(db.jobs, db.nextJob, Store(mid, item), items + [item])
  {
    var all, after := items + [item], Store(mid, item).jobs;
    forall i | 0 <= i < |all| ensures IsNew(after, db.nextJob + i, Normalise(all[i].sha)) {
      if i < |items| {
        assert all[i] == items[i] && IsNew(mid.jobs, db.nextJob + i, Normalise(items[i].sha));
      }
    }
  }

  lemma {:induction false} StoreAllArrives(db: Db, items: seq<Item>)
    ensures var db' := StoreAll(db, items);
      DocumentsArrive(db.docs, db'.docs, items) && JobsArrive(db.jobs, db.nextJob, db', items) &&
      db'.cases == db.cases && db'.ledger == db.ledger && db'.contents == db.contents
  {
    if items == [] {
      NothingArrives(db);
    } else {
      hide DocumentsArrive, JobsArrive;
      var front, item := items[..|items| - 1], items[|items| - 1];
      StoreAllArrives(db, front);
      JobsArriveMore(db, StoreAll(db, front), front, item);
      DocumentsArriveMore(db, StoreAll(db, front), front, item);
      assert front + [item] == items;
    }
  }

  /** An arrival is refused whole if an item is for a case that is neither known nor new. Otherwise new cases
      start fresh, known ones stay, bytes that the tenant holds keep their document, and every item is queued
      for normalisation; nothing else changes. */
  lemma ArrivalExactly(tag: Tagging, db: Db, newCases: map<nat, bool>, items: seq<Item>)
    ensures var db' := Apply(tag, db, Arrive(newCases, items));
      if exists i :: 0 <= i < |items| && items[i].caseId !in db.cases && items[i].caseId !in newCases then db' == db
      else
        db'.cases.Keys == db.cases.Keys + newCases.Keys && (forall c | c in db.cases :: db'.cases[c] == db.cases[c]) &&
        (forall c | c in newCases && c !in db.cases ::
          db'.cases[c] == CaseRow(Elicitation.Created, 0, false, None, [], newCases[c], false, map[], None)) &&
        DocumentsArrive(db.docs, db'.docs, items) && JobsArrive(db.jobs, db.nextJob, db', items) && db'.ledger == db.ledger && db'.contents == db.contents
  {
    hide DocumentsArrive, JobsArrive, StoreAll;
    var mid := WithCases(db, newCases);
    StoreAllArrives(mid, items);
  }

  // ---- an elicitation and a dispatch ------------------------------------------------------

  /** The values a case was elicited on are those of its done elicitation keys. */
  lemma ElicitedExactlyWhen(ledger: map<Key, Entry>, c: nat, governed: map<string, string>)
    ensures governed in Elicited(ledger, c) <==> ElicitKey(c, governed) in ledger && ledger[ElicitKey(c, governed)].status == Done
  {
    if governed in Elicited(ledger, c) {
      var k :| k in ledger && k.ElicitKey? && k.caseId == c && ledger[k].status == Done && k.governed == governed;
      assert k == ElicitKey(c, governed);
    }
  }

  /** A committed elicitation writes what the turn of `Elicitation` leaves to the case's row and to no other,
      marks the values as elicited, and queues a dispatch exactly if a question was issued. */
  lemma ElicitationExactly(tag: Tagging, db: Db, c: nat, o: Outcome)
    requires c in db.cases
    ensures var row := db.cases[c];
      var view := Elicitation.Case(row.state, row.questionCount, row.anchorAsked, row.pending, Elicited(db.ledger, c), row.sent);
      var (v, q) := Elicitation.Elicit(view, Elicitation.Turn(row.governed, o.look.resolved, o.look.confirmation, o.look.attested));
      var db', k := TaskTx(tag, db, Elicit(c), o), ElicitKey(c, row.governed);
      if Elicitation.HandedOff(row.state) || IsDone(db, k) then db' == db
      else
        db'.docs == db.docs && db'.contents == db.contents && db'.cases.Keys == db.cases.Keys &&
        (forall d | d in db.cases && d != c :: db'.cases[d] == db.cases[d]) &&
        db'.cases[c] == row.(state := v.state, questionCount := v.questionCount, anchorAsked := v.anchorAsked, pending := v.pending) &&
        IsDone(db', k) && (forall l | l != k :: l in db'.ledger <==> l in db.ledger) && (forall l | l in db.ledger && l != k :: db'.ledger[l] == db.ledger[l]) &&
        (if q.None? then db'.jobs == db.jobs && db'.nextJob == db.nextJob
         else db'.jobs == db.jobs[db.nextJob := Job(Dispatch(c), Todo, 0)] && db'.nextJob == db.nextJob + 1)
  {
    hide Elicitation.Elicit, Elicited;
    var row := db.cases[c];
    var view := Elicitation.Case(row.state, row.questionCount, row.anchorAsked, row.pending, Elicited(db.ledger, c), row.sent);
    assert view == CaseOf(db, c) && TurnOf(row, o.look) == Elicitation.Turn(row.governed, o.look.resolved, o.look.confirmation, o.look.attested);
    var q := Elicitation.Elicit(view, TurnOf(row, o.look)).1;
    assert q.None? || q.Some?;
  }

  /** A committed dispatch sends the open question of a case with a recipient, unless that text was sent, and
      changes nothing else. */
  lemma DispatchExactly(tag: Tagging, db: Db, c: nat, o: Outcome)
    requires c in db.cases
    ensures var row, db' := db.cases[c], TaskTx(tag, db, Dispatch(c), o);
      var sends := row.state == Elicitation.Incomplete && row.pending.Some? && row.reachable && row.pending.value !in row.sent;
      db' == if sends then db.(cases := db.cases[c := row.(sent := row.sent + [row.pending.value])]) else db
  {
    hide Elicited;
    assert db.cases[c := db.cases[c].(sent := db.cases[c].sent)] == db.cases;
  }

  /** The rules stage reads the category and the severity as they are, absent or not. */
  lemma InputsAreRead(governed: map<string, string>, arc: string)
    ensures var i := InputsOf(governed, arc);
      i.arc == arc && (i.category.Some? <==> "category" in governed) && (i.severity.Some? <==> "severity_signal" in governed) &&
      (i.category.Some? ==> i.category.value == governed["category"]) && (i.severity.Some? ==> i.severity.value == governed["severity_signal"])
  {}

  // ---- the worker and the reviewer --------------------------------------------------------

  /** The steps that are not transactions touch one job row each: a fetch takes a waiting job, a finish reports
      a committed one, a reset puts a running one back, and an exception puts it back with one attempt more, or
      gives it up at the fourth. */
  lemma JobStepsExactly(tag: Tagging, db: Db, j: nat, stampWorks: bool)
    requires j in db.jobs
    ensures var job, running := db.jobs[j], db.jobs[j].status.Doing?;
      Apply(tag, db, Fetch(j)) == (if job.status == Todo then db.(jobs := db.jobs[j := Job(job.task, Doing(false), job.attempts)]) else db) &&
      Apply(tag, db, Finish(j)) == (if job.status == Doing(true) then db.(jobs := db.jobs[j := Job(job.task, Succeeded, job.attempts)]) else db) &&
      Apply(tag, db, Reset(j)) == (if running then db.(jobs := db.jobs[j := Job(job.task, Todo, job.attempts)]) else db) &&
      Apply(tag, db, Raise(j, stampWorks)).jobs ==
        (if running then db.jobs[j := Job(job.task, if job.attempts < 3 then Todo else Exhausted, job.attempts + 1)] else db.jobs) &&
      (running && job.attempts < 3 ==> Apply(tag, db, Raise(j, stampWorks)) == db.(jobs := db.jobs[j := Job(job.task, Todo, job.attempts + 1)]))
  {}

  /** A commit of a fetched job marks it committed and is its task's transaction. */
  lemma CommitExactly(tag: Tagging, db: Db, j: nat, o: Outcome)
    requires j in db.jobs
    ensures Apply(tag, db, Commit(j, o)) ==
      if db.jobs[j].status == Doing(false) then TaskTx(tag, db.(jobs := db.jobs[j := Job(db.jobs[j].task, Doing(true), db.jobs[j].attempts)]), db.jobs[j].task, o) else db
  {
    hide TaskTx;
  }

  /** A rescan queues an extraction of a known case; the reviewer commits a case, or takes a commit back into
      review. */
  lemma OperatorStepsExactly(tag: Tagging, db: Db, c: nat)
    requires c in db.cases
    ensures Apply(tag, db, Rescan(c)) == db.(jobs := db.jobs[db.nextJob := Job(Extract(c), Todo, 0)], nextJob := db.nextJob + 1)
    ensures Apply(tag, db, Review(c, true)) == db.(cases := db.cases[c := db.cases[c].(state := Elicitation.Committed)])
    ensures Apply(tag, db, Review(c, false)) ==
      if db.cases[c].state == Elicitation.Committed then db.(cases := db.cases[c := db.cases[c].(state := Elicitation.InReview)]) else db
  {}
}
