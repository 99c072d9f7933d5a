/** What the case pipeline makes of one case. */
module PipelineCases {
  import opened Options
  import opened Order
  import opened Text
  import opened Pipeline
  import opened PipelineLaws
  import opened PipelineFailures
  import Elicitation

  // ---- every run is a run of the elicitation machine --------------------------------------

  ghost predicate SameElicitKeys(before: map<Key, Entry>, after: map<Key, Entry>, c: nat) {
    forall g :: (ElicitKey(c, g) in before && before[ElicitKey(c, g)].status == Done) <==> (ElicitKey(c, g) in after && after[ElicitKey(c, g)].status == Done)
  }

  lemma SameElicited(before: map<Key, Entry>, after: map<Key, Entry>, c: nat)
    requires SameElicitKeys(before, after, c)
    ensures Elicited(before, c) == Elicited(after, c)
  {
    forall g ensures g in Elicited(before, c) <==> g in Elicited(after, c) {
      ElicitedWhen(before, c, g);
      ElicitedWhen(after, c, g);
    }
  }

  lemma ElicitedWhen(ledger: map<Key, Entry>, c: nat, g: map<string, string>)
    ensures g in Elicited(ledger, c) <==> ElicitKey(c, g) in ledger && ledger[ElicitKey(c, g)].status == Done
  {
    if ElicitKey(c, g) in ledger && ledger[ElicitKey(c, g)].status == Done {
      assert ElicitKey(c, g).governed in Elicited(ledger, c);
    }
  }

  /** The case made this move, or none. */
  ghost predicate Moved(before: Elicitation.Case, after: Elicitation.Case) {
    after == before || exists e :: after == Elicitation.Next(before, e).0
  }

  lemma MoveBy(before: Elicitation.Case, e: Elicitation.Event)
    ensures Moved(before, Elicitation.Next(before, e).0)
  {}

  lemma ElicitTxIsAReply(db: Db, c: nat, look: Lookup)
    requires c in db.cases
    ensures var db' := ElicitTx(db, c, look); c in db'.cases && CaseOf(db', c) == Elicitation.Elicit(CaseOf(db, c), TurnOf(db.cases[c], look)).0
  {
    hide Elicitation.Decide, Elicitation.SituationOf;
    var g, db' := db.cases[c].governed, ElicitTx(db, c, look);
    ElicitedExactlyWhenDone(db, c, g);
    if !Elicitation.HandedOff(db.cases[c].state) && !IsDone(db, ElicitKey(c, g)) {
      ElicitAdds(db.ledger, db'.ledger, c, g);
    }
  }

  lemma ElicitAdds(before: map<Key, Entry>, after: map<Key, Entry>, c: nat, g: map<string, string>)
    requires ElicitKey(c, g) in after && after == before[ElicitKey(c, g) := after[ElicitKey(c, g)]] && after[ElicitKey(c, g)].status == Done
    ensures Elicited(after, c) == Elicited(before, c) + {g}
  {
    forall h ensures h in Elicited(after, c) <==> h in Elicited(before, c) + {g} {
      ElicitedWhen(before, c, h);
      ElicitedWhen(after, c, h);
    }
  }

  lemma DispatchTxIsASend(db: Db, c: nat)
    requires c in db.cases
    ensures var db' := DispatchTx(db, c); c in db'.cases && CaseOf(db', c) == Elicitation.Dispatch(CaseOf(db, c), db.cases[c].reachable, true)
  {
    hide Elicited;
  }

  lemma OtherTxSparesTheRow(tag: Tagging, db: Db, task: Task, o: Outcome, c: nat)
    requires c in db.cases && task != Elicit(c) && task != Dispatch(c)
    ensures var db' := TaskTx(tag, db, task, o);
      c in db'.cases && db'.cases[c] == db.cases[c].(extracted := db'.cases[c].extracted, governed := db'.cases[c].governed, decision := db'.cases[c].decision)
  {
    hide CaseText, Save, Blank, Elicitation.HandedOff, Elicitation.Elicit, Elicitation.Dispatch, InputsOf, Elicited, IsDone;
  }

  lemma OtherTxSparesTheKeys(tag: Tagging, db: Db, task: Task, o: Outcome, c: nat)
    requires task != Elicit(c)
    ensures SameElicitKeys(db.ledger, TaskTx(tag, db, task, o).ledger, c)
  {
    hide CaseText, Save, Blank, Elicitation.HandedOff, Elicitation.Elicit, Elicitation.Dispatch, InputsOf, Elicited;
  }

  /** The other transactions leave the machine's view of the case alone. */
  lemma OtherTxMovesNothing(tag: Tagging, db: Db, task: Task, o: Outcome, c: nat)
    requires c in db.cases && task != Elicit(c) && task != Dispatch(c)
    ensures var db' := TaskTx(tag, db, task, o); c in db'.cases && CaseOf(db', c) == CaseOf(db, c)
  {
    hide TaskTx, Elicited, SameElicitKeys;
    OtherTxSparesTheRow(tag, db, task, o, c);
    OtherTxSparesTheKeys(tag, db, task, o, c);
    SameElicited(db.ledger, TaskTx(tag, db, task, o).ledger, c);
  }

  lemma TaskTxIsAMove(tag: Tagging, db: Db, task: Task, o: Outcome, c: nat)
    requires c in db.cases
    ensures var db' := TaskTx(tag, db, task, o); c in db'.cases && Moved(CaseOf(db, c), CaseOf(db', c))
  {
    hide NormaliseTx, ExtractTx, ElicitTx, RulesTx, DispatchTx, CaseOf, Moved;
    if task == Elicit(c) {
      ElicitTxIsAReply(db, c, o.look);
      MoveBy(CaseOf(db, c), Elicitation.Reply(TurnOf(db.cases[c], o.look)));
    } else if task == Dispatch(c) {
      DispatchTxIsASend(db, c);
      MoveBy(CaseOf(db, c), Elicitation.Send(db.cases[c].reachable, true));
    } else {
      OtherTxMovesNothing(tag, db, task, o, c);
      Stays(CaseOf(db, c));
    }
  }

  lemma Stays(v: Elicitation.Case)
    ensures Moved(v, v)
  {}

  lemma FailIsAMove(db: Db, j: nat, stampWorks: bool, c: nat)
    requires c in db.cases && j in db.jobs
    ensures var db' := Fail(db, j, stampWorks); c in db'.cases && Moved(CaseOf(db, c), CaseOf(db', c))
  {
    hide Elicited, Moved;
    Stays(CaseOf(db, c));
    MoveBy(CaseOf(db, c), Elicitation.Event.Exhausted);
  }

  lemma ReviewIsAMove(tag: Tagging, db: Db, d: nat, commits: bool, c: nat)
    requires c in db.cases
    ensures var db' := Apply(tag, db, Review(d, commits)); c in db'.cases && Moved(CaseOf(db, c), CaseOf(db', c))
  {
    hide Elicited, Moved;
    Stays(CaseOf(db, c));
    MoveBy(CaseOf(db, c), if commits then Elicitation.Event.Commit else Elicitation.Uncommit);
  }

  lemma StepIsAMove(tag: Tagging, db: Db, step: Step, c: nat)
    requires c in db.cases
    ensures var db' := Apply(tag, db, step); c in db'.cases && Moved(CaseOf(db, c), CaseOf(db', c))
  {
    if step.Review? {
      hide Apply, Moved;
      ReviewIsAMove(tag, db, step.caseId, step.commits, c);
    } else {
      hide TaskTx, StoreAll, Elicited, Moved, Fail;
      Stays(CaseOf(db, c));
      match step
      case Arrive(newCases, items) => StoreAllSameLedger(WithCases(db, newCases), items);
      case Commit(j, o) =>
        if j in db.jobs && db.jobs[j].status == Doing(false) {
          TaskTxIsAMove(tag, SetStatus(db, j, Doing(true)), db.jobs[j].task, o, c);
        }
      case Raise(j, ok) =>
        if j in db.jobs {
          FailIsAMove(db, j, ok, c);
        }
      case _ =>
    }
  }

  lemma NewCaseIsFresh(tag: Tagging, db: Db, step: Step, c: nat)
    requires AllChained(db) && c !in db.cases && c in Apply(tag, db, step).cases
    ensures CaseOf(Apply(tag, db, step), c) == Elicitation.FRESH
  {
    hide TaskTx, StoreAll, Elicited;
    match step
    case Arrive(newCases, items) =>
      StoreAllSameLedger(WithCases(db, newCases), items);
      forall g ensures g !in Elicited(db.ledger, c) {
        ElicitedWhen(db.ledger, c, g);
        assert Chained(db, ElicitKey(c, g));
      }
      assert Elicited(db.ledger, c) == {};
    case Commit(j, o) =>
      if j in db.jobs && db.jobs[j].status == Doing(false) {
        TaskTxSameCases(tag, SetStatus(db, j, Doing(true)), db.jobs[j].task, o);
      }
    case _ =>
  }

  ghost predicate IsARun(v: Elicitation.Case) {
    exists events :: v == Elicitation.After(Elicitation.FRESH, events)
  }

  lemma NoEvents()
    ensures IsARun(Elicitation.FRESH)
  {
    assert Elicitation.After(Elicitation.FRESH, []) == Elicitation.FRESH;
  }

  lemma OneMoreMove(before: Elicitation.Case, after: Elicitation.Case)
    requires IsARun(before) && Moved(before, after)
    ensures IsARun(after)
  {
    hide Elicitation.Next;
    var events :| before == Elicitation.After(Elicitation.FRESH, events);
    if after != before {
      var e :| after == Elicitation.Next(before, e).0;
      assert (events + [e])[..|events|] == events;
      assert Elicitation.After(Elicitation.FRESH, events + [e]) == after;
    }
  }

  /** In every run of the pipeline, what happens to a case is a run of the elicitation machine. */
  lemma {:induction false} EveryCaseIsARunOfElicitation(tag: Tagging, steps: seq<Step>, c: nat)
    requires c in Run(tag, steps).cases
    ensures IsARun(CaseOf(Run(tag, steps), c))
  {
    hide Apply, CaseOf, IsARun, Invariant;
    if steps != [] {
      var front := steps[..|steps| - 1];
      var db := Run(tag, front);
      if c in db.cases {
        EveryCaseIsARunOfElicitation(tag, front, c);
        StepIsAMove(tag, db, steps[|steps| - 1], c);
        OneMoreMove(CaseOf(db, c), CaseOf(Run(tag, steps), c));
      } else {
        RunIsChained(tag, front);
        NewCaseIsFresh(tag, db, steps[|steps| - 1], c);
        NoEvents();
      }
    }
  }

  lemma RunIsChained(tag: Tagging, steps: seq<Step>)
    ensures AllChained(Run(tag, steps))
  {
    EveryRunKeeps(tag, steps);
  }

  /** So over every run of the whole pipeline, crashes, retries and reaps included, a customer is asked at
      most three questions and sent at most as many messages, none of them twice. */
  lemma CustomersAreAskedAtMostThrice(tag: Tagging, steps: seq<Step>, c: nat)
    requires c in Run(tag, steps).cases
    ensures var row := Run(tag, steps).cases[c];
      |row.sent| <= row.questionCount <= Elicitation.TOTAL_CAP && NoRepeats(row.sent)
  {
    hide Run;
    EveryCaseIsARunOfElicitation(tag, steps, c);
    var events :| CaseOf(Run(tag, steps), c) == Elicitation.After(Elicitation.FRESH, events);
    Elicitation.AtMostThreeMessages(events);
    Elicitation.NothingIsSentTwice(events);
  }
}
