/** The text rows of the case pipeline: one for each document, and what a case's text is made of. */
module PipelineTexts {
  // `save_normalised_content` and `get_case_normalised_text` of engine/app/store/api.py. The upsert's key names
  // the normaliser as well, which a document's media type settles.

  import opened Options
  import opened Text
  import opened Pipeline
  import opened PipelineLaws
  import opened PipelineFailures
  import opened PipelineChains
  import opened Select
  import Elicitation

  // ---- one row for each document ----------------------------------------------------------

  ghost predicate OneRowEach(contents: seq<Content>) {
    forall i, j | 0 <= i < j < |contents| :: contents[i].doc != contents[j].doc
  }

  /** The row takes the place of its document's row, or the end if the document has none; the others stay. */
  ghost predicate Puts(before: seq<Content>, after: seq<Content>, row: Content) {
    (forall i | 0 <= i < |before| && before[i].doc == row.doc :: after == before[i := row]) &&
    ((forall i | 0 <= i < |before| :: before[i].doc != row.doc) ==> after == before + [row])
  }

  lemma {:induction false} SavePuts(contents: seq<Content>, c: Content)
    requires OneRowEach(contents)
    ensures Puts(contents, Save(contents, c), c)
  {
    if contents == [] {
    } else if contents[0].doc == c.doc {
      assert [c] + contents[1..] == contents[0 := c];
    } else {
      SavePuts(contents[1..], c);
      var r := Save(contents[1..], c);
      forall i | 0 <= i < |contents| && contents[i].doc == c.doc ensures Save(contents, c) == contents[i := c] {
        assert contents[1..][i - 1].doc == c.doc;
        assert [contents[0]] + r == contents[i := c];
      }
      if forall i | 0 <= i < |contents| :: contents[i].doc != c.doc {
        assert forall i | 0 <= i < |contents[1..]| :: contents[1..][i] == contents[i + 1];
        assert [contents[0]] + (contents[1..] + [c]) == contents + [c];
      }
    }
  }

  lemma PutKeepsOneRowEach(before: seq<Content>, after: seq<Content>, row: Content)
    requires OneRowEach(before) && Puts(before, after, row)
    ensures OneRowEach(after)
  {
    if i :| 0 <= i < |before| && before[i].doc == row.doc {
      assert after == before[i := row];
    }
  }

  /** A normalisation that works leaves its document exactly the one new row, in the place of the old one if
      there was one, and every other row where it was. */
  lemma NormaliseReplacesTheRow(tag: Tagging, db: Db, sha: string, content: Normalised)
    requires OneRowEach(db.contents) && sha in db.docs && !IsDone(db, KeyOf(tag, db, sha))
    ensures var db', row := NormaliseTx(tag, db, sha, content), Content(sha, db.docs[sha].caseId, content.text);
      Puts(db.contents, db'.contents, row) && OneRowEach(db'.contents) && row in db'.contents &&
      forall r | r in db'.contents && r.doc == sha :: r == row
  {
    hide Save;
    var db', row := NormaliseTx(tag, db, sha, content), Content(sha, db.docs[sha].caseId, content.text);
    SavePuts(db.contents, row);
    SaveHolds(db.contents, row);
    PutKeepsOneRowEach(db.contents, db'.contents, row);
  }

  lemma TaskTxOneRowEach(tag: Tagging, db: Db, task: Task, o: Outcome)
    requires OneRowEach(db.contents)
    ensures OneRowEach(TaskTx(tag, db, task, o).contents)
  {
    hide CaseText, Save, Blank, Elicitation.HandedOff, Elicitation.Elicit, Elicitation.Dispatch, InputsOf, Elicited, OneRowEach;
    if task.Normalise? && task.doc in db.docs && !IsDone(db, KeyOf(tag, db, task.doc)) {
      NormaliseReplacesTheRow(tag, db, task.doc, o.content);
    }
  }

  lemma StepOneRowEach(tag: Tagging, db: Db, step: Step)
    requires OneRowEach(db.contents)
    ensures OneRowEach(Apply(tag, db, step).contents)
  {
    hide TaskTx, StoreAll, OneRowEach;
    match step
    case Arrive(newCases, items) => StoreAllSameLedger(WithCases(db, newCases), items);
    case Commit(j, o) =>
      if j in db.jobs && db.jobs[j].status == Doing(false) {
        TaskTxOneRowEach(tag, SetStatus(db, j, Doing(true)), db.jobs[j].task, o);
      }
    case _ =>
  }

  /** Over every run no document has two rows. */
  lemma {:induction false} EveryDocumentHasOneText(tag: Tagging, steps: seq<Step>)
    ensures OneRowEach(Run(tag, steps).contents)
  {
    hide Apply;
    if steps != [] {
      EveryDocumentHasOneText(tag, steps[..|steps| - 1]);
      StepOneRowEach(tag, Run(tag, steps[..|steps| - 1]), steps[|steps| - 1]);
    }
  }

  /** So a poor text is gone once a later run does better. */
  lemma BetterReplacesPoor(tag: Tagging, steps: seq<Step>, sha: string, poor: string, better: string)
    requires var db := Run(tag, steps); sha in db.docs && !IsDone(db, KeyOf(tag, db, sha))
    ensures var db := Run(tag, steps);
      var db' := NormaliseTx(tag, NormaliseTx(tag, db, sha, Normalised(poor, true)), sha, Normalised(better, false));
      forall r | r in db'.contents && r.doc == sha :: r.text == better
  {
    hide Run, NormaliseTx;
    var db := Run(tag, steps);
    EveryDocumentHasOneText(tag, steps);
    NormaliseReplacesTheRow(tag, db, sha, Normalised(poor, true));
    NormaliseIsStillDue(tag, db, sha, poor);
    NormaliseReplacesTheRow(tag, NormaliseTx(tag, db, sha, Normalised(poor, true)), sha, Normalised(better, false));
  }

  lemma NormaliseIsStillDue(tag: Tagging, db: Db, sha: string, poor: string)
    requires sha in db.docs && !IsDone(db, KeyOf(tag, db, sha))
    ensures var db' := NormaliseTx(tag, db, sha, Normalised(poor, true)); sha in db'.docs && !IsDone(db', KeyOf(tag, db', sha))
  {
    hide Save;
  }

  // ---- the text of a case -----------------------------------------------------------------

  /** What extraction reads are the nonempty texts of the case's documents, all of them and nothing else, in
      the order of their rows. */
  lemma {:induction false} TextsAreTheRows(contents: seq<Content>, c: nat)
    ensures Selected(contents, (x: Content) => x.caseId == c && x.text != "", (x: Content) => x.text, Texts(contents, c))
  {
    var keep, f := (x: Content) => x.caseId == c && x.text != "", (x: Content) => x.text;
    hide Selected;
    if contents == [] {
      NothingSelected(keep, f);
    } else {
      TextsAreTheRows(contents[1..], c);
      SelectedMore(contents, keep, f, Texts(contents[1..], c));
    }
  }

  /** And they stand one after another, with one line break between two. */
  lemma CaseTextIsTheTexts(db: Db, c: nat, i: nat)
    requires i < |Texts(db.contents, c)|
    ensures var texts, whole := Texts(db.contents, c), CaseText(db, c); var o := Offset(texts, "\n", i);
      o + |texts[i]| <= |whole| && whole[o..o + |texts[i]|] == texts[i] &&
      (i + 1 < |texts| ==> o + |texts[i]| < |whole| && whole[o + |texts[i]|] == '\n')
  {
    hide Texts, Join, Offset;
    var texts := Texts(db.contents, c);
    JoinAt(texts, "\n", i);
    if i + 1 < |texts| {
      JoinBetween(texts, "\n", i);
      var whole, o := Join(texts, "\n"), Offset(texts, "\n", i) + |texts[i]|;
      assert |"\n"| == 1 && whole[o..o + 1] == "\n";
      assert whole[o] == whole[o..o + 1][0] == '\n';
    }
  }
}
