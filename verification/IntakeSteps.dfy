/** One message of an ingest, step by step. */
module IntakeSteps {
  // What the windowing looks at, where a message goes, and what it stores; engine/app/intake/ingest.py and the
  // two statements of engine/app/store/api.py behind it.

  import opened Options
  import opened Order
  import opened Select
  import opened Intake

  // ---- the prior case ---------------------------------------------------------------------

  /** The activity of a case is the latest of its first contact and of what its documents say. */
  lemma {:induction false} LastReceivedIsTheLatest(docs: seq<Document>, c: nat, since: int)
    ensures var t := LastReceived(docs, c, since);
      t >= since && (forall i | 0 <= i < |docs| && docs[i].case_ == c :: t >= docs[i].received) &&
      (t == since || exists i :: 0 <= i < |docs| && docs[i].case_ == c && docs[i].received == t)
  {
    if docs != [] {
      var n := |docs| - 1;
      LastReceivedIsTheLatest(docs[..n], c, since);
      var t := LastReceived(docs[..n], c, since);
      if t != since {
        var i :| 0 <= i < n && docs[..n][i].case_ == c && docs[..n][i].received == t;
        assert docs[i].received == t;
      }
      forall i | 0 <= i < |docs| && docs[i].case_ == c ensures LastReceived(docs, c, since) >= docs[i].received {
        if i < n {
          assert docs[..n][i] == docs[i];
        }
      }
    }
  }

  lemma {:induction false} SomeLatest(db: Db, sender: string, n: nat)
    requires n <= |db.cases|
    ensures LatestAmong(db, sender, n).Some? <==> exists c :: 0 <= c < n && db.cases[c].contact == Some(sender)
  {
    if n > 0 {
      SomeLatest(db, sender, n - 1);
    }
  }

  /** The last 500 characters of a text, or the whole of a shorter one. */
  lemma SuffixIsTheEnd(s: string)
    ensures var r := Suffix(s); |r| <= |s| && r == s[|s| - |r|..] && |r| == (if |s| < 500 then |s| else 500)
  {}

  /** A named sender with a case is compared with the one of the latest activity, as its row, its documents
      and the end of its text have it; anyone else with nothing. */
  lemma PriorIsTheLatestCase(env: Env, db: Db, sender: string)
    ensures var p := LoadPrior(env, db, sender);
      (p.Some? <==> sender != "" && exists c :: 0 <= c < |db.cases| && db.cases[c].contact == Some(sender)) &&
      (p.Some? ==>
        p.value.case_ < |db.cases| && db.cases[p.value.case_].contact == Some(sender) &&
        p.value.state == db.cases[p.value.case_].state && p.value.lastActivity == Activity(db, p.value.case_) &&
        p.value.text == Suffix(env.caseText(p.value.case_)) &&
        forall c | 0 <= c < |db.cases| && db.cases[c].contact == Some(sender) :: Activity(db, c) <= p.value.lastActivity)
  {
    SomeLatest(db, sender, |db.cases|);
    forall c | 0 <= c < |db.cases| && db.cases[c].contact == Some(sender)
      ensures LatestAmong(db, sender, |db.cases|).Some? && Activity(db, c) <= Activity(db, LatestAmong(db, sender, |db.cases|).value)
    {
      LatestIsLatest(db, sender, |db.cases|, c);
    }
  }

  // ---- the documents of a message ---------------------------------------------------------

  /** An attachment that holds bytes. */
  predicate HasBytes(a: Attachment) {
    !a.missing && a.data != ""
  }

  /** The files of a message are its attachments with bytes, in order. */
  lemma {:induction false} FilesAreTheAttachments(attachments: seq<Attachment>)
    ensures Selected(attachments, HasBytes, (a: Attachment) => Part(a.data, a.mime, "file"), Files(attachments))
  {
    var f := (a: Attachment) => Part(a.data, a.mime, "file");
    hide Selected;
    if attachments == [] {
      NothingSelected(HasBytes, f);
    } else {
      FilesAreTheAttachments(attachments[1..]);
      SelectedMore(attachments, HasBytes, f, Files(attachments[1..]));
      assert FileParts(attachments[0]) == if HasBytes(attachments[0]) then [f(attachments[0])] else [];
    }
  }

  /** A message stores its text, if it has one, and then its files. */
  lemma PartsAreTextAndFiles(m: Message)
    ensures m.text == "" ==> Parts(m) == Files(m.attachments)
    ensures m.text != "" ==> Parts(m) == [Part(m.text, "text/plain", "message")] + Files(m.attachments)
  {}

  /** The document for a part of a message. */
  function DocumentOf(c: nat, m: Message, p: Part): Document {
    Document(c, p.data, p.mime, m.channel, m.sentAt, p.kind)
  }

  /** Between the two states the parts were stored: each has a job, in order, for the document with its bytes;
      documents stay, and each new one is that of the first part with bytes unknown until then. */
  ghost predicate Stored(before: Db, after: Db, c: nat, m: Message, parts: seq<Part>) {
    && after.cases == before.cases && after.done == before.done
    && |after.jobs| == |before.jobs| + |parts| && after.jobs[..|before.jobs|] == before.jobs
    && |before.docs| <= |after.docs| && after.docs[..|before.docs|] == before.docs
    && (forall i | 0 <= i < |parts| :: HasJob(after, |before.jobs| + i, parts[i]))
    && (forall k | |before.docs| <= k < |after.docs| ::
          (forall j | 0 <= j < k :: after.docs[j].data != after.docs[k].data) && IsFirstOf(after.docs[k], c, m, parts))
  }

  /** Job j is for the document with the bytes of the part. */
  predicate HasJob(db: Db, j: nat, p: Part) {
    j < |db.jobs| && db.jobs[j] < |db.docs| && db.docs[db.jobs[j]].data == p.data
  }

  lemma HasJobStill(db: Db, after: Db, j: nat, p: Part)
    requires HasJob(db, j, p) && |db.jobs| <= |after.jobs| && after.jobs[..|db.jobs|] == db.jobs
    requires |db.docs| <= |after.docs| && after.docs[..|db.docs|] == db.docs
    ensures HasJob(after, j, p)
  {
    assert after.jobs[j] == db.jobs[j] && after.docs[db.jobs[j]] == db.docs[db.jobs[j]];
  }

  /** The document is that of the first part with its bytes. */
  ghost predicate IsFirstOf(d: Document, c: nat, m: Message, parts: seq<Part>) {
    exists i :: 0 <= i < |parts| && d == DocumentOf(c, m, parts[i]) && forall j | 0 <= j < i :: parts[j].data != d.data
  }

  lemma StoredOne(db: Db, c: nat, m: Message, p: Part)
    ensures Stored(db, Store(db, c, m, p), c, m, [p])
  {
    var after := Store(db, c, m, p);
    forall k | |db.docs| <= k < |after.docs| ensures IsFirstOf(after.docs[k], c, m, [p]) {
      assert [p][0] == p && after.docs[k] == DocumentOf(c, m, [p][0]);
    }
  }

  lemma FirstOfMore(d: Document, c: nat, m: Message, p: Part, rest: seq<Part>)
    requires IsFirstOf(d, c, m, rest) && p.data != d.data
    ensures IsFirstOf(d, c, m, [p] + rest)
  {
    var i :| 0 <= i < |rest| && d == DocumentOf(c, m, rest[i]) && forall j | 0 <= j < i :: rest[j].data != d.data;
    var all := [p] + rest;
    assert d == DocumentOf(c, m, all[i + 1]);
    forall j | 0 <= j < i + 1 ensures all[j].data != d.data {
      if j > 0 {
        assert all[j] == rest[j - 1];
      }
    }
  }

  lemma FirstIsFirst(c: nat, m: Message, p: Part, rest: seq<Part>)
    ensures IsFirstOf(DocumentOf(c, m, p), c, m, [p] + rest)
  {
    assert ([p] + rest)[0] == p;
  }

  lemma StoredMore(before: Db, mid: Db, after: Db, c: nat, m: Message, p: Part, rest: seq<Part>)
    requires Stored(before, mid, c, m, [p]) && Stored(mid, after, c, m, rest)
    ensures Stored(before, after, c, m, [p] + rest)
  {
    var all := [p] + rest;
    assert after.docs[..|before.docs|] == mid.docs[..|before.docs|];
    assert after.jobs[..|before.jobs|] == mid.jobs[..|before.jobs|];
    var n := |before.jobs|;
    assert HasJob(mid, n + 0, [p][0]);
    HasJobStill(mid, after, n, p);
    forall i | 0 <= i < |all| ensures HasJob(after, n + i, all[i]) {
      if i > 0 {
        assert HasJob(after, |mid.jobs| + (i - 1), rest[i - 1]);
      }
    }
    var j0 := mid.jobs[n];
    assert mid.docs[j0].data == p.data && after.docs[j0] == mid.docs[j0];
    forall k | |before.docs| <= k < |after.docs|
      ensures (forall j | 0 <= j < k :: after.docs[j].data != after.docs[k].data) && IsFirstOf(after.docs[k], c, m, all)
    {
      if k < |mid.docs| {
        assert after.docs[..|mid.docs|] == mid.docs && after.docs[k] == mid.docs[k];
        OnlyPart(mid.docs[k], c, m, p);
        FirstIsFirst(c, m, p, rest);
      } else {
        assert after.docs[j0].data != after.docs[k].data;
        FirstOfMore(after.docs[k], c, m, p, rest);
      }
    }
  }

  lemma OnlyPart(d: Document, c: nat, m: Message, p: Part)
    requires IsFirstOf(d, c, m, [p])
    ensures d == DocumentOf(c, m, p)
  {}

  /** So a message stores exactly its parts. */
  lemma {:induction false} StoreAllStores(db: Db, c: nat, m: Message, parts: seq<Part>)
    ensures Stored(db, StoreAll(db, c, m, parts), c, m, parts)
    decreases |parts|
  {
    hide Stored, Store;
    if parts == [] {
      NothingStored(db, c, m);
    } else {
      var mid := Store(db, c, m, parts[0]);
      StoredOne(db, c, m, parts[0]);
      StoreAllStores(mid, c, m, parts[1..]);
      StoredMore(db, mid, StoreAll(mid, c, m, parts[1..]), c, m, parts[0], parts[1..]);
      assert [parts[0]] + parts[1..] == parts;
    }
  }

  lemma NothingStored(db: Db, c: nat, m: Message)
    ensures Stored(db, db, c, m, [])
  {}

  // ---- one message ------------------------------------------------------------------------

  /** The condition of `FollowsUpExactlyWhen`, for the case in progress or else the sender's latest. */
  ghost predicate Continues(env: Env, m: Message, p: Prior) {
    if p.state == "committed" then m.sentAt <= p.lastActivity + 4 * 24 * HOUR && SaysFollowUp(m, p, env.llm)
    else p.lastActivity - 24 * HOUR <= m.sentAt <= p.lastActivity + 24 * HOUR || SaysFollowUp(m, p, env.llm)
  }

  /** What a message does that was not ingested before: it goes to the case in progress, or else to the
      sender's latest, exactly when that one is continued, and otherwise opens the next case; its parts are
      stored there, its key is done, and the next message is compared with the case it went to, at its time
      and with its text behind what the run had. */
  lemma StepExactly(env: Env, db: Db, building: Option<Prior>, m: Message)
    requires Key(m).None? || Key(m).value !in db.done
    ensures var out := Step(env, db, building, m);
      var prior := if building.Some? then building else LoadPrior(env, db, m.sender);
      var continued := prior.Some? && Continues(env, m, prior.value);
      var c := if continued then prior.value.case_ else |db.cases|;
      var home := if continued then db else db.(cases := db.cases + [Case(m.channel, m.sentAt, if m.sender == "" then None else Some(m.sender), "created")]);
      Stored(home, out.db.(done := db.done), c, m, Parts(m)) &&
      out.db.done == (if Key(m).Some? then db.done + {Key(m).value} else db.done) &&
      out.building == Some(Prior(c, "created", m.sentAt, Suffix(
        if building.None? then m.text else if m.text == "" then building.value.text else building.value.text + " " + m.text)))
  {
    hide Stored, StoreAll, LoadPrior, Parts, Suffix;
    FollowsUpExactlyWhen(m, PriorOf(env, db, building, m.sender), env.llm);
    StoreAllStores(Opened(env, db, building, m), Target(env, db, building, m), m, Parts(m));
    StoreKeepsDone(Opened(env, db, building, m), Target(env, db, building, m), m);
  }

  lemma StoreKeepsDone(db: Db, c: nat, m: Message)
    ensures StoreAll(db, c, m, Parts(m)).done == db.done && StoreAll(db, c, m, Parts(m)).cases == db.cases
  {
    StoreAllStores(db, c, m, Parts(m));
  }

  /** And a message that was ingested before does nothing. */
  lemma SkippedExactlyWhenDone(env: Env, db: Db, building: Option<Prior>, m: Message)
    requires Key(m).Some? && Key(m).value in db.done
    ensures Step(env, db, building, m) == Out(db, building)
  {}
}
