/** Without a classifier, a whole batch opens the cases that the senders' splits say. */
module IntakeBatch {
  import opened Options
  import opened Order
  import opened Intake
  import opened IntakeLaws
  import opened IntakeSplit

  // ---- one sender after another -------------------------------------------------------------

  /** What the tables know of a sender: which of its messages are done, and the case it may join. */
  ghost predicate SameFor(env: Env, db: Db, after: Db, sender: string) {
    LoadPrior(env, after, sender) == LoadPrior(env, db, sender) && forall m: Message | m.sender == sender :: Skipped(after, m) == Skipped(db, m)
  }

  lemma StepMarksItsOwn(env: Env, db: Db, b: Option<Prior>, m: Message, other: Message)
    requires m.sender != other.sender
    ensures Skipped(Step(env, db, b, m).db, other) == Skipped(db, other)
  {
    hide Step;
    StepDone(env, db, b, m);
  }

  lemma {:induction false} RunMarksItsOwn(env: Env, db: Db, b: Option<Prior>, msgs: seq<Message>, other: Message)
    requires forall m | m in msgs :: m.sender != other.sender
    ensures Skipped(Run(env, db, b, msgs), other) == Skipped(db, other)
    decreases |msgs|
  {
    hide Step, Skipped;
    if msgs != [] {
      var out := Step(env, db, b, msgs[0]);
      assert msgs[0] in msgs && forall m | m in msgs[1..] :: m in msgs;
      StepMarksItsOwn(env, db, b, msgs[0], other);
      RunMarksItsOwn(env, out.db, out.building, msgs[1..], other);
    }
  }

  lemma OneSenderLeavesTheOthers(env: Env, db: Db, batch: seq<Message>, one: string, other: string)
    requires Owned(db) && one != other
    ensures SameFor(env, db, Run(env, db, None, Timeline(batch, one)), other)
  {
    hide Run, Skipped, LoadPrior;
    var line := Timeline(batch, one);
    forall m | m in line ensures m.sender == one {
      TimelineIn(batch, one, m);
    }
    forall m: Message | m.sender == other ensures Skipped(Run(env, db, None, line), m) == Skipped(db, m) {
      RunMarksItsOwn(env, db, None, line, m);
    }
    RunGrows(env, db, None, line, other);
    PriorIgnoresOthers(env, db, Run(env, db, None, line), other);
  }

  // ---- the whole batch ----------------------------------------------------------------------

  /** The cases that the sender's new messages open: one for each run of the split, but for a first run that
      joins. */
  function OpenedFor(env: Env, db: Db, batch: seq<Message>, sender: string): seq<Case> {
    var unseen := NewOnes(db, Timeline(batch, sender));
    if unseen == [] then [] else OpenedBy(Joins(env, db, None, unseen[0]), unseen)
  }

  function OpenedForAll(env: Env, db: Db, batch: seq<Message>, senders: seq<string>): seq<Case> {
    if senders == [] then [] else OpenedFor(env, db, batch, senders[0]) + OpenedForAll(env, db, batch, senders[1..])
  }

  lemma {:induction false} SameDropDone(db: Db, after: Db, msgs: seq<Message>, sender: string)
    requires forall m: Message | m.sender == sender :: Skipped(after, m) == Skipped(db, m)
    requires forall m | m in msgs :: m.sender == sender
    ensures DropDone(after, msgs) == DropDone(db, msgs)
  {
    hide Skipped;
    if msgs != [] {
      assert msgs[0] in msgs && forall m | m in msgs[1..] :: m in msgs;
      SameDropDone(db, after, msgs[1..], sender);
    }
  }

  lemma SameOpened(env: Env, db: Db, after: Db, batch: seq<Message>, sender: string)
    requires SameFor(env, db, after, sender)
    ensures OpenedFor(env, after, batch, sender) == OpenedFor(env, db, batch, sender)
  {
    hide Skipped, LoadPrior, OpenedBy;
    var line := Timeline(batch, sender);
    forall m | m in KeepFirst(line) ensures m.sender == sender {
      KeepFirstIn(line, m);
      TimelineIn(batch, sender, m);
    }
    SameDropDone(db, after, KeepFirst(line), sender);
    var unseen := NewOnes(db, line);
    if unseen != [] {
      DropDoneIn(db, KeepFirst(line), unseen[0]);
      assert unseen[0].sender == sender;
    }
  }

  lemma RunOpens(env: Env, db: Db, batch: seq<Message>, sender: string)
    requires env.llm == None
    ensures Run(env, db, None, Timeline(batch, sender)).cases == db.cases + OpenedFor(env, db, batch, sender)
  {
    hide Run, OpenedBy, Joins, DropDone;
    SenderGetsTheSplit(env, db, batch, sender);
    if NewOnes(db, Timeline(batch, sender)) == [] {
      NothingRuns(env, db);
    }
  }

  lemma NothingRuns(env: Env, db: Db)
    ensures Run(env, db, None, []) == db
  {}

  lemma RunKeepsOwned(env: Env, db: Db, batch: seq<Message>, sender: string, other: string)
    requires Owned(db) && other != sender
    ensures Owned(Run(env, db, None, Timeline(batch, sender)))
  {
    forall m | m in Timeline(batch, sender) ensures m.sender != other {
      TimelineIn(batch, sender, m);
    }
    RunGrows(env, db, None, Timeline(batch, sender), other);
  }

  lemma SameForAgain(env: Env, db: Db, mid: Db, after: Db, sender: string)
    requires SameFor(env, db, mid, sender) && SameFor(env, mid, after, sender)
    ensures SameFor(env, db, after, sender)
  {
    hide Skipped, LoadPrior;
  }

  ghost predicate AllSame(env: Env, db: Db, after: Db, senders: seq<string>) {
    forall i | 0 <= i < |senders| :: SameFor(env, db, after, senders[i])
  }

  lemma RestStaysSame(env: Env, db0: Db, db: Db, senders: seq<string>, batch: seq<Message>)
    requires Owned(db) && NoRepeats(senders) && senders != [] && AllSame(env, db0, db, senders)
    ensures AllSame(env, db0, Run(env, db, None, Timeline(batch, senders[0])), senders[1..]) && NoRepeats(senders[1..])
  {
    hide SameFor, Run, Owned, Timeline;
    var rest, db1 := senders[1..], Run(env, db, None, Timeline(batch, senders[0]));
    forall i | 0 <= i < |rest| ensures SameFor(env, db0, db1, rest[i]) {
      assert rest[i] == senders[i + 1];
      OneSenderLeavesTheOthers(env, db, batch, senders[0], senders[i + 1]);
      SameForAgain(env, db0, db, db1, senders[i + 1]);
    }
  }

  lemma {:induction false} SendersOpen(env: Env, db0: Db, db: Db, senders: seq<string>, batch: seq<Message>)
    requires env.llm == None && Owned(db) && NoRepeats(senders) && AllSame(env, db0, db, senders)
    ensures IngestSenders(env, db, senders, batch).cases == db.cases + OpenedForAll(env, db0, batch, senders)
    decreases |senders|
  {
    hide SameFor, Run, OpenedFor, Owned, NoRepeats, Timeline;
    if senders == [] {
      assert db.cases + [] == db.cases;
    } else {
      var s, rest := senders[0], senders[1..];
      var db1 := Run(env, db, None, Timeline(batch, s));
      RunOpens(env, db, batch, s);
      SameOpened(env, db0, db, batch, s);
      RunKeepsOwned(env, db, batch, s, s + "x");
      RestStaysSame(env, db0, db, senders, batch);
      SendersOpen(env, db0, db1, rest, batch);
      assert (db.cases + OpenedFor(env, db0, batch, s)) + OpenedForAll(env, db0, batch, rest) ==
        db.cases + (OpenedFor(env, db0, batch, s) + OpenedForAll(env, db0, batch, rest));
    }
  }

  lemma {:induction false} SendersAreDistinct(seen: seq<string>, batch: seq<Message>)
    requires NoRepeats(seen)
    ensures NoRepeats(SendersAfter(seen, batch))
    decreases |batch|
  {
    if batch != [] {
      SendersAreDistinct(if batch[0].sender in seen then seen else seen + [batch[0].sender], batch[1..]);
    }
  }

  /** The whole batch, senders one after the other: the new cases are those of each sender's split, taken
      from the tables as they were before the batch. */
  lemma BatchGetsTheSplits(env: Env, db: Db, batch: seq<Message>)
    requires env.llm == None && Owned(db)
    ensures Ingest(env, db, batch).cases == db.cases + OpenedForAll(env, db, batch, SendersAfter([], batch))
  {
    hide SendersAfter, IngestSenders, OpenedForAll;
    SendersAreDistinct([], batch);
    SendersOpen(env, db, db, SendersAfter([], batch), batch);
  }
}
