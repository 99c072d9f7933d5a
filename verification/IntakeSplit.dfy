/** Without a classifier, ingest gives each sender the split of the new messages at the long gaps. */
module IntakeSplit {
  import opened Options
  import opened Order
  import opened Intake
  import opened IntakeLaws

  // ---- the split ----------------------------------------------------------------------------

  /** Consecutive messages stay together while the gaps are at most the idle window. */
  function Split(msgs: seq<Message>): (runs: seq<seq<Message>>)
    ensures runs == [] <==> msgs == []
    ensures forall i | 0 <= i < |runs| :: runs[i] != []
    ensures runs != [] ==> runs[0][0] == msgs[0]
    decreases |msgs|
  {
    if msgs == [] then []
    else if |msgs| == 1 then [[msgs[0]]]
    else
      var rest := Split(msgs[1..]);
      if msgs[1].sentAt - msgs[0].sentAt <= OPEN_IDLE then [[msgs[0]] + rest[0]] + rest[1..] else [[msgs[0]]] + rest
  }

  function Flatten(runs: seq<seq<Message>>): seq<Message> {
    if runs == [] then [] else runs[0] + Flatten(runs[1..])
  }

  ghost predicate Close(run: seq<Message>) {
    forall i | 0 < i < |run| :: run[i].sentAt - run[i - 1].sentAt <= OPEN_IDLE
  }

  predicate Apart(a: seq<Message>, b: seq<Message>)
    requires a != [] && b != []
  {
    b[0].sentAt - a[|a| - 1].sentAt > OPEN_IDLE
  }

  lemma FlattenCons(run: seq<Message>, rest: seq<seq<Message>>)
    ensures Flatten([run] + rest) == run + Flatten(rest)
  {
    assert ([run] + rest)[1..] == rest;
  }

  lemma ClosePrepend(m: Message, run: seq<Message>)
    requires Close(run) && run != [] && run[0].sentAt - m.sentAt <= OPEN_IDLE
    ensures Close([m] + run)
  {
    var r := [m] + run;
    forall i | 0 < i < |r| ensures r[i].sentAt - r[i - 1].sentAt <= OPEN_IDLE {
      if i > 1 {
        assert r[i] == run[i - 1] && r[i - 1] == run[i - 2];
      }
    }
  }

  /** Short gaps inside the runs, long gaps between them. */
  ghost predicate AtTheLongGaps(runs: seq<seq<Message>>) {
    (forall i | 0 <= i < |runs| :: runs[i] != [] && Close(runs[i])) &&
    forall i | 0 < i < |runs| :: Apart(runs[i - 1], runs[i])
  }

  lemma MergeFirst(m: Message, rest: seq<seq<Message>>)
    requires AtTheLongGaps(rest) && rest != [] && rest[0][0].sentAt - m.sentAt <= OPEN_IDLE
    ensures AtTheLongGaps([[m] + rest[0]] + rest[1..])
  {
    ClosePrepend(m, rest[0]);
    var runs := [[m] + rest[0]] + rest[1..];
    forall i | 0 < i < |runs| ensures Apart(runs[i - 1], runs[i]) {
      assert Apart(rest[i - 1], rest[i]);
    }
  }

  lemma PrependRun(m: Message, rest: seq<seq<Message>>)
    requires AtTheLongGaps(rest) && rest != [] && rest[0][0].sentAt - m.sentAt > OPEN_IDLE
    ensures AtTheLongGaps([[m]] + rest)
  {
    var runs := [[m]] + rest;
    forall i | 0 < i < |runs| ensures Apart(runs[i - 1], runs[i]) {
      if i > 1 {
        assert Apart(rest[i - 2], rest[i - 1]);
      }
    }
  }

  lemma SplitCons(m: Message, t: seq<Message>)
    requires t != []
    ensures var rest := Split(t);
      Split([m] + t) == if t[0].sentAt - m.sentAt <= OPEN_IDLE then [[m] + rest[0]] + rest[1..] else [[m]] + rest
  {
    assert ([m] + t)[1..] == t;
  }

  /** The runs put together are the messages; gaps inside a run are short and gaps between runs long. */
  lemma {:induction false} SplitIsAtTheLongGaps(msgs: seq<Message>)
    ensures Flatten(Split(msgs)) == msgs && AtTheLongGaps(Split(msgs))
    decreases |msgs|
  {
    if |msgs| == 1 {
      FlattenCons([msgs[0]], []);
    } else if |msgs| > 1 {
      var m, t := msgs[0], msgs[1..];
      var rest := Split(t);
      SplitIsAtTheLongGaps(t);
      SplitCons(m, t);
      assert [m] + t == msgs;
      if t[0].sentAt - m.sentAt <= OPEN_IDLE {
        MergeFirst(m, rest);
        FlattenCons([m] + rest[0], rest[1..]);
        assert [m] + rest[0] + Flatten(rest[1..]) == [m] + Flatten(rest);
      } else {
        PrependRun(m, rest);
        FlattenCons([m], rest);
      }
    }
  }

  /** The first message of a run is its earliest. */
  lemma {:induction false} RunStartsEarliest(msgs: seq<Message>, j: nat, m: Message)
    requires SortedBy(SentBefore, msgs) && j < |Split(msgs)| && m in Split(msgs)[j]
    ensures Split(msgs)[j][0].sentAt <= m.sentAt && m in msgs
    decreases |msgs|
  {
    if |msgs| > 1 {
      var rest := Split(msgs[1..]);
      if msgs[1].sentAt - msgs[0].sentAt <= OPEN_IDLE {
        if j == 0 {
          if m in rest[0] {
            RunStartsEarliest(msgs[1..], 0, m);
            FirstIsEarliest(msgs, m);
          }
        } else {
          RunStartsEarliest(msgs[1..], j, m);
        }
      } else if j > 0 {
        RunStartsEarliest(msgs[1..], j - 1, m);
      }
    }
  }

  // ---- the cases a run of new messages goes to ----------------------------------------------

  /** No message is in the ledger, and no key occurs twice. */
  ghost predicate Fresh(db: Db, msgs: seq<Message>) {
    (forall m | m in msgs :: !Skipped(db, m)) &&
    forall i, j | 0 <= i < j < |msgs| :: Key(msgs[i]).Some? ==> Key(msgs[i]) != Key(msgs[j])
  }

  /** The case of each message. */
  function Assigned(env: Env, db: Db, b: Option<Prior>, msgs: seq<Message>): seq<nat>
    decreases |msgs|
  {
    if msgs == [] then []
    else
      var out := Step(env, db, b, msgs[0]);
      [Target(env, db, b, msgs[0])] + Assigned(env, out.db, out.building, msgs[1..])
  }

  function Repeat(c: nat, n: nat): (s: seq<nat>)
    ensures |s| == n && forall i | 0 <= i < n :: s[i] == c
  {
    seq(n, _ => c)
  }

  /** One number for each message: `first` for the first run, then `next` and on. */
  function Numbers(runs: seq<seq<Message>>, first: nat, next: nat): seq<nat> {
    if runs == [] then [] else Repeat(first, |runs[0]|) + Numbers(runs[1..], next, next + 1)
  }

  function Openers(runs: seq<seq<Message>>): seq<Case>
    requires forall i | 0 <= i < |runs| :: runs[i] != []
  {
    if runs == [] then [] else [NewCase(runs[0][0])] + Openers(runs[1..])
  }

  /** The first message joins the case being built or the sender's latest open one. */
  predicate Joins(env: Env, db: Db, b: Option<Prior>, m: Message) {
    DecideWindow(m, PriorOf(env, db, b, m.sender), None).FollowUp?
  }

  lemma JoinsExactlyWhenOpenAndNear(env: Env, db: Db, b: Option<Prior>, m: Message)
    ensures var p := PriorOf(env, db, b, m.sender);
      Joins(env, db, b, m) <==> p.Some? && p.value.state != "committed" && Abs(m.sentAt - p.value.lastActivity) <= OPEN_IDLE
  {}

  lemma NumbersCons(run: seq<Message>, rest: seq<seq<Message>>, first: nat, next: nat)
    ensures Numbers([run] + rest, first, next) == Repeat(first, |run|) + Numbers(rest, next, next + 1)
  {
    assert ([run] + rest)[1..] == rest;
  }

  lemma NumbersGrow(m: Message, run: seq<Message>, rest: seq<seq<Message>>, first: nat, next: nat)
    ensures Numbers([[m] + run] + rest, first, next) == [first] + Numbers([run] + rest, first, next)
  {
    NumbersCons([m] + run, rest, first, next);
    NumbersCons(run, rest, first, next);
    assert Repeat(first, 1 + |run|) == [first] + Repeat(first, |run|);
  }

  lemma OpenersCons(run: seq<Message>, rest: seq<seq<Message>>)
    requires run != [] && forall i | 0 <= i < |rest| :: rest[i] != []
    ensures Openers([run] + rest) == [NewCase(run[0])] + Openers(rest)
  {
    assert ([run] + rest)[1..] == rest;
  }

  lemma FreshTail(env: Env, db: Db, b: Option<Prior>, msgs: seq<Message>)
    requires Fresh(db, msgs) && msgs != []
    ensures Fresh(Step(env, db, b, msgs[0]).db, msgs[1..])
  {
    StepDone(env, db, b, msgs[0]);
    forall m | m in msgs[1..] ensures !Skipped(Step(env, db, b, msgs[0]).db, m) {
      var j :| 0 < j < |msgs| && msgs[j] == m;
      assert Key(msgs[0]).Some? ==> Key(msgs[0]) != Key(msgs[j]);
      assert !Skipped(db, m);
    }
  }

  /** After a message, the next joins its case exactly when it follows within the idle window. */
  lemma NextJoins(env: Env, db: Db, b: Option<Prior>, m: Message, n: Message)
    requires !Skipped(db, m) && m.sentAt <= n.sentAt
    ensures var out := Step(env, db, b, m);
      out.building.Some? && out.building.value.case_ == Target(env, db, b, m) &&
      (Joins(env, out.db, out.building, n) <==> n.sentAt - m.sentAt <= OPEN_IDLE)
  {}

  lemma TargetWithoutClassifier(env: Env, db: Db, b: Option<Prior>, m: Message)
    requires env.llm == None
    ensures Target(env, db, b, m) == if Joins(env, db, b, m) then PriorOf(env, db, b, m.sender).value.case_ else |db.cases|
    ensures Opened(env, db, b, m).cases == if Joins(env, db, b, m) then db.cases else db.cases + [NewCase(m)]
  {}

  /** The case of the first message and the number after the cases it leaves. */
  function First(env: Env, db: Db, b: Option<Prior>, m: Message): (nat, nat) {
    if Joins(env, db, b, m) then (PriorOf(env, db, b, m.sender).value.case_, |db.cases|) else (|db.cases|, |db.cases| + 1)
  }

  predicate Near(m: Message, t: seq<Message>)
    requires t != []
  {
    t[0].sentAt - m.sentAt <= OPEN_IDLE
  }

  function After(f: (nat, nat), near: bool): (nat, nat) {
    if near then f else (f.1, f.1 + 1)
  }

  /** The cases opened for the messages. */
  function OpenedBy(joins: bool, msgs: seq<Message>): seq<Case>
    requires msgs != []
  {
    Openers(if joins then Split(msgs)[1..] else Split(msgs))
  }

  lemma OpenedStep(before: seq<Case>, joins: bool, m: Message, t: seq<Message>)
    requires t != []
    ensures before + (if joins then [] else [NewCase(m)]) + OpenedBy(Near(m, t), t) == before + OpenedBy(joins, [m] + t)
  {
    OpenersStep(m, t);
    var rest := OpenedBy(Near(m, t), t);
    if joins {
      assert before + [] + rest == before + rest;
    } else {
      assert before + [NewCase(m)] + rest == before + ([NewCase(m)] + rest);
    }
  }

  /** The numbers of the messages. */
  function Numbered(f: (nat, nat), msgs: seq<Message>): seq<nat> {
    Numbers(Split(msgs), f.0, f.1)
  }

  lemma NumberedStep(f: (nat, nat), m: Message, t: seq<Message>)
    requires t != []
    ensures Numbered(f, [m] + t) == [f.0] + Numbered(After(f, Near(m, t)), t)
  {
    NumbersStep(m, t, f.0, f.1);
  }

  lemma NumbersStep(m: Message, t: seq<Message>, first: nat, next: nat)
    requires t != []
    ensures Numbers(Split([m] + t), first, next) ==
      [first] + if Near(m, t) then Numbers(Split(t), first, next) else Numbers(Split(t), next, next + 1)
  {
    SplitCons(m, t);
    var rest := Split(t);
    if Near(m, t) {
      NumbersGrow(m, rest[0], rest[1..], first, next);
      assert [rest[0]] + rest[1..] == rest;
    } else {
      NumbersCons([m], rest, first, next);
      assert Repeat(first, 1) == [first];
    }
  }

  lemma OpenersStep(m: Message, t: seq<Message>)
    requires t != []
    ensures Openers(Split([m] + t)[1..]) == Openers(if Near(m, t) then Split(t)[1..] else Split(t))
    ensures Openers(Split([m] + t)) == [NewCase(m)] + Openers(Split([m] + t)[1..])
  {
    SplitCons(m, t);
    var rest := Split(t);
    if Near(m, t) {
      assert Split([m] + t)[1..] == rest[1..];
      OpenersCons([m] + rest[0], rest[1..]);
    } else {
      assert Split([m] + t)[1..] == rest;
      OpenersCons([m], rest);
    }
  }

  lemma OneMessage(m: Message, first: nat, next: nat)
    ensures Split([m]) == [[m]] && Numbers([[m]], first, next) == [first]
    ensures Openers([[m]]) == [NewCase(m)] && Openers([[m]][1..]) == []
  {
    NumbersCons([m], [], first, next);
    OpenersCons([m], []);
    assert Repeat(first, 1) == [first];
  }

  lemma TailIsFreshAndSorted(env: Env, db: Db, b: Option<Prior>, msgs: seq<Message>)
    requires Fresh(db, msgs) && SortedBy(SentBefore, msgs) && |msgs| > 1
    ensures Fresh(Step(env, db, b, msgs[0]).db, msgs[1..]) && SortedBy(SentBefore, msgs[1..])
  {
    FreshTail(env, db, b, msgs);
  }

  lemma StepNumbers(env: Env, db: Db, b: Option<Prior>, m: Message, n: Message)
    requires env.llm == None && !Skipped(db, m) && m.sentAt <= n.sentAt
    ensures var out := Step(env, db, b, m);
      (Joins(env, out.db, out.building, n) <==> n.sentAt - m.sentAt <= OPEN_IDLE) &&
      First(env, out.db, out.building, n) == After(First(env, db, b, m), n.sentAt - m.sentAt <= OPEN_IDLE)
  {
    NextJoins(env, db, b, m, n);
    StepCases(env, db, b, m);
    TargetWithoutClassifier(env, db, b, m);
  }

  /** What the first of several messages leaves for the others. */
  lemma StepSplits(env: Env, db: Db, b: Option<Prior>, msgs: seq<Message>) returns (db1: Db, b1: Option<Prior>)
    requires env.llm == None && Fresh(db, msgs) && SortedBy(SentBefore, msgs) && msgs != []
    ensures Run(env, db, b, msgs) == Run(env, db1, b1, msgs[1..])
    ensures Assigned(env, db, b, msgs) == [First(env, db, b, msgs[0]).0] + Assigned(env, db1, b1, msgs[1..])
    ensures db1.cases == db.cases + if Joins(env, db, b, msgs[0]) then [] else [NewCase(msgs[0])]
    ensures |msgs| > 1 ==> Fresh(db1, msgs[1..]) && SortedBy(SentBefore, msgs[1..])
    ensures |msgs| > 1 ==> (Joins(env, db1, b1, msgs[1]) <==> Near(msgs[0], msgs[1..]))
    ensures |msgs| > 1 ==> First(env, db1, b1, msgs[1]) == After(First(env, db, b, msgs[0]), Near(msgs[0], msgs[1..]))
  {
    var m := msgs[0];
    var out := Step(env, db, b, m);
    db1, b1 := out.db, out.building;
    assert m in msgs && !Skipped(db, m);
    StepCases(env, db, b, m);
    TargetWithoutClassifier(env, db, b, m);
    if |msgs| > 1 {
      assert SentBefore(m, msgs[1]);
      TailIsFreshAndSorted(env, db, b, msgs);
      StepNumbers(env, db, b, m, msgs[1]);
    }
  }

  /** One run is one case: the assignment of a sender's new messages is their split. */
  lemma {:induction false} AssignmentIsTheSplit(env: Env, db: Db, b: Option<Prior>, msgs: seq<Message>)
    requires env.llm == None && Fresh(db, msgs) && SortedBy(SentBefore, msgs) && msgs != []
    ensures Assigned(env, db, b, msgs) == Numbered(First(env, db, b, msgs[0]), msgs)
    decreases |msgs|
  {
    var f := First(env, db, b, msgs[0]);
    var db1, b1 := StepSplits(env, db, b, msgs);
    var m, t := msgs[0], msgs[1..];
    assert msgs == [m] + t;
    if t == [] {
      assert msgs == [m];
      OneMessage(m, f.0, f.1);
    } else {
      AssignmentIsTheSplit(env, db1, b1, t);
      NumberedStep(f, m, t);
    }
  }

  /** And each run that does not join an earlier case opens one, at its first message. */
  lemma {:induction false} CasesAreTheSplit(env: Env, db: Db, b: Option<Prior>, msgs: seq<Message>)
    requires env.llm == None && Fresh(db, msgs) && SortedBy(SentBefore, msgs) && msgs != []
    ensures Run(env, db, b, msgs).cases == db.cases + OpenedBy(Joins(env, db, b, msgs[0]), msgs)
    decreases |msgs|
  {
    var joins := Joins(env, db, b, msgs[0]);
    var db1, b1 := StepSplits(env, db, b, msgs);
    var m, t := msgs[0], msgs[1..];
    assert msgs == [m] + t;
    if t == [] {
      assert msgs == [m];
      OneMessage(m, 0, 0);
    } else {
      CasesAreTheSplit(env, db1, b1, t);
      OpenedStep(db.cases, joins, m, t);
    }
  }

  // ---- any timeline -------------------------------------------------------------------------

  function DropDone(db: Db, msgs: seq<Message>): seq<Message> {
    if msgs == [] then []
    else if Skipped(db, msgs[0]) then DropDone(db, msgs[1..])
    else [msgs[0]] + DropDone(db, msgs[1..])
  }

  /** The messages that a run processes. */
  function NewOnes(db: Db, msgs: seq<Message>): seq<Message> {
    DropDone(db, KeepFirst(msgs))
  }

  lemma {:induction false} DropDoneIn(db: Db, msgs: seq<Message>, m: Message)
    ensures m in DropDone(db, msgs) <==> m in msgs && !Skipped(db, m)
  {
    if msgs != [] {
      DropDoneIn(db, msgs[1..], m);
    }
  }

  lemma {:induction false} RunDropsDone(env: Env, db0: Db, db: Db, b: Option<Prior>, msgs: seq<Message>)
    requires db0.done <= db.done
    ensures Run(env, db, b, DropDone(db0, msgs)) == Run(env, db, b, msgs)
    decreases |msgs|
  {
    if msgs != [] {
      var out := Step(env, db, b, msgs[0]);
      StepDone(env, db, b, msgs[0]);
      RunDropsDone(env, db0, out.db, out.building, msgs[1..]);
      if Skipped(db0, msgs[0]) {
        assert Skipped(db, msgs[0]);
      } else {
        RunCons(env, db, b, msgs[0], DropDone(db0, msgs[1..]));
      }
    }
  }

  ghost predicate KeysDiffer(msgs: seq<Message>) {
    forall i, j | 0 <= i < j < |msgs| :: Key(msgs[i]).Some? ==> Key(msgs[i]) != Key(msgs[j])
  }

  lemma KeysDifferPrepend(m: Message, msgs: seq<Message>)
    requires KeysDiffer(msgs) && forall x | x in msgs :: Key(m).Some? ==> Key(x) != Key(m)
    ensures KeysDiffer([m] + msgs)
  {
    var s := [m] + msgs;
    forall i, j | 0 <= i < j < |s| && Key(s[i]).Some? ensures Key(s[i]) != Key(s[j]) {
      assert s[j] == msgs[j - 1] && msgs[j - 1] in msgs;
      if i > 0 {
        assert s[i] == msgs[i - 1];
      }
    }
  }

  lemma {:induction false} DropDrops(k: Option<MessageKey>, msgs: seq<Message>)
    requires KeysDiffer(msgs)
    ensures KeysDiffer(Drop(k, msgs)) && forall m | m in Drop(k, msgs) :: !Has(k, m)
  {
    if msgs != [] {
      assert KeysDiffer(msgs[1..]);
      DropDrops(k, msgs[1..]);
      if !Has(k, msgs[0]) {
        forall x | x in Drop(k, msgs[1..]) ensures Key(msgs[0]).Some? ==> Key(x) != Key(msgs[0]) {
          DropIn(k, msgs[1..], x);
          var j :| 0 < j < |msgs| && msgs[j] == x;
          assert Key(msgs[0]).Some? ==> Key(msgs[0]) != Key(msgs[j]);
        }
        KeysDifferPrepend(msgs[0], Drop(k, msgs[1..]));
      }
    }
  }

  lemma {:induction false} KeepFirstDiffers(msgs: seq<Message>)
    ensures KeysDiffer(KeepFirst(msgs))
  {
    if msgs != [] {
      KeepFirstDiffers(msgs[1..]);
      DropDrops(Key(msgs[0]), KeepFirst(msgs[1..]));
      KeysDifferPrepend(msgs[0], Drop(Key(msgs[0]), KeepFirst(msgs[1..])));
    }
  }

  lemma {:induction false} DropDoneKeeps(db: Db, msgs: seq<Message>)
    requires KeysDiffer(msgs) && SortedBy(SentBefore, msgs)
    ensures KeysDiffer(DropDone(db, msgs)) && SortedBy(SentBefore, DropDone(db, msgs))
  {
    if msgs != [] {
      assert KeysDiffer(msgs[1..]) && SortedBy(SentBefore, msgs[1..]);
      DropDoneKeeps(db, msgs[1..]);
      var rest := DropDone(db, msgs[1..]);
      forall x | x in rest ensures SentBefore(msgs[0], x) && (Key(msgs[0]).Some? ==> Key(x) != Key(msgs[0])) {
        DropDoneIn(db, msgs[1..], x);
        var j :| 0 < j < |msgs| && msgs[j] == x;
        assert Key(msgs[0]).Some? ==> Key(msgs[0]) != Key(msgs[j]);
        assert SentBefore(msgs[0], msgs[j]);
      }
      KeysDifferPrepend(msgs[0], rest);
      SortedPrepend(msgs[0], rest);
    }
  }

  lemma TimelineSorted(batch: seq<Message>, sender: string)
    ensures SortedBy(SentBefore, Timeline(batch, sender))
  {
    SentBeforeIsPreorder();
    SortSorts(SentBefore, Group(batch, sender));
  }

  lemma NewOnesAreFresh(db: Db, msgs: seq<Message>)
    requires SortedBy(SentBefore, msgs)
    ensures Fresh(db, NewOnes(db, msgs)) && SortedBy(SentBefore, NewOnes(db, msgs))
  {
    KeepFirstDiffers(msgs);
    KeepFirstSorted(msgs);
    DropDoneKeeps(db, KeepFirst(msgs));
    forall m | m in NewOnes(db, msgs) ensures !Skipped(db, m) {
      DropDoneIn(db, KeepFirst(msgs), m);
    }
  }

  /** Each sender's part of any batch: the new messages, split at the long gaps; the first run may join the
      sender's open case, and every other run opens a case whose first contact is its earliest message. */
  lemma SenderGetsTheSplit(env: Env, db: Db, batch: seq<Message>, sender: string)
    requires env.llm == None
    ensures var unseen := NewOnes(db, Timeline(batch, sender));
      Run(env, db, None, Timeline(batch, sender)) == Run(env, db, None, unseen)
    ensures var unseen := NewOnes(db, Timeline(batch, sender));
      unseen != [] ==> Run(env, db, None, unseen).cases == db.cases + OpenedBy(Joins(env, db, None, unseen[0]), unseen)
    ensures var unseen := NewOnes(db, Timeline(batch, sender));
      unseen != [] ==> Assigned(env, db, None, unseen) == Numbered(First(env, db, None, unseen[0]), unseen)
  {
    var line := Timeline(batch, sender);
    TimelineSorted(batch, sender);
    RunKeepsFirst(env, db, None, line);
    RunDropsDone(env, db, db, None, KeepFirst(line));
    NewOnesAreFresh(db, line);
    if NewOnes(db, line) != [] {
      CasesAreTheSplit(env, db, None, NewOnes(db, line));
      AssignmentIsTheSplit(env, db, None, NewOnes(db, line));
    }
  }

  // ---- documents ----------------------------------------------------------------------------

  ghost predicate HoldsData(docs: seq<Document>, data: string) {
    exists i | 0 <= i < |docs| :: docs[i].data == data
  }

  ghost predicate HasDocument(docs: seq<Document>, c: nat) {
    exists i | 0 <= i < |docs| :: docs[i].case_ == c
  }

  ghost predicate NewData(docs: seq<Document>, parts: seq<Part>) {
    exists p | p in parts :: !HoldsData(docs, p.data)
  }

  lemma StoreHolds(db: Db, c: nat, m: Message, part: Part)
    ensures var docs := Store(db, c, m, part).docs;
      forall data :: HoldsData(docs, data) <==> HoldsData(db.docs, data) || data == part.data
    ensures forall x :: HasDocument(Store(db, c, m, part).docs, x) <==>
      HasDocument(db.docs, x) || (x == c && !HoldsData(db.docs, part.data))
  {
    var docs := Store(db, c, m, part).docs;
    var i := FindData(db.docs, part.data);
    assert HoldsData(db.docs, part.data) <==> i < |db.docs|;
    assert forall k | 0 <= k < |db.docs| :: docs[k] == db.docs[k];
    if i == |db.docs| {
      assert docs[i].case_ == c && docs[i].data == part.data;
    }
  }

  lemma {:induction false} StoreAllHasDocument(db: Db, c: nat, m: Message, parts: seq<Part>)
    ensures HasDocument(StoreAll(db, c, m, parts).docs, c) <==> HasDocument(db.docs, c) || NewData(db.docs, parts)
    decreases |parts|
  {
    if parts != [] {
      var db1 := Store(db, c, m, parts[0]);
      StoreHolds(db, c, m, parts[0]);
      StoreAllHasDocument(db1, c, m, parts[1..]);
      assert parts == [parts[0]] + parts[1..];
      if NewData(db.docs, parts) && HoldsData(db.docs, parts[0].data) {
        var p :| p in parts && !HoldsData(db.docs, p.data);
        assert p in parts[1..] && !HoldsData(db1.docs, p.data);
      }
      if NewData(db1.docs, parts[1..]) {
        var p :| p in parts[1..] && !HoldsData(db1.docs, p.data);
        assert p in parts && !HoldsData(db.docs, p.data);
      }
    }
  }

  /** A case that a message opens holds one of its documents exactly when some of the message's bytes are new
      to the tenant: documents are kept once per tenant, under the case that stored them first. */
  lemma NewCaseHasADocumentExactlyWhen(env: Env, db: Db, b: Option<Prior>, m: Message)
    requires !Skipped(db, m) && Target(env, db, b, m) == |db.cases|
    requires forall i | 0 <= i < |db.docs| :: db.docs[i].case_ < |db.cases|
    ensures HasDocument(Step(env, db, b, m).db.docs, |db.cases|) <==> NewData(db.docs, Parts(m))
  {
    StoreAllHasDocument(Opened(env, db, b, m), |db.cases|, m, Parts(m));
  }
}
