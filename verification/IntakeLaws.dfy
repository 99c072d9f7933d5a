/** What the ingest of `Intake` promises: repeats change nothing, and without a classifier a sender's
    messages are split at the long gaps. */
module IntakeLaws {
  import opened Options
  import opened Order
  import opened Intake

  // ---- the ledger only grows ----------------------------------------------------------------

  lemma {:induction false} StoreAllKeeps(db: Db, c: nat, m: Message, parts: seq<Part>)
    ensures StoreAll(db, c, m, parts).cases == db.cases && StoreAll(db, c, m, parts).done == db.done
    decreases |parts|
  {
    if parts != [] {
      StoreAllKeeps(Store(db, c, m, parts[0]), c, m, parts[1..]);
    }
  }

  lemma StepDone(env: Env, db: Db, b: Option<Prior>, m: Message)
    ensures Step(env, db, b, m).db.done == db.done + (if Key(m).Some? then {Key(m).value} else {})
  {
    StoreAllKeeps(Opened(env, db, b, m), Target(env, db, b, m), m, Parts(m));
  }

  lemma StepCases(env: Env, db: Db, b: Option<Prior>, m: Message)
    requires !Skipped(db, m)
    ensures Step(env, db, b, m).db.cases == Opened(env, db, b, m).cases
  {
    StoreAllKeeps(Opened(env, db, b, m), Target(env, db, b, m), m, Parts(m));
  }

  /** After a run every message with a key is in the ledger. */
  lemma {:induction false} RunDone(env: Env, db: Db, b: Option<Prior>, msgs: seq<Message>)
    ensures db.done <= Run(env, db, b, msgs).done
    ensures forall m | m in msgs && Key(m).Some? :: Key(m).value in Run(env, db, b, msgs).done
    decreases |msgs|
  {
    if msgs != [] {
      var out := Step(env, db, b, msgs[0]);
      StepDone(env, db, b, msgs[0]);
      RunDone(env, out.db, out.building, msgs[1..]);
    }
  }

  lemma {:induction false} GroupIn(batch: seq<Message>, sender: string, m: Message)
    ensures m in Group(batch, sender) <==> m in batch && m.sender == sender
  {
    if batch != [] {
      GroupIn(batch[1..], sender, m);
    }
  }

  lemma TimelineIn(batch: seq<Message>, sender: string, m: Message)
    ensures m in Timeline(batch, sender) <==> m in batch && m.sender == sender
  {
    GroupIn(batch, sender, m);
    assert m in Timeline(batch, sender) <==> m in multiset(Timeline(batch, sender));
    assert m in Group(batch, sender) <==> m in multiset(Group(batch, sender));
  }

  lemma {:induction false} SendersIn(seen: seq<string>, batch: seq<Message>, s: string)
    requires s in seen || exists m :: m in batch && m.sender == s
    ensures s in SendersAfter(seen, batch)
    decreases |batch|
  {
    if batch != [] {
      var next := if batch[0].sender in seen then seen else seen + [batch[0].sender];
      if s !in next {
        var m :| m in batch && m.sender == s;
        assert m in batch[1..];
      }
      SendersIn(next, batch[1..], s);
    }
  }

  lemma {:induction false} SendersDone(env: Env, db: Db, senders: seq<string>, batch: seq<Message>)
    ensures db.done <= IngestSenders(env, db, senders, batch).done
    ensures forall m | m in batch && m.sender in senders && Key(m).Some? :: Key(m).value in IngestSenders(env, db, senders, batch).done
    decreases |senders|
  {
    if senders != [] {
      var line := Timeline(batch, senders[0]);
      RunDone(env, db, None, line);
      SendersDone(env, Run(env, db, None, line), senders[1..], batch);
      forall m | m in batch && m.sender == senders[0] ensures m in line {
        TimelineIn(batch, senders[0], m);
      }
    }
  }

  // ---- ingesting again ----------------------------------------------------------------------

  lemma {:induction false} RunSkips(env: Env, db: Db, b: Option<Prior>, msgs: seq<Message>)
    requires forall m | m in msgs :: Skipped(db, m)
    ensures Run(env, db, b, msgs) == db
    decreases |msgs|
  {
    if msgs != [] {
      assert msgs[0] in msgs && forall m | m in msgs[1..] :: m in msgs;
      RunSkips(env, db, b, msgs[1..]);
    }
  }

  lemma {:induction false} SendersSkip(env: Env, db: Db, senders: seq<string>, batch: seq<Message>)
    requires forall m | m in batch :: Skipped(db, m)
    ensures IngestSenders(env, db, senders, batch) == db
    decreases |senders|
  {
    if senders != [] {
      forall m | m in Timeline(batch, senders[0]) ensures Skipped(db, m) {
        TimelineIn(batch, senders[0], m);
      }
      RunSkips(env, db, None, Timeline(batch, senders[0]));
      SendersSkip(env, db, senders[1..], batch);
    }
  }

  /** Ingesting again any messages of an ingested batch, whatever else has changed but the ledger, adds no
      case, document, key or job, as long as each of them stores something. */
  lemma IngestAgainAddsNothing(env: Env, db: Db, batch: seq<Message>, env2: Env, later: Db, again: seq<Message>)
    requires Ingest(env, db, batch).done <= later.done
    requires forall m | m in again :: m in batch && Parts(m) != []
    ensures Ingest(env2, later, again) == later
  {
    var senders := SendersAfter([], batch);
    forall m | m in again ensures Skipped(later, m) {
      KeyedExactlyWhenStorable(m);
      SendersIn([], batch, m.sender);
      SendersDone(env, db, senders, batch);
    }
    SendersSkip(env2, later, SendersAfter([], again), again);
  }

  /** A message that stores nothing is outside that promise: from an unknown sender it opens a case every
      time. */
  lemma EmptyMessageOpensACaseEachTime(env: Env, db: Db, m: Message)
    requires m.sender == "" && Parts(m) == []
    ensures |Ingest(env, db, [m]).cases| == |db.cases| + 1
  {
    KeyedExactlyWhenStorable(m);
    SendersCons([], m, []);
    GroupCons(m, [], "");
    var none: seq<Message> := [];
    assert [m] + none == [m];
    assert SendersAfter([], [m]) == [""] && Timeline([m], "") == [m];
    StepCases(env, db, None, m);
    RunCons(env, db, None, m, []);
    OneSender(env, db, "", [m]);
  }

  lemma OneSender(env: Env, db: Db, sender: string, batch: seq<Message>)
    ensures IngestSenders(env, db, [sender], batch) == Run(env, db, None, Timeline(batch, sender))
  {
    assert [sender][1..] == [];
  }

  // ---- repeated keys in a batch -------------------------------------------------------------

  predicate Has(k: Option<MessageKey>, m: Message) {
    k.Some? && Key(m) == k
  }

  function Drop(k: Option<MessageKey>, s: seq<Message>): seq<Message> {
    if s == [] then [] else if Has(k, s[0]) then Drop(k, s[1..]) else [s[0]] + Drop(k, s[1..])
  }

  lemma DropCons(k: Option<MessageKey>, m: Message, t: seq<Message>)
    ensures Drop(k, [m] + t) == if Has(k, m) then Drop(k, t) else [m] + Drop(k, t)
  {
    assert ([m] + t)[1..] == t;
  }

  lemma KeepFirstCons(m: Message, t: seq<Message>)
    ensures KeepFirst([m] + t) == [m] + Drop(Key(m), KeepFirst(t))
  {
    assert ([m] + t)[1..] == t;
  }

  lemma InsertCons(x: Message, m: Message, t: seq<Message>)
    ensures Insert(SentBefore, x, [m] + t) == if SentBefore(x, m) then [x] + ([m] + t) else [m] + Insert(SentBefore, x, t)
  {
    assert ([m] + t)[1..] == t;
  }

  lemma RunCons(env: Env, db: Db, b: Option<Prior>, m: Message, t: seq<Message>)
    ensures var out := Step(env, db, b, m); Run(env, db, b, [m] + t) == Run(env, out.db, out.building, t)
  {
    assert ([m] + t)[1..] == t;
  }

  lemma SendersCons(seen: seq<string>, m: Message, t: seq<Message>)
    ensures SendersAfter(seen, [m] + t) == SendersAfter(if m.sender in seen then seen else seen + [m.sender], t)
  {
    assert ([m] + t)[1..] == t;
  }

  /** The batch without the messages whose key came before. */
  function KeepFirst(s: seq<Message>): seq<Message> {
    if s == [] then [] else [s[0]] + Drop(Key(s[0]), KeepFirst(s[1..]))
  }

  lemma {:induction false} RunDrops(env: Env, db: Db, b: Option<Prior>, k: Option<MessageKey>, msgs: seq<Message>)
    requires k.Some? ==> k.value in db.done
    ensures Run(env, db, b, Drop(k, msgs)) == Run(env, db, b, msgs)
    decreases |msgs|
  {
    if msgs != [] {
      var out := Step(env, db, b, msgs[0]);
      StepDone(env, db, b, msgs[0]);
      RunDrops(env, out.db, out.building, k, msgs[1..]);
      if Has(k, msgs[0]) {
        assert Skipped(db, msgs[0]);
      } else {
        RunCons(env, db, b, msgs[0], Drop(k, msgs[1..]));
      }
    }
  }

  lemma {:induction false} RunKeepsFirst(env: Env, db: Db, b: Option<Prior>, msgs: seq<Message>)
    ensures Run(env, db, b, KeepFirst(msgs)) == Run(env, db, b, msgs)
    decreases |msgs|
  {
    if msgs != [] {
      var out := Step(env, db, b, msgs[0]);
      StepDone(env, db, b, msgs[0]);
      RunKeepsFirst(env, out.db, out.building, msgs[1..]);
      RunDrops(env, out.db, out.building, Key(msgs[0]), KeepFirst(msgs[1..]));
      RunCons(env, db, b, msgs[0], Drop(Key(msgs[0]), KeepFirst(msgs[1..])));
    }
  }

  lemma {:induction false} GroupDrops(k: Option<MessageKey>, s: seq<Message>, sender: string)
    ensures Group(Drop(k, s), sender) == Drop(k, Group(s, sender))
  {
    if s != [] {
      GroupDrops(k, s[1..], sender);
      GroupCons(s[0], Drop(k, s[1..]), sender);
      DropCons(k, s[0], Group(s[1..], sender));
    }
  }

  lemma {:induction false} DropNothing(k: Option<MessageKey>, s: seq<Message>)
    requires forall m | m in s :: k.None? || Key(m) != k
    ensures Drop(k, s) == s
  {
    if s != [] {
      assert s[0] in s && forall m | m in s[1..] :: m in s;
      DropNothing(k, s[1..]);
    }
  }

  lemma {:induction false} KeepFirstIn(s: seq<Message>, m: Message)
    requires m in KeepFirst(s)
    ensures m in s
  {
    if m != s[0] {
      DropIn(Key(s[0]), KeepFirst(s[1..]), m);
      KeepFirstIn(s[1..], m);
    }
  }

  lemma {:induction false} DropIn(k: Option<MessageKey>, s: seq<Message>, m: Message)
    requires m in Drop(k, s)
    ensures m in s
  {
    if m != s[0] {
      DropIn(k, s[1..], m);
    }
  }

  lemma {:induction false} GroupKeepsFirst(batch: seq<Message>, sender: string)
    ensures Group(KeepFirst(batch), sender) == KeepFirst(Group(batch, sender))
  {
    if batch != [] {
      var m, t := batch[0], batch[1..];
      GroupKeepsFirst(t, sender);
      GroupDrops(Key(m), KeepFirst(t), sender);
      GroupCons(m, Drop(Key(m), KeepFirst(t)), sender);
      var g := Group(t, sender);
      if m.sender == sender {
        KeepFirstCons(m, g);
      } else {
        forall x | x in KeepFirst(g) ensures Key(m).None? || Key(x) != Key(m) {
          KeepFirstIn(g, x);
          GroupIn(t, sender, x);
        }
        DropNothing(Key(m), KeepFirst(g));
      }
    }
  }

  lemma {:induction false} SendersDrop(seen: seq<string>, k: Option<MessageKey>, s: seq<Message>)
    requires k.Some? ==> k.value.0 in seen
    ensures SendersAfter(seen, Drop(k, s)) == SendersAfter(seen, s)
    decreases |s|
  {
    if s != [] {
      var next := if s[0].sender in seen then seen else seen + [s[0].sender];
      SendersDrop(next, k, s[1..]);
      SendersCons(seen, s[0], Drop(k, s[1..]));
    }
  }

  lemma {:induction false} SendersKeepFirst(seen: seq<string>, batch: seq<Message>)
    ensures SendersAfter(seen, KeepFirst(batch)) == SendersAfter(seen, batch)
    decreases |batch|
  {
    if batch != [] {
      var m, t := batch[0], batch[1..];
      var next := if m.sender in seen then seen else seen + [m.sender];
      SendersKeepFirst(next, t);
      SendersDrop(next, Key(m), KeepFirst(t));
      SendersCons(seen, m, Drop(Key(m), KeepFirst(t)));
    }
  }

  // ---- the stable sort keeps the first of each key first ------------------------------------

  lemma SentBeforeIsPreorder()
    ensures TotalPreorder(SentBefore)
  {}

  lemma {:induction false} DropInserted(k: Option<MessageKey>, x: Message, s: seq<Message>)
    requires Has(k, x)
    ensures Drop(k, Insert(SentBefore, x, s)) == Drop(k, s)
  {
    if s == [] || SentBefore(x, s[0]) {
      DropCons(k, x, s);
    } else {
      DropInserted(k, x, s[1..]);
      DropCons(k, s[0], Insert(SentBefore, x, s[1..]));
    }
  }

  lemma InsertFirst(x: Message, s: seq<Message>)
    requires forall m | m in s :: x.sentAt <= m.sentAt
    ensures Insert(SentBefore, x, s) == [x] + s
  {
    if s != [] {
      assert s[0] in s;
    }
  }

  lemma FirstIsEarliest(s: seq<Message>, m: Message)
    requires SortedBy(SentBefore, s) && m in s
    ensures s[0].sentAt <= m.sentAt
  {
    var i :| 0 <= i < |s| && s[i] == m;
    assert i > 0 ==> SentBefore(s[0], s[i]);
  }

  lemma {:induction false} InsertDrops(k: Option<MessageKey>, x: Message, s: seq<Message>)
    requires SortedBy(SentBefore, s) && !Has(k, x)
    ensures Insert(SentBefore, x, Drop(k, s)) == Drop(k, Insert(SentBefore, x, s))
  {
    if s == [] {
      DropCons(k, x, s);
    } else if SentBefore(x, s[0]) {
      forall m | m in Drop(k, s) ensures x.sentAt <= m.sentAt {
        DropIn(k, s, m);
        FirstIsEarliest(s, m);
      }
      InsertFirst(x, Drop(k, s));
      DropCons(k, x, s);
    } else {
      InsertDrops(k, x, s[1..]);
      DropCons(k, s[0], Insert(SentBefore, x, s[1..]));
      InsertCons(x, s[0], Drop(k, s[1..]));
    }
  }

  lemma SortCons(m: Message, t: seq<Message>)
    ensures Sort(SentBefore, [m] + t) == Insert(SentBefore, m, Sort(SentBefore, t))
  {
    assert ([m] + t)[1..] == t;
  }

  lemma {:induction false} SortDrops(k: Option<MessageKey>, s: seq<Message>)
    ensures Sort(SentBefore, Drop(k, s)) == Drop(k, Sort(SentBefore, s))
  {
    if s != [] {
      SortDrops(k, s[1..]);
      SentBeforeIsPreorder();
      SortSorts(SentBefore, s[1..]);
      if Has(k, s[0]) {
        DropInserted(k, s[0], Sort(SentBefore, s[1..]));
      } else {
        SortCons(s[0], Drop(k, s[1..]));
        InsertDrops(k, s[0], Sort(SentBefore, s[1..]));
      }
    }
  }

  lemma {:induction false} DropsCommute(j: Option<MessageKey>, k: Option<MessageKey>, s: seq<Message>)
    ensures Drop(j, Drop(k, s)) == Drop(k, Drop(j, s))
  {
    if s != [] {
      DropsCommute(j, k, s[1..]);
      DropCons(j, s[0], Drop(k, s[1..]));
      DropCons(k, s[0], Drop(j, s[1..]));
    }
  }

  lemma {:induction false} KeepFirstSorted(s: seq<Message>)
    requires SortedBy(SentBefore, s)
    ensures SortedBy(SentBefore, KeepFirst(s))
  {
    if s != [] {
      KeepFirstSorted(s[1..]);
      DropSorted(Key(s[0]), KeepFirst(s[1..]));
      var r := Drop(Key(s[0]), KeepFirst(s[1..]));
      forall m | m in r ensures SentBefore(s[0], m) {
        DropIn(Key(s[0]), KeepFirst(s[1..]), m);
        KeepFirstIn(s[1..], m);
      }
      SortedPrepend(s[0], r);
    }
  }

  lemma SortedPrepend(m: Message, r: seq<Message>)
    requires SortedBy(SentBefore, r) && forall x | x in r :: SentBefore(m, x)
    ensures SortedBy(SentBefore, [m] + r)
  {
    forall i, j | 0 <= i < j < |[m] + r| ensures SentBefore(([m] + r)[i], ([m] + r)[j]) {
      assert ([m] + r)[j] == r[j - 1] && r[j - 1] in r;
    }
  }

  lemma {:induction false} DropSorted(k: Option<MessageKey>, s: seq<Message>)
    requires SortedBy(SentBefore, s)
    ensures SortedBy(SentBefore, Drop(k, s))
  {
    if s != [] {
      DropSorted(k, s[1..]);
      var r := Drop(k, s[1..]);
      forall m | m in r ensures SentBefore(s[0], m) {
        DropIn(k, s[1..], m);
      }
      SortedPrepend(s[0], r);
    }
  }

  /** The step of the next lemma: x goes behind h. */
  lemma KeepFirstInsertsLater(x: Message, h: Message, t: seq<Message>)
    requires SortedBy(SentBefore, t) && !SentBefore(x, h)
    requires KeepFirst(Insert(SentBefore, x, t)) == Insert(SentBefore, x, Drop(Key(x), KeepFirst(t)))
    ensures KeepFirst([h] + Insert(SentBefore, x, t)) == Insert(SentBefore, x, Drop(Key(x), KeepFirst([h] + t)))
  {
    var kt := KeepFirst(t);
    KeepFirstSorted(t);
    DropSorted(Key(x), kt);
    KeepFirstCons(h, Insert(SentBefore, x, t));
    InsertDrops(Key(h), x, Drop(Key(x), kt));
    DropsCommute(Key(h), Key(x), kt);
    KeepFirstCons(h, t);
    DropCons(Key(x), h, Drop(Key(h), kt));
    InsertCons(x, h, Drop(Key(x), Drop(Key(h), kt)));
  }

  lemma KeepFirstInsertsNow(x: Message, s: seq<Message>)
    requires SortedBy(SentBefore, s) && s != [] && SentBefore(x, s[0])
    ensures KeepFirst([x] + s) == Insert(SentBefore, x, Drop(Key(x), KeepFirst(s)))
  {
    KeepFirstCons(x, s);
    forall m | m in Drop(Key(x), KeepFirst(s)) ensures x.sentAt <= m.sentAt {
      DropIn(Key(x), KeepFirst(s), m);
      KeepFirstIn(s, m);
      FirstIsEarliest(s, m);
    }
    InsertFirst(x, Drop(Key(x), KeepFirst(s)));
  }

  lemma InsertEmpty(x: Message)
    ensures KeepFirst(Insert(SentBefore, x, [])) == Insert(SentBefore, x, Drop(Key(x), KeepFirst([])))
  {
    assert KeepFirst([]) == [];
    KeepFirstCons(x, []);
    var none: seq<Message> := [];
    assert [x] + none == [x];
  }

  lemma {:induction false} KeepFirstInserts(x: Message, s: seq<Message>)
    requires SortedBy(SentBefore, s)
    ensures KeepFirst(Insert(SentBefore, x, s)) == Insert(SentBefore, x, Drop(Key(x), KeepFirst(s)))
  {
    if s == [] {
      InsertEmpty(x);
    } else {
      var h, t := s[0], s[1..];
      assert s == [h] + t;
      InsertCons(x, h, t);
      if SentBefore(x, h) {
        KeepFirstInsertsNow(x, s);
      } else {
        KeepFirstInserts(x, t);
        KeepFirstInsertsLater(x, h, t);
      }
    }
  }

  lemma {:induction false} SortKeepsFirst(s: seq<Message>)
    ensures Sort(SentBefore, KeepFirst(s)) == KeepFirst(Sort(SentBefore, s))
  {
    if s != [] {
      SortKeepsFirst(s[1..]);
      SentBeforeIsPreorder();
      SortSorts(SentBefore, s[1..]);
      SortDrops(Key(s[0]), KeepFirst(s[1..]));
      KeepFirstInserts(s[0], Sort(SentBefore, s[1..]));
      SortCons(s[0], Drop(Key(s[0]), KeepFirst(s[1..])));
    }
  }

  lemma {:induction false} SendersRunKeepsFirst(env: Env, db: Db, senders: seq<string>, batch: seq<Message>)
    ensures IngestSenders(env, db, senders, KeepFirst(batch)) == IngestSenders(env, db, senders, batch)
    decreases |senders|
  {
    if senders != [] {
      var line := Timeline(batch, senders[0]);
      GroupKeepsFirst(batch, senders[0]);
      SortKeepsFirst(Group(batch, senders[0]));
      RunKeepsFirst(env, db, None, line);
      SendersRunKeepsFirst(env, Run(env, db, None, line), senders[1..], batch);
    }
  }

  /** A batch with repeated keys behaves as the batch that keeps the first of each. */
  lemma RepeatsAreIgnored(env: Env, db: Db, batch: seq<Message>)
    ensures Ingest(env, db, KeepFirst(batch)) == Ingest(env, db, batch)
  {
    SendersKeepFirst([], batch);
    SendersRunKeepsFirst(env, db, SendersAfter([], batch), batch);
  }

  // ---- other senders ------------------------------------------------------------------------

  /** Every document belongs to a case. */
  ghost predicate Owned(db: Db) {
    forall i | 0 <= i < |db.docs| :: db.docs[i].case_ < |db.cases|
  }

  ghost predicate NotOf(db: Db, c: nat, sender: string) {
    c < |db.cases| && db.cases[c].contact != Some(sender)
  }

  /** More cases and documents, none of them the sender's. */
  ghost predicate OthersGrew(db: Db, after: Db, sender: string) {
    db.cases <= after.cases && db.docs <= after.docs && Owned(after) &&
    (forall c | |db.cases| <= c < |after.cases| :: NotOf(after, c, sender)) &&
    forall i | |db.docs| <= i < |after.docs| :: NotOf(after, after.docs[i].case_, sender)
  }

  lemma {:induction false} LastReceivedIgnores(docs: seq<Document>, more: seq<Document>, c: nat, since: int)
    requires docs <= more && forall i | |docs| <= i < |more| :: more[i].case_ != c
    ensures LastReceived(more, c, since) == LastReceived(docs, c, since)
    decreases |more|
  {
    if |docs| < |more| {
      LastReceivedIgnores(docs, more[..|more| - 1], c, since);
    } else {
      assert docs == more;
    }
  }

  lemma {:induction false} LatestIgnoresOthers(db: Db, after: Db, sender: string, n: nat)
    requires OthersGrew(db, after, sender) && n <= |after.cases|
    ensures LatestAmong(after, sender, n) == LatestAmong(db, sender, if n <= |db.cases| then n else |db.cases|)
  {
    if n > 0 {
      LatestIgnoresOthers(db, after, sender, n - 1);
      if n <= |db.cases| {
        ActivityIgnoresOthers(db, after, sender, n - 1);
        var rest := LatestAmong(db, sender, n - 1);
        if rest.Some? {
          ActivityIgnoresOthers(db, after, sender, rest.value);
        }
      } else {
        assert NotOf(after, n - 1, sender);
      }
    }
  }

  lemma ActivityIgnoresOthers(db: Db, after: Db, sender: string, c: nat)
    requires OthersGrew(db, after, sender) && c < |db.cases|
    ensures after.cases[c] == db.cases[c]
    ensures db.cases[c].contact == Some(sender) ==> Activity(after, c) == Activity(db, c)
  {
    if db.cases[c].contact == Some(sender) {
      forall i | |db.docs| <= i < |after.docs| ensures after.docs[i].case_ != c {
        assert NotOf(after, after.docs[i].case_, sender);
      }
      LastReceivedIgnores(db.docs, after.docs, c, db.cases[c].firstContact);
    }
  }

  lemma PriorIgnoresOthers(env: Env, db: Db, after: Db, sender: string)
    requires OthersGrew(db, after, sender)
    ensures LoadPrior(env, after, sender) == LoadPrior(env, db, sender)
  {
    LatestIgnoresOthers(db, after, sender, |after.cases|);
    var r := LatestAmong(db, sender, |db.cases|);
    if r.Some? {
      ActivityIgnoresOthers(db, after, sender, r.value);
    }
  }

  lemma OthersGrewAgain(db: Db, mid: Db, after: Db, sender: string)
    requires OthersGrew(db, mid, sender) && OthersGrew(mid, after, sender)
    ensures OthersGrew(db, after, sender)
  {
    forall c | |db.cases| <= c < |after.cases| ensures NotOf(after, c, sender) {
      if c < |mid.cases| {
        assert NotOf(mid, c, sender) && after.cases[c] == mid.cases[c];
      }
    }
    forall i | |db.docs| <= i < |after.docs| ensures NotOf(after, after.docs[i].case_, sender) {
      if i < |mid.docs| {
        assert after.docs[i] == mid.docs[i] && NotOf(mid, mid.docs[i].case_, sender);
        assert after.cases[mid.docs[i].case_] == mid.cases[mid.docs[i].case_];
      }
    }
  }

  lemma {:induction false} StoreAllGrows(db: Db, c: nat, m: Message, parts: seq<Part>, sender: string)
    requires Owned(db) && NotOf(db, c, sender)
    ensures OthersGrew(db, StoreAll(db, c, m, parts), sender)
    decreases |parts|
  {
    if parts != [] {
      var db1 := Store(db, c, m, parts[0]);
      assert OthersGrew(db, db1, sender);
      StoreAllGrows(db1, c, m, parts[1..], sender);
      OthersGrewAgain(db, db1, StoreAll(db, c, m, parts), sender);
    }
  }

  /** What is being built belongs to someone else. */
  ghost predicate BuildsFor(db: Db, b: Option<Prior>, sender: string) {
    b.Some? ==> NotOf(db, b.value.case_, sender)
  }

  lemma PriorIsNotOf(env: Env, db: Db, b: Option<Prior>, m: Message, sender: string)
    requires BuildsFor(db, b, sender) && m.sender != sender && PriorOf(env, db, b, m.sender).Some?
    ensures NotOf(db, PriorOf(env, db, b, m.sender).value.case_, sender)
  {}

  lemma OpenedGrows(env: Env, db: Db, b: Option<Prior>, m: Message, sender: string)
    requires Owned(db) && BuildsFor(db, b, sender) && m.sender != sender
    ensures OthersGrew(db, Opened(env, db, b, m), sender) && NotOf(Opened(env, db, b, m), Target(env, db, b, m), sender)
  {
    var after := Opened(env, db, b, m);
    var prior := PriorOf(env, db, b, m.sender);
    if DecideWindow(m, prior, env.llm).FollowUp? {
      NeverMergesOnAGuess(m, prior, env.llm);
      PriorIsNotOf(env, db, b, m, sender);
      assert after == db;
    } else {
      assert after.cases == db.cases + [NewCase(m)] && after.docs == db.docs;
      assert NotOf(after, |db.cases|, sender);
    }
  }

  lemma CompletedGrows(db: Db, after: Db, m: Message, sender: string)
    requires OthersGrew(db, after, sender)
    ensures OthersGrew(db, Completed(after, m), sender)
  {
    var d := Completed(after, m);
    assert d.cases == after.cases && d.docs == after.docs;
    forall c | |db.cases| <= c < |d.cases| ensures NotOf(d, c, sender) {
      assert NotOf(after, c, sender);
    }
    forall i | |db.docs| <= i < |d.docs| ensures NotOf(d, d.docs[i].case_, sender) {
      assert NotOf(after, after.docs[i].case_, sender);
    }
  }

  lemma StepGrows(env: Env, db: Db, b: Option<Prior>, m: Message, sender: string)
    requires Owned(db) && BuildsFor(db, b, sender) && m.sender != sender
    ensures OthersGrew(db, Step(env, db, b, m).db, sender)
    ensures BuildsFor(Step(env, db, b, m).db, Step(env, db, b, m).building, sender)
  {
    if !Skipped(db, m) {
      var with1, c := Opened(env, db, b, m), Target(env, db, b, m);
      OpenedGrows(env, db, b, m, sender);
      var stored := StoreAll(with1, c, m, Parts(m));
      StoreAllGrows(with1, c, m, Parts(m), sender);
      OthersGrewAgain(db, with1, stored, sender);
      CompletedGrows(db, stored, m, sender);
      assert Step(env, db, b, m).db == Completed(stored, m);
    }
  }

  lemma {:induction false} RunGrows(env: Env, db: Db, b: Option<Prior>, msgs: seq<Message>, sender: string)
    requires Owned(db) && BuildsFor(db, b, sender) && forall m | m in msgs :: m.sender != sender
    ensures OthersGrew(db, Run(env, db, b, msgs), sender)
    decreases |msgs|
  {
    if msgs != [] {
      var out := Step(env, db, b, msgs[0]);
      assert msgs[0] in msgs && forall m | m in msgs[1..] :: m in msgs;
      StepGrows(env, db, b, msgs[0], sender);
      RunGrows(env, out.db, out.building, msgs[1..], sender);
      OthersGrewAgain(db, out.db, Run(env, db, b, msgs), sender);
    }
  }

  lemma {:induction false} SendersGrow(env: Env, db: Db, senders: seq<string>, batch: seq<Message>, sender: string)
    requires Owned(db) && sender !in senders
    ensures OthersGrew(db, IngestSenders(env, db, senders, batch), sender)
    decreases |senders|
  {
    if senders != [] {
      var line := Timeline(batch, senders[0]);
      forall m | m in line ensures m.sender != sender {
        TimelineIn(batch, senders[0], m);
      }
      RunGrows(env, db, None, line, sender);
      var db1 := Run(env, db, None, line);
      SendersGrow(env, db1, senders[1..], batch, sender);
      OthersGrewAgain(db, db1, IngestSenders(env, db, senders, batch), sender);
    }
  }

  /** The senders before one in the batch do not touch the case it may join. */
  lemma OtherSendersAreSeparate(env: Env, db: Db, senders: seq<string>, batch: seq<Message>, sender: string)
    requires Owned(db) && sender !in senders
    ensures LoadPrior(env, IngestSenders(env, db, senders, batch), sender) == LoadPrior(env, db, sender)
  {
    SendersGrow(env, db, senders, batch, sender);
    PriorIgnoresOthers(env, db, IngestSenders(env, db, senders, batch), sender);
  }
}
