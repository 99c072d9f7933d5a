/** The ingest loops over the tables, proved against `Intake.Ingest`. */
module IntakeSession {
  import opened Options
  import opened Order
  import opened Intake

  lemma {:induction false} GroupAppends(batch: seq<Message>, m: Message, sender: string)
    ensures Group(batch + [m], sender) == Group(batch, sender) + if m.sender == sender then [m] else []
  {
    hide Group;
    var mine: seq<Message> := if m.sender == sender then [m] else [];
    if batch == [] {
      GroupOfNone(sender);
      GroupCons(m, [], sender);
      assert batch + [m] == [m] + batch;
    } else {
      var h, t := batch[0], batch[1..];
      GroupAppends(t, m, sender);
      GroupCons(h, t, sender);
      GroupCons(h, t + [m], sender);
      assert batch == [h] + t;
      ConcatConcat([h], t, [m]);
      ConcatConcat([h], Group(t, sender), mine);
    }
  }

  lemma ConcatConcat<T>(a: seq<T>, b: seq<T>, c: seq<T>)
    ensures (a + b) + c == a + (b + c)
  {}

  lemma GroupOfNone(sender: string)
    ensures Group([], sender) == []
  {}

  /** The dictionary of the senders' messages. */
  ghost predicate Grouped(batch: seq<Message>, groups: map<string, seq<Message>>) {
    forall s :: (if s in groups then groups[s] else []) == Group(batch, s)
  }

  lemma GroupedNone()
    ensures Grouped([], map[])
  {}

  lemma GroupedStep(batch: seq<Message>, m: Message, groups: map<string, seq<Message>>)
    requires Grouped(batch, groups)
    ensures Grouped(batch + [m], groups[m.sender := (if m.sender in groups then groups[m.sender] else []) + [m]])
  {
    hide Group;
    forall s ensures Group(batch + [m], s) == Group(batch, s) + if m.sender == s then [m] else [] {
      GroupAppends(batch, m, s);
    }
  }

  lemma SendersStep(order: seq<string>, batch: seq<Message>, i: nat)
    requires i < |batch|
    ensures SendersAfter(order, batch[i..]) ==
      SendersAfter(if batch[i].sender in order then order else order + [batch[i].sender], batch[i + 1..])
  {
    assert batch[i..][1..] == batch[i + 1..];
  }

  /** The grouping loop. */
  method GroupBySender(batch: seq<Message>) returns (order: seq<string>, groups: map<string, seq<Message>>)
    ensures order == SendersAfter([], batch) && Grouped(batch, groups)
    ensures forall s | s in order :: s in groups
  {
    hide Grouped, SendersAfter;
    order, groups := [], map[];
    GroupedNone();
    assert batch[..0] == [] && batch[0..] == batch;
    for i := 0 to |batch|
      invariant SendersAfter(order, batch[i..]) == SendersAfter([], batch)
      invariant Grouped(batch[..i], groups)
      invariant forall s :: s in order <==> s in groups
    {
      var m := batch[i];
      SendersStep(order, batch, i);
      GroupedStep(batch[..i], m, groups);
      assert batch[..i + 1] == batch[..i] + [m];
      if m.sender !in groups {
        order := order + [m.sender];
        groups := groups[m.sender := [m]];
        assert [] + [m] == [m];
      } else {
        groups := groups[m.sender := groups[m.sender] + [m]];
      }
    }
    NoMoreSenders(order);
    assert batch[..|batch|] == batch && batch[|batch|..] == [];
  }

  lemma NoMoreSenders(order: seq<string>)
    ensures SendersAfter(order, []) == order
  {}

  class Session {
    var cases: seq<Case>
    var docs: seq<Document>
    var done: set<MessageKey>
    var jobs: seq<nat>

    function State(): Db
      reads this
    {
      Db(cases, docs, done, jobs)
    }

    constructor ()
      ensures State() == Db([], [], {}, [])
    {
      cases, docs, done, jobs := [], [], {}, [];
    }

    /** `create_case`. */
    method CreateCase(m: Message) returns (c: nat)
      modifies this`cases
      ensures c == old(|cases|) && cases == old(cases) + [NewCase(m)]
    {
      c := |cases|;
      cases := cases + [NewCase(m)];
    }

    /** `add_source_document`: the row with these bytes, inserted when there is none. */
    method AddSourceDocument(d: Document) returns (i: nat)
      modifies this`docs
      ensures i == FindData(old(docs), d.data) && i < |docs| && docs[i].data == d.data
      ensures docs == if i < |old(docs)| then old(docs) else old(docs) + [d]
    {
      i := FindData(docs, d.data);
      if i == |docs| {
        docs := docs + [d];
      }
    }

    /** `_store_and_queue`. */
    method StoreAndQueue(c: nat, m: Message, part: Part) returns (i: nat)
      modifies this`docs, this`jobs
      ensures State() == Store(old(State()), c, m, part)
      ensures jobs == old(jobs) + [i] && i < |docs| && docs[i].data == part.data
    {
      i := AddSourceDocument(Document(c, part.data, part.mime, m.channel, m.sentAt, part.kind));
      jobs := jobs + [i];
    }

    /** The text of a message, if it has one. */
    method StoreText(c: nat, m: Message)
      modifies this`docs, this`jobs
      ensures StoreAll(State(), c, m, Files(m.attachments)) == StoreAll(old(State()), c, m, Parts(m))
    {
      if m.text != "" {
        var i := StoreAndQueue(c, m, Part(m.text, "text/plain", "message"));
        assert Parts(m)[1..] == Files(m.attachments);
      } else {
        assert Parts(m) == Files(m.attachments);
      }
    }

    /** One attachment, or one more that is missing. */
    method StoreFile(c: nat, m: Message, a: Attachment, ghost rest: seq<Part>) returns (missing: nat)
      modifies this`docs, this`jobs
      ensures StoreAll(State(), c, m, rest) == StoreAll(old(State()), c, m, FileParts(a) + rest)
      ensures missing == 1 - |FileParts(a)|
    {
      if a.missing || a.data == "" {
        assert FileParts(a) + rest == rest;
        return 1;
      }
      var i := StoreAndQueue(c, m, Part(a.data, a.mime, "file"));
      assert (FileParts(a) + rest)[1..] == rest;
      return 0;
    }

    /** The text and then the attachments of a message; `missing` counts those without bytes. */
    method StoreParts(c: nat, m: Message) returns (missing: nat)
      modifies this`docs, this`jobs
      ensures State() == StoreAll(old(State()), c, m, Parts(m))
      ensures missing == |m.attachments| - |Files(m.attachments)|
    {
      hide Store, FileParts, Parts;
      missing := 0;
      ghost var start, all := State(), Files(m.attachments);
      StoreText(c, m);
      for j := 0 to |m.attachments|
        invariant StoreAll(State(), c, m, Files(m.attachments[j..])) == StoreAll(start, c, m, Parts(m))
        invariant missing == j - |all| + |Files(m.attachments[j..])|
      {
        ghost var rest := Files(m.attachments[j + 1..]);
        assert m.attachments[j..][0] == m.attachments[j] && m.attachments[j..][1..] == m.attachments[j + 1..];
        var one := StoreFile(c, m, m.attachments[j], rest);
        missing := missing + one;
      }
      assert m.attachments[|m.attachments|..] == [];
    }

    /** Where a message goes, opening the case when it is new. */
    method Place(env: Env, building: Option<Prior>, m: Message) returns (c: nat, prior: Option<Prior>)
      modifies this`cases
      ensures prior == PriorOf(env, old(State()), building, m.sender)
      ensures c == Target(env, old(State()), building, m) && State() == Opened(env, old(State()), building, m)
    {
      prior := if building.Some? then building else LoadPrior(env, State(), m.sender);
      var decision := DecideWindow(m, prior, env.llm);
      if decision.FollowUp? {
        c := decision.case_;
      } else {
        c := CreateCase(m);
      }
    }

    /** The body of the message loop. */
    method IngestMessage(env: Env, building: Option<Prior>, m: Message) returns (next: Option<Prior>)
      modifies this
      ensures Out(State(), next) == Step(env, old(State()), building, m)
    {
      var key := Key(m);
      if key.Some? && key.value in done {
        return building;
      }
      var c, prior := Place(env, building, m);
      var missing := StoreParts(c, m);
      if key.Some? {
        done := done + {key.value};
      }
      next := Some(Prior(c, "created", m.sentAt, Suffix(Joined(prior, building, m.text))));
    }

    /** The message loop of one sender. */
    method IngestSender(env: Env, msgs: seq<Message>)
      modifies this
      ensures State() == Run(env, old(State()), None, msgs)
    {
      var building: Option<Prior> := None;
      for i := 0 to |msgs|
        invariant Run(env, State(), building, msgs[i..]) == Run(env, old(State()), None, msgs)
      {
        assert msgs[i..][0] == msgs[i] && msgs[i..][1..] == msgs[i + 1..];
        building := IngestMessage(env, building, msgs[i]);
      }
      assert msgs[|msgs|..] == [];
    }

    /** `ingest_messages`. */
    method IngestMessages(env: Env, batch: seq<Message>)
      modifies this
      ensures State() == Ingest(env, old(State()), batch)
    {
      var order, groups := GroupBySender(batch);
      for i := 0 to |order|
        invariant IngestSenders(env, State(), order[i..], batch) == IngestSenders(env, old(State()), order, batch)
      {
        assert order[i..][0] == order[i] && order[i..][1..] == order[i + 1..];
        assert groups[order[i]] == Group(batch, order[i]);
        IngestSender(env, Sort(SentBefore, groups[order[i]]));
      }
      assert order[|order|..] == [];
    }
  }
}
