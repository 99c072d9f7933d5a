/** Ingest and conversation windowing. */
module Intake {
  // engine/app/intake/ingest.py and engine/app/intake/windowing.py. Texts stand for their UTF-8 bytes, times are
  // microseconds, the classifier answers anything, and a batch runs in one transaction.

  import opened Options
  import opened Order

  const OPEN_IDLE := 86400000000
  const TERMINAL_REOPEN := 345600000000
  const PRIOR_TEXT_CHARS: nat := 500

  datatype Attachment = Attachment(data: string, mime: string, missing: bool)
  datatype Message = Message(sender: string, sentAt: int, channel: string, text: string, attachments: seq<Attachment>)

  // ---- windowing ----------------------------------------------------------------------------

  datatype Prior = Prior(case_: nat, state: string, lastActivity: int, text: string)
  datatype Decision = New | FollowUp(case_: nat)

  /** What the classifier gives: no usable answer, or its decision. */
  datatype Verdict = Unusable | Answer(decision: string)
  type Classifier = (Message, Prior) -> Verdict

  /** `_classify`: anything but a clear "follow_up" opens a new case. */
  function Classify(llm: Classifier, m: Message, prior: Prior): Decision {
    var v := llm(m, prior);
    if v.Answer? && v.decision == "follow_up" then FollowUp(prior.case_) else New
  }

  function Abs(x: int): nat {
    if x < 0 then -x else x
  }

  /** `decide_window`. */
  function DecideWindow(m: Message, prior: Option<Prior>, llm: Option<Classifier>): Decision {
    if prior.None? then New
    else
      var p := prior.value;
      var gap := m.sentAt - p.lastActivity;
      if p.state == "committed" then
        if gap > TERMINAL_REOPEN || llm.None? then New else Classify(llm.value, m, p)
      else if Abs(gap) <= OPEN_IDLE then FollowUp(p.case_)
      else if llm.None? then New
      else Classify(llm.value, m, p)
  }

  /** A message joins no case but the sender's latest, and a distant or closed one only on the classifier's
      word. */
  lemma NeverMergesOnAGuess(m: Message, prior: Option<Prior>, llm: Option<Classifier>)
    requires DecideWindow(m, prior, llm).FollowUp?
    ensures prior.Some? && DecideWindow(m, prior, llm).case_ == prior.value.case_
    ensures prior.value.state == "committed" || Abs(m.sentAt - prior.value.lastActivity) > OPEN_IDLE ==>
            llm.Some? && llm.value(m, prior.value) == Answer("follow_up")
    ensures prior.value.state == "committed" ==> m.sentAt - prior.value.lastActivity <= TERMINAL_REOPEN
  {}

  const HOUR := 3600 * 1000000

  /** The classifier says so, in the one word that counts. */
  ghost predicate SaysFollowUp(m: Message, prior: Prior, llm: Option<Classifier>) {
    llm.Some? && llm.value(m, prior) == Answer("follow_up")
  }

  /** Exactly when a message follows up: there is a prior case, and either it is open and its activity within
      24 hours either side, or the classifier says so, and for a committed case within four days of it. */
  lemma FollowsUpExactlyWhen(m: Message, prior: Option<Prior>, llm: Option<Classifier>)
    ensures DecideWindow(m, prior, llm).FollowUp? <==>
      prior.Some? &&
      var p := prior.value;
      if p.state == "committed" then m.sentAt <= p.lastActivity + 4 * 24 * HOUR && SaysFollowUp(m, p, llm)
      else p.lastActivity - 24 * HOUR <= m.sentAt <= p.lastActivity + 24 * HOUR || SaysFollowUp(m, p, llm)
    ensures DecideWindow(m, prior, llm) in {New, FollowUp(if prior.Some? then prior.value.case_ else 0)}
  {}

  // ---- what a message stores ----------------------------------------------------------------

  datatype Part = Part(data: string, mime: string, kind: string)

  function FileParts(a: Attachment): seq<Part> {
    if a.missing || a.data == "" then [] else [Part(a.data, a.mime, "file")]
  }

  function Files(attachments: seq<Attachment>): seq<Part> {
    if attachments == [] then [] else FileParts(attachments[0]) + Files(attachments[1..])
  }

  /** The documents of a message: its text, then each attachment with bytes. */
  function Parts(m: Message): seq<Part> {
    (if m.text == "" then [] else [Part(m.text, "text/plain", "message")]) + Files(m.attachments)
  }

  type MessageKey = (string, int, string)

  function FirstData(attachments: seq<Attachment>): Option<string> {
    if attachments == [] then None
    else if attachments[0].data != "" && !attachments[0].missing then Some(attachments[0].data)
    else FirstData(attachments[1..])
  }

  /** `_message_key`, before the hash. */
  function Key(m: Message): Option<MessageKey> {
    var content := if m.text != "" then Some(m.text) else FirstData(m.attachments);
    if content.None? then None else Some((m.sender, m.sentAt, content.value))
  }

  lemma {:induction false} FirstDataIsFirstFile(attachments: seq<Attachment>)
    ensures FirstData(attachments) == if Files(attachments) == [] then None else Some(Files(attachments)[0].data)
  {
    if attachments != [] {
      FirstDataIsFirstFile(attachments[1..]);
    }
  }

  /** A message has a key exactly when it stores something. */
  lemma KeyedExactlyWhenStorable(m: Message)
    ensures Key(m).Some? <==> Parts(m) != []
    ensures Key(m).Some? ==> Key(m).value == (m.sender, m.sentAt, Parts(m)[0].data)
  {
    FirstDataIsFirstFile(m.attachments);
  }

  // ---- the tables ---------------------------------------------------------------------------

  datatype Case = Case(channel: string, firstContact: int, contact: Option<string>, state: string)
  datatype Document = Document(case_: nat, data: string, mime: string, channel: string, received: int, kind: string)

  /** Cases and documents are numbered in order of creation; `done` is the intake stage of the ledger. */
  datatype Db = Db(cases: seq<Case>, docs: seq<Document>, done: set<MessageKey>, jobs: seq<nat>)

  /** The document that holds the bytes, or the next number. */
  function FindData(docs: seq<Document>, data: string): (i: nat)
    ensures i <= |docs| && (i < |docs| ==> docs[i].data == data)
    ensures forall j | 0 <= j < i :: docs[j].data != data
  {
    if docs == [] then 0 else if docs[0].data == data then 0 else 1 + FindData(docs[1..], data)
  }

  /** `_store_and_queue`: the tenant's document with these bytes, stored unless it exists, and its job. */
  function Store(db: Db, c: nat, m: Message, part: Part): Db {
    var i := FindData(db.docs, part.data);
    db.(docs := if i < |db.docs| then db.docs else db.docs + [Document(c, part.data, part.mime, m.channel, m.sentAt, part.kind)],
        jobs := db.jobs + [i])
  }

  function StoreAll(db: Db, c: nat, m: Message, parts: seq<Part>): Db
    decreases |parts|
  {
    if parts == [] then db else StoreAll(Store(db, c, m, parts[0]), c, m, parts[1..])
  }

  function Activity(db: Db, c: nat): int
    requires c < |db.cases|
  {
    LastReceived(db.docs, c, db.cases[c].firstContact)
  }

  function LastReceived(docs: seq<Document>, c: nat, since: int): int {
    if docs == [] then since
    else
      var rest := LastReceived(docs[..|docs| - 1], c, since);
      if docs[|docs| - 1].case_ == c && docs[|docs| - 1].received > rest then docs[|docs| - 1].received else rest
  }

  /** The sender's case with the latest activity among the first n. */
  function LatestAmong(db: Db, sender: string, n: nat): (r: Option<nat>)
    requires n <= |db.cases|
    ensures r.Some? ==> r.value < n && db.cases[r.value].contact == Some(sender)
  {
    if n == 0 then None
    else
      var rest := LatestAmong(db, sender, n - 1);
      if db.cases[n - 1].contact == Some(sender) && (rest.None? || Activity(db, rest.value) <= Activity(db, n - 1))
      then Some(n - 1) else rest
  }

  datatype Env = Env(llm: Option<Classifier>, caseText: nat -> string)

  function Suffix(s: string): string {
    if |s| <= PRIOR_TEXT_CHARS then s else s[|s| - PRIOR_TEXT_CHARS..]
  }

  /** `_load_prior`. */
  function LoadPrior(env: Env, db: Db, sender: string): Option<Prior> {
    var c := LatestAmong(db, sender, |db.cases|);
    if sender == "" || c.None? then None
    else Some(Prior(c.value, db.cases[c.value].state, Activity(db, c.value), Suffix(env.caseText(c.value))))
  }

  /** It is the latest: no case of the sender was active later. */
  lemma {:induction false} LatestIsLatest(db: Db, sender: string, n: nat, c: nat)
    requires c < n <= |db.cases| && db.cases[c].contact == Some(sender)
    ensures var r := LatestAmong(db, sender, n); r.Some? && Activity(db, c) <= Activity(db, r.value)
  {
    if c < n - 1 {
      LatestIsLatest(db, sender, n - 1, c);
    }
  }

  // ---- one message --------------------------------------------------------------------------

  function Joined(prior: Option<Prior>, building: Option<Prior>, text: string): string {
    if prior.Some? && building.Some?
    then (if text == "" then prior.value.text else prior.value.text + " " + text)
    else text
  }

  datatype Out = Out(db: Db, building: Option<Prior>)

  predicate Skipped(db: Db, m: Message) {
    Key(m).Some? && Key(m).value in db.done
  }

  function PriorOf(env: Env, db: Db, building: Option<Prior>, sender: string): Option<Prior> {
    if building.Some? then building else LoadPrior(env, db, sender)
  }

  /** The case the message goes to; the next number for a new one. */
  function Target(env: Env, db: Db, building: Option<Prior>, m: Message): nat {
    var d := DecideWindow(m, PriorOf(env, db, building, m.sender), env.llm);
    if d.FollowUp? then d.case_ else |db.cases|
  }

  function NewCase(m: Message): Case {
    Case(m.channel, m.sentAt, if m.sender == "" then None else Some(m.sender), "created")
  }

  function Opened(env: Env, db: Db, building: Option<Prior>, m: Message): Db {
    if DecideWindow(m, PriorOf(env, db, building, m.sender), env.llm).FollowUp? then db
    else db.(cases := db.cases + [NewCase(m)])
  }

  function Completed(db: Db, m: Message): Db {
    if Key(m).Some? then db.(done := db.done + {Key(m).value}) else db
  }

  function NextBuilding(env: Env, db: Db, building: Option<Prior>, m: Message): Prior {
    Prior(Target(env, db, building, m), "created", m.sentAt,
      Suffix(Joined(PriorOf(env, db, building, m.sender), building, m.text)))
  }

  /** The body of the message loop. */
  function Step(env: Env, db: Db, building: Option<Prior>, m: Message): Out {
    if Skipped(db, m) then Out(db, building)
    else
      Out(Completed(StoreAll(Opened(env, db, building, m), Target(env, db, building, m), m, Parts(m)), m),
        Some(NextBuilding(env, db, building, m)))
  }

  /** One sender's messages in order. */
  function Run(env: Env, db: Db, building: Option<Prior>, msgs: seq<Message>): Db
    decreases |msgs|
  {
    if msgs == [] then db
    else
      var out := Step(env, db, building, msgs[0]);
      Run(env, out.db, out.building, msgs[1..])
  }

  // ---- the batch ----------------------------------------------------------------------------

  function Group(batch: seq<Message>, sender: string): seq<Message> {
    if batch == [] then []
    else if batch[0].sender == sender then [batch[0]] + Group(batch[1..], sender)
    else Group(batch[1..], sender)
  }

  lemma GroupCons(m: Message, t: seq<Message>, sender: string)
    ensures Group([m] + t, sender) == if m.sender == sender then [m] + Group(t, sender) else Group(t, sender)
  {
    assert ([m] + t)[1..] == t;
  }

  /** The senders in the order of their first messages, after those already seen. */
  function SendersAfter(seen: seq<string>, batch: seq<Message>): seq<string>
    decreases |batch|
  {
    if batch == [] then seen
    else SendersAfter(if batch[0].sender in seen then seen else seen + [batch[0].sender], batch[1..])
  }

  predicate SentBefore(a: Message, b: Message) {
    a.sentAt <= b.sentAt
  }

  function Timeline(batch: seq<Message>, sender: string): seq<Message> {
    Sort(SentBefore, Group(batch, sender))
  }

  function IngestSenders(env: Env, db: Db, senders: seq<string>, batch: seq<Message>): Db
    decreases |senders|
  {
    if senders == [] then db
    else IngestSenders(env, Run(env, db, None, Timeline(batch, senders[0])), senders[1..], batch)
  }

  /** `ingest_messages`. */
  function Ingest(env: Env, db: Db, batch: seq<Message>): Db {
    IngestSenders(env, db, SendersAfter([], batch), batch)
  }
}
