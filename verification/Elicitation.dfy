/** The elicitation machine: policy, stage and dispatch. */
module Elicitation {
  // The pure policy (engine/app/elicit/policy.py), the state-keyed stage that spends the question budget
  // (engine/app/elicit/stage.py) and the once-only dispatch (engine/app/channel/dispatch.py).
  //
  // Stages of one case run one after the other. Object resolution, the wording of a confirmation and the
  // word-overlap test are arbitrary inputs of a turn. Hashes are injective.

  import opened Options
  import opened Order

  const DRILL_BUDGET := 2
  const TOTAL_CAP := 3

  const ANCHOR_Q := "To pull up your case, what's your order number — or the phone number you used to order?"
  const FAULT_Q := "What happened? A sentence or two is all we need — it goes straight to the person handling it."
  const OUTCOME_Q := "What would you like us to do to put this right?"
  const CLARIFY_Q := "Just so we route this right — can you tell us briefly what the issue is?"
  const FAULT_NARROW_Q := "What went wrong with it?"
  const OUTCOME_OPTIONS := ["Refund", "Replacement", "Fix it", "An answer", "Escalate"]
  const FAULT_OPTIONS := ["It was late", "It was wrong or faulty", "It never arrived", "Something else"]

  datatype State = Created | Incomplete | Actionable | InReview | Committed | ProcessingFailed
  datatype Kind = Anchor | Drill
  /** What a question is after; not stored, but every branch of the policy has one. */
  datatype Target = TheAnchor | TheFault | TheOutcome | TheCategory
  datatype Question = Question(kind: Kind, target: Target, text: string, options: Option<seq<string>>)
  datatype Plan = Plan(state: State, question: Option<Question>)

  /** The keyword arguments of `decide`; an empty text stands for None. */
  datatype Situation = Situation(
    emotion: string, hasAnchor: bool, anchorAsked: bool, questionCount: nat, confirmation: string,
    faultGrounded: bool, categoryKnown: bool, faultPrompt: string, faultOptions: Option<seq<string>>)

  // ---- the policy -------------------------------------------------------------------------

  const ESSENTIALS := {"category", "fault", "desired_outcome"}

  /** The fields that survive the grounding filter. */
  function Effective(present: set<string>, grounded: bool): set<string> {
    if grounded then present else present - {"fault", "category"}
  }

  function DrillsUsed(s: Situation): int {
    s.questionCount - (if s.anchorAsked then 1 else 0)
  }

  predicate BudgetLeft(s: Situation) {
    DrillsUsed(s) < DRILL_BUDGET && s.questionCount < TOTAL_CAP
  }

  predicate Contentless(present: set<string>, s: Situation) {
    "fault" !in Effective(present, s.faultGrounded) && !s.hasAnchor && !s.categoryKnown
  }

  function Ask(q: Question): Plan {
    Plan(Incomplete, Some(q))
  }

  function Decide(present: set<string>, s: Situation): Plan {
    var effective := Effective(present, s.faultGrounded);
    if ESSENTIALS <= effective then Plan(Actionable, None)
    else if Contentless(present, s) && BudgetLeft(s) then Ask(Question(Drill, TheFault, FAULT_Q, None))
    else if s.emotion == "angry" then Plan(InReview, None)
    else if !s.hasAnchor && !s.anchorAsked && s.questionCount < TOTAL_CAP then Ask(Question(Anchor, TheAnchor, ANCHOR_Q, None))
    else if DrillsUsed(s) >= DRILL_BUDGET || s.questionCount >= TOTAL_CAP then Plan(InReview, None)
    else if "fault" !in effective then
      Ask(Question(Drill, TheFault, if s.faultPrompt != "" then s.faultPrompt else FAULT_Q,
                   if s.faultPrompt != "" then s.faultOptions else None))
    else if "desired_outcome" !in present then
      Ask(Question(Drill, TheOutcome, if s.confirmation != "" then s.confirmation + " " + OUTCOME_Q else OUTCOME_Q, Some(OUTCOME_OPTIONS)))
    else if "category" !in effective then Ask(Question(Drill, TheCategory, CLARIFY_Q, None))
    else Plan(Actionable, None)
  }

  /** A case is actionable exactly when the three essentials survive the grounding filter, so the last
      return of `decide` is never taken. */
  lemma ActionableExactlyOnEssentials(present: set<string>, s: Situation)
    ensures Decide(present, s).state == Actionable <==>
      "desired_outcome" in present && "category" in present && "fault" in present && s.faultGrounded
  {
    var e := Effective(present, s.faultGrounded);
    assert ESSENTIALS <= e <==> "category" in e && "fault" in e && "desired_outcome" in e;
  }

  /** A question goes with the incomplete state only, never asks for what is already known, and is paid
      for out of the budget. */
  lemma QuestionsAreJustified(present: set<string>, s: Situation)
    ensures var p := Decide(present, s);
      (p.question.Some? <==> p.state == Incomplete) &&
      (p.question.Some? ==>
        var q := p.question.value;
        s.questionCount < TOTAL_CAP &&
        (q.kind == Drill ==> DrillsUsed(s) < DRILL_BUDGET) &&
        (q.kind == Anchor <==> q.target == TheAnchor) &&
        match q.target
        case TheAnchor => !s.hasAnchor && !s.anchorAsked
        case TheFault => "fault" !in Effective(present, s.faultGrounded)
        case TheOutcome => "desired_outcome" !in present && "fault" in Effective(present, s.faultGrounded)
        case TheCategory => "category" !in Effective(present, s.faultGrounded) && "desired_outcome" in present)
  {
    ActionableExactlyOnEssentials(present, s);
  }

  /** An angry customer is asked at most what happened, and only with nothing to go on. */
  lemma AngryIsHandedOff(present: set<string>, s: Situation)
    requires s.emotion == "angry" && Decide(present, s).state != Actionable
    ensures var p := Decide(present, s);
      if Contentless(present, s) && BudgetLeft(s) then p == Ask(Question(Drill, TheFault, FAULT_Q, None)) else p == Plan(InReview, None)
  {}

  /** Two drills or three questions are spent. */
  predicate Spent(s: Situation) {
    s.questionCount - (if s.anchorAsked then 1 else 0) >= 2 || s.questionCount >= 3
  }

  predicate Asks(p: Plan, target: Target) {
    p.state == Incomplete && p.question.Some? && p.question.value.target == target
  }

  /** The whole policy, case by case. It is done when category, fault and outcome are there and grounded. With
      nothing to go on it asks what happened, while it may. Otherwise an angry customer is handed off. A calm
      one is asked once for an anchor that is not known, is handed off when the drills or questions are spent,
      and until then is asked for the fault, then the outcome, then the category. */
  lemma PolicyExactly(present: set<string>, s: Situation)
    ensures var p := Decide(present, s);
      var fault, outcome, category := "fault" in present && s.faultGrounded, "desired_outcome" in present, "category" in present && s.faultGrounded;
      var done, content := fault && outcome && category, fault || s.hasAnchor || s.categoryKnown;
      var anchor := !s.hasAnchor && !s.anchorAsked && s.questionCount < 3;
      var calm := s.emotion != "angry" && !anchor && !Spent(s);
      (p.state == Actionable <==> done) &&
      (p.state == InReview <==> !done && !(!content && !Spent(s)) && (s.emotion == "angry" || (!anchor && Spent(s)))) &&
      (Asks(p, TheAnchor) <==> !done && !(!content && !Spent(s)) && s.emotion != "angry" && anchor) &&
      (Asks(p, TheFault) <==> !fault && ((!content && !Spent(s)) || calm)) &&
      (Asks(p, TheOutcome) <==> fault && !outcome && calm) &&
      (Asks(p, TheCategory) <==> fault && outcome && !category && calm)
  {
    ActionableExactlyOnEssentials(present, s);
  }

  /** And how each question is put: what happened is asked in the prompt's words, with its options, if the
      customer gave anything to go on and there is a prompt; the outcome is asked behind the confirmation. */
  lemma WordingExactly(present: set<string>, s: Situation)
    requires Decide(present, s).question.Some?
    ensures var q := Decide(present, s).question.value;
      var content := ("fault" in present && s.faultGrounded) || s.hasAnchor || s.categoryKnown;
      match q.target
      case TheAnchor => q == Question(Anchor, TheAnchor, ANCHOR_Q, None)
      case TheFault => q == if content && s.faultPrompt != "" then Question(Drill, TheFault, s.faultPrompt, s.faultOptions) else Question(Drill, TheFault, FAULT_Q, None)
      case TheOutcome =>
        q == Question(Drill, TheOutcome, if s.confirmation == "" then OUTCOME_Q else s.confirmation + " " + OUTCOME_Q, Some(OUTCOME_OPTIONS))
      case TheCategory => q == Question(Drill, TheCategory, CLARIFY_Q, None)
  {}

  // ---- the stage --------------------------------------------------------------------------

  /** One case: its row, the elicit keys that are done, and its outbound ledger. */
  datatype Case = Case(
    state: State, questionCount: nat, anchorAsked: bool, pending: Option<string>,
    elicited: set<map<string, string>>, sent: seq<string>)

  /** What one run of the stage reads besides the case row. */
  datatype Turn = Turn(governed: map<string, string>, resolved: bool, confirmation: string, attested: bool)

  const FRESH := Case(Created, 0, false, None, {}, [])

  predicate HandedOff(state: State) {
    state == InReview || state == Committed
  }

  /** A missing category counts as known: only `other` and `UNCLEAR` do not. */
  predicate CategoryKnown(t: Turn) {
    "category" in t.governed ==> t.governed["category"] != "other" && t.governed["category"] != "UNCLEAR"
  }

  function SituationOf(c: Case, t: Turn): Situation {
    var firstDrill := c.questionCount <= (if c.anchorAsked then 1 else 0);
    var stated := if firstDrill && t.resolved then t.confirmation else "";
    var prompt := if stated != "" then stated + " " + FAULT_NARROW_Q else "";
    Situation(
      if "emotion_signal" in t.governed then t.governed["emotion_signal"] else "",
      ("anchor_value" in t.governed && t.governed["anchor_value"] != "") || t.resolved,
      c.anchorAsked, c.questionCount, stated,
      "fault" in t.governed && t.attested && CategoryKnown(t), CategoryKnown(t),
      prompt, if prompt != "" then Some(FAULT_OPTIONS) else None)
  }

  /** The committed transaction of `elicit_case`, with the question it issues. */
  function Elicit(c: Case, t: Turn): (Case, Option<Question>) {
    if HandedOff(c.state) || t.governed in c.elicited then (c, None)
    else
      var plan := Decide(t.governed.Keys, SituationOf(c, t));
      var asked := plan.question.Some?;
      (Case(plan.state,
            c.questionCount + (if asked then 1 else 0),
            c.anchorAsked || (asked && plan.question.value.kind == Anchor),
            if asked then Some(plan.question.value.text) else None,
            c.elicited + {t.governed},
            c.sent),
       plan.question)
  }

  /** A turn that is not skipped, in terms of the values read. The anchor counts as known if it was given or
      resolved; the fault and with it the category only if the customer's words attest the fault and the
      category is not uncertain. What was resolved is confirmed with the first drill only. */
  lemma TurnReads(c: Case, t: Turn)
    ensures var s := SituationOf(c, t);
      var uncertain := "category" in t.governed && t.governed["category"] in {"other", "UNCLEAR"};
      var first := c.questionCount <= (if c.anchorAsked then 1 else 0);
      (s.emotion == "angry" <==> "emotion_signal" in t.governed && t.governed["emotion_signal"] == "angry") &&
      (s.hasAnchor <==> t.resolved || ("anchor_value" in t.governed && t.governed["anchor_value"] != "")) &&
      (s.categoryKnown <==> !uncertain) && (s.faultGrounded <==> "fault" in t.governed && t.attested && !uncertain) &&
      s.questionCount == c.questionCount && s.anchorAsked == c.anchorAsked &&
      s.confirmation == (if first && t.resolved then t.confirmation else "") &&
      (s.faultPrompt == "" <==> s.confirmation == "") &&
      (s.confirmation != "" ==> s.faultPrompt == t.confirmation + " " + FAULT_NARROW_Q && s.faultOptions == Some(FAULT_OPTIONS))
  {}

  /** What a turn commits: nothing for a case handed off or for values seen before; otherwise the policy's state
      and question, with the counters of the questions asked. */
  lemma TurnCommits(c: Case, t: Turn)
    ensures var (c', q) := Elicit(c, t); var p := Decide(t.governed.Keys, SituationOf(c, t));
      if c.state == InReview || c.state == Committed || t.governed in c.elicited then c' == c && q == None
      else
        c'.state == p.state && q == p.question && c'.elicited == c.elicited + {t.governed} && c'.sent == c.sent &&
        (q.None? ==> c'.pending == None && c'.questionCount == c.questionCount && c'.anchorAsked == c.anchorAsked) &&
        (q.Some? ==> c'.pending == Some(q.value.text) && c'.questionCount == c.questionCount + 1) &&
        (c'.anchorAsked <==> c.anchorAsked || (q.Some? && q.value.target == TheAnchor))
  {
    QuestionsAreJustified(t.governed.Keys, SituationOf(c, t));
  }

  /** The body dispatch would transmit: the pending question of an incomplete case, if not sent before. */
  function ToSend(c: Case, hasRecipient: bool): Option<string> {
    if c.state == Incomplete && c.pending.Some? && hasRecipient && c.pending.value !in c.sent then c.pending else None
  }

  function Dispatch(c: Case, hasRecipient: bool, sendWorks: bool): Case {
    var body := ToSend(c, hasRecipient);
    if body.Some? && sendWorks then c.(sent := c.sent + [body.value]) else c
  }

  datatype Event =
    | Reply(turn: Turn)                                   // a stage run that commits
    | RolledBack(turn: Turn)                              // a stage run that raises
    | Send(hasRecipient: bool, sendWorks: bool)           // a dispatch job
    | Exhausted                                           // a stage out of retries stamps the case
    | Commit | Uncommit                                   // the reviewer

  function Next(c: Case, e: Event): (Case, Option<Question>) {
    match e
    case Reply(t) => Elicit(c, t)
    case RolledBack(t) => (c, None)
    case Send(r, ok) => (Dispatch(c, r, ok), None)
    case Exhausted => (if c.state == Created || c.state == Incomplete then c.(state := ProcessingFailed) else c, None)
    case Commit => (c.(state := Committed), None)
    case Uncommit => (if c.state == Committed then c.(state := InReview) else c, None)
  }

  /** The events without a turn or a message move the state and nothing else: exhaustion marks a case in flight,
      and taking a commit back puts a committed case in review. */
  lemma StateMovesExactly(c: Case, t: Turn)
    ensures Next(c, Exhausted) == (if c.state in {Created, Incomplete} then c.(state := ProcessingFailed) else c, None)
    ensures Next(c, Commit) == (c.(state := Committed), None) && Next(c, RolledBack(t)) == (c, None)
    ensures Next(c, Uncommit) == (if c.state == Committed then c.(state := InReview) else c, None)
  {}

  function After(c: Case, events: seq<Event>): Case {
    if events == [] then c else Next(After(c, events[..|events| - 1]), events[|events| - 1]).0
  }

  /** The questions issued along the way, in order. */
  function Issued(c: Case, events: seq<Event>): seq<Question> {
    if events == [] then []
    else
      var before := events[..|events| - 1];
      var q := Next(After(c, before), events[|events| - 1]).1;
      Issued(c, before) + (if q.Some? then [q.value] else [])
  }

  // ---- the budget, over every run ---------------------------------------------------------

  function Count(qs: seq<Question>, kind: Kind): nat {
    if qs == [] then 0 else Count(qs[..|qs| - 1], kind) + (if qs[|qs| - 1].kind == kind then 1 else 0)
  }

  ghost predicate Budgeted(c: Case, issued: seq<Question>) {
    && |issued| == c.questionCount <= TOTAL_CAP
    && Count(issued, Anchor) == (if c.anchorAsked then 1 else 0)
    && Count(issued, Drill) + Count(issued, Anchor) == |issued|
    && Count(issued, Drill) <= DRILL_BUDGET
  }

  lemma BudgetedStep(c: Case, issued: seq<Question>, e: Event)
    requires Budgeted(c, issued)
    ensures var (c', q) := Next(c, e);
      Budgeted(c', issued + (if q.Some? then [q.value] else [])) &&
      (q.Some? ==> 0 <= TOTAL_CAP - c'.questionCount < TOTAL_CAP - c.questionCount)
  {
    hide Decide;
    var (c', q) := Next(c, e);
    if q.Some? {
      assert (issued + [q.value])[..|issued|] == issued;
      QuestionsAreJustified(e.turn.governed.Keys, SituationOf(c, e.turn));
    } else {
      assert issued + [] == issued;
    }
  }

  /** In every run of replies, replays, rollbacks, sends, failures and reviews: at most one anchor, two
      drills and three questions, and the row's counter is the number issued. */
  lemma {:induction false} QuestionBudgetHolds(events: seq<Event>)
    ensures Budgeted(After(FRESH, events), Issued(FRESH, events))
  {
    if events != [] {
      var before := events[..|events| - 1];
      QuestionBudgetHolds(before);
      BudgetedStep(After(FRESH, before), Issued(FRESH, before), events[|events| - 1]);
    }
  }

  /** Each question strictly lowers what is left of the budget. */
  lemma EveryQuestionSpendsBudget(events: seq<Event>, e: Event)
    ensures var c := After(FRESH, events); var (c', q) := Next(c, e);
      c'.questionCount == c.questionCount + (if q.Some? then 1 else 0) && c'.questionCount <= TOTAL_CAP
  {
    QuestionBudgetHolds(events);
    BudgetedStep(After(FRESH, events), Issued(FRESH, events), e);
  }

  /** Handing off is final: nothing brings the case back to questions. */
  lemma {:induction false} HandOffIsFinal(c: Case, events: seq<Event>)
    requires HandedOff(c.state)
    ensures HandedOff(After(c, events).state) && Issued(c, events) == []
    ensures After(c, events).questionCount == c.questionCount && After(c, events).sent == c.sent
  {
    if events != [] {
      HandOffIsFinal(c, events[..|events| - 1]);
    }
  }

  /** A replay on the same extracted state neither asks nor changes anything, whatever it would resolve now. */
  lemma ReplayIsANoOp(c: Case, t: Turn, u: Turn)
    requires u.governed == t.governed
    ensures var c' := Elicit(c, t).0; Elicit(c', u) == (c', None)
  {}

  // ---- the outbound ledger ----------------------------------------------------------------

  function Bodies(qs: seq<Question>): set<string> {
    set q | q in qs :: q.text
  }

  ghost predicate SentOnce(c: Case, issued: seq<Question>) {
    NoRepeats(c.sent) &&
    (forall b | b in c.sent :: b in Bodies(issued)) &&
    (c.pending.Some? ==> c.pending.value in Bodies(issued))
  }

  lemma SentOnceStep(c: Case, issued: seq<Question>, e: Event)
    requires SentOnce(c, issued)
    ensures var (c', q) := Next(c, e); SentOnce(c', issued + (if q.Some? then [q.value] else []))
  {
    var (c', q) := Next(c, e);
    if q.Some? {
      assert q.value in issued + [q.value];
      forall b | b in Bodies(issued) ensures b in Bodies(issued + [q.value]) {
        var p :| p in issued && p.text == b;
        assert p in issued + [q.value];
      }
    } else {
      assert issued + [] == issued;
    }
  }

  /** The committed ledger never holds one body twice, and holds only questions that were issued. */
  lemma {:induction false} NothingIsSentTwice(events: seq<Event>)
    ensures SentOnce(After(FRESH, events), Issued(FRESH, events))
  {
    if events != [] {
      var before := events[..|events| - 1];
      NothingIsSentTwice(before);
      SentOnceStep(After(FRESH, before), Issued(FRESH, before), events[|events| - 1]);
    }
  }

  lemma {:induction false} DistinctFitsSet(s: seq<string>, t: set<string>)
    requires NoRepeats(s)
    requires forall b | b in s :: b in t
    ensures |s| <= |t|
    decreases |s|
  {
    if s != [] {
      var last := s[|s| - 1];
      var rest := s[..|s| - 1];
      assert forall i | 0 <= i < |rest| :: rest[i] == s[i];
      DistinctFitsSet(rest, t - {last});
    }
  }

  lemma {:induction false} FewBodies(qs: seq<Question>)
    ensures |Bodies(qs)| <= |qs|
  {
    if qs == [] {
      assert Bodies(qs) == {};
    } else {
      FewBodies(qs[..|qs| - 1]);
      assert qs == qs[..|qs| - 1] + [qs[|qs| - 1]];
      assert Bodies(qs) == Bodies(qs[..|qs| - 1]) + {qs[|qs| - 1].text};
    }
  }

  /** A customer receives at most as many messages as questions were paid for, so at most three. */
  lemma AtMostThreeMessages(events: seq<Event>)
    ensures |After(FRESH, events).sent| <= After(FRESH, events).questionCount <= TOTAL_CAP
  {
    NothingIsSentTwice(events);
    QuestionBudgetHolds(events);
    FewBodies(Issued(FRESH, events));
    DistinctFitsSet(After(FRESH, events).sent, Bodies(Issued(FRESH, events)));
  }

  /** A question that a turn issues is sent, by a send that works and has a recipient, exactly when its text
      was not sent before. */
  lemma QuestionIsSentExactlyWhen(c: Case, t: Turn)
    requires Elicit(c, t).1.Some?
    ensures var (c', q) := Elicit(c, t);
      Dispatch(c', true, true).sent == (if q.value.text in c.sent then c.sent else c.sent + [q.value.text])
  {
    QuestionsAreJustified(t.governed.Keys, SituationOf(c, t));
  }

  /** The question that a send finds open, whether it goes out or was sent before. */
  function Offer(c: Case, e: Event): set<string> {
    if e == Send(true, true) && c.state == Incomplete && c.pending.Some? then {c.pending.value} else {}
  }

  /** The texts that the sends of a run that work and have a recipient find open. */
  function Offered(c: Case, events: seq<Event>): set<string> {
    if events == [] then {}
    else Offered(c, events[..|events| - 1]) + Offer(After(c, events[..|events| - 1]), events[|events| - 1])
  }

  function Elements(s: seq<string>): set<string> {
    set b | b in s
  }

  lemma OfferIsSent(c: Case, e: Event)
    ensures Elements(Next(c, e).0.sent) == Elements(c.sent) + Offer(c, e)
  {}

  lemma {:induction false} OffersAreSent(c: Case, events: seq<Event>)
    ensures Elements(After(c, events).sent) == Elements(c.sent) + Offered(c, events)
  {
    hide Next, Offer, Elements;
    if events == [] {
      NoEvents(c);
    } else {
      OffersAreSent(c, events[..|events| - 1]);
      OfferIsSent(After(c, events[..|events| - 1]), events[|events| - 1]);
    }
  }

  lemma {:induction false} NoRepeatsFillSet(s: seq<string>)
    requires NoRepeats(s)
    ensures |Elements(s)| == |s|
  {
    if s == [] {
      assert Elements(s) == {};
    } else {
      var rest, last := s[..|s| - 1], s[|s| - 1];
      NoRepeatsFillSet(rest);
      assert s == rest + [last];
      assert Elements(s) == Elements(rest) + {last} && last !in Elements(rest);
    }
  }

  /** Over every run the messages are the distinct texts that were open at a send that worked and had a
      recipient, each of them once. */
  lemma SentIsWhatWasOpen(events: seq<Event>)
    ensures var sent := After(FRESH, events).sent; Elements(sent) == Offered(FRESH, events) && |sent| == |Offered(FRESH, events)|
  {
    hide After, Offered;
    OffersAreSent(FRESH, events);
    NothingIsSentTwice(events);
    NoRepeatsFillSet(After(FRESH, events).sent);
  }

  /** A missing category counts as a known one: of the cases that come with neither a fault nor an anchor,
      exactly those with an uncertain category are asked what happened, and the others for the anchor. */
  lemma FirstQuestionExactlyWhen(t: Turn)
    requires "fault" !in t.governed && !t.resolved && ("anchor_value" in t.governed ==> t.governed["anchor_value"] == "")
    requires "emotion_signal" in t.governed ==> t.governed["emotion_signal"] != "angry"
    ensures var q := Elicit(FRESH, t).1;
      q.Some? && (q.value.target == TheFault <==> "category" in t.governed && (t.governed["category"] == "other" || t.governed["category"] == "UNCLEAR")) &&
      (q.value.target == TheFault || q.value.target == TheAnchor)
  {
    assert "fault" !in Effective(t.governed.Keys, SituationOf(FRESH, t).faultGrounded);
    assert !(ESSENTIALS <= Effective(t.governed.Keys, SituationOf(FRESH, t).faultGrounded)) by {
      assert "fault" in ESSENTIALS;
    }
  }

  /** A turn with nothing to go on is asked what happened, within the budget. */
  lemma ContentlessTurnIsAsked(c: Case, t: Turn)
    requires !HandedOff(c.state) && t.governed !in c.elicited && !c.anchorAsked && c.questionCount < DRILL_BUDGET
    requires t.governed.Keys == {"category"} && !CategoryKnown(t) && !t.resolved
    ensures Elicit(c, t).0 == Case(Incomplete, c.questionCount + 1, false, Some(FAULT_Q), c.elicited + {t.governed}, c.sent)
  {}

  /** The bound is not an equality: a drill repeated word for word is paid for twice and sent once. Two
      contentless turns in a row do this. */
  lemma RepeatedDrillIsPaidButNotSent()
    ensures exists events :: var c := After(FRESH, events); c.questionCount == 2 && c.sent == [FAULT_Q] && ToSend(c, true) == None && c.state == Incomplete
  {
    hide Elicit, After;
    var t1 := Turn(map["category" := "other"], false, "", false);
    var t2 := Turn(map["category" := "UNCLEAR"], false, "", false);
    assert t1.governed["category"] != t2.governed["category"];
    var c1 := Elicit(FRESH, t1).0;
    ContentlessTurnIsAsked(FRESH, t1);
    var c2 := Dispatch(c1, true, true);
    assert c2.sent == [FAULT_Q];
    ContentlessTurnIsAsked(c2, t2);
    ThreeEvents(t1, t2);
    var events := [Reply(t1)] + [Send(true, true)] + [Reply(t2)];
    assert After(FRESH, events) == Elicit(c2, t2).0;
  }

  lemma AfterOneMore(c: Case, events: seq<Event>, e: Event)
    ensures After(c, events + [e]) == Next(After(c, events), e).0
  {
    hide Next;
    assert (events + [e])[..|events|] == events;
  }

  lemma ThreeEvents(t1: Turn, t2: Turn)
    ensures After(FRESH, [Reply(t1)] + [Send(true, true)] + [Reply(t2)]) == Elicit(Dispatch(Elicit(FRESH, t1).0, true, true), t2).0
  {
    hide Elicit, Dispatch, After;
    assert After(FRESH, []) == FRESH by {
      NoEvents(FRESH);
    }
    AfterOneMore(FRESH, [], Reply(t1));
    assert [] + [Reply(t1)] == [Reply(t1)];
    AfterOneMore(FRESH, [Reply(t1)], Send(true, true));
    AfterOneMore(FRESH, [Reply(t1)] + [Send(true, true)], Reply(t2));
  }

  lemma NoEvents(c: Case)
    ensures After(c, []) == c
  {}

  // ---- values that come back --------------------------------------------------------------

  /** After a turn the state is what the policy says of the values read, exactly when those values are new
      or the standing state already is that. */
  lemma StateIsCurrentExactlyWhen(c: Case, t: Turn)
    requires !HandedOff(c.state)
    ensures var plan := Decide(t.governed.Keys, SituationOf(c, t));
      Elicit(c, t).0.state == plan.state <==> t.governed !in c.elicited || c.state == plan.state
  {
    hide Decide;
  }

  /** A grounded turn with an anchor and without the outcome, and the same with it. */
  const WITHOUT_OUTCOME := Turn(map["category" := "delivery", "fault" := "late"], true, "", true)
  const WITH_OUTCOME := Turn(map["category" := "delivery", "fault" := "late", "desired_outcome" := "refund"], true, "", true)

  lemma OutcomeIsAskedFor(c: Case)
    requires c.questionCount <= 1 && !c.anchorAsked
    ensures var plan := Decide(WITHOUT_OUTCOME.governed.Keys, SituationOf(c, WITHOUT_OUTCOME));
      plan.state == Incomplete && plan.question.Some? && plan.question.value.target == TheOutcome && plan.question.value.kind == Drill
  {
    assert !(ESSENTIALS <= WITHOUT_OUTCOME.governed.Keys) by {
      assert "desired_outcome" in ESSENTIALS && "desired_outcome" !in WITHOUT_OUTCOME.governed.Keys;
    }
  }

  lemma OutcomeCompletes(c: Case)
    requires !HandedOff(c.state) && WITH_OUTCOME.governed !in c.elicited
    ensures Elicit(c, WITH_OUTCOME).0 == c.(state := Actionable, pending := None, elicited := c.elicited + {WITH_OUTCOME.governed})
  {
    ActionableExactlyOnEssentials(WITH_OUTCOME.governed.Keys, SituationOf(c, WITH_OUTCOME));
    QuestionsAreJustified(WITH_OUTCOME.governed.Keys, SituationOf(c, WITH_OUTCOME));
  }

  /** Values that come back are not decided on again: the case stays actionable although the values last
      read lack the outcome, which the policy would ask for. */
  lemma ComebackKeepsTheOldState()
    ensures exists events, t: Turn :: var c := After(FRESH, events + [Reply(t)]);
      c.state == Actionable && "desired_outcome" !in t.governed && Decide(t.governed.Keys, SituationOf(c, t)).state == Incomplete
  {
    hide Decide, After;
    var c1 := Elicit(FRESH, WITHOUT_OUTCOME).0;
    var c2 := Elicit(c1, WITH_OUTCOME).0;
    OutcomeIsAskedFor(FRESH);
    assert "desired_outcome" in WITH_OUTCOME.governed && "desired_outcome" !in WITHOUT_OUTCOME.governed;
    OutcomeCompletes(c1);
    OutcomeIsAskedFor(c2);
    var events := [Reply(WITHOUT_OUTCOME)] + [Reply(WITH_OUTCOME)];
    NoEvents(FRESH);
    AfterOneMore(FRESH, [], Reply(WITHOUT_OUTCOME));
    AfterOneMore(FRESH, [Reply(WITHOUT_OUTCOME)], Reply(WITH_OUTCOME));
    AfterOneMore(FRESH, events, Reply(WITHOUT_OUTCOME));
    assert [] + [Reply(WITHOUT_OUTCOME)] == [Reply(WITHOUT_OUTCOME)];
    assert After(FRESH, events + [Reply(WITHOUT_OUTCOME)]) == c2;
  }

  // ---- the stages as written --------------------------------------------------------------

  /** The rows of one case. */
  class CaseRecord {
    var caseState: State
    var questionCount: nat
    var anchorAsked: bool
    var pending: Option<string>
    var elicited: set<map<string, string>>
    var outbound: seq<string>

    ghost function View(): Case
      reads this
    {
      Case(caseState, questionCount, anchorAsked, pending, elicited, outbound)
    }

    constructor ()
      ensures View() == FRESH
    {
      caseState, questionCount, anchorAsked, pending, elicited, outbound := Created, 0, false, None, {}, [];
    }

    /** `elicit_case`, statement by statement; `raises` makes the provenance step throw, which rolls the
        claim back. The result is whether a decision was recorded. */
    method ElicitCase(t: Turn, raises: bool) returns (recorded: bool, question: Option<Question>)
      modifies this
      ensures (View(), question) == (if raises then (old(View()), None) else Elicit(old(View()), t))
      ensures recorded <==> !raises && !HandedOff(old(caseState)) && t.governed !in old(elicited)
    {
      if caseState == InReview || caseState == Committed {
        return false, None;
      }
      if t.governed in elicited {
        return false, None;
      }
      var plan := Decide(t.governed.Keys, SituationOf(Case(caseState, questionCount, anchorAsked, pending, elicited, outbound), t));
      if raises {
        return false, None;
      }
      var asked := plan.question.Some?;
      anchorAsked := anchorAsked || (asked && plan.question.value.kind == Anchor);
      pending := if asked then Some(plan.question.value.text) else None;
      caseState := plan.state;
      questionCount := questionCount + (if asked then 1 else 0);
      elicited := elicited + {t.governed};
      return true, plan.question;
    }

    /** `dispatch_case_question`: claim, send, record. A failed send rolls the claim back. */
    method DispatchCaseQuestion(hasRecipient: bool, sendWorks: bool) returns (transmitted: bool)
      modifies this`outbound
      ensures View() == Dispatch(old(View()), hasRecipient, sendWorks)
      ensures transmitted <==> sendWorks && ToSend(old(View()), hasRecipient).Some?
    {
      if caseState != Incomplete || pending.None? || !hasRecipient {
        return false;
      }
      var body := pending.value;
      if body in outbound {
        return false;
      }
      var before := outbound;
      outbound := outbound + [body];
      if !sendWorks {
        outbound := before;
        return false;
      }
      return true;
    }
  }

  // ---- the measurement loop (engine/eval/measure_elicit.py) -------------------------------

  datatype DrillResult = DrillResult(terminal: State, questions: seq<Kind>, alreadyStated: int, derivable: int)

  function Outstanding(present: set<string>): seq<Kind> {
    (if "desired_outcome" in present then [] else [Drill]) +
    (if "category" in present && "fault" in present then [] else [Drill])
  }

  /** The questions a cooperative customer will still be asked: the outcome and the category-with-fault
      each cost one drill if missing, an anchor precedes them if only the fault is known, and an angry
      customer with something to go on is asked nothing. */
  function Expected(present: set<string>, angry: bool, hasAnchor: bool): seq<Kind> {
    if ESSENTIALS <= present then []
    else if angry && ("fault" in present || hasAnchor) then []
    else if "fault" in present && !hasAnchor then [Anchor] + Outstanding(present)
    else Outstanding(present)
  }

  function Terminal(present: set<string>, angry: bool, hasAnchor: bool): State {
    if !(ESSENTIALS <= present) && angry && ("fault" in present || hasAnchor) then InReview else Actionable
  }

  function MeasuredSituation(emotion: string, hasAnchor: bool, anchorAsked: bool, questionCount: nat): Situation {
    Situation(emotion, hasAnchor, anchorAsked, questionCount, "", true, false, "", None)
  }

  /** The budget still covers what is expected. */
  ghost predicate OnTrack(present: set<string>, angry: bool, hasAnchor: bool, anchorAsked: bool, n: nat) {
    && n + |Expected(present, angry, hasAnchor)| <= TOTAL_CAP
    && (anchorAsked ==> hasAnchor && n > 0)
    && (!anchorAsked ==> n + |Outstanding(present)| <= DRILL_BUDGET)
  }

  /** The call of `decide` in the loop, and what a turn on track sees of it. */
  method Consult(present: set<string>, emotion: string, hasAnchor: bool, anchorAsked: bool, n: nat) returns (plan: Plan)
    requires OnTrack(present, emotion == "angry", hasAnchor, anchorAsked, n)
    ensures var expected := Expected(present, emotion == "angry", hasAnchor);
      plan == Decide(present, MeasuredSituation(emotion, hasAnchor, anchorAsked, n)) &&
      if plan.question.None? then expected == [] && plan.state == Terminal(present, emotion == "angry", hasAnchor)
      else expected != [] && expected[0] == plan.question.value.kind && (expected[0] == Anchor ==> !hasAnchor)
  {
    assert ESSENTIALS <= present <==> "category" in present && "fault" in present && "desired_outcome" in present;
    assert Effective(present, true) == present;
    plan := Decide(present, MeasuredSituation(emotion, hasAnchor, anchorAsked, n));
  }

  /** The cooperative answer, with the two counters' increments: exactly one expected question is gone. */
  method TakeAnswer(present0: set<string>, ghost angry: bool, hasAnchor0: bool, anchorAsked0: bool, kind: Kind, ghost n: nat)
      returns (present: set<string>, hasAnchor: bool, anchorAsked: bool, already: int, derivable: int)
    requires OnTrack(present0, angry, hasAnchor0, anchorAsked0, n)
    requires Expected(present0, angry, hasAnchor0) != [] && Expected(present0, angry, hasAnchor0)[0] == kind
    requires kind == Anchor ==> !hasAnchor0
    ensures OnTrack(present, angry, hasAnchor, anchorAsked, n + 1) && already == 0 && derivable == 0
    ensures present == Supplied(present0, kind) && hasAnchor == (hasAnchor0 || kind == Anchor) && anchorAsked == (anchorAsked0 || kind == Anchor)
    ensures [kind] + Expected(present, angry, hasAnchor) == Expected(present0, angry, hasAnchor0)
    ensures Terminal(present, angry, hasAnchor) == Terminal(present0, angry, hasAnchor0)
  {
    present, hasAnchor, anchorAsked, already, derivable := present0, hasAnchor0, anchorAsked0, 0, 0;
    if kind == Anchor {
      if hasAnchor {
        derivable := derivable + 1;
      }
      anchorAsked, hasAnchor := true, true;
    } else {
      var asksOutcome := "desired_outcome" !in present;
      if asksOutcome && "desired_outcome" in present {
        already := already + 1;
      }
      present := if asksOutcome then present + {"desired_outcome"} else present + {"category", "fault"};
    }
    assert ESSENTIALS <= present0 <==> "category" in present0 && "fault" in present0 && "desired_outcome" in present0;
    assert ESSENTIALS <= present <==> "category" in present && "fault" in present && "desired_outcome" in present;
  }

  /** A question with what was known when it was asked. */
  datatype Asking = Asking(question: Question, present: set<string>, hasAnchor: bool)

  /** What the loop takes a drill's answer to be: the outcome if that is missing, otherwise the fault and
      its category. */
  function Supplied(present: set<string>, kind: Kind): set<string> {
    if kind == Anchor then present
    else if "desired_outcome" !in present then present + {"desired_outcome"}
    else present + {"category", "fault"}
  }

  /** The questions of so many rounds of policy and cooperative answer. */
  function Played(present: set<string>, emotion: string, hasAnchor: bool, anchorAsked: bool, n: nat, rounds: nat): seq<Asking>
    decreases rounds
  {
    if rounds == 0 then []
    else
      var plan := Decide(present, MeasuredSituation(emotion, hasAnchor, anchorAsked, n));
      if plan.question.None? then []
      else
        var q := plan.question.value;
        [Asking(q, present, hasAnchor)] + Played(Supplied(present, q.kind), emotion, hasAnchor || q.kind == Anchor, anchorAsked || q.kind == Anchor, n + 1, rounds - 1)
  }

  function Kinds(asked: seq<Asking>): seq<Kind> {
    if asked == [] then [] else [asked[0].question.kind] + Kinds(asked[1..])
  }

  /** The field that the question is after is missing. */
  predicate Unstated(a: Asking) {
    match a.question.target
    case TheAnchor => !a.hasAnchor
    case TheFault => "fault" !in a.present
    case TheOutcome => "desired_outcome" !in a.present
    case TheCategory => "category" !in a.present
  }

  predicate AllUnstated(asked: seq<Asking>) {
    forall i | 0 <= i < |asked| :: Unstated(asked[i])
  }

  lemma OneMoreUnstated(a: Asking, rest: seq<Asking>)
    requires Unstated(a) && AllUnstated(rest)
    ensures AllUnstated([a] + rest)
  {}

  /** No question of the loop is after a field that was stated by then, or an anchor that was known. */
  lemma {:induction false} NothingStatedIsAsked(present: set<string>, emotion: string, hasAnchor: bool, anchorAsked: bool, n: nat, rounds: nat)
    ensures AllUnstated(Played(present, emotion, hasAnchor, anchorAsked, n, rounds))
    decreases rounds
  {
    hide Decide;
    var plan := Decide(present, MeasuredSituation(emotion, hasAnchor, anchorAsked, n));
    if rounds > 0 && plan.question.Some? {
      var q := plan.question.value;
      QuestionsAreJustified(present, MeasuredSituation(emotion, hasAnchor, anchorAsked, n));
      NothingStatedIsAsked(Supplied(present, q.kind), emotion, hasAnchor || q.kind == Anchor, anchorAsked || q.kind == Anchor, n + 1, rounds - 1);
      OneMoreUnstated(Asking(q, present, hasAnchor),
        Played(Supplied(present, q.kind), emotion, hasAnchor || q.kind == Anchor, anchorAsked || q.kind == Anchor, n + 1, rounds - 1));
    }
  }

  predicate Obtained(target: Target, present: set<string>) {
    match target
    case TheFault => "fault" in present
    case TheOutcome => "desired_outcome" in present
    case TheCategory => "category" in present
    case TheAnchor => true
  }

  /** The loop's customer answers a drill with what it asked for, except when it asks for the fault while the
      outcome is missing too: the policy asks for the fault first, the loop fills the outcome first. */
  lemma DrillIsAnsweredExactlyWhen(present: set<string>, emotion: string, hasAnchor: bool, anchorAsked: bool, n: nat)
    requires var q := Decide(present, MeasuredSituation(emotion, hasAnchor, anchorAsked, n)).question; q.Some? && q.value.kind == Drill
    ensures var target := Decide(present, MeasuredSituation(emotion, hasAnchor, anchorAsked, n)).question.value.target;
      Obtained(target, Supplied(present, Drill)) <==> !(target == TheFault && "desired_outcome" !in present)
  {
    hide Decide;
    QuestionsAreJustified(present, MeasuredSituation(emotion, hasAnchor, anchorAsked, n));
  }

  lemma KindsOfPlayed(present: set<string>, emotion: string, hasAnchor: bool, anchorAsked: bool, n: nat, rounds: nat)
    requires rounds > 0
    ensures var plan := Decide(present, MeasuredSituation(emotion, hasAnchor, anchorAsked, n));
      Kinds(Played(present, emotion, hasAnchor, anchorAsked, n, rounds)) ==
      if plan.question.None? then []
      else
        var kind := plan.question.value.kind;
        [kind] + Kinds(Played(Supplied(present, kind), emotion, hasAnchor || kind == Anchor, anchorAsked || kind == Anchor, n + 1, rounds - 1))
  {
    hide Decide;
    var asked := Played(present, emotion, hasAnchor, anchorAsked, n, rounds);
    if asked != [] {
      var kind := asked[0].question.kind;
      assert asked[1..] == Played(Supplied(present, kind), emotion, hasAnchor || kind == Anchor, anchorAsked || kind == Anchor, n + 1, rounds - 1);
    }
  }

  lemma NextAsked(asked: seq<Kind>, kind: Kind, rest: seq<Kind>)
    ensures asked + ([kind] + rest) == (asked + [kind]) + rest
  {}

  /** `_simulate`: the policy is driven to a terminal state by a customer who answers every question. It
      ends within four decisions and asks exactly the expected questions, which are the played ones. The
      two counters never move; the first could not, since a drill's target is chosen among missing fields. */
  method Simulate(present0: set<string>, emotion: string, anchorKnown: bool) returns (r: DrillResult)
    ensures var has := anchorKnown || "anchor_value" in present0;
      r.questions == Expected(present0, emotion == "angry", has) &&
      r.questions == Kinds(Played(present0, emotion, has, false, 0, TOTAL_CAP + 3)) &&
      r.terminal == Terminal(present0, emotion == "angry", has)
    ensures |r.questions| <= TOTAL_CAP && r.alreadyStated == 0 && r.derivable == 0
  {
    hide Decide, Played, Kinds, Supplied, Terminal, Expected, OnTrack;
    var present := present0;
    var hasAnchor := anchorKnown || "anchor_value" in present;
    var anchorAsked, qcount: nat := false, 0;
    var questions: seq<Kind> := [];
    var already, derivable := 0, 0;
    ghost var all := Expected(present, emotion == "angry", hasAnchor);
    ghost var last := Terminal(present, emotion == "angry", hasAnchor);
    ghost var played := Kinds(Played(present, emotion, hasAnchor, false, 0, TOTAL_CAP + 3));
    StartsOnTrack(present, emotion == "angry", hasAnchor);
    for i := 0 to TOTAL_CAP + 3
      invariant qcount == |questions| == i && already == 0 && derivable == 0
      invariant OnTrack(present, emotion == "angry", hasAnchor, anchorAsked, qcount)
      invariant questions + Expected(present, emotion == "angry", hasAnchor) == all
      invariant questions + Kinds(Played(present, emotion, hasAnchor, anchorAsked, qcount, TOTAL_CAP + 3 - i)) == played
      invariant Terminal(present, emotion == "angry", hasAnchor) == last
    {
      var plan := Consult(present, emotion, hasAnchor, anchorAsked, qcount);
      KindsOfPlayed(present, emotion, hasAnchor, anchorAsked, qcount, TOTAL_CAP + 3 - i);
      WithinTheCap(present, emotion == "angry", hasAnchor, anchorAsked, qcount);
      if plan.question.None? {
        return DrillResult(plan.state, questions, already, derivable);
      }
      var kind := plan.question.value.kind;
      var stated, known;
      ghost var rounds := TOTAL_CAP + 3 - i - 1;
      present, hasAnchor, anchorAsked, stated, known := TakeAnswer(present, emotion == "angry", hasAnchor, anchorAsked, kind, qcount);
      NextAsked(questions, kind, Expected(present, emotion == "angry", hasAnchor));
      NextAsked(questions, kind, Kinds(Played(present, emotion, hasAnchor, anchorAsked, qcount + 1, rounds)));
      questions := questions + [kind];
      qcount, already, derivable := qcount + 1, already + stated, derivable + known;
    }
    WithinTheCap(present, emotion == "angry", hasAnchor, anchorAsked, qcount);
    return DrillResult(InReview, questions, already, derivable);
  }

  lemma StartsOnTrack(present: set<string>, angry: bool, hasAnchor: bool)
    ensures OnTrack(present, angry, hasAnchor, false, 0)
  {}

  lemma WithinTheCap(present: set<string>, angry: bool, hasAnchor: bool, anchorAsked: bool, n: nat)
    requires OnTrack(present, angry, hasAnchor, anchorAsked, n)
    ensures n + |Expected(present, angry, hasAnchor)| <= TOTAL_CAP
  {}
}
