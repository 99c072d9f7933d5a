/** Which vocabularies make the extractor's duplicate check lose a fact (engine/app/extract/extractor.py). */
module ExtractorFacts {
  // The check compares composite names, and an underscore joins a qualifier to its head. So two different
  // facts can share a name when one head ends in the other. A qualifier is kept only if it is at most four
  // words long and stands in the source, which decides which such heads are harmless.

  import opened Options
  import opened Text
  import opened FieldNames
  import opened Extractor

  function WordCount(q: string): nat {
    |Split(q, '_')|
  }

  lemma {:induction false} WordsOfJoined(a: string, b: string)
    ensures WordCount(a + "_" + b) == WordCount(a) + WordCount(b)
  {
    if a == "" {
      assert a + "_" + b == "_" + b && ("_" + b)[1..] == b;
    } else {
      WordsOfJoined(a[1..], b);
      assert (a + "_" + b)[1..] == a[1..] + "_" + b;
    }
  }

  // ---- the condition ------------------------------------------------------------------------

  /** The part of the longer head before the shorter. */
  function Front(long: string, short: string): string
    requires EndsWith(long, "_" + short)
  {
    long[..|long| - |short| - 1]
  }

  /** The longer head is the shorter behind at most three words, or behind four that are not the shorter
      head itself. */
  predicate CostsAFact(long: string, short: string) {
    EndsWith(long, "_" + short) &&
    var n := WordCount(Front(long, short));
    n < MAX_QUALIFIER_TOKENS || (n == MAX_QUALIFIER_TOKENS && Front(long, short) != short)
  }

  ghost predicate Harmless(heads: set<string>) {
    forall h1, h2 | h1 in heads && h2 in heads :: !CostsAFact(h1, h2)
  }

  lemma UnnestedIsHarmless(heads: set<string>)
    requires Unnested(heads)
    ensures Harmless(heads)
  {}

  /** A qualifier that can stand in an attribute, "" for none. */
  predicate Carriable(q: string) {
    q == "" || WordCount(q) <= MAX_QUALIFIER_TOKENS
  }

  lemma AtLeastOneWord(q: string)
    ensures WordCount(q) > 0
  {}

  lemma SameFront(q: string, p: string, h: string)
    requires q + "_" + h == p + "_" + h
    ensures q == p
  {
    assert (q + "_" + h)[..|q|] == q && (p + "_" + h)[..|p|] == p;
  }

  /** Two heads that share a name under qualifiers that can be carried make a costly pair. */
  lemma SharedNameCosts(h1: string, q1: string, h2: string, q2: string)
    requires |h2| <= |h1| && h1 != h2 && Compose(h1, q1) == Compose(h2, q2) && Carriable(q1) && Carriable(q2)
    ensures CostsAFact(h1, h2)
  {
    SharedNameNestsHeads(h1, q1, h2, q2);
    var p := Front(h1, h2);
    assert h1 == p + "_" + h2;
    if q1 != "" && q1 != h1 {
      SameTail(q1, p, h2);
      SameFront(q2, q1 + "_" + p, h2);
      WordsOfJoined(q1, p);
      AtLeastOneWord(q1);
    } else {
      SameFront(q2, p, h2);
    }
  }

  // ---- nothing is lost ----------------------------------------------------------------------

  lemma QualifierIsCarriable(low: char -> char, concrete: string -> bool, source: string, heads: set<string>, item: Item)
    requires Candidate(SourceChecks(low, concrete, source), heads, item).Some?
    ensures Carriable(OrEmpty(Candidate(SourceChecks(low, concrete, source), heads, item).value.qualifier))
  {
    QualifiersAreSound(low, concrete, source, SourceChecks(low, concrete, source), heads, item);
  }

  lemma SameNameSameFact(low: char -> char, concrete: string -> bool, source: string, heads: set<string>, one: Item, other: Item)
    requires Lowers(low) && Harmless(heads)
    requires var c := SourceChecks(low, concrete, source);
      Candidate(c, heads, one).Some? && Candidate(c, heads, other).Some? && Name(c, Candidate(c, heads, one).value) == Name(c, Candidate(c, heads, other).value)
    ensures var c := SourceChecks(low, concrete, source); SameFact(Candidate(c, heads, one).value, Candidate(c, heads, other).value)
  {
    hide Candidate, Name, Lowers, CostsAFact;
    var c := SourceChecks(low, concrete, source);
    var a, b := Candidate(c, heads, one).value, Candidate(c, heads, other).value;
    SourceChecksSettle(low, concrete, source);
    NameOfCandidate(c, heads, one);
    NameOfCandidate(c, heads, other);
    QualifierIsCarriable(low, concrete, source, heads, one);
    QualifierIsCarriable(low, concrete, source, heads, other);
    if a.head != b.head {
      if |b.head| <= |a.head| {
        SharedNameCosts(a.head, OrEmpty(a.qualifier), b.head, OrEmpty(b.qualifier));
      } else {
        SharedNameCosts(b.head, OrEmpty(b.qualifier), a.head, OrEmpty(a.qualifier));
      }
    }
    SplitInvertsCompose(a.head, OrEmpty(a.qualifier));
    SplitInvertsCompose(b.head, OrEmpty(b.qualifier));
  }

  /** With a harmless vocabulary, an item is dropped as a duplicate only when an earlier one says the same
      head and qualifier. */
  lemma OnlyTrueDuplicatesAreDropped(low: char -> char, concrete: string -> bool, source: string, heads: set<string>, items: seq<Item>,
      out: seq<Attribute>, origin: seq<nat>, i: nat) returns (k: nat)
    requires Lowers(low) && Harmless(heads)
    requires var c := SourceChecks(low, concrete, source);
      FirstOfEachName(c, Candidates(c, heads, items), out, origin) && i < |items| && Candidate(c, heads, items[i]).Some?
    ensures k < |out| && k < |origin| && origin[k] <= i && SameFact(out[k], Candidate(SourceChecks(low, concrete, source), heads, items[i]).value)
  {
    hide Candidate, SameFact, Lowers, Harmless, Name;
    var c := SourceChecks(low, concrete, source);
    var cs := Candidates(c, heads, items);
    var b := cs[i].value;
    assert NameIsOut(c, out, Name(c, b));
    k :| 0 <= k < |out| && Name(c, out[k]) == Name(c, b);
    assert IsFirst(c, cs, origin[k], out[k]);
    assert Named(c, cs[i], Name(c, out[k]));
    SameNameSameFact(low, concrete, source, heads, items[origin[k]], items[i]);
  }

  /** The same for the code's own functions and the seed vocabulary: whatever the model answers, no
      different fact is ever dropped. */
  lemma SeedVocabularyLosesNothing(low: char -> char, concrete: string -> bool, caseText: string, items: seq<Item>,
      out: seq<Attribute>, origin: seq<nat>, i: nat) returns (k: nat)
    requires Lowers(low)
    requires var c := SourceChecks(low, concrete, Lower(low, caseText));
      FirstOfEachName(c, Candidates(c, HEAD_NOUNS, items), out, origin) && i < |items| && Candidate(c, HEAD_NOUNS, items[i]).Some?
    ensures k < |out| && k < |origin| && origin[k] <= i &&
      SameFact(out[k], Candidate(SourceChecks(low, concrete, Lower(low, caseText)), HEAD_NOUNS, items[i]).value)
  {
    hide Candidate, SameFact, Lowers, FirstOfEachName, Harmless, Candidates, Unnested;
    SeedHeadsAreUnnested();
    UnnestedIsHarmless(HEAD_NOUNS);
    k := OnlyTrueDuplicatesAreDropped(low, concrete, Lower(low, caseText), HEAD_NOUNS, items, out, origin, i);
  }

  // ---- something is lost --------------------------------------------------------------------

  /** Neither the grounded fact of item i is in the output, under any name, nor its value, under any fact. */
  ghost predicate LosesItem(c: Checks, heads: set<string>, items: seq<Item>, out: seq<Attribute>, i: nat) {
    i < |items| && Candidate(c, heads, items[i]).Some? && Candidate(c, heads, items[i]).value.grounded &&
    forall k | 0 <= k < |out| :: !SameFact(out[k], Candidate(c, heads, items[i]).value) && out[k].value != Candidate(c, heads, items[i]).value.value
  }

  /** Some text and answer make the extractor lose a fact. */
  ghost predicate CanLose(low: char -> char, concrete: string -> bool, heads: set<string>) {
    exists caseText, items, out, origin, i ::
      FirstOfEachName(SourceChecks(low, concrete, Lower(low, caseText)), Candidates(SourceChecks(low, concrete, Lower(low, caseText)), heads, items), out, origin) &&
      LosesItem(SourceChecks(low, concrete, Lower(low, caseText)), heads, items, out, i)
  }

  lemma WordsFromRun(s: string)
    requires s != "" && Keep(s[0])
    ensures Words(s) == [Run(s)] + Words(s[|Run(s)|..])
  {}

  lemma WordsAfterJunk(s: string)
    requires s != "" && !Keep(s[0])
    ensures Words(s) == Words(s[1..])
  {}

  lemma {:induction false} WordsThenSpace(a: string, b: string)
    ensures Words(a + " " + b) == Words(a) + Words(b)
    decreases |a|
  {
    hide Words, Run;
    var s := a + " " + b;
    if a == "" {
      assert s == " " + b && s[1..] == b;
      WordsAfterJunk(s);
      assert Words("") == [] by {
        NoTextNoWords();
      }
      assert [] + Words(b) == Words(b);
    } else if Keep(a[0]) {
      hide Keep;
      RunThenSpace(a, b);
      var n := |Run(a)|;
      WordsFromRun(a);
      WordsFromRun(s);
      WordsThenSpace(a[n..], b);
      assert s[n..] == a[n..] + " " + b;
      assert [Run(a)] + (Words(a[n..]) + Words(b)) == ([Run(a)] + Words(a[n..])) + Words(b);
    } else {
      hide Keep;
      WordsThenSpace(a[1..], b);
      assert s[0] == a[0] && s[1..] == a[1..] + " " + b;
      WordsAfterJunk(s);
      WordsAfterJunk(a);
    }
  }

  lemma NoTextNoWords()
    ensures Words("") == []
  {}

  lemma {:induction false} RunThenSpace(a: string, b: string)
    ensures Run(a + " " + b) == Run(a)
  {
    var s := a + " " + b;
    if a == "" {
      assert s[0] == ' ';
    } else {
      assert s[0] == a[0] && s[1..] == a[1..] + " " + b;
      RunThenSpace(a[1..], b);
    }
  }

  /** A text that starts with a qualifier makes it extractive. */
  lemma LeadingQualifierIsExtractive(low: char -> char, q: string, rest: string)
    requires Lowers(low) && Normal(q) && q != ""
    ensures IsExtractive(q, q + " " + rest)
  {
    WordsThenSpace(q, rest);
    assert RunAt(Words(q), Words(q + " " + rest), 0);
    TokenRunIsExtractive(low, q, q + " " + rest);
  }

  lemma HeldValueIsGrounded(low: char -> char, front: string, value: string, rest: string)
    requires Tight(value)
    ensures IsGrounded(low, value, front + Lower(low, value) + rest)
  {
    StripKeepsTight(value);
    var v := Lower(low, value);
    assert (front + v + rest)[|front|..|front| + |v|] == v;
    assert OccursAt(front + v + rest, v, |front|);
  }

  lemma LowerConcat(low: char -> char, a: string, b: string)
    ensures Lower(low, a + b) == Lower(low, a) + Lower(low, b)
  {}

  /** A value that an item can carry. */
  predicate Usable(low: char -> char, concrete: string -> bool, value: string) {
    Tight(value) && concrete(value) && !IsAllRedacted(low, value)
  }

  predicate UsableQualifier(q: string, source: string) {
    Normal(q) && (q != "" ==> WordCount(q) <= MAX_QUALIFIER_TOKENS && IsExtractive(q, source))
  }

  function Kept(head: string, q: string, value: string): Attribute {
    Attribute(head, if q == "" then None else Some(q), value, true)
  }

  /** What an item with a normalised head, such a qualifier and such a value in the text becomes. */
  lemma ItemIsKept(low: char -> char, concrete: string -> bool, heads: set<string>, head: string, q: string, value: string, source: string)
    requires Lowers(low) && Normal(head) && head in heads && Usable(low, concrete, value) && UsableQualifier(q, source)
    requires IsGrounded(low, value, source)
    ensures Candidate(SourceChecks(low, concrete, source), heads, Item(head, if q == "" then None else Some(q), value)) == Some(Kept(head, q, value))
  {
    hide Lowers, IsExtractive, IsGrounded, IsAllRedacted, Normal;
    NormalIsFixed(low, head);
    StripKeepsTight(value);
    if q != "" {
      NormalIsFixed(low, q);
    }
  }

  lemma NameOfKept(low: char -> char, concrete: string -> bool, source: string, head: string, q: string, value: string)
    requires Lowers(low) && Normal(head) && Normal(q)
    ensures Name(SourceChecks(low, concrete, source), Kept(head, q, value)) == Compose(head, q)
  {
    hide Lowers, Normal;
    NormalIsFixed(low, head);
    NormalIsFixed(low, q);
  }

  lemma OutIsTheFirst(c: Checks, a: Attribute, b: Attribute)
    requires Name(c, a) == Name(c, b)
    ensures FirstOfEachName(c, [Some(a), Some(b)], [a], [0])
  {
    hide Name;
    var cs, out := [Some(a), Some(b)], [a];
    assert IsFirst(c, cs, 0, a);
    assert Name(c, out[0]) == Name(c, a);
    forall i | 0 <= i < |cs| && cs[i].Some? ensures NameIsOut(c, out, Name(c, cs[i].value)) {}
  }

  lemma TwoCandidates(c: Checks, heads: set<string>, one: Item, other: Item)
    ensures Candidates(c, heads, [one, other]) == [Candidate(c, heads, one), Candidate(c, heads, other)]
  {
    hide Candidate;
  }

  /** A text that starts with some words and holds two values. */
  function TextOf(front: string, value: string, other: string): string {
    front + " " + (value + " " + other)
  }

  lemma LowerTextOf(low: char -> char, front: string, value: string, other: string)
    requires Lowers(low) && low(' ') == ' ' && Normal(front) && Tight(value) && Tight(other)
    ensures Lower(low, TextOf(front, value, other)) == TextOf(front, Lower(low, value), Lower(low, other))
    ensures var source := TextOf(front, Lower(low, value), Lower(low, other)); IsGrounded(low, value, source) && IsGrounded(low, other, source)
  {
    hide Lowers, Normal, IsGrounded;
    LowerConcat(low, front + " ", value + " " + other);
    LowerConcat(low, front, " ");
    LowerConcat(low, value + " ", other);
    LowerConcat(low, value, " ");
    LowerKeepsNormal(low, front);
    assert Lower(low, " ") == " ";
    var v, w := Lower(low, value), Lower(low, other);
    HeldValueIsGrounded(low, front + " ", value, " " + w);
    HeldValueIsGrounded(low, front + " " + v + " ", other, "");
    assert front + " " + v + (" " + w) == TextOf(front, v, w) == front + " " + v + " " + w + "";
  }

  /** An answer of two facts with one name and different values loses the second, value and all. */
  lemma TwoFactsOneName(low: char -> char, concrete: string -> bool, heads: set<string>, h1: string, q1: string, h2: string, q2: string,
      front: string, value: string, other: string)
    requires Lowers(low) && low(' ') == ' ' && Normal(h1) && Normal(h2) && h1 in heads && h2 in heads && h1 != h2
    requires Compose(h1, q1) == Compose(h2, q2) && Normal(front)
    requires var source := TextOf(front, Lower(low, value), Lower(low, other)); UsableQualifier(q1, source) && UsableQualifier(q2, source)
    requires Usable(low, concrete, value) && Usable(low, concrete, other) && value != other
    ensures CanLose(low, concrete, heads)
    ensures forall out, origin ::
      FirstOfEachName(SourceChecks(low, concrete, Lower(low, TextOf(front, value, other))),
        Candidates(SourceChecks(low, concrete, Lower(low, TextOf(front, value, other))), heads, TwoItems(h1, q1, h2, q2, value, other)), out, origin) ==>
      LosesItem(SourceChecks(low, concrete, Lower(low, TextOf(front, value, other))), heads, TwoItems(h1, q1, h2, q2, value, other), out, 1)
  {
    hide Lowers, IsExtractive, IsGrounded, Normal, Tight, IsAllRedacted, Candidate, FirstOfEachName, Candidates, Compose, Name, SameFact, TextOf;
    LowerTextOf(low, front, value, other);
    var caseText, source := TextOf(front, value, other), TextOf(front, Lower(low, value), Lower(low, other));
    assert Lower(low, caseText) == source;
    var c, items := SourceChecks(low, concrete, source), TwoItems(h1, q1, h2, q2, value, other);
    var a, b := Kept(h2, q2, value), Kept(h1, q1, other);
    ItemIsKept(low, concrete, heads, h2, q2, value, source);
    ItemIsKept(low, concrete, heads, h1, q1, other, source);
    TwoCandidates(c, heads, items[0], items[1]);
    NameOfKept(low, concrete, source, h2, q2, value);
    NameOfKept(low, concrete, source, h1, q1, other);
    assert !SameFact(a, b) by {
      OtherHeadOtherFact(a, b);
    }
    forall out, origin | FirstOfEachName(c, Candidates(c, heads, items), out, origin) ensures LosesItem(c, heads, items, out, 1) {
      SharedNameDropsTheSecond(c, a, b, out, origin);
    }
    OutIsTheFirst(c, a, b);
    assert FirstOfEachName(c, Candidates(c, heads, items), [a], [0]);
    assert LosesItem(c, heads, items, [a], 1);
  }

  function TwoItems(h1: string, q1: string, h2: string, q2: string, value: string, other: string): seq<Item> {
    [Item(h2, if q2 == "" then None else Some(q2), value), Item(h1, if q1 == "" then None else Some(q1), other)]
  }

  lemma OtherHeadOtherFact(a: Attribute, b: Attribute)
    requires a.head != b.head
    ensures !SameFact(a, b)
  {}

  /** A costly pair of heads costs a fact: behind four or fewer words, the shorter head with those words; if
      those words are the shorter head again, one more word in front of both. */
  lemma CostlyHeadsLose(low: char -> char, concrete: string -> bool, heads: set<string>, h1: string, h2: string, value: string, other: string)
    requires Lowers(low) && low(' ') == ' ' && Normal(h1) && Normal(h2) && h1 in heads && h2 in heads && CostsAFact(h1, h2)
    requires Usable(low, concrete, value) && Usable(low, concrete, other) && value != other
    ensures CanLose(low, concrete, heads)
  {
    hide Lowers, IsExtractive, IsAllRedacted, CanLose, Usable;
    CutSuffix(h1, h2);
    var p := Front(h1, h2);
    var rest := Lower(low, value) + " " + Lower(low, other);
    if p != h2 {
      LeadingQualifierIsExtractive(low, p, rest);
      TwoFactsOneName(low, concrete, heads, h1, "", h2, p, p, value, other);
    } else {
      PrefixedIsNormal("a", p);
      var q := "a" + "_" + p;
      WordsOfJoined("a", p);
      OneWord("a");
      LeadingQualifierIsExtractive(low, q, rest);
      LeadingWordIsExtractive(low, p, rest);
      SameTail("a", p, h2);
      assert "a" != h1 && q != h2;
      TwoFactsOneName(low, concrete, heads, h1, "a", h2, q, q, value, other);
    }
  }

  lemma OneWord(w: string)
    requires w != "" && '_' !in w
    ensures WordCount(w) == 1
  {
    SplitWhole(w, '_');
  }

  /** So is its first word. */
  lemma LeadingWordIsExtractive(low: char -> char, p: string, v: string)
    requires Lowers(low) && Normal(p) && p != ""
    ensures IsExtractive("a", "a" + "_" + p + " " + v)
  {
    hide Lowers;
    var s := "a" + "_" + p + " " + v;
    assert s[0] == 'a' && s[1] == '_';
    assert Run(s) == "a" by {
      assert s[1..][0] == '_';
      assert Run(s[1..]) == "";
    }
    WordsOfWord("a");
    WordsFromRun(s);
    assert RunAt(Words("a"), Words(s), 0);
    TokenRunIsExtractive(low, "a", s);
  }

  /** Exactly when the extractor can lose a fact: the vocabulary holds a costly pair of heads. The
      values stand for any two texts that the value profiler takes as concrete. */
  lemma LosesAFactExactlyWhen(low: char -> char, concrete: string -> bool, heads: set<string>, value: string, other: string)
    requires Lowers(low) && low(' ') == ' ' && forall h | h in heads :: Normal(h)
    requires Usable(low, concrete, value) && Usable(low, concrete, other) && value != other
    ensures CanLose(low, concrete, heads) <==> !Harmless(heads)
  {
    hide Lowers, Usable, Normal, CostsAFact, SameFact, Candidate, FirstOfEachName, Candidates;
    if !Harmless(heads) {
      var h1, h2 :| h1 in heads && h2 in heads && CostsAFact(h1, h2);
      CostlyHeadsLose(low, concrete, heads, h1, h2, value, other);
    }
    if CanLose(low, concrete, heads) && Harmless(heads) {
      var caseText, items, out, origin, i :|
        FirstOfEachName(SourceChecks(low, concrete, Lower(low, caseText)), Candidates(SourceChecks(low, concrete, Lower(low, caseText)), heads, items), out, origin) &&
        LosesItem(SourceChecks(low, concrete, Lower(low, caseText)), heads, items, out, i);
      var k := OnlyTrueDuplicatesAreDropped(low, concrete, Lower(low, caseText), heads, items, out, origin, i);
    }
  }

  /** The call that fails: a delivery time under "time" and another under the minted "delivery_time", from a
      text that says "delivery 5pm 6pm". Whatever the output, the second time is not in it. */
  lemma DeliveryTimeIsLost(low: char -> char, concrete: string -> bool, heads: set<string>)
    requires Lowers(low) && low(' ') == ' ' && "time" in heads && "delivery_time" in heads && concrete("5pm") && concrete("6pm")
    ensures forall out, origin ::
      FirstOfEachName(SourceChecks(low, concrete, Lower(low, DELIVERY_TEXT)),
        Candidates(SourceChecks(low, concrete, Lower(low, DELIVERY_TEXT)), heads, DELIVERY_ITEMS), out, origin) ==>
      LosesItem(SourceChecks(low, concrete, Lower(low, DELIVERY_TEXT)), heads, DELIVERY_ITEMS, out, 1)
  {
    hide IsExtractive, Candidate, FirstOfEachName, Candidates, LosesItem, Normal, IsAllRedacted, Keep, Words, IsSpace, Tight;
    assert TextOf("delivery", "5pm", "6pm") == DELIVERY_TEXT;
    DeliveryNames();
    Times(low);
    assert "5pm"[0] != "6pm"[0];
    OneWord("delivery");
    LeadingQualifierIsExtractive(low, "delivery", Lower(low, "5pm") + " " + Lower(low, "6pm"));
    TwoFactsOneName(low, concrete, heads, "delivery_time", "", "time", "delivery", "delivery", "5pm", "6pm");
  }

  lemma WordIsNormal(w: string)
    requires IsWord(w)
    ensures Normal(w)
  {
    forall i | 0 <= i < |w| ensures CleanAt(w, i) {}
  }

  lemma DeliveryNames()
    ensures Normal("delivery") && Normal("time") && Normal("delivery_time") && Normal("")
    ensures Compose("delivery_time", "") == Compose("time", "delivery")
  {
    WordIsNormal("delivery");
    WordIsNormal("time");
    PrefixedIsNormal("delivery", "time");
    assert "delivery" + "_" + "time" == "delivery_time";
  }

  lemma Times(low: char -> char)
    requires Lowers(low)
    ensures Tight("5pm") && !IsAllRedacted(low, "5pm") && Tight("6pm") && !IsAllRedacted(low, "6pm")
  {
    assert low("5pm"[0]) == '5' && low("6pm"[0]) == '6';
  }

  const DELIVERY_TEXT := "delivery 5pm 6pm"
  const DELIVERY_ITEMS := TwoItems("delivery_time", "", "time", "delivery", "5pm", "6pm")
}
