/** The extractor's loop over emergent attributes and its two anti-hallucination checks
    (engine/app/extract/extractor.py). The model's answer is an arbitrary list of items, and so is what the
    value profiler calls concrete; lowercasing works character by character. */
module Extractor {
  import opened Options
  import opened Text
  import opened FieldNames

  // ---- is a qualifier extractive? -----------------------------------------------------------

  /** `_is_extractive`. */
  predicate IsExtractive(qualifier: string, source: string) {
    var phrase := Join(Split(qualifier, '_'), " ");
    phrase != "" && Contains(Join(Words(source), " "), phrase)
  }

  /** The words stand next to each other among the tokens, from token k on. */
  predicate RunAt(ws: seq<string>, tokens: seq<string>, k: nat) {
    k + |ws| <= |tokens| && tokens[k..k + |ws|] == ws
  }

  ghost predicate IsTokenRun(ws: seq<string>, tokens: seq<string>) {
    exists k: nat :: RunAt(ws, tokens, k)
  }

  /** Words with a space on both sides of each. */
  function Padded(ws: seq<string>): (p: string)
    ensures p != "" && p[0] == ' '
  {
    if ws == [] then " " else " " + ws[0] + Padded(ws[1..])
  }

  lemma {:induction false} PaddedIsJoin(ws: seq<string>)
    requires ws != []
    ensures Padded(ws) == " " + Join(ws, " ") + " "
  {
    if |ws| > 1 {
      PaddedIsJoin(ws[1..]);
    }
  }

  lemma {:induction false} PaddedPrefix(ws: seq<string>, tokens: seq<string>)
    requires AreWords(ws) && AreWords(tokens)
    ensures Padded(ws) <= Padded(tokens) <==> ws <= tokens
  {
    if ws == [] {
      assert Padded(ws) == " ";
    } else if tokens == [] {
      assert |Padded(ws)| > 1;
    } else {
      PaddedPrefix(ws[1..], tokens[1..]);
      HeadsAgree(ws[0], Padded(ws[1..]), tokens[0], Padded(tokens[1..]));
      assert ws <= tokens <==> ws[0] == tokens[0] && ws[1..] <= tokens[1..];
    }
  }

  /** A word followed by a space can only match the same word. */
  lemma HeadsAgree(w: string, p: string, t: string, r: string)
    requires IsWord(w) && IsWord(t) && p != "" && r != "" && p[0] == ' ' && r[0] == ' '
    ensures " " + w + p <= " " + t + r <==> w == t && p <= r
  {
    var a, b := " " + w + p, " " + t + r;
    if w == t {
      assert a[|w| + 1..] == p && b[|w| + 1..] == r;
    } else if |w| == |t| {
      var i :| 0 <= i < |w| && w[i] != t[i];
      assert a[i + 1] != b[i + 1];
    } else if |w| < |t| {
      assert a[|w| + 1] != b[|w| + 1];
    } else {
      assert a[|t| + 1] == w[|t|];
      assert |t| + 1 < |b| && b[|t| + 1] == ' ';
    }
  }

  lemma RunAfter(ws: seq<string>, tokens: seq<string>, k: nat)
    requires tokens != []
    ensures RunAt(ws, tokens, k + 1) <==> RunAt(ws, tokens[1..], k)
  {
    if k + 1 + |ws| <= |tokens| {
      assert tokens[k + 1..k + 1 + |ws|] == tokens[1..][k..k + |ws|];
    }
  }

  lemma OccursAfter(front: string, rest: string, needle: string, k: nat)
    ensures OccursAt(front + rest, needle, |front| + k) <==> OccursAt(rest, needle, k)
  {
    if k + |needle| <= |rest| {
      assert (front + rest)[|front| + k..|front| + k + |needle|] == rest[k..k + |needle|];
    }
  }

  lemma {:induction false} PaddedOccurrenceIsRun(ws: seq<string>, tokens: seq<string>, k: nat)
    requires AreWords(ws) && AreWords(tokens) && OccursAt(Padded(tokens), Padded(ws), k)
    ensures IsTokenRun(ws, tokens)
    decreases |tokens|
  {
    var p := Padded(tokens);
    if k == 0 {
      PaddedPrefix(ws, tokens);
      assert RunAt(ws, tokens, 0);
    } else {
      var front := " " + tokens[0];
      assert p[k..k + |Padded(ws)|][0] == p[k];
      assert k >= |front|;
      OccursAfter(front, Padded(tokens[1..]), Padded(ws), k - |front|);
      PaddedOccurrenceIsRun(ws, tokens[1..], k - |front|);
      var i: nat :| RunAt(ws, tokens[1..], i);
      RunAfter(ws, tokens, i);
    }
  }

  lemma {:induction false} RunIsPaddedOccurrence(ws: seq<string>, tokens: seq<string>, i: nat) returns (k: nat)
    requires AreWords(ws) && AreWords(tokens) && RunAt(ws, tokens, i)
    ensures OccursAt(Padded(tokens), Padded(ws), k)
    decreases |tokens|
  {
    if i == 0 {
      PaddedPrefix(ws, tokens);
      k := 0;
    } else {
      RunAfter(ws, tokens, i - 1);
      k := RunIsPaddedOccurrence(ws, tokens[1..], i - 1);
      var front := " " + tokens[0];
      OccursAfter(front, Padded(tokens[1..]), Padded(ws), k);
      k := |front| + k;
    }
  }

  /** Whole words in a row are what a search with spaces at both ends finds. */
  lemma TokenRunExactlyWhenPadded(ws: seq<string>, tokens: seq<string>)
    requires AreWords(ws) && AreWords(tokens)
    ensures IsTokenRun(ws, tokens) <==> Contains(Padded(tokens), Padded(ws))
  {
    if Contains(Padded(tokens), Padded(ws)) {
      PaddedOccurrenceIsRun(ws, tokens, Find(Padded(tokens), Padded(ws)));
    }
    if IsTokenRun(ws, tokens) {
      var i: nat :| RunAt(ws, tokens, i);
      var k := RunIsPaddedOccurrence(ws, tokens, i);
      assert OccursAt(Padded(tokens), Padded(ws), k);
    }
  }

  lemma WordHasNoMark(w: string)
    requires IsWord(w)
    ensures '_' !in w
  {}

  /** The parts the check splits a normalised qualifier into are its words. */
  lemma PartsAreWords(low: char -> char, qualifier: string)
    requires Lowers(low) && Normal(qualifier) && qualifier != ""
    ensures Split(qualifier, '_') == Words(qualifier)
  {
    NormalIsFixed(low, qualifier);
    NormaliseJoinsTheWords(low, qualifier);
    NormalIsTight(qualifier);
    StripKeepsTight(qualifier);
    LowerKeepsNormal(low, qualifier);
    var ws := Words(qualifier);
    forall i | 0 <= i < |ws| ensures '_' !in ws[i] {
      WordHasNoMark(ws[i]);
    }
    SplitJoin(ws, '_');
  }

  lemma InsideSpaces(hay: string, needle: string, k: nat)
    requires OccursAt(" " + hay + " ", " " + needle + " ", k)
    ensures OccursAt(hay, needle, k)
  {
    var h, n := " " + hay + " ", " " + needle + " ";
    SliceOfSlice(h, k, k + |n|, 1, 1 + |needle|);
    SliceOfSlice(h, 1, 1 + |hay|, k, k + |needle|);
    assert h[1..1 + |hay|] == hay && n[1..1 + |needle|] == needle;
  }

  /** Words that stand in a row in the source are extractive. */
  lemma TokenRunIsExtractive(low: char -> char, qualifier: string, source: string)
    requires Lowers(low) && Normal(qualifier) && qualifier != "" && IsTokenRun(Words(qualifier), Words(source))
    ensures IsExtractive(qualifier, source)
  {
    var ws, tokens := Words(qualifier), Words(source);
    PartsAreWords(low, qualifier);
    var i: nat :| RunAt(ws, tokens, i);
    assert tokens != [];
    var k := RunIsPaddedOccurrence(ws, tokens, i);
    PaddedIsJoin(ws);
    PaddedIsJoin(tokens);
    InsideSpaces(Join(tokens, " "), Join(ws, " "), k);
    JoinIsNotEmpty(ws);
  }

  lemma JoinIsNotEmpty(ws: seq<string>)
    requires AreWords(ws) && ws != []
    ensures Join(ws, " ") != ""
  {}

  lemma {:induction false} RunOfWord(w: string)
    requires forall i | 0 <= i < |w| :: Keep(w[i])
    ensures Run(w) == w
  {
    if w != "" {
      RunOfWord(w[1..]);
      assert [w[0]] + w[1..] == w;
    }
  }

  lemma WordsOfWord(w: string)
    requires IsWord(w)
    ensures Words(w) == [w]
  {
    RunOfWord(w);
    assert w[|w|..] == "";
  }

  /** The converse fails: part of a word is extractive, though the words of the qualifier do not stand in
      the source. */
  lemma PartOfAWordIsExtractive()
    ensures Normal("art") && IsExtractive("art", "party") && !IsTokenRun(Words("art"), Words("party"))
  {
    WordsOfWord("art");
    WordsOfWord("party");
    SplitWhole("art", '_');
    assert OccursAt("party", "art", 1);
    forall k: nat ensures !RunAt(["art"], ["party"], k) {
      assert k == 0 ==> ["party"][k..k + 1][0] == "party";
    }
  }

  // ---- is a value grounded? -----------------------------------------------------------------

  /** How many words occur in the source. */
  function Hits(words: seq<string>, source: string): (n: nat)
    ensures n <= |words|
  {
    if words == [] then 0
    else (if Contains(source, words[0]) then 1 else 0) + Hits(words[1..], source)
  }

  function Significant(tokens: seq<string>): (r: seq<string>)
    ensures forall t | t in r :: t in tokens && |t| > 2
    ensures forall t | t in tokens && |t| > 2 :: t in r
  {
    if tokens == [] then []
    else (if |tokens[0]| > 2 then [tokens[0]] else []) + Significant(tokens[1..])
  }

  predicate TokensOverlap(tokens: seq<string>, source: string) {
    var significant := Significant(tokens);
    if significant == [] then exists i | 0 <= i < |tokens| :: Contains(source, tokens[i])
    else 10 * Hits(significant, source) >= 6 * |significant|
  }

  /** `_is_grounded`, with the overlap compared exactly. */
  predicate IsGrounded(low: char -> char, value: string, source: string) {
    var v := Lower(low, Strip(value));
    v != "" && (Contains(source, v) || TokensOverlap(Words(v), source))
  }

  lemma {:induction false} HitsGrow(words: seq<string>, source: string, more: string)
    requires Contains(more, source)
    ensures Hits(words, source) <= Hits(words, more)
  {
    if words != [] {
      HitsGrow(words[1..], source, more);
      if Contains(source, words[0]) {
        ContainsWithin(more, source, words[0]);
      }
    }
  }

  /** A value grounded in part of a text is grounded in the whole text. */
  lemma GroundingGrows(low: char -> char, value: string, source: string, more: string)
    requires Contains(more, source) && IsGrounded(low, value, source)
    ensures IsGrounded(low, value, more)
  {
    var v := Lower(low, Strip(value));
    if Contains(source, v) {
      ContainsWithin(more, source, v);
    } else {
      HitsGrow(Significant(Words(v)), source, more);
      if Significant(Words(v)) == [] {
        var i :| 0 <= i < |Words(v)| && Contains(source, Words(v)[i]);
        ContainsWithin(more, source, Words(v)[i]);
      }
    }
  }

  lemma ContainsLater(v: string, n: nat, t: string)
    requires n <= |v| && Contains(v[n..], t)
    ensures Contains(v, t)
  {
    assert OccursAt(v, v[n..], n);
    ContainsWithin(v, v[n..], t);
  }

  lemma {:induction false} WordsOccur(v: string, t: string)
    requires t in Words(v)
    ensures Contains(v, t)
    decreases |v|
  {
    hide Contains;
    if Keep(v[0]) {
      if t == Run(v) {
        PrefixIsContained(v, t);
      } else {
        WordsOccur(v[|Run(v)|..], t);
        ContainsLater(v, |Run(v)|, t);
      }
    } else {
      WordsOccur(v[1..], t);
      ContainsLater(v, 1, t);
    }
  }

  lemma PrefixIsContained(v: string, t: string)
    requires t <= v
    ensures Contains(v, t)
  {
    assert OccursAt(v, t, 0);
  }

  lemma {:induction false} NoHits(words: seq<string>, source: string)
    requires forall t | t in words :: !Contains(source, t)
    ensures Hits(words, source) == 0
  {
    if words != [] {
      NoHits(words[1..], source);
    }
  }

  /** A value none of whose words occurs in the source is never grounded. */
  lemma InventedIsNotGrounded(low: char -> char, value: string, source: string)
    requires Words(Lower(low, Strip(value))) != []
    requires forall t | t in Words(Lower(low, Strip(value))) :: !Contains(source, t)
    ensures !IsGrounded(low, value, source)
  {
    var v := Lower(low, Strip(value));
    var t := Words(v)[0];
    if Contains(source, v) {
      WordsOccur(v, t);
      ContainsWithin(source, v, t);
    }
    NoHits(Significant(Words(v)), source);
  }

  // ---- the loop over the answer's attributes ------------------------------------------------

  /** An entry of the answer: not an object, or an object whose missing texts read as "". */
  datatype Item = NotAnObject | Item(head: string, qualifier: Option<string>, value: string)

  datatype Attribute = Attribute(head: string, qualifier: Option<string>, value: string, grounded: bool)

  const MAX_QUALIFIER_TOKENS := 4

  predicate IsEscape(head: string) {
    head == "other" || head == "description"
  }

  /** `_is_all_redacted`. */
  predicate IsAllRedacted(low: char -> char, value: string) {
    forall i | 0 <= i < |value| :: Keep(low(value[i])) ==> low(value[i]) == 'x'
  }

  /** The text functions that one call applies. */
  datatype Checks = Checks(normalise: string -> string, strip: string -> string, redacted: string -> bool,
    short: string -> bool, extractive: string -> bool, escape: string -> bool, concrete: string -> bool, grounded: string -> bool)

  /** The source's own, for a lowered case text. */
  function SourceChecks(low: char -> char, concrete: string -> bool, source: string): Checks {
    Checks(t => NormaliseToken(low, t), t => Strip(t), t => IsAllRedacted(low, t),
      q => |Split(q, '_')| <= MAX_QUALIFIER_TOKENS, q => IsExtractive(q, source), h => IsEscape(h), concrete,
      v => IsGrounded(low, v, source))
  }

  function Token(c: Checks, qualifier: Option<string>): string {
    if qualifier.Some? && qualifier.value != "" then c.normalise(qualifier.value) else ""
  }

  /** The qualifier that survives: short and extractive. */
  function KeptQualifier(c: Checks, q: string): Option<string> {
    if q != "" && c.short(q) && c.extractive(q) then Some(q) else None
  }

  /** An item with content under a head of the vocabulary. */
  predicate HasContent(c: Checks, heads: set<string>, head: string, value: string) {
    head in heads && value != "" && !c.redacted(value) && (c.escape(head) ==> c.concrete(value))
  }

  /** The attribute an item stands for, before the duplicate check. */
  function Candidate(c: Checks, heads: set<string>, item: Item): Option<Attribute> {
    if item.Item? && HasContent(c, heads, c.normalise(item.head), c.strip(item.value)) then
      var value := c.strip(item.value);
      Some(Attribute(c.normalise(item.head), KeptQualifier(c, Token(c, item.qualifier)), value, c.grounded(value)))
    else None
  }

  function Candidates(c: Checks, heads: set<string>, items: seq<Item>): (cs: seq<Option<Attribute>>)
    ensures |cs| == |items| && forall i | 0 <= i < |items| :: cs[i] == Candidate(c, heads, items[i])
  {
    seq(|items|, i requires 0 <= i < |items| => Candidate(c, heads, items[i]))
  }

  /** `EmergentAttribute.name`. */
  function Name(c: Checks, a: Attribute): string {
    Compose(c.normalise(a.head), Token(c, a.qualifier))
  }

  ghost predicate Named(c: Checks, e: Option<Attribute>, wanted: string) {
    e.Some? && Name(c, e.value) == wanted
  }

  /** Entry k of the output is the candidate at origin[k], the first with its name. */
  ghost predicate IsFirst(c: Checks, cs: seq<Option<Attribute>>, o: nat, a: Attribute) {
    o < |cs| && cs[o] == Some(a) && forall i | 0 <= i < o :: !Named(c, cs[i], Name(c, a))
  }

  ghost predicate NameIsOut(c: Checks, out: seq<Attribute>, wanted: string) {
    exists k | 0 <= k < |out| :: Name(c, out[k]) == wanted
  }

  ghost predicate AllOut(c: Checks, cs: seq<Option<Attribute>>, out: seq<Attribute>) {
    forall i | 0 <= i < |cs| && cs[i].Some? :: NameIsOut(c, out, Name(c, cs[i].value))
  }

  ghost predicate AllFirst(c: Checks, cs: seq<Option<Attribute>>, out: seq<Attribute>, origin: seq<nat>) {
    |origin| == |out| && forall k | 0 <= k < |out| :: IsFirst(c, cs, origin[k], out[k])
  }

  ghost predicate Ascending(origin: seq<nat>) {
    forall k, l | 0 <= k < l < |origin| :: origin[k] < origin[l]
  }

  /** The output holds, in order, the first candidate of each name and nothing else. */
  ghost predicate FirstOfEachName(c: Checks, cs: seq<Option<Attribute>>, out: seq<Attribute>, origin: seq<nat>) {
    AllFirst(c, cs, out, origin) && Ascending(origin) && AllOut(c, cs, out)
  }

  function Grounded(out: seq<Attribute>): (n: nat)
    ensures n <= |out| && (n == |out| <==> forall k | 0 <= k < |out| :: out[k].grounded)
  {
    if out == [] then 0 else Grounded(out[..|out| - 1]) + (if out[|out| - 1].grounded then 1 else 0)
  }

  ghost function GroundedAt(out: seq<Attribute>): set<nat> {
    set k: nat | k < |out| && out[k].grounded
  }

  lemma OneMore(s: set<nat>, n: nat, t: set<nat>, more: bool)
    requires n !in s && forall i :: i in t <==> i in s || (more && i == n)
    ensures |t| == |s| + if more then 1 else 0
  {
    assert t == if more then s + {n} else s;
  }

  lemma OneMoreGrounded(out: seq<Attribute>)
    requires out != []
    ensures var n := |out| - 1; |GroundedAt(out)| == |GroundedAt(out[..n])| + if out[n].grounded then 1 else 0
  {
    var n := |out| - 1;
    OneMore(GroundedAt(out[..n]), n, GroundedAt(out), out[n].grounded);
  }

  lemma {:induction false} GroundedAreCounted(out: seq<Attribute>)
    ensures Grounded(out) == |GroundedAt(out)|
  {
    if out == [] {
      assert GroundedAt(out) == {};
    } else {
      hide GroundedAt;
      var n := |out| - 1;
      GroundedAreCounted(out[..n]);
      OneMoreGrounded(out);
    }
  }

  /** The checks of one round. */
  method Attest(c: Checks, heads: set<string>, item: Item) returns (a: Option<Attribute>)
    ensures a == Candidate(c, heads, item)
  {
    if item.NotAnObject? {
      return None;
    }
    var head := c.normalise(item.head);
    if head !in heads {
      return None;
    }
    var raw := Token(c, item.qualifier);
    var qualifier := if raw == "" then None else Some(raw);
    var value := c.strip(item.value);
    if value == "" || c.redacted(value) {
      return None;
    }
    if c.escape(head) && !c.concrete(value) {
      return None;
    }
    if qualifier.Some? && (!c.short(qualifier.value) || !c.extractive(qualifier.value)) {
      qualifier := None;
    }
    return Some(Attribute(head, qualifier, value, c.grounded(value)));
  }

  lemma FirstsStay(c: Checks, cs: seq<Option<Attribute>>, e: Option<Attribute>, out: seq<Attribute>, origin: seq<nat>)
    requires AllFirst(c, cs, out, origin)
    ensures AllFirst(c, cs + [e], out, origin)
  {
    forall k | 0 <= k < |out| ensures IsFirst(c, cs + [e], origin[k], out[k]) {
      assert IsFirst(c, cs, origin[k], out[k]);
      assert forall i | 0 <= i < origin[k] :: (cs + [e])[i] == cs[i];
    }
  }

  lemma NamesStay(c: Checks, cs: seq<Option<Attribute>>, e: Option<Attribute>, out: seq<Attribute>, out2: seq<Attribute>)
    requires AllOut(c, cs, out) && out <= out2 && (e.Some? ==> NameIsOut(c, out2, Name(c, e.value)))
    ensures AllOut(c, cs + [e], out2)
  {
    var cs2 := cs + [e];
    forall i | 0 <= i < |cs2| && cs2[i].Some? ensures NameIsOut(c, out2, Name(c, cs2[i].value)) {
      if i < |cs| {
        assert NameIsOut(c, out, Name(c, cs[i].value));
        var k :| 0 <= k < |out| && Name(c, out[k]) == Name(c, cs[i].value);
        assert out2[k] == out[k];
      }
    }
  }

  lemma FirstOfEachNameSkips(c: Checks, cs: seq<Option<Attribute>>, e: Option<Attribute>, out: seq<Attribute>, origin: seq<nat>)
    requires FirstOfEachName(c, cs, out, origin) && (e.Some? ==> NameIsOut(c, out, Name(c, e.value)))
    ensures FirstOfEachName(c, cs + [e], out, origin)
  {
    FirstsStay(c, cs, e, out, origin);
    NamesStay(c, cs, e, out, out);
  }

  lemma FirstOfEachNameAdds(c: Checks, cs: seq<Option<Attribute>>, a: Attribute, out: seq<Attribute>, origin: seq<nat>)
    requires FirstOfEachName(c, cs, out, origin) && !NameIsOut(c, out, Name(c, a))
    ensures FirstOfEachName(c, cs + [Some(a)], out + [a], origin + [|cs|])
  {
    var e := Some(a);
    FirstsStay(c, cs, e, out, origin);
    var cs2, out2, origin2 := cs + [e], out + [a], origin + [|cs|];
    assert out2[|out|] == a;
    NamesStay(c, cs, e, out, out2);
    forall i | 0 <= i < |cs| ensures !Named(c, cs2[i], Name(c, a)) {
      assert cs2[i] == cs[i];
      assert cs[i].Some? ==> NameIsOut(c, out, Name(c, cs[i].value));
    }
    assert IsFirst(c, cs2, |cs|, a);
    forall k | 0 <= k < |out2| ensures IsFirst(c, cs2, origin2[k], out2[k]) {
      if k < |out| {
        assert IsFirst(c, cs2, origin[k], out[k]);
      }
    }
    forall k | 0 <= k < |out| ensures origin[k] < |cs| {
      assert IsFirst(c, cs, origin[k], out[k]);
    }
  }

  /** `seen` holds the names that are out. */
  ghost predicate SeenIs(c: Checks, out: seq<Attribute>, seen: set<string>) {
    forall s :: s in seen <==> NameIsOut(c, out, s)
  }

  lemma SeenGrows(c: Checks, out: seq<Attribute>, seen: set<string>, a: Attribute)
    requires SeenIs(c, out, seen)
    ensures SeenIs(c, out + [a], seen + {Name(c, a)})
  {
    var out2 := out + [a];
    forall s ensures s in seen + {Name(c, a)} <==> NameIsOut(c, out2, s) {
      if NameIsOut(c, out, s) {
        var k :| 0 <= k < |out| && Name(c, out[k]) == s;
        assert out2[k] == out[k];
      }
      assert out2[|out|] == a;
      if NameIsOut(c, out2, s) {
        var k :| 0 <= k < |out2| && Name(c, out2[k]) == s;
        assert k < |out| ==> out2[k] == out[k];
      }
    }
  }

  lemma NothingYet(c: Checks, heads: set<string>)
    ensures FirstOfEachName(c, Candidates(c, heads, []), [], []) && SeenIs(c, [], {})
  {}

  lemma SeenMeansOut(c: Checks, out: seq<Attribute>, seen: set<string>, s: string)
    requires SeenIs(c, out, seen)
    ensures s in seen <==> NameIsOut(c, out, s)
  {}

  lemma CandidatesStep(c: Checks, heads: set<string>, items: seq<Item>, i: nat)
    requires i < |items|
    ensures Candidates(c, heads, items[..i + 1]) == Candidates(c, heads, items[..i]) + [Candidate(c, heads, items[i])]
  {
    hide Candidate;
  }

  /** The loop of `extract`. */
  method KeepFirst(c: Checks, heads: set<string>, items: seq<Item>) returns (emergent: seq<Attribute>, ghost origin: seq<nat>)
    ensures FirstOfEachName(c, Candidates(c, heads, items), emergent, origin)
  {
    hide FirstOfEachName, SeenIs, NameIsOut, Candidate, Candidates, Name;
    emergent, origin := [], [];
    var seen: set<string> := {};
    NothingYet(c, heads);
    assert items[..0] == [];
    for i := 0 to |items|
      invariant FirstOfEachName(c, Candidates(c, heads, items[..i]), emergent, origin)
      invariant SeenIs(c, emergent, seen)
    {
      ghost var cs := Candidates(c, heads, items[..i]);
      var a := Attest(c, heads, items[i]);
      CandidatesStep(c, heads, items, i);
      if a.Some? {
        SeenMeansOut(c, emergent, seen, Name(c, a.value));
      }
      if a.None? || Name(c, a.value) in seen {
        FirstOfEachNameSkips(c, cs, a, emergent, origin);
      } else {
        FirstOfEachNameAdds(c, cs, a.value, emergent, origin);
        SeenGrows(c, emergent, seen, a.value);
        origin := origin + [i];
        seen := seen + {Name(c, a.value)};
        emergent := emergent + [a.value];
      }
    }
    assert items[..|items|] == items;
  }

  /** `extract`: the first attribute of each name, and the grounded share of them; None stands for an
      answer that is no JSON object. */
  method Extract(low: char -> char, concrete: string -> bool, heads: set<string>, caseText: string, answer: Option<seq<Item>>)
      returns (emergent: seq<Attribute>, validity: real, ghost origin: seq<nat>)
    ensures answer.None? ==> emergent == [] && validity == 0.0
    ensures answer.Some? ==> (var c := SourceChecks(low, concrete, Lower(low, caseText));
      FirstOfEachName(c, Candidates(c, heads, answer.value), emergent, origin))
    ensures 0.0 <= validity <= 1.0
    ensures answer.Some? ==> (validity == 1.0 <==> forall k | 0 <= k < |emergent| :: emergent[k].grounded)
    ensures answer.Some? ==> validity * |emergent| as real == |GroundedAt(emergent)| as real
  {
    hide FirstOfEachName, Candidates, GroundedAt, SourceChecks;
    if answer.None? {
      return [], 0.0, [];
    }
    emergent, origin := KeepFirst(SourceChecks(low, concrete, Lower(low, caseText)), heads, answer.value);
    validity := Share(Grounded(emergent), |emergent|);
    GroundedAreCounted(emergent);
  }

  /** `field_validity`. */
  function Share(n: nat, total: nat): (r: real)
    requires n <= total
    ensures 0.0 <= r <= 1.0 && (r == 1.0 <==> n == total) && r * total as real == n as real
  {
    if total == 0 then 1.0 else n as real / total as real
  }

  /** No two output attributes share a name. */
  lemma OutputNamesAreDistinct(c: Checks, cs: seq<Option<Attribute>>, out: seq<Attribute>, origin: seq<nat>, k: nat, l: nat)
    requires FirstOfEachName(c, cs, out, origin) && k < l < |out|
    ensures Name(c, out[k]) != Name(c, out[l])
  {
    assert IsFirst(c, cs, origin[k], out[k]) && IsFirst(c, cs, origin[l], out[l]);
    assert origin[k] < origin[l];
    assert Named(c, cs[origin[k]], Name(c, out[k]));
  }

  lemma CandidateHasContent(c: Checks, heads: set<string>, item: Item)
    requires Candidate(c, heads, item).Some?
    ensures var a := Candidate(c, heads, item).value;
      item.Item? && HasContent(c, heads, a.head, a.value) && a.head == c.normalise(item.head) &&
      a.value == c.strip(item.value) && a.grounded == c.grounded(a.value)
    ensures var q := Candidate(c, heads, item).value.qualifier;
      q.Some? ==> item.Item? && q.value == Token(c, item.qualifier) != "" && c.short(q.value) && c.extractive(q.value)
  {}

  lemma TokenIsNormal(low: char -> char, qualifier: Option<string>)
    ensures Normal(QualifierToken(low, qualifier))
  {
    if qualifier.Some? && qualifier.value != "" {
      NormalisedIsNormal(low, qualifier.value);
    }
  }

  /** What every attribute is: under a vocabulary head, a value with content, and an honest flag. */
  lemma CandidatesAreSound(low: char -> char, concrete: string -> bool, source: string, c: Checks, heads: set<string>, item: Item)
    requires c == SourceChecks(low, concrete, source) && Candidate(c, heads, item).Some?
    ensures var a := Candidate(c, heads, item).value;
      a.head in heads && Normal(a.head) && Tight(a.value) && !IsAllRedacted(low, a.value) &&
      (IsEscape(a.head) ==> concrete(a.value)) && a.grounded == IsGrounded(low, a.value, source)
  {
    var a := Candidate(c, heads, item).value;
    CandidateHasContent(c, heads, item);
    NormalisedIsNormal(low, item.head);
    StripIsTight(item.value);
    assert c.redacted(a.value) == IsAllRedacted(low, a.value);
    assert c.escape(a.head) == IsEscape(a.head);
  }

  /** And its qualifier, if any, is short and extractive. */
  lemma QualifiersAreSound(low: char -> char, concrete: string -> bool, source: string, c: Checks, heads: set<string>, item: Item)
    requires c == SourceChecks(low, concrete, source) && Candidate(c, heads, item).Some?
    ensures var q := Candidate(c, heads, item).value.qualifier; q.Some? ==> ShortAndExtractive(q.value, source)
  {
    var q := Candidate(c, heads, item).value.qualifier;
    CandidateHasContent(c, heads, item);
    if q.Some? {
      TokenIsNormal(low, item.qualifier);
      assert Token(c, item.qualifier) == QualifierToken(low, item.qualifier);
      assert c.short(q.value) && c.extractive(q.value);
    }
  }

  predicate ShortAndExtractive(q: string, source: string) {
    q != "" && Normal(q) && IsExtractive(q, source) && |Split(q, '_')| <= MAX_QUALIFIER_TOKENS
  }

  ghost predicate SameFact(a: Attribute, b: Attribute) {
    a.head == b.head && Effective(a.head, OrEmpty(a.qualifier)) == Effective(b.head, OrEmpty(b.qualifier))
  }

  /** The normaliser leaves its own results alone. */
  ghost predicate Settles(c: Checks) {
    forall t :: c.normalise(c.normalise(t)) == c.normalise(t)
  }

  lemma SourceChecksSettle(low: char -> char, concrete: string -> bool, source: string)
    requires Lowers(low)
    ensures Settles(SourceChecks(low, concrete, source))
  {
    forall t ensures NormaliseToken(low, NormaliseToken(low, t)) == NormaliseToken(low, t) {
      NormaliseIsIdempotent(low, t);
    }
  }

  lemma NameOfCandidate(c: Checks, heads: set<string>, item: Item)
    requires Settles(c) && Candidate(c, heads, item).Some?
    ensures var a := Candidate(c, heads, item).value; a.head in heads && Name(c, a) == Compose(a.head, OrEmpty(a.qualifier))
  {}

  /** The second of two candidates with one name is dropped, whatever its head. */
  lemma SharedNameDropsTheSecond(c: Checks, a: Attribute, b: Attribute, out: seq<Attribute>, origin: seq<nat>)
    requires Name(c, a) == Name(c, b) && FirstOfEachName(c, [Some(a), Some(b)], out, origin)
    ensures out == [a]
  {
    var cs := [Some(a), Some(b)];
    assert Named(c, cs[0], Name(c, b));
    assert NameIsOut(c, out, Name(c, cs[0].value));
    forall k | 0 <= k < |out| ensures origin[k] == 0 && out[k] == a {
      assert IsFirst(c, cs, origin[k], out[k]);
    }
    if |out| > 1 {
      NotAllZero(origin);
    }
  }

  lemma NotAllZero(origin: seq<nat>)
    requires Ascending(origin) && |origin| > 1
    ensures exists k | 0 <= k < |origin| :: origin[k] != 0
  {
    assert origin[0] < origin[1];
  }
}
