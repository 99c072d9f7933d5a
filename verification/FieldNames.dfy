/** Composite column names (engine/app/extract/head_nouns.py): the normal form of a token, splitting a
    name into qualifier and head, and composing it again. A name is composed with one underscore, so the
    question is when two pairs share a name. Lowercasing works character by character. */
module FieldNames {
  import opened Options
  import opened Text

  // ---- the normal form --------------------------------------------------------------------

  /** `[a-z0-9]`. */
  predicate Keep(c: char) {
    'a' <= c <= 'z' || '0' <= c <= '9'
  }

  function SkipJunk(s: string): (r: string)
    ensures |r| <= |s| && r == s[|s| - |r|..] && (r == "" || Keep(r[0]))
    ensures s != "" && !Keep(s[0]) ==> |r| < |s|
  {
    if s == "" || Keep(s[0]) then s else SkipJunk(s[1..])
  }

  /** Every run outside `[a-z0-9]` becomes one underscore. */
  function Snake(s: string): string
    decreases |s|
  {
    if s == "" then ""
    else if Keep(s[0]) then [s[0]] + Snake(s[1..])
    else "_" + Snake(SkipJunk(s))
  }

  predicate IsMark(c: char) {
    c == '_'
  }

  /** `normalise_token`. */
  function NormaliseToken(low: char -> char, token: string): string {
    Trim(IsMark, Snake(Lower(low, Strip(token))))
  }

  /** The lowercase letters, the digits and the underscore are lowercase already. */
  ghost predicate Lowers(low: char -> char) {
    forall c | Keep(c) || c == '_' :: low(c) == c
  }

  predicate CleanAt(s: string, i: nat)
    requires i < |s|
  {
    Keep(s[i]) || (s[i] == '_' && (i == 0 || s[i - 1] != '_'))
  }

  /** Only kept characters and single underscores. */
  predicate Clean(s: string) {
    forall i | 0 <= i < |s| :: CleanAt(s, i)
  }

  /** The shape of a normalised token. */
  predicate Normal(s: string) {
    Clean(s) && (s == "" || (s[0] != '_' && s[|s| - 1] != '_'))
  }

  lemma PrependIsClean(c: char, s: string)
    requires Clean(s) && (Keep(c) || (c == '_' && (s == "" || s[0] != '_')))
    ensures Clean([c] + s)
  {
    forall k | 0 <= k < |s| + 1 ensures CleanAt([c] + s, k) {
      assert k > 0 ==> CleanAt(s, k - 1);
    }
  }

  lemma {:induction false} SnakeIsClean(s: string)
    ensures Clean(Snake(s))
    ensures s != "" && Keep(s[0]) ==> Snake(s) != "" && Snake(s)[0] == s[0]
    decreases |s|
  {
    if s == "" {
    } else if Keep(s[0]) {
      SnakeIsClean(s[1..]);
      PrependIsClean(s[0], Snake(s[1..]));
    } else {
      SnakeIsClean(SkipJunk(s));
      PrependIsClean('_', Snake(SkipJunk(s)));
    }
  }

  lemma {:induction false} SnakeKeepsClean(s: string)
    requires Clean(s)
    ensures Snake(s) == s
  {
    if s != "" {
      SliceIsClean(s, 1, |s|);
      var t := s[1..];
      assert s[1..|s|] == t && [s[0]] + t == s;
      SnakeKeepsClean(t);
      assert CleanAt(s, 0);
      assert t != "" ==> CleanAt(s, 1);
      assert !Keep(s[0]) ==> SkipJunk(s) == SkipJunk(t) == t;
    }
  }

  lemma SliceIsClean(s: string, i: nat, j: nat)
    requires Clean(s) && i <= j <= |s|
    ensures Clean(s[i..j])
  {
    forall k | 0 <= k < j - i ensures CleanAt(s[i..j], k) {
      assert CleanAt(s, i + k);
    }
  }

  lemma TrimIsNormal(s: string)
    requires Clean(s)
    ensures Normal(Trim(IsMark, s))
  {
    hide Clean;
    var n := LeadFrom(IsMark, s, 0);
    var l := s[n..];
    SliceIsClean(s, n, |s|);
    assert s[n..|s|] == l;
    var k := TrailFrom(IsMark, l, |l|);
    SliceIsClean(l, 0, k);
    assert l[0..k] == l[..k];
    TrimmedEnds(IsMark, s);
  }

  lemma NormalisedIsNormal(low: char -> char, token: string)
    ensures Normal(NormaliseToken(low, token))
  {
    var t := Lower(low, Strip(token));
    SnakeIsClean(t);
    TrimIsNormal(Snake(t));
  }

  lemma NormalIsTight(s: string)
    requires Normal(s) && s != ""
    ensures Tight(s)
  {
    assert CleanAt(s, 0) && CleanAt(s, |s| - 1);
  }

  lemma LowerKeepsNormal(low: char -> char, s: string)
    requires Lowers(low) && Normal(s)
    ensures Lower(low, s) == s
  {
    forall i | 0 <= i < |s| ensures low(s[i]) == s[i] {
      assert CleanAt(s, i);
    }
  }

  lemma NormalIsFixed(low: char -> char, s: string)
    requires Lowers(low) && Normal(s)
    ensures NormaliseToken(low, s) == s
  {
    if s != "" {
      NormalIsTight(s);
    }
    StripKeepsTight(s);
    LowerKeepsNormal(low, s);
    SnakeKeepsClean(s);
    TrimKeeps(IsMark, s);
  }

  /** Normalising a token again changes nothing. */
  lemma NormaliseIsIdempotent(low: char -> char, token: string)
    requires Lowers(low)
    ensures NormaliseToken(low, NormaliseToken(low, token)) == NormaliseToken(low, token)
  {
    NormalisedIsNormal(low, token);
    NormalIsFixed(low, NormaliseToken(low, token));
  }

  // ---- the words of a token -----------------------------------------------------------------

  predicate IsWord(w: string) {
    w != "" && forall i | 0 <= i < |w| :: Keep(w[i])
  }

  predicate AreWords(ws: seq<string>) {
    forall i | 0 <= i < |ws| :: IsWord(ws[i])
  }

  /** The longest leading run of `[a-z0-9]`. */
  function Run(s: string): (r: string)
    ensures |r| <= |s| && r == s[..|r|] && forall i | 0 <= i < |r| :: Keep(r[i])
    ensures |r| < |s| ==> !Keep(s[|r|])
    ensures s != "" && Keep(s[0]) ==> r != ""
  {
    if s != "" && Keep(s[0]) then [s[0]] + Run(s[1..]) else ""
  }

  /** `re.findall` of `[a-z0-9]+`. */
  function Words(s: string): (ws: seq<string>)
    ensures AreWords(ws)
    decreases |s|
  {
    if s == "" then []
    else if Keep(s[0]) then [Run(s)] + Words(s[|Run(s)|..])
    else Words(s[1..])
  }

  lemma {:induction false} WordsSkipJunk(s: string)
    ensures Words(s) == Words(SkipJunk(s))
    ensures Words(s) == [] <==> SkipJunk(s) == ""
  {
    if s != "" && !Keep(s[0]) {
      WordsSkipJunk(s[1..]);
    }
  }

  lemma SnakeStep(c: char, s: string)
    requires Keep(c)
    ensures Snake([c] + s) == [c] + Snake(s)
  {
    assert ([c] + s)[1..] == s;
  }

  lemma ConsConcat(c: char, t: string, rest: string)
    ensures ([c] + t) + rest == [c] + (t + rest)
  {}

  lemma {:induction false} SnakeRun(run: string, rest: string)
    requires forall i | 0 <= i < |run| :: Keep(run[i])
    ensures Snake(run + rest) == run + Snake(rest)
  {
    if run == "" {
      assert run + rest == rest;
      assert run + Snake(rest) == Snake(rest);
    } else {
      var c, t := run[0], run[1..];
      SnakeRun(t, rest);
      assert run == [c] + t;
      ConsConcat(c, t, rest);
      SnakeStep(c, t + rest);
      ConsConcat(c, t, Snake(rest));
    }
  }

  function Mark(b: bool): string {
    if b then "_" else ""
  }

  predicate EndsInJunk(s: string) {
    s != "" && !Keep(s[|s| - 1])
  }

  ghost predicate Shaped(s: string, snake: string, ws: seq<string>) {
    snake == Mark(s != "" && !Keep(s[0])) + Join(ws, "_") + Mark(ws != [] && EndsInJunk(s))
  }

  lemma ShapedAfterJunk(s: string, r: string, snake: string, ws: seq<string>)
    requires s != "" && !Keep(s[0]) && |r| < |s| && r == s[|s| - |r|..] && (r == "" || Keep(r[0]))
    requires Shaped(r, snake, ws) && (r == "" ==> ws == [])
    ensures Shaped(s, "_" + snake, ws)
  {
    if r != "" {
      assert r[|r| - 1] == s[|s| - 1];
    }
  }

  lemma ShapedAfterRun(run: string, rest: string, snake: string, ws: seq<string>)
    requires IsWord(run) && (rest != "" ==> !Keep(rest[0]))
    requires Shaped(rest, snake, ws) && (rest == "" ==> ws == []) && (ws == [] && rest != "" ==> EndsInJunk(rest))
    ensures Shaped(run + rest, run + snake, [run] + ws)
  {
    var s := run + rest;
    if rest != "" {
      assert s[|s| - 1] == rest[|rest| - 1];
    }
    SnakeShapeStep(run, rest, ws);
    assert ([run] + ws)[0] == run;
  }

  /** The words of a text, joined by underscores, with at most one more at each end. */
  lemma {:induction false} SnakeShape(s: string)
    ensures Shaped(s, Snake(s), Words(s))
    decreases |s|
  {
    if s == "" {
    } else if !Keep(s[0]) {
      var r := SkipJunk(s);
      WordsSkipJunk(s);
      SnakeShape(r);
      ShapedAfterJunk(s, r, Snake(r), Words(r));
    } else {
      var run, rest := Run(s), s[|Run(s)|..];
      SnakeShape(rest);
      NoWordsAllJunk(rest);
      assert s == run + rest;
      SnakeRun(run, rest);
      ShapedAfterRun(run, rest, Snake(rest), Words(rest));
    }
  }

  lemma {:induction false} NoWordsAllJunk(s: string)
    ensures Words(s) == [] && s != "" ==> EndsInJunk(s)
  {
    if |s| > 1 && !Keep(s[0]) {
      NoWordsAllJunk(s[1..]);
    }
  }

  lemma SnakeShapeStep(run: string, rest: string, ws: seq<string>)
    requires rest == "" ==> ws == []
    requires ws == [] && rest != "" ==> EndsInJunk(rest)
    ensures run + (Mark(rest != "") + Join(ws, "_") + Mark(ws != [] && EndsInJunk(rest))) ==
            Join([run] + ws, "_") + Mark(EndsInJunk(rest))
  {
    if ws != [] {
      assert ([run] + ws)[1..] == ws;
    }
  }

  lemma {:induction false} JoinEnds(ws: seq<string>)
    requires AreWords(ws)
    ensures var j := Join(ws, "_"); if ws == [] then j == "" else j != "" && Keep(j[0]) && Keep(j[|j| - 1])
  {
    if |ws| > 1 {
      JoinEnds(ws[1..]);
      var rest := Join(ws[1..], "_");
      var j := ws[0] + "_" + rest;
      assert j[0] == ws[0][0] && j[|j| - 1] == rest[|rest| - 1];
    }
  }

  lemma TrimLeadMark(l: string, lead: bool)
    requires l == "" || l[0] != '_'
    ensures TrimStart(IsMark, Mark(lead) + l) == l
  {
    var s := Mark(lead) + l;
    if lead {
      assert LeadFrom(IsMark, s, 0) == LeadFrom(IsMark, s, 1) == 1;
    }
  }

  lemma TrimTrailMark(j: string, trail: bool)
    requires j == "" || j[|j| - 1] != '_'
    ensures TrimEnd(IsMark, j + Mark(trail)) == j
  {
    var s := j + Mark(trail);
    if trail {
      assert TrailFrom(IsMark, s, |s|) == TrailFrom(IsMark, s, |j|) == |j|;
    }
  }

  lemma TrimMarks(j: string, lead: bool, trail: bool)
    requires j != "" ==> j[0] != '_' && j[|j| - 1] != '_'
    requires j == "" ==> !trail
    ensures Trim(IsMark, Mark(lead) + j + Mark(trail)) == j
  {
    hide TrimStart, TrimEnd;
    assert Mark(lead) + j + Mark(trail) == Mark(lead) + (j + Mark(trail));
    TrimLeadMark(j + Mark(trail), lead);
    TrimTrailMark(j, trail);
  }

  /** What normalising means: the words of the lowered text, joined by underscores. */
  lemma NormaliseJoinsTheWords(low: char -> char, token: string)
    ensures NormaliseToken(low, token) == Join(Words(Lower(low, Strip(token))), "_")
  {
    var s := Lower(low, Strip(token));
    SnakeShape(s);
    JoinEnds(Words(s));
    TrimMarks(Join(Words(s), "_"), s != "" && !Keep(s[0]), Words(s) != [] && EndsInJunk(s));
  }

  // ---- composite names ----------------------------------------------------------------------

  /** The name of a normalised head and qualifier, "" for no qualifier. */
  function Compose(h: string, q: string): string {
    if q != "" && q != h then q + "_" + h else h
  }

  function QualifierToken(low: char -> char, qualifier: Option<string>): string {
    if qualifier.Some? && qualifier.value != "" then NormaliseToken(low, qualifier.value) else ""
  }

  /** `compose_name`. */
  function ComposeName(low: char -> char, head: string, qualifier: Option<string>): string {
    Compose(NormaliseToken(low, head), QualifierToken(low, qualifier))
  }

  /** The qualifier that the name carries, when it carries one. */
  function Effective(h: string, q: string): Option<string> {
    if q != "" && q != h then Some(q) else None
  }

  /** `split_qualifier`. */
  function SplitQualifier(name: string, head: string): Option<string> {
    var suffix := "_" + head;
    if name == head then None
    else if EndsWith(name, suffix) && |name| > |suffix| then Some(name[..|name| - |suffix|])
    else None
  }

  lemma EndsOfConcat(front: string, back: string)
    ensures EndsWith(front + back, back) && (front + back)[..|front|] == front
  {}

  /** Splitting inverts composing: it gives back the qualifier that the name carries. */
  lemma SplitInvertsCompose(h: string, q: string)
    ensures SplitQualifier(Compose(h, q), h) == Effective(h, q)
  {
    if q != "" && q != h {
      EndsOfConcat(q, "_" + h);
      assert q + "_" + h == q + ("_" + h);
    }
  }

  /** The same for the functions of the source, on any head and qualifier. */
  lemma SplitInvertsComposeName(low: char -> char, head: string, qualifier: Option<string>)
    ensures SplitQualifier(ComposeName(low, head, qualifier), NormaliseToken(low, head)) ==
            Effective(NormaliseToken(low, head), QualifierToken(low, qualifier))
  {
    SplitInvertsCompose(NormaliseToken(low, head), QualifierToken(low, qualifier));
  }

  lemma PrefixIsNormal(q: string, h: string)
    requires Normal(q + "_" + h)
    ensures Normal(q)
  {
    var s := q + "_" + h;
    SliceIsClean(s, 0, |q|);
    assert s[0..|q|] == q;
    assert CleanAt(s, |q|) && s[|q|] == '_';
    if q != "" {
      assert s[0] == q[0] && s[|q| - 1] == q[|q| - 1];
    }
  }

  lemma PrefixedIsNormal(a: string, b: string)
    requires Normal(a) && Normal(b) && a != "" && b != ""
    ensures Normal(a + "_" + b)
  {
    var s := a + "_" + b;
    forall i | 0 <= i < |s| ensures CleanAt(s, i) {
      if i < |a| {
        assert CleanAt(a, i);
      } else if i > |a| {
        assert CleanAt(b, i - |a| - 1);
      }
    }
  }

  lemma CutSuffix(name: string, h: string)
    requires EndsWith(name, "_" + h) && Normal(name)
    ensures var q := name[..|name| - |h| - 1]; q != "" && Normal(q) && name == q + "_" + h
  {
    var q := name[..|name| - |h| - 1];
    assert name == q + ("_" + h) && q + ("_" + h) == q + "_" + h;
    PrefixIsNormal(q, h);
    assert q == "" ==> name == "_" + h;
  }

  function OrEmpty(q: Option<string>): string {
    if q.Some? then q.value else ""
  }

  /** Composing inverts splitting on the names that end in the head, except on the doubled head. */
  lemma ComposeInvertsSplit(name: string, h: string)
    requires Normal(name)
    ensures Compose(h, OrEmpty(SplitQualifier(name, h))) == name <==>
            name == h || (EndsWith(name, "_" + h) && name != h + "_" + h)
  {
    if EndsWith(name, "_" + h) {
      CutSuffix(name, h);
    }
  }

  // ---- which heads can share a name ---------------------------------------------------------

  /** Some qualifiers give the two heads the same name. */
  ghost predicate Collide(h1: string, h2: string) {
    exists q1, q2 :: Normal(q1) && Normal(q2) && Compose(h1, q1) == Compose(h2, q2)
  }

  /** Two ends of one text: the shorter is an end of the longer. */
  lemma EndsNest(s: string, long: string, short: string)
    requires EndsWith(s, long) && EndsWith(s, short) && |short| <= |long|
    ensures EndsWith(long, short)
  {
    assert s[|s| - |long|..][|long| - |short|..] == s[|s| - |short|..];
  }

  lemma NameEndsInHead(h: string, q: string)
    ensures EndsWith("_" + Compose(h, q), "_" + h)
  {
    if q != "" && q != h {
      EndsOfConcat("_" + q, "_" + h);
      assert "_" + (q + "_" + h) == ("_" + q) + ("_" + h);
    }
  }

  lemma TailOfUnderscored(h1: string, h2: string)
    requires EndsWith("_" + h1, "_" + h2)
    ensures h1 == h2 || EndsWith(h1, "_" + h2)
  {
    var s, t := "_" + h1, "_" + h2;
    if |h1| == |h2| {
      assert s[0..] == s && s[1..] == h1 && t[1..] == h2;
    } else {
      assert s[|s| - |t|..] == h1[|h1| - |t|..];
    }
  }

  /** A shared name makes the shorter head an end of the longer. */
  lemma SharedNameNestsHeads(h1: string, q1: string, h2: string, q2: string)
    requires |h2| <= |h1| && Compose(h1, q1) == Compose(h2, q2)
    ensures h1 == h2 || EndsWith(h1, "_" + h2)
  {
    NameEndsInHead(h1, q1);
    NameEndsInHead(h2, q2);
    EndsNest("_" + Compose(h1, q1), "_" + h1, "_" + h2);
    TailOfUnderscored(h1, h2);
  }

  lemma SameTail(q: string, p: string, h: string)
    ensures q + "_" + (p + "_" + h) == (q + "_" + p) + "_" + h
  {}

  lemma NestedHeadsShareAName(h1: string, h2: string)
    requires Normal(h1) && EndsWith(h1, "_" + h2)
    ensures Collide(h1, h2)
  {
    CutSuffix(h1, h2);
    var p := h1[..|h1| - |h2| - 1];
    var q1 := if h2 == "a" + "_" + p || h1 == "a" then "b" else "a";
    assert q1 == "a" || q1 == "b";
    PrefixedIsNormal(q1, p);
    var q2 := q1 + "_" + p;
    assert q2[0] == q1[0];
    SameTail(q1, p, h2);
    assert ("a" + "_" + p)[0] == 'a';
    assert q1 != h1 && q2 != h2;
    assert Compose(h1, q1) == Compose(h2, q2);
  }

  /** Two different heads can share a composite name exactly when one ends with an underscore and the
      other. */
  lemma HeadsCollideExactlyWhenNested(h1: string, h2: string)
    requires Normal(h1) && Normal(h2) && h1 != h2
    ensures Collide(h1, h2) <==> EndsWith(h1, "_" + h2) || EndsWith(h2, "_" + h1)
  {
    if Collide(h1, h2) {
      var q1, q2 :| Normal(q1) && Normal(q2) && Compose(h1, q1) == Compose(h2, q2);
      if |h2| <= |h1| {
        SharedNameNestsHeads(h1, q1, h2, q2);
      } else {
        SharedNameNestsHeads(h2, q2, h1, q1);
      }
    }
    if EndsWith(h1, "_" + h2) {
      NestedHeadsShareAName(h1, h2);
    } else if EndsWith(h2, "_" + h1) {
      NestedHeadsShareAName(h2, h1);
      var q2, q1 :| Normal(q2) && Normal(q1) && Compose(h2, q2) == Compose(h1, q1);
      assert Compose(h1, q1) == Compose(h2, q2);
    }
  }

  /** No head of the vocabulary is an end of another. */
  ghost predicate Unnested(heads: set<string>) {
    forall h1, h2 | h1 in heads && h2 in heads :: !EndsWith(h1, "_" + h2)
  }

  lemma UnderscoreFreeIsUnnested(heads: set<string>)
    requires forall h | h in heads :: '_' !in h
    ensures Unnested(heads)
  {
    forall h1, h2 | h1 in heads && h2 in heads ensures !EndsWith(h1, "_" + h2) {
      if |h2| < |h1| {
        var tail := h1[|h1| - |h2| - 1..];
        assert tail[0] in h1;
      }
    }
  }

  /** In such a vocabulary the name determines the head and the qualifier it carries. */
  lemma NameDeterminesFact(heads: set<string>, h1: string, q1: string, h2: string, q2: string)
    requires Unnested(heads) && h1 in heads && h2 in heads
    ensures Compose(h1, q1) == Compose(h2, q2) <==> h1 == h2 && Effective(h1, q1) == Effective(h2, q2)
  {
    if Compose(h1, q1) == Compose(h2, q2) {
      if |h2| <= |h1| {
        SharedNameNestsHeads(h1, q1, h2, q2);
      } else {
        SharedNameNestsHeads(h2, q2, h1, q1);
      }
      SplitInvertsCompose(h1, q1);
      SplitInvertsCompose(h2, q2);
    }
  }

  /** The seed vocabulary. */
  const HEAD_NOUNS: set<string> := {"identifier", "name", "amount", "fee", "rate", "balance", "quantity", "count",
    "frequency", "duration", "date", "time", "status", "type", "condition", "rating", "method", "action", "request",
    "response", "reason", "outcome", "description", "person", "organization", "product", "service", "location",
    "document", "event", "other"}

  lemma SeedHeadsAreUnnested()
    ensures Unnested(HEAD_NOUNS)
  {
    forall h | h in HEAD_NOUNS ensures '_' !in h {}
    UnderscoreFreeIsUnnested(HEAD_NOUNS);
  }
}
