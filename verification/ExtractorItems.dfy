/** Which entries of an answer become attributes, and with which qualifier. */
module ExtractorItems {
  // engine/app/extract/extractor.py:43-66,118-150, said without the functions that compute it.

  import opened Options
  import opened Text
  import opened FieldNames
  import opened Extractor

  // ---- redacted values ----------------------------------------------------------------------

  lemma RunHolds(s: string, c: char)
    ensures c in Run(s) ==> Keep(c) && c in s
  {}

  lemma {:induction false} CharactersOfWords(s: string, c: char)
    ensures (exists i | 0 <= i < |Words(s)| :: c in Words(s)[i]) <==> Keep(c) && c in s
    decreases |s|
  {
    var ws := Words(s);
    if s != "" && Keep(s[0]) {
      var r := Run(s);
      var rest := s[|r|..];
      CharactersOfWords(rest, c);
      RunHolds(s, c);
      assert s == r + rest;
      assert forall i | 0 <= i < |Words(rest)| :: ws[i + 1] == Words(rest)[i];
      if c in r {
        assert c in ws[0];
      }
      if i :| 0 <= i < |ws| && c in ws[i] {
        assert i > 0 ==> c in Words(rest)[i - 1];
      }
      if i :| 0 <= i < |Words(rest)| && c in Words(rest)[i] {
        assert c in ws[i + 1];
      }
    } else if s != "" {
      CharactersOfWords(s[1..], c);
      assert ws == Words(s[1..]);
      assert s == [s[0]] + s[1..];
    }
  }

  /** Every word of the lowered value is a row of x. */
  ghost predicate OnlyCrosses(low: char -> char, value: string) {
    var ws := Words(Lower(low, value));
    forall i, c | 0 <= i < |ws| && c in ws[i] :: c == 'x'
  }

  lemma RedactedExactlyWhen(low: char -> char, value: string)
    ensures IsAllRedacted(low, value) <==> OnlyCrosses(low, value)
  {
    var v := Lower(low, value);
    forall c ensures (exists i | 0 <= i < |Words(v)| :: c in Words(v)[i]) <==> Keep(c) && c in v {
      CharactersOfWords(v, c);
    }
    if OnlyCrosses(low, value) {
      forall i | 0 <= i < |value| && Keep(low(value[i])) ensures low(value[i]) == 'x' {
        assert v[i] == low(value[i]) && v[i] in v;
      }
    } else {
      var i, c :| 0 <= i < |Words(v)| && c in Words(v)[i] && c != 'x';
      assert c in v;
      var k :| 0 <= k < |v| && v[k] == c;
      assert low(value[k]) == c;
    }
  }

  // ---- extractive qualifiers ----------------------------------------------------------------

  /** Spaces in place of underscores. */
  function Spoken(q: string): (r: string)
    ensures |r| == |q| && forall i | 0 <= i < |q| :: r[i] == if q[i] == '_' then ' ' else q[i]
  {
    seq(|q|, i requires 0 <= i < |q| => if q[i] == '_' then ' ' else q[i])
  }

  lemma {:induction false} PartsSpoken(q: string)
    ensures Join(Split(q, '_'), " ") == Spoken(q)
  {
    if q != "" {
      var rest := Split(q[1..], '_');
      PartsSpoken(q[1..]);
      assert Spoken(q) == [Spoken(q)[0]] + Spoken(q[1..]);
      if q[0] == '_' {
        JoinCons("", rest, " ");
      } else {
        JoinLonger([q[0]], rest, " ");
      }
    }
  }

  lemma ContainsExactly(hay: string, needle: string)
    ensures Contains(hay, needle) <==> exists k: nat :: OccursAt(hay, needle, k)
  {
    var f := Find(hay, needle);
    if f <= |hay| {
      assert OccursAt(hay, needle, f);
    }
    forall k: nat | OccursAt(hay, needle, k) ensures f <= |hay| {
      assert f <= k <= |hay|;
    }
  }

  /** A qualifier is extractive exactly when it is not empty and, with spaces for underscores, stands somewhere in
      the words of the text with one space between them. */
  lemma ExtractiveExactlyWhen(q: string, source: string)
    ensures IsExtractive(q, source) <==> q != "" && exists k: nat :: OccursAt(Join(Words(source), " "), Spoken(q), k)
  {
    PartsSpoken(q);
    ContainsExactly(Join(Words(source), " "), Spoken(q));
    var phrase := Join(Split(q, '_'), " ");
    assert IsExtractive(q, source) == (phrase != "" && Contains(Join(Words(source), " "), phrase));
    assert (phrase != "") == (q != "");
  }

  // ---- the attribute of an entry ------------------------------------------------------------

  /** An entry becomes an attribute exactly when it is an object under a head of the vocabulary, whose stripped
      value holds more than crosses, and is concrete if the head is one of the two that take anything. */
  lemma AttributeExactlyWhen(low: char -> char, concrete: string -> bool, source: string, heads: set<string>, item: Item)
    ensures Candidate(SourceChecks(low, concrete, source), heads, item).Some? <==>
      item.Item? && NormaliseToken(low, item.head) in heads && !OnlyCrosses(low, Strip(item.value)) &&
      (NormaliseToken(low, item.head) in {"other", "description"} ==> concrete(Strip(item.value)))
  {
    hide NormaliseToken, Strip, IsAllRedacted, OnlyCrosses, IsGrounded;
    var c := SourceChecks(low, concrete, source);
    if item.Item? {
      var value := Strip(item.value);
      RedactedExactlyWhen(low, value);
      NothingIsRedacted(low);
      assert c.redacted(value) == IsAllRedacted(low, value);
      assert c.escape(c.normalise(item.head)) == IsEscape(NormaliseToken(low, item.head));
    }
  }

  lemma NothingIsRedacted(low: char -> char)
    ensures IsAllRedacted(low, "")
  {}

  /** It keeps the normal form of its qualifier exactly when that is extractive and has at most four words. */
  lemma QualifierStaysExactlyWhen(low: char -> char, concrete: string -> bool, source: string, heads: set<string>, item: Item, q: string)
    requires Candidate(SourceChecks(low, concrete, source), heads, item).Some?
    ensures var a := Candidate(SourceChecks(low, concrete, source), heads, item).value;
      a.head == NormaliseToken(low, item.head) && a.value == Strip(item.value) && a.grounded == IsGrounded(low, a.value, source) &&
      (a.qualifier == Some(q) <==>
        item.qualifier.Some? && item.qualifier.value != "" && q == NormaliseToken(low, item.qualifier.value) && q != "" &&
        |Split(q, '_')| <= 4 && exists k: nat :: OccursAt(Join(Words(source), " "), Spoken(q), k))
  {
    hide NormaliseToken, Strip, IsAllRedacted, IsExtractive, IsGrounded, Split, Words, Join;
    var c := SourceChecks(low, concrete, source);
    ExtractiveExactlyWhen(q, source);
    assert c.short(q) == (|Split(q, '_')| <= MAX_QUALIFIER_TOKENS);
    assert c.extractive(q) == IsExtractive(q, source);
  }
}
