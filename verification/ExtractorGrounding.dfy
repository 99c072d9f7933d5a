/** When the extractor takes a value as grounded (engine/app/extract/extractor.py:68-84). */
module ExtractorGrounding {
  import opened Options
  import opened Text
  import opened FieldNames
  import opened Extractor

  /** The places of the words longer than two characters. */
  ghost function LongWords(words: seq<string>): set<nat> {
    set i: nat | i < |words| && |words[i]| > 2
  }

  /** Those of them that the source holds. */
  ghost function LongWordsIn(words: seq<string>, source: string): set<nat> {
    set i: nat | i < |words| && |words[i]| > 2 && Contains(source, words[i])
  }

  ghost function Shifted(s: set<nat>): set<nat> {
    set i | i in s :: i + 1
  }

  lemma {:induction false} ShiftedSize(s: set<nat>)
    ensures |Shifted(s)| == |s|
    decreases |s|
  {
    if s == {} {
      assert Shifted(s) == {};
    } else {
      var x :| x in s;
      ShiftedSize(s - {x});
      forall y | y in Shifted(s) ensures y in Shifted(s - {x}) + {x + 1} {
        var z :| z in s && z + 1 == y;
        assert z == x || z in s - {x};
      }
      assert Shifted(s) == Shifted(s - {x}) + {x + 1};
    }
  }

  lemma NotShifted(s: set<nat>)
    ensures 0 !in Shifted(s)
  {}

  lemma LongWordsMore(words: seq<string>, source: string)
    requires words != []
    ensures LongWords(words) == Shifted(LongWords(words[1..])) + (if |words[0]| > 2 then {0} else {})
    ensures LongWordsIn(words, source) ==
      Shifted(LongWordsIn(words[1..], source)) + (if |words[0]| > 2 && Contains(source, words[0]) then {0} else {})
  {
    forall i | i in LongWords(words) && i > 0 ensures i in Shifted(LongWords(words[1..])) {
      assert i - 1 in LongWords(words[1..]);
    }
    forall i | i in LongWordsIn(words, source) && i > 0 ensures i in Shifted(LongWordsIn(words[1..], source)) {
      assert i - 1 in LongWordsIn(words[1..], source);
    }
  }

  lemma {:induction false} HitsAreCounted(words: seq<string>, source: string)
    ensures |Significant(words)| == |LongWords(words)| && Hits(Significant(words), source) == |LongWordsIn(words, source)|
  {
    if words == [] {
      assert LongWords(words) == {} && LongWordsIn(words, source) == {};
    } else {
      hide LongWords, LongWordsIn, Contains, Shifted;
      var rest := words[1..];
      HitsAreCounted(rest, source);
      LongWordsMore(words, source);
      ShiftedSize(LongWords(rest));
      ShiftedSize(LongWordsIn(rest, source));
      NotShifted(LongWords(rest));
      NotShifted(LongWordsIn(rest, source));
      if |words[0]| > 2 {
        assert Significant(words) == [words[0]] + Significant(rest) && ([words[0]] + Significant(rest))[1..] == Significant(rest);
      } else {
        assert Significant(words) == Significant(rest);
      }
    }
  }

  lemma OverlapExactlyWhen(words: seq<string>, source: string)
    ensures var long, held := |LongWords(words)|, |LongWordsIn(words, source)|;
      TokensOverlap(words, source) <==>
        if long > 0 then 10 * held >= 6 * long else exists i | 0 <= i < |words| :: Contains(source, words[i])
  {
    hide Contains, LongWords, LongWordsIn, Significant;
    HitsAreCounted(words, source);
  }

  /** A value that has more to it than white space is grounded exactly when the source holds it, or holds six
      tenths of its words of three characters and more, or, if it has no such word, one of its words. */
  lemma GroundedExactlyWhen(low: char -> char, value: string, source: string)
    ensures var v := Lower(low, Strip(value));
      var words := Words(v);
      var long, held := |LongWords(words)|, |LongWordsIn(words, source)|;
      IsGrounded(low, value, source) <==>
        v != "" && (Contains(source, v) ||
          if long > 0 then 10 * held >= 6 * long else exists i | 0 <= i < |words| :: Contains(source, words[i]))
  {
    hide Contains, Words, Strip, LongWords, LongWordsIn, TokensOverlap;
    OverlapExactlyWhen(Words(Lower(low, Strip(value))), source);
  }
}
