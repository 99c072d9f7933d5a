/** Cleaning a line and splitting off its sender, said by positions. */
module WhatsAppLines {
  // `_clean` and `_split_sender` of engine/app/intake/whatsapp_export.py:32-37,94-95,134-142.

  import opened Options
  import opened Text
  import opened WhatsAppExport
  import opened Select

  // ---- cleaning -----------------------------------------------------------------------------

  /** The nine direction marks that an export puts around times, senders and file names. */
  const MARKS: set<char> := {'\U{200E}', '\U{200F}', '\U{202A}', '\U{202B}', '\U{202C}', '\U{2066}', '\U{2067}', '\U{2068}', '\U{2069}'}

  function Spaced(c: char): char {
    if c in {'\U{202F}', '\U{A0}'} then ' ' else c
  }

  lemma MarksAreBidi(c: char)
    ensures IsBidi(c) <==> c in MARKS
    ensures Plainer(c) == Spaced(c)
  {}

  lemma {:induction false} TranslateExactly(s: string)
    ensures Selected(s, (c: char) => c !in MARKS, (c: char) => Spaced(c), Translate(s))
  {
    if s == "" {
      NothingSelected<char, char>((c: char) => c !in MARKS, (c: char) => Spaced(c));
    } else {
      TranslateExactly(s[1..]);
      MarksAreBidi(s[0]);
      SelectedMore(s, (c: char) => c !in MARKS, (c: char) => Spaced(c), Translate(s[1..]));
    }
  }

  /** Cleaning drops the direction marks, makes the two special spaces plain ones, and strips what is left. */
  lemma CleanExactly(s: string, t: string)
    requires Selected(s, (c: char) => c !in MARKS, (c: char) => Spaced(c), t)
    ensures Clean(s) == Strip(t)
  {
    TranslateExactly(s);
    SelectedUnique(s, (c: char) => c !in MARKS, (c: char) => Spaced(c), Translate(s), t);
  }

  // ---- the sender ---------------------------------------------------------------------------

  predicate ColonAt(rest: string, j: nat) {
    j + 2 <= |rest| && rest[j] == ':' && rest[j + 1] == ' '
  }

  /** The first colon and space of the line stand at k, after a short text of one line. */
  ghost predicate IsCut(rest: string, k: nat) {
    ColonAt(rest, k) && k <= 80 && '\n' !in rest[..k] && forall j | 0 <= j < k :: !ColonAt(rest, j)
  }

  /** The sender is what stands before the first colon and space, cleaned; a line without one, or with too much
      before it, is a system line and stays whole. */
  lemma SplitSenderExactly(clean: string -> string, rest: string)
    ensures var r := SplitSender(clean, rest);
      (forall k: nat | IsCut(rest, k) :: r == (Some(clean(rest[..k])), rest[k + 2..])) &&
      (r.0.Some? <==> exists k: nat :: IsCut(rest, k)) && (r.0.None? ==> r.1 == rest)
  {
    var k := Find(rest, ": ");
    forall j: nat ensures OccursAt(rest, ": ", j) <==> ColonAt(rest, j) {
      assert ColonAt(rest, j) ==> rest[j..j + 2] == ": ";
      assert OccursAt(rest, ": ", j) ==> rest[j..j + 2][0] == ':' && rest[j..j + 2][1] == ' ';
    }
    forall m: nat | IsCut(rest, m) ensures k == m {
      assert OccursAt(rest, ": ", m);
      assert m <= |rest|;
    }
    if k <= |rest| && k <= 80 && '\n' !in rest[..k] {
      assert IsCut(rest, k);
    }
  }
}
