/** The header pattern and the calendar, written out. */
module WhatsAppGrammar {
  // engine/app/intake/whatsapp_export.py:43-51, and what `strptime` knows of months and digits.

  import opened Options
  import opened Text
  import opened WhatsAppTime
  import opened WhatsAppHeader

  // ---- the pieces of the pattern ------------------------------------------------------------

  predicate AreDigits(s: string, least: nat, most: nat) {
    least <= |s| <= most && forall k | 0 <= k < |s| :: '0' <= s[k] <= '9'
  }

  predicate AreSpaces(s: string) {
    s != "" && Blank(s)
  }

  lemma {:induction false} OfExactly(k: Class, s: string)
    ensures Of(k, s) <==> forall i | 0 <= i < |s| :: In(k, s[i])
  {
    if s != "" {
      OfExactly(k, s[1..]);
      assert forall i | 0 < i < |s| :: s[i] == s[1..][i - 1];
    }
  }

  lemma DigitsFit(least: nat, most: nat, s: string)
    requires 0 < least <= most
    ensures Fits(Item(Digit, least, most), s) <==> AreDigits(s, least, most)
  {
    OfExactly(Digit, s);
  }

  lemma SpacesFit(s: string)
    ensures Fits(Item(Space, 1, 0), s) <==> AreSpaces(s)
  {
    OfExactly(Space, s);
  }

  /** One character of a class. */
  lemma OneFits(k: Class, s: string)
    ensures Fits(Item(k, 1, 1), s) <==> |s| == 1 && In(k, s[0])
  {
    OfExactly(k, s);
  }

  lemma {:induction false} FitEach(items: seq<Item>, ps: seq<string>)
    ensures AllFit(items, ps) <==> |items| == |ps| && forall i | 0 <= i < |items| :: Fits(items[i], ps[i])
  {
    if items != [] && ps != [] {
      FitEach(items[1..], ps[1..]);
      assert forall i | 0 < i < |items| :: items[i] == items[1..][i - 1];
      assert forall i | 0 < i < |ps| :: ps[i] == ps[1..][i - 1];
    }
  }

  predicate IsSlash(s: string) {
    s == "/" || s == "." || s == "-"
  }

  /** One to four digits, one or two, and two to four, with a slash, a dot or a dash between them. */
  lemma DateExactly(ps: seq<string>)
    ensures AllFit(DATE, ps) <==>
      |ps| == 5 && AreDigits(ps[0], 1, 4) && IsSlash(ps[1]) && AreDigits(ps[2], 1, 2) && IsSlash(ps[3]) && AreDigits(ps[4], 2, 4)
  {
    hide Fits, AreDigits;
    FitEach(DATE, ps);
    if |ps| == 5 {
      DigitsFit(1, 4, ps[0]);
      OneFits(Slash, ps[1]);
      DigitsFit(1, 2, ps[2]);
      OneFits(Slash, ps[3]);
      DigitsFit(2, 4, ps[4]);
    }
  }

  /** White space, one or two digits, a colon and two digits. */
  lemma TimeExactly(ps: seq<string>)
    ensures AllFit(TIME, ps) <==> |ps| == 4 && AreSpaces(ps[0]) && AreDigits(ps[1], 1, 2) && ps[2] == ":" && AreDigits(ps[3], 2, 2)
  {
    hide Fits, AreDigits, AreSpaces;
    FitEach(TIME, ps);
    if |ps| == 4 {
      SpacesFit(ps[0]);
      DigitsFit(1, 2, ps[1]);
      OneFits(Colon, ps[2]);
      DigitsFit(2, 2, ps[3]);
    }
  }

  lemma SecondsExactly(ps: seq<string>)
    ensures AllFit(SECONDS, ps) <==> |ps| == 2 && ps[0] == ":" && AreDigits(ps[1], 2, 2)
  {
    hide Fits, AreDigits;
    FitEach(SECONDS, ps);
    if |ps| == 2 {
      OneFits(Colon, ps[0]);
      DigitsFit(2, 2, ps[1]);
    }
  }

  lemma HalfExactly(ps: seq<string>)
    ensures AllFit(HALF, ps) <==>
      |ps| == 2 && (ps[0] == "A" || ps[0] == "P" || ps[0] == "a" || ps[0] == "p") && (ps[1] == "M" || ps[1] == "m")
  {
    hide Fits;
    FitEach(HALF, ps);
    if |ps| == 2 {
      OneFits(Half, ps[0]);
      OneFits(M, ps[1]);
    }
  }

  /** A bracket and white space, or a dash with white space on either side. */
  lemma EndExactly(ios: bool, ps: seq<string>)
    ensures AllFit(End(ios), ps) <==>
      if ios then |ps| == 2 && ps[0] == "]" && AreSpaces(ps[1]) else |ps| == 3 && AreSpaces(ps[0]) && ps[1] == "-" && AreSpaces(ps[2])
  {
    hide Fits, AreSpaces;
    FitEach(End(ios), ps);
    if ios && |ps| == 2 {
      OneFits(Bracket, ps[0]);
      SpacesFit(ps[1]);
    } else if !ios && |ps| == 3 {
      SpacesFit(ps[0]);
      OneFits(Dash, ps[1]);
      SpacesFit(ps[2]);
    }
  }

  // ---- digits and days ----------------------------------------------------------------------

  lemma NumberExactly(front: string, d: nat)
    requires d < 10
    ensures Number("") == 0 && Number(front + ["0123456789"[d]]) == 10 * Number(front) + d
  {
    var s := front + ["0123456789"[d]];
    assert s[..|s| - 1] == front;
    assert "0123456789"[d] as int == '0' as int + d;
  }

  lemma LeapExactly(year: nat)
    ensures IsLeap(year) <==> year % 4 == 0 && (year % 100 == 0 ==> year % 400 == 0)
  {}

  /** The days of the twelve months; of the years every fourth has one more in February, but of the full
      centuries only every fourth. */
  lemma DaysExactly(year: nat, month: nat)
    requires 1 <= month <= 12
    ensures var february := if year % 4 == 0 && (year % 100 == 0 ==> year % 400 == 0) then 29 else 28;
      DaysIn(year, month) == [31, february, 31, 30, 31, 30, 31, 31, 30, 31, 30, 31][month - 1]
  {
    LeapExactly(year);
    hide IsLeap;
    var table := [31, if IsLeap(year) then 29 else 28, 31, 30, 31, 30, 31, 31, 30, 31, 30, 31];
    assert DaysIn(year, month) == table[month - 1] by {
      assert month in {1, 2, 3, 4, 5, 6, 7, 8, 9, 10, 11, 12};
    }
  }
}
