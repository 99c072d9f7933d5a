/** Timestamps as text: what the captured text of a header becomes, and what `strptime` makes of it. */
module WhatsAppStamp {
  // `_norm_ts`, the ladder of formats and the date pattern of engine/app/intake/whatsapp_export.py, over the
  // text of a timestamp; `WhatsAppTime` works on its fields, and here the two agree.

  import opened Options
  import opened Text
  import opened WhatsAppTime
  import opened WhatsAppHeader
  import opened WhatsAppExport

  // ---- normalising the text ---------------------------------------------------------------

  /** The part of a header line that the pattern captures as its timestamp. */
  function StampText(x: Header): string {
    Concat(x.date) + Comma(x.comma) + (Concat(x.time) + Concat(x.seconds)) + (x.gap + Concat(x.half))
  }

  function Slashed(c: char): char {
    if c == '.' || c == '-' then '/' else c
  }

  function AllSlashed(s: string): string {
    seq(|s|, i requires 0 <= i < |s| => Slashed(s[i]))
  }

  /** `re.sub(r"\s+", " ", s)`. */
  function Squeeze(s: string): string {
    if s == "" then ""
    else if !IsSpace(s[0]) then [s[0]] + Squeeze(s[1..])
    else if |s| > 1 && IsSpace(s[1]) then Squeeze(s[1..])
    else " " + Squeeze(s[1..])
  }

  /** AM or PM at the end, in either case. */
  predicate EndsInHalf(s: string) {
    |s| >= 2 && In(Half, s[|s| - 2]) && In(M, s[|s| - 1])
  }

  function HalfName(pm: bool): string {
    if pm then "PM" else "AM"
  }

  /** The last substitution: the mark in capitals, behind one space. */
  function MarkHalf(s: string): string {
    var t := TrimEnd(IsSpace, s);
    if EndsInHalf(t) then TrimEnd(IsSpace, t[..|t| - 2]) + " " + HalfName(t[|t| - 2] == 'P' || t[|t| - 2] == 'p') else s
  }

  /** `_norm_ts`. */
  function NormTs(raw: string): string {
    MarkHalf(Squeeze(AllSlashed(Clean(raw))))
  }

  function SecondEnd(r: Raw): string {
    if r.second.Some? then ":" + r.second.value else ""
  }

  function HalfEnd(r: Raw): string {
    if r.pm.Some? then " " + HalfName(r.pm.value) else ""
  }

  function Clock(r: Raw): string {
    r.hour + ":" + r.minute + SecondEnd(r)
  }

  function AfterDate(r: Raw): string {
    Comma(r.comma) + (" " + (Clock(r) + HalfEnd(r)))
  }

  /** The fields in the one layout that the formats ask for. */
  function Layout(r: Raw): string {
    r.a + "/" + r.b + "/" + r.year + AfterDate(r)
  }

  // ---- what normalising does to the captured text -----------------------------------------

  /** Neither white space nor a mark that is removed. */
  predicate Ink(s: string) {
    forall i | 0 <= i < |s| :: !IsSpace(s[i]) && !IsBidi(s[i])
  }

  function Mapped(s: string): string {
    seq(|s|, i requires 0 <= i < |s| => Slashed(Plainer(s[i])))
  }

  lemma MappedConcat(a: string, b: string)
    ensures Mapped(a + b) == Mapped(a) + Mapped(b)
  {}

  lemma ClassIsInk(k: Class, s: string)
    requires Of(k, s) && k != Space
    ensures Ink(s) && (k in {Digit, Colon, Half, M} ==> Mapped(s) == s) && (k == Slash ==> forall i | 0 <= i < |s| :: Mapped(s)[i] == '/')
  {
    forall i | 0 <= i < |s| ensures In(k, s[i]) {
      OfAt(k, s, i);
    }
  }

  lemma ClassIsBlank(s: string)
    requires Of(Space, s)
    ensures Blank(s)
  {
    forall i | 0 <= i < |s| ensures IsSpace(s[i]) {
      OfAt(Space, s, i);
    }
  }

  lemma MappedBlank(s: string)
    requires Blank(s)
    ensures Blank(Mapped(s)) && forall i | 0 <= i < |s| :: !IsBidi(s[i])
  {}

  lemma {:induction false} TranslateAt(s: string)
    requires forall i | 0 <= i < |s| :: !IsBidi(s[i])
    ensures |Translate(s)| == |s| && forall i | 0 <= i < |s| :: Translate(s)[i] == Plainer(s[i])
  {
    hide IsBidi, Plainer;
    if s != "" {
      TranslateAt(s[1..]);
      assert forall i | 0 < i < |s| :: s[i] == s[1..][i - 1];
    }
  }

  lemma CleanedIsMapped(s: string)
    requires Tight(s) && forall i | 0 <= i < |s| :: !IsBidi(s[i])
    ensures AllSlashed(Clean(s)) == Mapped(s)
  {
    TranslateAt(s);
    var t := Translate(s);
    assert Tight(t);
    StripKeepsTight(t);
  }

  lemma {:induction false} SqueezeInk(ink: string, rest: string)
    requires Ink(ink)
    ensures Squeeze(ink + rest) == ink + Squeeze(rest)
  {
    hide IsSpace, IsBidi;
    if ink == "" {
      assert ink + rest == rest;
    } else {
      SqueezeInk(ink[1..], rest);
      assert (ink + rest)[1..] == ink[1..] + rest;
    }
  }

  lemma {:induction false} SqueezeBlank(gap: string, rest: string)
    requires gap != "" && Blank(gap) && (rest == "" || !IsSpace(rest[0]))
    ensures Squeeze(gap + rest) == " " + Squeeze(rest)
  {
    hide IsSpace;
    assert (gap + rest)[1..] == gap[1..] + rest;
    if |gap| > 1 {
      SqueezeBlank(gap[1..], rest);
    } else {
      assert gap[1..] + rest == rest;
    }
  }

  /** Ink, a gap, ink, a gap that may be empty, and ink: what squeezing leaves. */
  lemma SqueezedParts(a: string, gap: string, b: string, gap2: string, c: string)
    requires Ink(a) && Ink(b) && Ink(c) && b != "" && gap != "" && Blank(gap) && Blank(gap2) && (c == "" ==> gap2 == "")
    ensures Squeeze(a + (gap + (b + (gap2 + c)))) == a + (" " + (b + ((if gap2 == "" then "" else " ") + c)))
  {
    hide IsSpace, IsBidi, Squeeze;
    SqueezeInk(a, gap + (b + (gap2 + c)));
    SqueezeBlank(gap, b + (gap2 + c));
    SqueezeInk(b, gap2 + c);
    if gap2 != "" {
      SqueezeBlank(gap2, c);
    } else {
      assert gap2 + c == c && "" + c == c;
    }
    SqueezeInk(c, "");
    assert c + "" == c && c + Squeeze("") == c by {
      NothingSqueezed();
    }
  }

  lemma NothingSqueezed()
    ensures Squeeze("") == ""
  {}

  lemma TrimEndKeeps(s: string)
    requires s == "" || !IsSpace(s[|s| - 1])
    ensures TrimEnd(IsSpace, s) == s && TrimEnd(IsSpace, s + " ") == s
  {
    var t := s + " ";
    assert TrailFrom(IsSpace, t, |t|) == TrailFrom(IsSpace, t, |s|) == |s|;
    assert TrailFrom(IsSpace, s, |s|) == |s|;
  }

  /** The mark at the end is put into its layout, with or without a space before it. */
  lemma MarkedHalf(front: string, space: string, half: string)
    requires front != "" && !IsSpace(front[|front| - 1]) && (space == "" || space == " ") && IsHalf(half)
    ensures MarkHalf(front + (space + half)) == front + " " + HalfName(IsPm(half))
  {
    hide TrimEnd, IsSpace;
    var s := front + (space + half);
    MIsNoSpace(half[1]);
    assert s[|s| - 2] == half[0] && s[|s| - 1] == half[1];
    TrimEndKeeps(s);
    TrimEndKeeps(front);
    assert s[..|s| - 2] == front + space && front + "" == front;
  }

  lemma MIsNoSpace(c: char)
    ensures In(M, c) ==> !IsSpace(c)
  {}

  lemma NoHalf(s: string)
    requires s != "" && IsDigit(s[|s| - 1])
    ensures MarkHalf(s) == s
  {
    TrimEndKeeps(s);
  }

  // ---- the parts of a header's timestamp --------------------------------------------------

  lemma ConcatFive(p: seq<string>)
    requires |p| == 5
    ensures Concat(p) == p[0] + p[1] + p[2] + p[3] + p[4]
  {
    assert p[1..][1..] == p[2..] && p[2..][1..] == p[3..] && p[3..][1..] == p[4..] && p[4..][1..] == [];
    assert Concat(p[4..]) == p[4] + "" == p[4];
    assert Concat(p[3..]) == p[3] + p[4];
    assert Concat(p[2..]) == p[2] + (p[3] + p[4]);
    assert Concat(p[1..]) == p[1] + (p[2] + (p[3] + p[4]));
  }

  lemma ConcatTwo(p: seq<string>)
    requires |p| == 2
    ensures Concat(p) == p[0] + p[1]
  {
    assert p[1..][1..] == [] && Concat(p[1..]) == p[1] + "" == p[1];
  }

  lemma OneChar(s: string, c: char)
    requires |s| == 1 && s[0] == c
    ensures s == [c]
  {}

  /** The digits, slashes and comma of the date. */
  lemma DatePart(x: Header)
    requires IsHeader(x) && Counted(x)
    ensures var s, r := Concat(x.date) + Comma(x.comma), RawOf(x);
      s != "" && Ink(s) && Mapped(s) == r.a + "/" + r.b + "/" + r.year + Comma(r.comma)
  {
    var d := x.date;
    forall i | 0 <= i < 5 ensures Fits(DATE[i], d[i]) {
      AllFitAt(DATE, d, i);
    }
    ConcatFive(d);
    DatePieces(d[0], d[1], d[2], d[3], d[4]);
    MappedConcat(Concat(d), Comma(x.comma));
    assert Mapped(",") == "," && Mapped("") == "" && !IsSpace(',') && !IsBidi(',');
  }

  lemma DatePieces(a: string, s1: string, b: string, s2: string, y: string)
    requires Of(Digit, a) && a != "" && Of(Slash, s1) && |s1| == 1 && Of(Digit, b) && Of(Slash, s2) && |s2| == 1 && Of(Digit, y)
    ensures var s := a + s1 + b + s2 + y; s != "" && Ink(s) && Mapped(s) == a + "/" + b + "/" + y
  {
    hide Ink, Of, In, IsSpace, IsBidi;
    ClassIsInk(Digit, a);
    ClassIsInk(Slash, s1);
    ClassIsInk(Digit, b);
    ClassIsInk(Slash, s2);
    ClassIsInk(Digit, y);
    MappedConcat(a, s1);
    MappedConcat(a + s1, b);
    MappedConcat(a + s1 + b, s2);
    MappedConcat(a + s1 + b + s2, y);
    OneChar(Mapped(s1), '/');
    OneChar(Mapped(s2), '/');
    InkConcat(a, s1);
    InkConcat(a + s1, b);
    InkConcat(a + s1 + b, s2);
    InkConcat(a + s1 + b + s2, y);
  }

  lemma InkConcat(a: string, b: string)
    requires Ink(a) && Ink(b)
    ensures Ink(a + b)
  {
    hide IsSpace, IsBidi;
  }

  lemma ConcatFour(p: seq<string>)
    requires |p| == 4
    ensures Concat(p) == p[0] + (p[1] + p[2] + p[3])
  {
    assert p[1..][1..] == p[2..] && p[2..][1..] == p[3..] && p[3..][1..] == [];
    assert Concat(p[3..]) == p[3] + "" == p[3];
    assert Concat(p[2..]) == p[2] + p[3];
    assert Concat(p[1..]) == p[1] + (p[2] + p[3]);
  }

  lemma ColonIsColon(s: string)
    requires Of(Colon, s) && |s| == 1
    ensures s == ":"
  {
    OfAt(Colon, s, 0);
  }

  lemma TimePieces(x: Header)
    requires IsHeader(x) && Counted(x)
    ensures var t := x.time; t[0] != "" && Blank(t[0]) && Of(Digit, t[1]) && t[2] == ":" && Of(Digit, t[3]) && t[3] != ""
    ensures x.seconds != [] ==> x.seconds[0] == ":" && Of(Digit, x.seconds[1]) && x.seconds[1] != ""
  {
    hide IsSpace, Of, In;
    var t := x.time;
    forall i | 0 <= i < 4 ensures Fits(TIME[i], t[i]) {
      AllFitAt(TIME, t, i);
    }
    ClassIsBlank(t[0]);
    ColonIsColon(t[2]);
    if x.seconds != [] {
      forall i | 0 <= i < 2 ensures Fits(SECONDS[i], x.seconds[i]) {
        AllFitAt(SECONDS, x.seconds, i);
      }
      ColonIsColon(x.seconds[0]);
    }
  }

  lemma Regroup(a: string, b: string, c: string)
    ensures a + b + c == a + (b + c) && a + "" == a
  {}

  lemma ClockText(x: Header)
    requires Counted(x) && x.time[2] == ":" && (x.seconds != [] ==> x.seconds[0] == ":")
    ensures Concat(x.time) + Concat(x.seconds) == x.time[0] + Clock(RawOf(x))
  {
    hide Concat;
    var t := x.time;
    ConcatFour(t);
    Regroup(t[0], t[1] + ":" + t[3], SecondEnd(RawOf(x)));
    if x.seconds == [] {
      NothingConcat();
    } else {
      ConcatTwo(x.seconds);
    }
  }

  lemma ClockIsInk(r: Raw)
    requires Of(Digit, r.hour) && Of(Digit, r.minute) && r.minute != "" && (r.second.Some? ==> Of(Digit, r.second.value) && r.second.value != "")
    ensures var s := Clock(r); Ink(s) && Mapped(s) == s && s != "" && IsDigit(s[|s| - 1])
  {
    hide IsSpace, IsBidi, Of, Ink, Mapped;
    ClockPieces(r.hour, r.minute);
    if r.second.None? {
      Regroup(r.hour + ":" + r.minute, "", "");
    } else {
      MoreClock(r.hour + ":" + r.minute, r.second.value);
    }
  }

  /** The space before the time, and the digits and colons of it. */
  lemma ClockPart(x: Header)
    requires IsHeader(x) && Counted(x)
    ensures Concat(x.time) + Concat(x.seconds) == x.time[0] + Clock(RawOf(x)) && x.time[0] != "" && Blank(x.time[0])
    ensures var s := Clock(RawOf(x)); Ink(s) && Mapped(s) == s && s != "" && IsDigit(s[|s| - 1])
  {
    hide IsHeader, IsSpace, IsBidi, Of, Ink, Mapped, Blank, Concat, Clock;
    TimePieces(x);
    ClockText(x);
    ClockIsInk(RawOf(x));
  }

  lemma NothingConcat()
    ensures Concat([]) == ""
  {}

  lemma ClockPieces(hour: string, minute: string)
    requires Of(Digit, hour) && Of(Digit, minute) && minute != ""
    ensures Ink(hour + ":") && Mapped(hour + ":") == hour + ":"
    ensures var s := hour + ":" + minute; Ink(s) && Mapped(s) == s && IsDigit(s[|s| - 1])
  {
    hide Ink, Of, IsSpace, IsBidi;
    ClassIsInk(Digit, hour);
    ColonIsInk();
    MappedConcat(hour, ":");
    InkConcat(hour, ":");
    MoreDigits(hour + ":", minute);
  }

  lemma ColonIsInk()
    ensures Ink(":") && Mapped(":") == ":"
  {}

  lemma MoreDigits(front: string, digits: string)
    requires Ink(front) && Mapped(front) == front && Of(Digit, digits) && digits != ""
    ensures var s := front + digits; Ink(s) && Mapped(s) == s && IsDigit(s[|s| - 1])
  {
    hide Ink, Of, IsSpace, IsBidi;
    ClassIsInk(Digit, digits);
    OfAt(Digit, digits, |digits| - 1);
    MappedConcat(front, digits);
    InkConcat(front, digits);
  }

  lemma MoreClock(front: string, seconds: string)
    requires Ink(front) && Mapped(front) == front && Of(Digit, seconds) && seconds != ""
    ensures var s := front + (":" + seconds); Ink(s) && Mapped(s) == s && IsDigit(s[|s| - 1])
  {
    hide Ink, Of, IsSpace, IsBidi;
    ColonIsInk();
    MappedConcat(front, ":");
    InkConcat(front, ":");
    MoreDigits(front + ":", seconds);
    assert front + ":" + seconds == front + (":" + seconds);
  }

  predicate IsHalf(s: string) {
    |s| == 2 && In(Half, s[0]) && In(M, s[1])
  }

  predicate IsPm(s: string) {
    s != "" && (s[0] == 'P' || s[0] == 'p')
  }

  /** The mark of the half of the day, if there is one. */
  lemma HalfPart(x: Header)
    requires IsHeader(x) && Counted(x)
    ensures Ink(Concat(x.half)) && Mapped(Concat(x.half)) == Concat(x.half) && Blank(x.gap)
    ensures x.half == [] ==> Concat(x.half) == "" && x.gap == "" && RawOf(x).pm == None
    ensures x.half != [] ==> IsHalf(Concat(x.half)) && RawOf(x).pm == Some(IsPm(Concat(x.half)))
  {
    if x.half != [] {
      var h := x.half;
      forall i | 0 <= i < 2 ensures Fits(HALF[i], h[i]) {
        AllFitAt(HALF, h, i);
      }
      ConcatTwo(h);
      OfAt(Half, h[0], 0);
      OfAt(M, h[1], 0);
      assert h[0] == [h[0][0]] && (h[0] == "P" <==> h[0][0] == 'P') && (h[0] == "p" <==> h[0][0] == 'p');
    }
  }

  lemma MappedInk(s: string)
    requires Ink(s)
    ensures Ink(Mapped(s))
  {}

  lemma PartsAreTight(a: string, middle: string, c: string)
    requires Ink(a) && a != "" && Ink(c) && c != ""
    ensures Tight(a + middle + c)
  {}

  lemma CleanedParts(a: string, gap: string, b: string, gap2: string, c: string)
    requires Ink(a) && Ink(b) && Ink(c) && a != "" && b != "" && Blank(gap) && Blank(gap2) && (c == "" ==> gap2 == "")
    ensures AllSlashed(Clean(a + (gap + (b + (gap2 + c))))) == Mapped(a) + (Mapped(gap) + (Mapped(b) + (Mapped(gap2) + Mapped(c))))
    ensures Ink(Mapped(a)) && Blank(Mapped(gap)) && Blank(Mapped(gap2)) && |Mapped(gap)| == |gap| && |Mapped(gap2)| == |gap2|
  {
    hide IsSpace, IsBidi, Clean, AllSlashed, Mapped, Tight;
    var s := a + (gap + (b + (gap2 + c)));
    MappedBlank(gap);
    MappedBlank(gap2);
    MappedInk(a);
    assert forall i | 0 <= i < |s| :: !IsBidi(s[i]);
    if c == "" {
      PartsAreTight(a, gap, b);
      assert s == a + gap + b;
    } else {
      PartsAreTight(a, gap + b + gap2, c);
      assert s == a + (gap + b + gap2) + c;
    }
    CleanedIsMapped(s);
    MappedConcat(a, gap + (b + (gap2 + c)));
    MappedConcat(gap, b + (gap2 + c));
    MappedConcat(b, gap2 + c);
    MappedConcat(gap2, c);
    MappedLength(gap);
    MappedLength(gap2);
  }

  lemma MappedLength(s: string)
    ensures |Mapped(s)| == |s|
  {}

  /** What the substitutions make of the parts of a timestamp. */
  lemma NormalisedParts(a: string, gap: string, b: string, gap2: string, c: string)
    requires Ink(a) && Ink(b) && Ink(c) && a != "" && b != "" && Mapped(b) == b && Mapped(c) == c && IsDigit(b[|b| - 1])
    requires gap != "" && Blank(gap) && Blank(gap2) && (if c == "" then gap2 == "" else IsHalf(c))
    ensures NormTs(a + (gap + (b + (gap2 + c)))) == Mapped(a) + (" " + b) + (if c == "" then "" else " " + HalfName(IsPm(c)))
  {
    hide Ink, Blank, IsSpace, IsBidi, Squeeze, MarkHalf, Mapped, IsHalf, IsPm, Clean, AllSlashed, HalfName;
    CleanedParts(a, gap, b, gap2, c);
    SqueezedParts(Mapped(a), Mapped(gap), b, Mapped(gap2), c);
    var front := Mapped(a) + (" " + b);
    if c == "" {
      assert front == Mapped(a) + (" " + (b + ("" + c)));
      NoHalf(front);
    } else {
      var space := if gap2 == "" then "" else " ";
      assert Mapped(a) + (" " + (b + (space + c))) == front + (space + c);
      DigitIsNoSpace(front[|front| - 1]);
      MarkedHalf(front, space, c);
    }
  }

  lemma LaidOut(date: string, comma: string, clock: string, half: string)
    ensures date + comma + (" " + clock) + half == date + (comma + (" " + (clock + half)))
  {}

  /** What `strptime` gets of a header: the captured fields, laid out as the formats ask for them. */
  lemma NormalisedIsLaidOut(x: Header)
    requires IsHeader(x)
    ensures Counted(x) && NormTs(StampText(x)) == Layout(RawOf(x))
  {
    hide IsHeader, Ink, Blank, IsSpace, IsBidi, In, NormTs, Counted, Mapped, IsHalf, IsPm, HalfName, Clock, Comma, Concat;
    HeaderIsCounted(x);
    DatePart(x);
    ClockPart(x);
    HalfPart(x);
    var r := RawOf(x);
    var a, gap, b, gap2, c := Concat(x.date) + Comma(x.comma), x.time[0], Clock(r), x.gap, Concat(x.half);
    assert StampText(x) == a + (gap + (b + (gap2 + c)));
    assert x.half == [] <==> c == "" by {
      if x.half != [] {
        HalfIsNotEmpty(c);
      }
    }
    NormalisedParts(a, gap, b, gap2, c);
    LaidOut(r.a + "/" + r.b + "/" + r.year, Comma(r.comma), b, HalfEnd(r));
  }

  lemma HalfIsNotEmpty(s: string)
    ensures IsHalf(s) ==> s != ""
  {}

  lemma DigitIsNoSpace(c: char)
    ensures IsDigit(c) ==> !IsSpace(c)
  {}

  // ---- `strptime` on the text -------------------------------------------------------------

  predicate Digits(s: string) {
    s != "" && Of(Digit, s)
  }

  predicate Digital(r: Raw) {
    Digits(r.a) && Digits(r.b) && Digits(r.year) && Digits(r.hour) && Digits(r.minute) && (r.second.Some? ==> Digits(r.second.value))
  }

  /** The text is laid out from runs of digits that the format takes for the time. */
  ghost predicate Accepts(dayFirst: bool, f: Format, text: string, t: Stamp) {
    exists r :: Digital(r) && Layout(r) == text && Strptime(dayFirst, f, r) == Some(t)
  }

  ghost function StrptimeText(dayFirst: bool, f: Format, text: string): Option<Stamp> {
    if t :| Accepts(dayFirst, f, text, t) then Some(t) else None
  }

  /** `_TsParser.parse` without its lock, on the normalised text. */
  ghost function LadderText(dayFirst: bool, formats: seq<Format>, text: string): Option<Stamp> {
    if formats == [] then None
    else if StrptimeText(dayFirst, formats[0], text).Some? then StrptimeText(dayFirst, formats[0], text)
    else LadderText(dayFirst, formats[1..], text)
  }

  lemma DigitsThen(a: string, s: string, b: string, t: string)
    requires Digits(a) && Digits(b) && Stops(Digit, s) && Stops(Digit, t) && a + s == b + t
    ensures a == b && s == t
  {
    TakeExactly(Digit, a, s);
    TakeExactly(Digit, b, t);
    assert (a + s)[|a|..] == s && (b + t)[|b|..] == t;
  }

  lemma ClockFromTheLeft(hour: string, minute: string, second: string, half: string)
    ensures hour + ":" + minute + second + half == hour + (":" + (minute + (second + half)))
  {
    assert minute + (second + half) == minute + second + half;
    assert ":" + (minute + (second + half)) == ":" + minute + second + half;
  }

  lemma SixFromTheLeft(a: string, b: string, c: string, d: string, e: string, f: string)
    ensures a + b + c + d + e + f == a + (b + (c + (d + (e + f))))
  {
    assert e + f == e + f && d + (e + f) == d + e + f;
    assert c + (d + (e + f)) == c + d + e + f;
    assert b + (c + (d + (e + f))) == b + c + d + e + f;
  }

  lemma LayoutFromTheLeft(r: Raw)
    ensures Layout(r) == r.a + ("/" + (r.b + ("/" + (r.year + AfterDate(r)))))
  {
    SixFromTheLeft(r.a, "/", r.b, "/", r.year, AfterDate(r));
  }

  lemma SameHalf(r: Raw, s: Raw)
    requires HalfEnd(r) == HalfEnd(s)
    ensures r.pm == s.pm
  {
    var x, y := HalfEnd(r), HalfEnd(s);
    assert x != "" ==> x[1] == (if r.pm.value then 'P' else 'A');
    assert y != "" ==> y[1] == (if s.pm.value then 'P' else 'A');
  }

  function EndOf(r: Raw): string {
    SecondEnd(r) + HalfEnd(r)
  }

  lemma EndShowsTheSeconds(r: Raw)
    ensures EndOf(r) != "" && EndOf(r)[0] == ':' <==> r.second.Some?
    ensures if r.second.Some? then EndOf(r)[1..] == r.second.value + HalfEnd(r) else EndOf(r) == HalfEnd(r)
    ensures Stops(Digit, HalfEnd(r))
  {
    hide HalfName;
    var end := EndOf(r);
    if r.second.Some? {
      assert end == ":" + r.second.value + HalfEnd(r);
    } else {
      assert end == HalfEnd(r);
    }
  }

  lemma SameEnd(r: Raw, s: Raw)
    requires Digital(r) && Digital(s) && EndOf(r) == EndOf(s)
    ensures r.second == s.second && r.pm == s.pm
  {
    hide Digits, HalfEnd, EndOf, Stops;
    EndShowsTheSeconds(r);
    EndShowsTheSeconds(s);
    if r.second.Some? {
      DigitsThen(r.second.value, HalfEnd(r), s.second.value, HalfEnd(s));
    }
    SameHalf(r, s);
  }

  lemma SameAfterDate(r: Raw, s: Raw)
    requires Digital(r) && Digital(s) && AfterDate(r) == AfterDate(s)
    ensures r.comma == s.comma && r.hour == s.hour && r.minute == s.minute && EndOf(r) == EndOf(s)
  {
    hide Digits, SecondEnd, HalfEnd;
    assert AfterDate(r)[0] == (if r.comma then ',' else ' ') && AfterDate(s)[0] == (if s.comma then ',' else ' ');
    var n := |Comma(r.comma)| + 1;
    assert AfterDate(r)[n..] == Clock(r) + HalfEnd(r) && AfterDate(s)[n..] == Clock(s) + HalfEnd(s);
    var x, y := EndOf(r), EndOf(s);
    ClockFromTheLeft(r.hour, r.minute, SecondEnd(r), HalfEnd(r));
    ClockFromTheLeft(s.hour, s.minute, SecondEnd(s), HalfEnd(s));
    DigitsThen(r.hour, ":" + (r.minute + x), s.hour, ":" + (s.minute + y));
    assert (":" + (r.minute + x))[1..] == r.minute + x && (":" + (s.minute + y))[1..] == s.minute + y;
    EndIsNoDigit(r);
    EndIsNoDigit(s);
    DigitsThen(r.minute, x, s.minute, y);
  }

  lemma EndIsNoDigit(r: Raw)
    ensures Stops(Digit, EndOf(r))
  {}

  /** A layout has one reading. */
  lemma LayoutIsInjective(r: Raw, s: Raw)
    requires Digital(r) && Digital(s) && Layout(r) == Layout(s)
    ensures r == s
  {
    hide Digits, AfterDate, Layout;
    LayoutFromTheLeft(r);
    LayoutFromTheLeft(s);
    var r2, s2 := r.year + AfterDate(r), s.year + AfterDate(s);
    var r1, s1 := r.b + ("/" + r2), s.b + ("/" + s2);
    DigitsThen(r.a, "/" + r1, s.a, "/" + s1);
    assert ("/" + r1)[1..] == r1 && ("/" + s1)[1..] == s1;
    DigitsThen(r.b, "/" + r2, s.b, "/" + s2);
    assert ("/" + r2)[1..] == r2 && ("/" + s2)[1..] == s2;
    AfterDateIsNoDigit(r);
    AfterDateIsNoDigit(s);
    DigitsThen(r.year, AfterDate(r), s.year, AfterDate(s));
    SameAfterDate(r, s);
    SameEnd(r, s);
  }

  lemma AfterDateIsNoDigit(r: Raw)
    ensures Stops(Digit, AfterDate(r))
  {}

  lemma HeaderIsDigital(x: Header)
    requires IsHeader(x) && Counted(x)
    ensures Digital(RawOf(x))
  {
    hide In;
    forall i | 0 <= i < 5 ensures Fits(DATE[i], x.date[i]) {
      AllFitAt(DATE, x.date, i);
    }
    forall i | 0 <= i < 4 ensures Fits(TIME[i], x.time[i]) {
      AllFitAt(TIME, x.time, i);
    }
    if x.seconds != [] {
      AllFitAt(SECONDS, x.seconds, 1);
    }
  }

  /** On the text of a header, each format says what it says of the captured fields. */
  lemma TextReadsAsItsFields(dayFirst: bool, f: Format, x: Header)
    requires IsHeader(x)
    ensures Counted(x) && StrptimeText(dayFirst, f, NormTs(StampText(x))) == Strptime(dayFirst, f, RawOf(x))
  {
    hide IsHeader, Counted, NormTs, StampText, Strptime, Layout, Digital;
    HeaderIsCounted(x);
    NormalisedIsLaidOut(x);
    HeaderIsDigital(x);
    var text, r := NormTs(StampText(x)), RawOf(x);
    forall t ensures Accepts(dayFirst, f, text, t) <==> Strptime(dayFirst, f, r) == Some(t) {
      if Accepts(dayFirst, f, text, t) {
        var s :| Digital(s) && Layout(s) == text && Strptime(dayFirst, f, s) == Some(t);
        LayoutIsInjective(r, s);
      }
    }
  }

  lemma {:induction false} LadderReadsAsItsFields(dayFirst: bool, formats: seq<Format>, x: Header)
    requires IsHeader(x)
    ensures Counted(x) && LadderText(dayFirst, formats, NormTs(StampText(x))) == Ladder(dayFirst, formats, RawOf(x))
  {
    hide IsHeader, Counted, NormTs, StampText, Strptime, StrptimeText;
    HeaderIsCounted(x);
    if formats != [] {
      TextReadsAsItsFields(dayFirst, formats[0], x);
      LadderReadsAsItsFields(dayFirst, formats[1..], x);
    }
  }

  /** Parsing is the inverse of printing on the text itself: whatever the separators, the spaces and the
      case of AM and PM, the captured timestamp of a header reads as a time exactly when its digits spell it. */
  lemma StampTextParsesExactlyWhatIsPrinted(dayFirst: bool, x: Header, t: Stamp)
    requires IsHeader(x)
    ensures Counted(x) && (LadderText(dayFirst, FORMATS, NormTs(StampText(x))) == Some(t) <==> Prints(dayFirst, t, RawOf(x)))
  {
    hide IsHeader, Counted, NormTs, StampText, LadderText, Prints;
    LadderReadsAsItsFields(dayFirst, FORMATS, x);
    ParsesExactlyWhatIsPrinted(dayFirst, t, RawOf(x));
  }

  /** The date pattern, searched for in the text, finds the two numbers that detection counts. */
  lemma DatePatternReadsTheFields(x: Header)
    requires IsHeader(x)
    ensures Counted(x)
    ensures var m, r := Match(DATE, NormTs(StampText(x))), RawOf(x); m.Some? && m.value.pieces == [r.a, "/", r.b, "/", r.year]
  {
    hide IsHeader, Counted, NormTs, StampText, AfterDate, Match, AllFit, Concat, Stops;
    HeaderIsCounted(x);
    NormalisedIsLaidOut(x);
    var r := RawOf(x);
    var pieces := [r.a, "/", r.b, "/", r.year];
    DateFits(x);
    ConcatFive(pieces);
    AfterDateIsNoDigit(r);
    DateIsAChain();
    MatchIsExact(DATE, Layout(r), Split(pieces, AfterDate(r)));
  }

  lemma DateIsAChain()
    ensures Chain(DATE)
  {}

  lemma {:induction false} FitsMakeAllFit(items: seq<Item>, pieces: seq<string>)
    requires |items| == |pieces| && forall i | 0 <= i < |items| :: Fits(items[i], pieces[i])
    ensures AllFit(items, pieces)
  {
    hide Fits;
    if items != [] {
      FitsMakeAllFit(items[1..], pieces[1..]);
    }
  }

  lemma DateFits(x: Header)
    requires IsHeader(x) && Counted(x)
    ensures var r := RawOf(x); AllFit(DATE, [r.a, "/", r.b, "/", r.year])
  {
    var r := RawOf(x);
    forall i | 0 <= i < 5 ensures Fits(DATE[i], [r.a, "/", r.b, "/", r.year][i]) {
      AllFitAt(DATE, x.date, i);
    }
    FitsMakeAllFit(DATE, [r.a, "/", r.b, "/", r.year]);
  }
}
