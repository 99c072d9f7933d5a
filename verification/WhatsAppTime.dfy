/** Timestamps of a WhatsApp export (engine/app/intake/whatsapp_export.py:64-131). */
module WhatsAppTime {
  // One date order for the file, and a ladder of time formats with the last one that worked tried first. A
  // timestamp is given by the fields that the header pattern captures; digits are ASCII.

  import opened Options
  import opened Text

  /** The number that the digits spell. */
  function Number(s: string): nat {
    if s == "" then 0
    else 10 * Number(s[..|s| - 1]) + if IsDigit(s[|s| - 1]) then s[|s| - 1] as int - '0' as int else 0
  }

  /** Two numbers of a date, its year, whether a comma follows, and the time; `pm` is None on a 24-hour clock. */
  datatype Raw = Raw(a: string, b: string, year: string, comma: bool, hour: string, minute: string, second: Option<string>, pm: Option<bool>)

  datatype Stamp = Stamp(year: nat, month: nat, day: nat, hour: nat, minute: nat, second: nat)

  /** A rung of the ladder: four or two digits for the year, a 12-hour clock or not, seconds or not. */
  datatype Format = Format(longYear: bool, half: bool, seconds: bool)

  /** `_formats_for`: the date order is fixed apart. */
  const FORMATS: seq<Format> := [
    Format(true, false, true), Format(true, false, false), Format(true, true, true), Format(true, true, false),
    Format(false, false, true), Format(false, false, false), Format(false, true, true), Format(false, true, false)]

  // ---- strptime -----------------------------------------------------------------------------

  /** A field of one or two digits in a range. */
  function Field(s: string, lo: nat, hi: nat): Option<nat> {
    if 1 <= |s| <= 2 && lo <= Number(s) <= hi then Some(Number(s)) else None
  }

  /** %Y and %y; the two-digit years from 69 on are of the last century. */
  function Year(long: bool, s: string): Option<nat> {
    if long then (if |s| == 4 && Number(s) >= 1 then Some(Number(s)) else None)
    else if |s| != 2 then None
    else if Number(s) < 69 then Some(2000 + Number(s)) else Some(1900 + Number(s))
  }

  predicate IsLeap(year: nat) {
    year % 4 == 0 && (year % 100 != 0 || year % 400 == 0)
  }

  function DaysIn(year: nat, month: nat): nat {
    if month == 2 then (if IsLeap(year) then 29 else 28)
    else if month in {4, 6, 9, 11} then 30 else 31
  }

  /** %H, or %I with %p. */
  function Hour(half: bool, hour: string, pm: Option<bool>): Option<nat> {
    if half then
      var h := Field(hour, 1, 12);
      if h.None? || pm.None? then None else Some(h.value % 12 + if pm.value then 12 else 0)
    else if pm.Some? then None
    else Field(hour, 0, 23)
  }

  function Second(seconds: bool, second: Option<string>): Option<nat> {
    if seconds then (if second.Some? then Field(second.value, 0, 59) else None)
    else if second.Some? then None
    else Some(0)
  }

  function Date(year: Option<nat>, month: Option<nat>, day: Option<nat>): Option<(nat, nat, nat)> {
    if year.Some? && month.Some? && day.Some? && day.value <= DaysIn(year.value, month.value)
    then Some((year.value, month.value, day.value)) else None
  }

  /** `strptime` with one format of the fixed date order. */
  function Strptime(dayFirst: bool, f: Format, r: Raw): Option<Stamp> {
    var date := Date(Year(f.longYear, r.year), Field(if dayFirst then r.b else r.a, 1, 12), Field(if dayFirst then r.a else r.b, 1, 31));
    var hour, minute, second := Hour(f.half, r.hour, r.pm), Field(r.minute, 0, 59), Second(f.seconds, r.second);
    if r.comma && date.Some? && hour.Some? && minute.Some? && second.Some?
    then Some(Stamp(date.value.0, date.value.1, date.value.2, hour.value, minute.value, second.value)) else None
  }

  /** The first format that accepts. */
  function Ladder(dayFirst: bool, formats: seq<Format>, r: Raw): Option<Stamp> {
    if formats == [] then None
    else if Strptime(dayFirst, formats[0], r).Some? then Strptime(dayFirst, formats[0], r)
    else Ladder(dayFirst, formats[1..], r)
  }

  /** The shape of a timestamp admits one format. */
  function Shape(r: Raw): Format {
    Format(|r.year| == 4, r.pm.Some?, r.second.Some?)
  }

  lemma AcceptsOnlyItsShape(dayFirst: bool, f: Format, r: Raw)
    requires Strptime(dayFirst, f, r).Some?
    ensures f == Shape(r)
  {}

  lemma ShapeIsAFormat(r: Raw)
    ensures Shape(r) in FORMATS
  {
    var f := Shape(r);
    var k := (if f.longYear then 0 else 4) + (if f.half then 2 else 0) + (if f.seconds then 0 else 1);
    assert FORMATS[k] == f;
  }

  lemma {:induction false} LadderIsShape(dayFirst: bool, formats: seq<Format>, r: Raw)
    requires Shape(r) in formats
    ensures Ladder(dayFirst, formats, r) == Strptime(dayFirst, Shape(r), r)
  {
    if Strptime(dayFirst, formats[0], r).Some? {
      AcceptsOnlyItsShape(dayFirst, formats[0], r);
    } else if Shape(r) in formats[1..] {
      LadderIsShape(dayFirst, formats[1..], r);
    } else {
      LadderRefuses(dayFirst, formats[1..], r);
    }
  }

  lemma {:induction false} LadderRefuses(dayFirst: bool, formats: seq<Format>, r: Raw)
    requires Strptime(dayFirst, Shape(r), r).None?
    ensures Ladder(dayFirst, formats, r) == None
  {
    if formats != [] {
      if Strptime(dayFirst, formats[0], r).Some? {
        AcceptsOnlyItsShape(dayFirst, formats[0], r);
      } else {
        LadderRefuses(dayFirst, formats[1..], r);
      }
    }
  }

  /** What a timestamp means under one date order: the plain first-match ladder. */
  function Plain(dayFirst: bool, r: Raw): Option<Stamp> {
    Ladder(dayFirst, FORMATS, r)
  }

  /** At most one format accepts a timestamp, so the order of the ladder does not matter. */
  lemma AnyLadderAgrees(dayFirst: bool, formats: seq<Format>, r: Raw)
    requires forall f | f in FORMATS :: f in formats
    ensures Ladder(dayFirst, formats, r) == Plain(dayFirst, r)
  {
    ShapeIsAFormat(r);
    LadderIsShape(dayFirst, formats, r);
    LadderIsShape(dayFirst, FORMATS, r);
  }

  lemma LadderAccepts(dayFirst: bool, formats: seq<Format>, r: Raw, k: nat)
    requires k < |formats| && Strptime(dayFirst, formats[k], r).Some?
    requires forall j | 0 <= j < k :: Strptime(dayFirst, formats[j], r).None?
    ensures Ladder(dayFirst, formats, r) == Strptime(dayFirst, formats[k], r)
    decreases k
  {
    if k > 0 {
      LadderAccepts(dayFirst, formats[1..], r, k - 1);
    }
  }

  lemma {:induction false} LadderEnds(dayFirst: bool, formats: seq<Format>, r: Raw)
    requires forall j | 0 <= j < |formats| :: Strptime(dayFirst, formats[j], r).None?
    ensures Ladder(dayFirst, formats, r) == None
  {
    if formats != [] {
      LadderEnds(dayFirst, formats[1..], r);
    }
  }

  /** `_TsParser`. */
  class TsParser {
    const dayFirst: bool
    var locked: Option<Format>

    constructor (dayFirst: bool)
      ensures this.dayFirst == dayFirst && locked == None
    {
      this.dayFirst := dayFirst;
      locked := None;
    }

    /** The locked format never changes an answer. */
    method Parse(r: Raw) returns (t: Option<Stamp>)
      modifies this
      ensures t == Plain(dayFirst, r)
      ensures locked == if t.Some? then Some(Shape(r)) else old(locked)
    {
      var ladder := if locked.Some? then [locked.value] + FORMATS else FORMATS;
      AnyLadderAgrees(dayFirst, ladder, r);
      for k := 0 to |ladder|
        invariant forall j | 0 <= j < k :: Strptime(dayFirst, ladder[j], r).None?
        invariant locked == old(locked)
      {
        t := Strptime(dayFirst, ladder[k], r);
        if t.Some? {
          LadderAccepts(dayFirst, ladder, r, k);
          AcceptsOnlyItsShape(dayFirst, ladder[k], r);
          locked := Some(ladder[k]);
          return;
        }
      }
      LadderEnds(dayFirst, ladder, r);
      t := None;
    }
  }

  // ---- printing -----------------------------------------------------------------------------

  predicate Spells(s: string, n: nat) {
    1 <= |s| <= 2 && Number(s) == n
  }

  predicate SpellsYear(s: string, year: nat) {
    (|s| == 4 && Number(s) == year) || (|s| == 2 && 1969 <= year < 2069 && Number(s) == year % 100)
  }

  predicate SpellsHour(hour: string, pm: Option<bool>, h: nat) {
    if pm.None? then Spells(hour, h)
    else pm.value == (h >= 12) && Spells(hour, if h % 12 == 0 then 12 else h % 12)
  }

  predicate IsDate(t: Stamp) {
    t.year >= 1 && 1 <= t.month <= 12 && 1 <= t.day <= DaysIn(t.year, t.month)
  }

  predicate IsTime(t: Stamp) {
    t.hour < 24 && t.minute < 60 && t.second < 60
  }

  /** The fields spell the time in one of the export's styles: padded or not, two or four digits for the
      year, either clock, with seconds or on the whole minute. */
  predicate Prints(dayFirst: bool, t: Stamp, r: Raw) {
    IsDate(t) && IsTime(t) && r.comma &&
    Spells(if dayFirst then r.a else r.b, t.day) && Spells(if dayFirst then r.b else r.a, t.month) && SpellsYear(r.year, t.year) &&
    SpellsHour(r.hour, r.pm, t.hour) && Spells(r.minute, t.minute) &&
    (if r.second.Some? then Spells(r.second.value, t.second) else t.second == 0)
  }

  lemma {:induction false} NumberBelow(s: string)
    ensures |s| <= 2 ==> Number(s) < 100
  {
    if 1 <= |s| <= 2 {
      var front := s[..|s| - 1];
      assert Number(front) < 10 by {
        if front != "" {
          assert front[..|front| - 1] == "";
        }
      }
    }
  }

  lemma YearParsesExactly(s: string, year: nat)
    ensures Year(|s| == 4, s) == Some(year) <==> year >= 1 && SpellsYear(s, year)
  {
    NumberBelow(s);
  }

  lemma HourParsesExactly(hour: string, pm: Option<bool>, h: nat)
    ensures Hour(pm.Some?, hour, pm) == Some(h) <==> h < 24 && SpellsHour(hour, pm, h)
  {}

  /** Parsing is the inverse of printing, in every style: a timestamp is read as a time exactly when its
      fields spell that time. */
  lemma ParsesExactlyWhatIsPrinted(dayFirst: bool, t: Stamp, r: Raw)
    ensures Plain(dayFirst, r) == Some(t) <==> Prints(dayFirst, t, r)
  {
    ShapeIsAFormat(r);
    LadderIsShape(dayFirst, FORMATS, r);
    YearParsesExactly(r.year, t.year);
    HourParsesExactly(r.hour, r.pm, t.hour);
  }

  /** A timestamp without a comma never parses, though the header pattern accepts it. */
  lemma CommaIsNeeded(dayFirst: bool, r: Raw)
    requires !r.comma
    ensures Plain(dayFirst, r) == None
  {
    ShapeIsAFormat(r);
    LadderIsShape(dayFirst, FORMATS, r);
  }

  // ---- the date order -----------------------------------------------------------------------

  predicate ProvesDayFirst(r: Raw) {
    Number(r.a) > 12 && Number(r.b) <= 12
  }

  predicate ProvesMonthFirst(r: Raw) {
    Number(r.b) > 12 && Number(r.a) <= 12
  }

  function DayEvidence(rs: seq<Raw>): nat {
    if rs == [] then 0 else DayEvidence(rs[..|rs| - 1]) + if ProvesDayFirst(rs[|rs| - 1]) then 1 else 0
  }

  function MonthEvidence(rs: seq<Raw>): nat {
    if rs == [] then 0 else MonthEvidence(rs[..|rs| - 1]) + if ProvesMonthFirst(rs[|rs| - 1]) then 1 else 0
  }

  /** `_detect_day_first`. */
  method DetectDayFirst(rs: seq<Raw>) returns (dayFirst: bool)
    ensures dayFirst <==> MonthEvidence(rs) <= DayEvidence(rs)
  {
    var day, month := 0, 0;
    for i := 0 to |rs|
      invariant day == DayEvidence(rs[..i]) && month == MonthEvidence(rs[..i])
    {
      assert rs[..i + 1][..i] == rs[..i];
      var a, b := Number(rs[i].a), Number(rs[i].b);
      if a > 12 && b <= 12 {
        day := day + 1;
      } else if b > 12 && a <= 12 {
        month := month + 1;
      }
    }
    assert rs[..|rs|] == rs;
    return month <= day;
  }

  /** A file printed in one date order. */
  ghost predicate PrintedFile(dayFirst: bool, ts: seq<Stamp>, rs: seq<Raw>) {
    |ts| == |rs| && forall i | 0 <= i < |ts| :: Prints(dayFirst, ts[i], rs[i])
  }

  ghost predicate SomeDayOver12(ts: seq<Stamp>) {
    exists i | 0 <= i < |ts| :: ts[i].day > 12
  }

  lemma EvidenceOfOne(dayFirst: bool, t: Stamp, r: Raw)
    requires Prints(dayFirst, t, r)
    ensures !(if dayFirst then ProvesMonthFirst(r) else ProvesDayFirst(r))
    ensures (if dayFirst then ProvesDayFirst(r) else ProvesMonthFirst(r)) <==> t.day > 12
  {}

  lemma SomeDayStep(ts: seq<Stamp>, t: Stamp)
    ensures SomeDayOver12(ts + [t]) <==> SomeDayOver12(ts) || t.day > 12
  {
    var all := ts + [t];
    if SomeDayOver12(ts) {
      var i :| 0 <= i < |ts| && ts[i].day > 12;
      assert all[i].day > 12;
    }
    if t.day > 12 {
      assert all[|ts|].day > 12;
    }
  }

  lemma {:induction false} EvidenceOfPrinted(dayFirst: bool, ts: seq<Stamp>, rs: seq<Raw>)
    requires PrintedFile(dayFirst, ts, rs)
    ensures (if dayFirst then MonthEvidence(rs) else DayEvidence(rs)) == 0
    ensures (if dayFirst then DayEvidence(rs) else MonthEvidence(rs)) > 0 <==> SomeDayOver12(ts)
  {
    if ts != [] {
      var n := |ts| - 1;
      EvidenceOfPrinted(dayFirst, ts[..n], rs[..n]);
      EvidenceOfOne(dayFirst, ts[n], rs[n]);
      SomeDayStep(ts[..n], ts[n]);
      assert ts == ts[..n] + [ts[n]];
    }
  }

  /** Detection finds the order of a printed file exactly when the order is day-first or some day is over
      12, and then every timestamp reads back as printed. */
  lemma DetectsTheOrderExactlyWhen(dayFirst: bool, ts: seq<Stamp>, rs: seq<Raw>)
    requires PrintedFile(dayFirst, ts, rs)
    ensures (MonthEvidence(rs) <= DayEvidence(rs)) == dayFirst <==> dayFirst || SomeDayOver12(ts)
    ensures forall i | 0 <= i < |ts| :: Plain(dayFirst, rs[i]) == Some(ts[i])
  {
    EvidenceOfPrinted(dayFirst, ts, rs);
    forall i | 0 <= i < |ts| ensures Plain(dayFirst, rs[i]) == Some(ts[i]) {
      ParsesExactlyWhatIsPrinted(dayFirst, ts[i], rs[i]);
    }
  }
}
